/** The organisation's monthly cost of network downtime. */
module Downtime {

  /** Monthly downtime cost: issues per month times the cost of one issue,
      where an issue costs its duration in hours times the combined hourly
      cost of the affected users and of IT. */
  function DowntimeCost(userCost: real, itCost: real, issueFrequency: real, issueMinutes: real): (cost: real)
    ensures 0.0 <= userCost && 0.0 <= itCost && 0.0 <= issueFrequency && 0.0 <= issueMinutes ==> 0.0 <= cost
    ensures issueFrequency == 0.0 || issueMinutes == 0.0 || userCost + itCost == 0.0 ==> cost == 0.0
  {
    var hourly := userCost + itCost;
    var perIssue := (issueMinutes / 60.0) * hourly;
    issueFrequency * perIssue
  }

  /** The cost is the number of downtime hours per month times the hourly cost. */
  lemma DowntimeCostIsHoursTimesRate(userCost: real, itCost: real, issueFrequency: real, issueMinutes: real)
    ensures DowntimeCost(userCost, itCost, issueFrequency, issueMinutes) * 60.0
         == issueFrequency * issueMinutes * (userCost + itCost)
  {
  }

  /** The worked example: 4 issues of 36 minutes at 200 + 111 per hour. */
  lemma LegalExample()
    ensures DowntimeCost(200.0, 111.0, 4.0, 36.0) == 746.4
  {
  }
}
