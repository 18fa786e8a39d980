/** The column rules of the user segmentation queries: the `tiers` CASE, the
    `domain` IFF, the `status` CASE over `MICROSERVICES:enableHttp`, and the
    `coalesce(u.subdomain, 'na')` of the audit-analysis query. */
module Segmentation {
  import opened Sql
  import Rollout

  const InternalTier: string := "internal"
  const FreeTier: string := "free"

  /** `CASE WHEN u.emaildomain='celigo.com' THEN 'internal'
           WHEN nc.customer_segment = '' THEN 'free'
           ELSE nc.customer_segment END`
      The segment is NULL when the customer join found no row. */
  function SegmentTier(emailDomain: Option<string>, segment: Option<string>): (r: Option<string>)
    ensures emailDomain == Some(Rollout.InternalDomain) ==> r == Some(InternalTier)
    ensures emailDomain != Some(Rollout.InternalDomain) && segment == Some("") ==> r == Some(FreeTier)
    ensures emailDomain != Some(Rollout.InternalDomain) && segment != Some("") ==> r == segment
    ensures r != Some("")
    ensures r.None? <==> emailDomain != Some(Rollout.InternalDomain) && segment.None?
  {
    if Eq(emailDomain, Some(Rollout.InternalDomain)) == True then Some(InternalTier)
    else if Eq(segment, Some("")) == True then Some(FreeTier)
    else segment
  }

  /** `IFF(u.subdomain is null, 'NA', 'EU')`: `IS NULL` is never unknown, so
      every user lands in exactly one of the two regions. */
  function Region(subdomain: Option<string>): (r: string)
    ensures r == "NA" || r == "EU"
    ensures r == "NA" <==> subdomain.None?
  {
    if subdomain.None? then "NA" else "EU"
  }

  /** `CASE WHEN enableHttp IS NULL OR enableHttp = 'false' THEN 'false'
           ELSE enableHttp END` */
  function HttpStatus(enableHttp: Option<string>): (r: string)
    ensures r == "false" <==> enableHttp.None? || enableHttp == Some("false")
    ensures enableHttp.Some? ==> r == enableHttp.value
  {
    if Or(IsNull(enableHttp), Eq(enableHttp, Some("false"))) == True then "false"
    else enableHttp.value
  }

  /** `coalesce(u.subdomain, 'na')`: never NULL, and "na" stands both for a
      missing subdomain and for one literally named "na". */
  function SubdomainOrNa(subdomain: Option<string>): (r: string)
    ensures r == "na" <==> subdomain.None? || subdomain == Some("na")
    ensures subdomain.Some? ==> r == subdomain.value
  {
    Coalesce(subdomain, "na")
  }
}
