/** The public statistics route (server/routes/stats.js): a pure function of the
    connection state and four collection counts. */
module Stats {

  datatype SiteStats = SiteStats(
    events: nat, members: nat, teamMembers: nat, galleryImages: nat, partners: nat, years: nat)

  /** The four counts the route asks for: all events, the memberships whose
      status is `approved`, all team members and all gallery items. */
  datatype Counts = Counts(events: nat, approvedMembers: nat, teamMembers: nat, galleryImages: nat)

  /** The database as the route sees it: not connected, or connected and either
      answering the four counts or throwing. */
  datatype CountSource = Offline | Answered(counts: Counts) | CountFailed(error: string)

  const FallbackMembers := 500
  const Partners := 50
  const Years := 5

  /** The answer when the database is unavailable. */
  const Defaults := SiteStats(0, FallbackMembers, 0, 0, Partners, Years)

  /** `GET /stats`. */
  function SiteStatsFor(db: CountSource): (s: SiteStats)
    ensures !db.Answered? ==> s == SiteStats(0, 500, 0, 0, 50, 5)
    ensures db.Answered? ==>
      s.events == db.counts.events && s.teamMembers == db.counts.teamMembers &&
      s.galleryImages == db.counts.galleryImages
    ensures db.Answered? && db.counts.approvedMembers != 0 ==> s.members == db.counts.approvedMembers
    ensures db.Answered? && db.counts.approvedMembers == 0 ==> s.members == 500
    ensures s.members > 0 && s.partners == 50 && s.years == 5
  {
    match db
    case Offline => Defaults
    case CountFailed(_) => Defaults
    case Answered(c) =>
      SiteStats(
        c.events,
        if c.approvedMembers != 0 then c.approvedMembers else FallbackMembers,
        c.teamMembers,
        c.galleryImages,
        Partners,
        Years)
  }

  /** A failed count and a lost connection are indistinguishable to a caller.
      A connected answer equals the defaults exactly when the events, team and
      gallery totals are all zero and the approved members are either 0 (the
      member count falling back to 500) or exactly 500. */
  lemma FallbacksAgree(error: string, c: Counts)
    ensures SiteStatsFor(CountFailed(error)) == SiteStatsFor(Offline)
    ensures SiteStatsFor(Answered(c)) == SiteStatsFor(Offline) <==>
      c.events == 0 && c.teamMembers == 0 && c.galleryImages == 0 &&
      (c.approvedMembers == 0 || c.approvedMembers == 500)
  {
  }
}
