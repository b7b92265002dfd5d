/** Source-reported event revisions, as app/events/revisions.py records them. */
module Events {
  import opened Basics

  datatype EventStatus = Open | Updated | Resolved | Superseded | Withdrawn

  datatype Authority = SystemWarning | AuthoritativeNotice | OtherReported

  /** Instants are UTC microseconds; text that only matters up to equality stays text. */
  datatype Revision = Revision(
    eventId: string, revision: int, status: EventStatus, publishedAt: int,
    effectiveStart: Option<int>, effectiveEnd: Option<int>, authority: Authority,
    assetId: Option<string>, assetName: Option<string>, assetIdentityReliable: bool,
    unavailableMw: Option<real>, normalCapacityMw: Option<real>, planned: Option<bool>,
    reportedCause: Option<string>, evidenceChecksum: string, materialReason: Option<string>,
    supersededBy: Option<string>, sourceRecordIds: seq<string>)

  predicate Terminal(s: EventStatus) {
    s.Resolved? || s.Superseded? || s.Withdrawn?
  }
}
