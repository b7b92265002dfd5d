/** Stored forecast vintages and outturns, horizon buckets, and the choice of
    one correction each, from app/forecast_verification/core.py. */
module Vintages {
  import opened Basics
  import opened Sorting
  import Text

  const HOUR := 3_600_000_000

  datatype Bucket = Zero_3h | Three_12h | Twelve_24h | TwentyFour_48h

  /** In the order the source enumerates them. */
  const BUCKETS: seq<Bucket> := [Zero_3h, Three_12h, Twelve_24h, TwentyFour_48h]

  function Minimum(b: Bucket): int {
    match b case Zero_3h => 0 case Three_12h => 3 case Twelve_24h => 12 case TwentyFour_48h => 24
  }

  function Maximum(b: Bucket): int {
    match b case Zero_3h => 3 case Three_12h => 12 case Twelve_24h => 24 case TwentyFour_48h => 48
  }

  function Index(b: Bucket): int {
    match b case Zero_3h => 0 case Three_12h => 1 case Twelve_24h => 2 case TwentyFour_48h => 3
  }

  predicate Contains(b: Bucket, lead: int) {
    || Minimum(b) * HOUR <= lead < Maximum(b) * HOUR
    || (b == TwentyFour_48h && lead == Maximum(b) * HOUR)
  }

  /** The first bucket of the enumeration that contains the lead. */
  function BucketFor(lead: int): Option<Bucket> {
    if Contains(Zero_3h, lead) then Some(Zero_3h)
    else if Contains(Three_12h, lead) then Some(Three_12h)
    else if Contains(Twelve_24h, lead) then Some(Twelve_24h)
    else if Contains(TwentyFour_48h, lead) then Some(TwentyFour_48h)
    else None
  }

  /** The buckets partition the leads from 0 to 48 hours, both ends included. */
  lemma BucketsPartition(lead: int, a: Bucket, b: Bucket)
    ensures BucketFor(lead).Some? <==> 0 <= lead <= 48 * HOUR
    ensures Contains(a, lead) && Contains(b, lead) ==> a == b
    ensures Contains(a, lead) <==> BucketFor(lead) == Some(a)
    ensures a in BUCKETS
  {
    assert BUCKETS[Index(a)] == a;
  }

  datatype Basis = SourcePublished | CaptureTime

  datatype Forecast = Forecast(
    observationId: string, validFrom: int, issuedAt: int, capturedAt: int, value: real, revision: nat)

  datatype Outturn = Outturn(observationId: string, observedAt: int, retrievedAt: int, value: real, revision: nat)

  function Vintage(f: Forecast, basis: Basis): int {
    match basis case SourcePublished => f.issuedAt case CaptureTime => f.capturedAt
  }

  function Lead(f: Forecast, basis: Basis): int {
    f.validFrom - Vintage(f, basis)
  }

  /** Valid time and vintage: what is one forecast, whatever its corrections. */
  function Key(f: Forecast, basis: Basis): (int, int) {
    (f.validFrom, Vintage(f, basis))
  }

  predicate Stored(f: Forecast, lo: int, hi: int, basis: Basis) {
    lo <= f.validFrom < hi && Vintage(f, basis) <= f.validFrom
  }

  /** The tuple comparison of corrections: revision, capture time, observation id. */
  predicate Outranks(a: Forecast, b: Forecast) {
    if a.revision != b.revision then a.revision > b.revision
    else if a.capturedAt != b.capturedAt then a.capturedAt > b.capturedAt
    else Text.Less(b.observationId, a.observationId)
  }

  lemma OutranksChains(a: Forecast, b: Forecast, c: Forecast)
    requires !Outranks(a, b) && Outranks(c, b)
    ensures !Outranks(a, c)
  {
    Text.LeTotal(a.observationId, b.observationId);
    if Outranks(a, c) && a.revision == c.revision && a.capturedAt == c.capturedAt {
      Text.LeTransitive(b.observationId, c.observationId, a.observationId);
      if a.observationId == b.observationId {
        Text.LeAntisymmetric(a.observationId, c.observationId);
      }
    }
  }

  /** What the dictionary of latest corrections holds after reading `read`. */
  ghost predicate Latest(read: seq<Forecast>, latest: map<(int, int), Forecast>, lo: int, hi: int, basis: Basis) {
    && (forall k :: k in latest ==> latest[k] in read && Stored(latest[k], lo, hi, basis) && Key(latest[k], basis) == k)
    && (forall f :: f in read && Stored(f, lo, hi, basis) ==>
      Key(f, basis) in latest && !Outranks(f, latest[Key(f, basis)]))
  }

  lemma NotSelfOutranking(f: Forecast)
    ensures !Outranks(f, f)
  {}

  lemma LatestStep(read: seq<Forecast>, latest: map<(int, int), Forecast>, lo: int, hi: int, basis: Basis, f: Forecast)
    requires Latest(read, latest, lo, hi, basis) && Stored(f, lo, hi, basis)
    requires Key(f, basis) in latest ==> Outranks(f, latest[Key(f, basis)])
    ensures Latest(read + [f], latest[Key(f, basis) := f], lo, hi, basis)
  {
    NotSelfOutranking(f);
    var next := latest[Key(f, basis) := f];
    forall x | x in read + [f] && Stored(x, lo, hi, basis)
      ensures Key(x, basis) in next && !Outranks(x, next[Key(x, basis)])
    {
      if x in read && Key(x, basis) == Key(f, basis) {
        OutranksChains(x, latest[Key(f, basis)], f);
      }
    }
  }

  method LatestCorrections(forecasts: seq<Forecast>, lo: int, hi: int, basis: Basis)
    returns (latest: map<(int, int), Forecast>, order: seq<(int, int)>)
    ensures Latest(forecasts, latest, lo, hi, basis)
    ensures NoDuplicates(order) && forall k :: k in order <==> k in latest
  {
    latest, order := map[], [];
    for i := 0 to |forecasts|
      invariant Latest(forecasts[..i], latest, lo, hi, basis)
      invariant NoDuplicates(order) && forall k :: k in order <==> k in latest
    {
      var f := forecasts[i];
      assert forecasts[..i + 1] == forecasts[..i] + [f];
      if Stored(f, lo, hi, basis) {
        var identity := Key(f, basis);
        if identity !in latest || Outranks(f, latest[identity]) {
          LatestStep(forecasts[..i], latest, lo, hi, basis, f);
          if identity !in latest {
            order := order + [identity];
          }
          latest := latest[identity := f];
        }
      }
    }
    assert forecasts[..|forecasts|] == forecasts;
  }

  // ------------------------------------------------------------------
  // Selected vintages
  // ------------------------------------------------------------------

  datatype Pick = Pick(bucket: Bucket, forecast: Forecast)

  predicate InScope(f: Forecast, lo: int, hi: int, basis: Basis) {
    Stored(f, lo, hi, basis) && Lead(f, basis) <= 48 * HOUR
  }

  /** The in-window identities with a lead from 0 to 48 hours. */
  function Identities(forecasts: seq<Forecast>, lo: int, hi: int, basis: Basis): set<(int, int)> {
    set f | f in forecasts && InScope(f, lo, hi, basis) :: Key(f, basis)
  }

  /** Selection order: bucket, valid time, vintage, revision, observation id. */
  predicate PickLe(a: Pick, b: Pick, basis: Basis) {
    if a.bucket != b.bucket then Index(a.bucket) < Index(b.bucket)
    else if a.forecast.validFrom != b.forecast.validFrom then a.forecast.validFrom < b.forecast.validFrom
    else if Vintage(a.forecast, basis) != Vintage(b.forecast, basis)
    then Vintage(a.forecast, basis) < Vintage(b.forecast, basis)
    else if a.forecast.revision != b.forecast.revision then a.forecast.revision < b.forecast.revision
    else Text.Le(a.forecast.observationId, b.forecast.observationId)
  }

  function PickOrder(basis: Basis): (Pick, Pick) -> bool {
    (a, b) => PickLe(a, b, basis)
  }

  lemma PickOrderTotal(basis: Basis)
    ensures TotalPreorder(PickOrder(basis))
  {
    var le := PickOrder(basis);
    forall x, y ensures le(x, y) || le(y, x) {
      Text.LeTotal(x.forecast.observationId, y.forecast.observationId);
    }
    forall x, y, z | le(x, y) && le(y, z) ensures le(x, z) {
      if Text.Le(x.forecast.observationId, y.forecast.observationId)
        && Text.Le(y.forecast.observationId, z.forecast.observationId) {
        Text.LeTransitive(x.forecast.observationId, y.forecast.observationId, z.forecast.observationId);
      }
    }
  }

  ghost predicate Chosen(p: Pick, forecasts: seq<Forecast>, lo: int, hi: int, basis: Basis) {
    && p.forecast in forecasts && InScope(p.forecast, lo, hi, basis) && Contains(p.bucket, Lead(p.forecast, basis))
    && (forall f :: f in forecasts && Stored(f, lo, hi, basis) && Key(f, basis) == Key(p.forecast, basis) ==>
      !Outranks(f, p.forecast))
  }

  ghost predicate DistinctKeys(picks: seq<Pick>, basis: Basis) {
    forall i, j :: 0 <= i < j < |picks| ==> Key(picks[i].forecast, basis) != Key(picks[j].forecast, basis)
  }

  /** One pick per in-scope identity, each the outranked-by-none correction, in its one bucket, in order. */
  ghost predicate Selection(picks: seq<Pick>, forecasts: seq<Forecast>, lo: int, hi: int, basis: Basis) {
    && (forall p :: p in picks ==> Chosen(p, forecasts, lo, hi, basis))
    && DistinctKeys(picks, basis)
    && (set p | p in picks :: Key(p.forecast, basis)) == Identities(forecasts, lo, hi, basis)
    && SortedBy(picks, PickOrder(basis))
  }

  /** What has been placed after visiting some identities. */
  ghost predicate Placed(picks: seq<Pick>, done: seq<(int, int)>, latest: map<(int, int), Forecast>,
                         forecasts: seq<Forecast>, lo: int, hi: int, basis: Basis) {
    && (forall p :: p in picks ==> Chosen(p, forecasts, lo, hi, basis) && Key(p.forecast, basis) in done)
    && DistinctKeys(picks, basis)
    && (forall k :: k in done && k in latest && InScope(latest[k], lo, hi, basis) ==> HasKey(picks, k, basis))
  }

  ghost predicate HasKey(picks: seq<Pick>, k: (int, int), basis: Basis) {
    exists p :: p in picks && Key(p.forecast, basis) == k
  }

  lemma HasKeyGrows(picks: seq<Pick>, p: Pick, basis: Basis)
    ensures HasKey(picks + [p], Key(p.forecast, basis), basis)
    ensures forall k :: HasKey(picks, k, basis) ==> HasKey(picks + [p], k, basis)
  {
    assert p in picks + [p];
    assert forall q :: q in picks ==> q in picks + [p];
  }

  lemma ForecastChosen(latest: map<(int, int), Forecast>, forecasts: seq<Forecast>, lo: int, hi: int, basis: Basis,
                       k: (int, int), b: Bucket)
    requires Latest(forecasts, latest, lo, hi, basis) && k in latest && BucketFor(Lead(latest[k], basis)) == Some(b)
    ensures Chosen(Pick(b, latest[k]), forecasts, lo, hi, basis)
  {
    BucketsPartition(Lead(latest[k], basis), b, b);
  }

  lemma PlacedGrows(picks: seq<Pick>, done: seq<(int, int)>, latest: map<(int, int), Forecast>,
                    forecasts: seq<Forecast>, lo: int, hi: int, basis: Basis, p: Pick)
    requires Placed(picks, done, latest, forecasts, lo, hi, basis)
    requires Chosen(p, forecasts, lo, hi, basis) && Key(p.forecast, basis) !in done
    ensures Placed(picks + [p], done + [Key(p.forecast, basis)], latest, forecasts, lo, hi, basis)
  {
    HasKeyGrows(picks, p, basis);
    assert forall j :: 0 <= j < |picks| ==> picks[j] in picks;
  }

  lemma PlacedSkips(picks: seq<Pick>, done: seq<(int, int)>, latest: map<(int, int), Forecast>,
                    forecasts: seq<Forecast>, lo: int, hi: int, basis: Basis, k: (int, int))
    requires Placed(picks, done, latest, forecasts, lo, hi, basis)
    requires k in latest && BucketFor(Lead(latest[k], basis)).None?
    ensures Placed(picks, done + [k], latest, forecasts, lo, hi, basis)
  {
    BucketsPartition(Lead(latest[k], basis), Zero_3h, Zero_3h);
  }

  method Place(latest: map<(int, int), Forecast>, order: seq<(int, int)>, forecasts: seq<Forecast>, lo: int, hi: int,
               basis: Basis)
    returns (picks: seq<Pick>)
    requires Latest(forecasts, latest, lo, hi, basis)
    requires NoDuplicates(order) && forall k :: k in order <==> k in latest
    ensures Placed(picks, order, latest, forecasts, lo, hi, basis)
  {
    picks := [];
    for i := 0 to |order|
      invariant Placed(picks, order[..i], latest, forecasts, lo, hi, basis)
    {
      assert order[..i + 1] == order[..i] + [order[i]];
      assert order[i] in order && order[i] !in order[..i];
      var f := latest[order[i]];
      var bucket := BucketFor(Lead(f, basis));
      if bucket.Some? {
        ForecastChosen(latest, forecasts, lo, hi, basis, order[i], bucket.value);
        PlacedGrows(picks, order[..i], latest, forecasts, lo, hi, basis, Pick(bucket.value, f));
        picks := picks + [Pick(bucket.value, f)];
      } else {
        PlacedSkips(picks, order[..i], latest, forecasts, lo, hi, basis, order[i]);
      }
    }
    assert order[..|order|] == order;
  }

  lemma {:induction false} DistinctPermutes(a: seq<Pick>, b: seq<Pick>, basis: Basis)
    requires DistinctKeys(a, basis) && multiset(a) == multiset(b)
    ensures DistinctKeys(b, basis)
  {
    NoDuplicatesPermutes(a, b);
    forall i, j | 0 <= i < j < |b| ensures Key(b[i].forecast, basis) != Key(b[j].forecast, basis) {
      assert b[i] in multiset(a) && b[j] in multiset(a);
      assert b[i] in a && b[j] in a;
    }
  }

  method SelectVintages(forecasts: seq<Forecast>, lo: int, hi: int, basis: Basis) returns (picks: seq<Pick>)
    ensures Selection(picks, forecasts, lo, hi, basis)
  {
    var latest, order := LatestCorrections(forecasts, lo, hi, basis);
    var placed := Place(latest, order, forecasts, lo, hi, basis);
    picks := Sort(placed, PickOrder(basis));
    SortPermutes(placed, PickOrder(basis));
    PickOrderTotal(basis);
    SortSorts(placed, PickOrder(basis));
    DistinctPermutes(placed, picks, basis);
    IdentitiesCovered(latest, order, placed, picks, forecasts, lo, hi, basis);
  }

  lemma IdentitiesCovered(latest: map<(int, int), Forecast>, order: seq<(int, int)>, placed: seq<Pick>,
                          picks: seq<Pick>, forecasts: seq<Forecast>, lo: int, hi: int, basis: Basis)
    requires Latest(forecasts, latest, lo, hi, basis)
    requires forall p :: p in picks <==> p in placed
    requires Placed(placed, order, latest, forecasts, lo, hi, basis) && forall k :: k in order <==> k in latest
    ensures (set p | p in picks :: Key(p.forecast, basis)) == Identities(forecasts, lo, hi, basis)
  {
    forall f | f in forecasts && InScope(f, lo, hi, basis)
      ensures exists p :: p in picks && Key(p.forecast, basis) == Key(f, basis)
    {
      assert InScope(latest[Key(f, basis)], lo, hi, basis);
      assert HasKey(placed, Key(f, basis), basis);
      var p :| p in placed && Key(p.forecast, basis) == Key(f, basis);
      assert p in picks;
    }
  }
}
