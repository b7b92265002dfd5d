/** The GB settlement calendar of app/domain/settlement.py and its loop twin in
    app/history/calendar.py, over any zone of the modern British kind. */
module Settlement {
  import opened Basics

  const HOUR := 3_600_000_000
  const DAY := 86_400_000_000

  /** `z(k)` says whether summer time is in force from 01:00 UTC of day `k` to 01:00 UTC of the next;
      offsets are 0 or one hour and change only at 01:00 UTC. */
  type Zone = int -> bool

  function Offset(z: Zone, u: int): int {
    if z((u - HOUR) / DAY) then HOUR else 0
  }

  function Local(z: Zone, u: int): int {
    u + Offset(z, u)
  }

  function LocalDate(z: Zone, u: int): int {
    Local(z, u) / DAY
  }

  /** Wall clock to UTC with fold 0: the earlier reading of a repeated time, the earlier offset in a gap. */
  function WallToUtc(z: Zone, w: int): int {
    if Offset(z, w - HOUR) == HOUR then w - HOUR else w
  }

  function Midnight(z: Zone, day: int): int {
    WallToUtc(z, day * DAY)
  }

  datatype Period = Period(date: int, number: int, startUtc: int, endUtc: int, startLocal: int, endLocal: int)

  datatype SettlementError = PeriodOutOfRange | OutsideItsDay

  function Count(z: Zone, day: int): int {
    (Midnight(z, day + 1) - Midnight(z, day)) / HALF_HOUR
  }

  function PeriodOf(z: Zone, day: int, number: int): Period {
    var start := Midnight(z, day) + (number - 1) * HALF_HOUR;
    Period(day, number, start, start + HALF_HOUR, Local(z, start), Local(z, start + HALF_HOUR))
  }

  function PeriodAt(z: Zone, day: int, number: int): Result<Period, SettlementError> {
    if 1 <= number <= Count(z, day) then Success(PeriodOf(z, day, number)) else Failure(PeriodOutOfRange)
  }

  function PeriodForInstant(z: Zone, u: int): Result<Period, SettlementError> {
    var day := LocalDate(z, u);
    if !(Midnight(z, day) <= u < Midnight(z, day + 1)) then Failure(OutsideItsDay)
    else PeriodAt(z, day, (u - Midnight(z, day)) / HALF_HOUR + 1)
  }

  function Periods(z: Zone, day: int, upto: int): seq<Period> {
    if upto <= 0 then [] else Periods(z, day, upto - 1) + [PeriodOf(z, day, upto)]
  }

  // ------------------------------------------------------------------
  // Midnights
  // ------------------------------------------------------------------

  /** A local midnight is one instant, under whatever offset. */
  lemma MidnightExact(z: Zone, day: int, u: int)
    ensures Local(z, u) == day * DAY <==> u == Midnight(z, day)
  {
    var w := day * DAY;
    assert (w - HOUR - HOUR) / DAY == day - 1 && (w - HOUR) / DAY == day - 1;
  }

  /** A local day runs from its midnight to the next. */
  lemma DayOfInstant(z: Zone, day: int, u: int)
    ensures LocalDate(z, u) == day <==> Midnight(z, day) <= u < Midnight(z, day + 1)
  {
    var w, x := day * DAY, (day + 1) * DAY;
    assert (w - HOUR - HOUR) / DAY == day - 1 && (w - HOUR) / DAY == day - 1;
    assert (x - HOUR - HOUR) / DAY == day && (x - HOUR) / DAY == day;
    var k := (u - HOUR) / DAY;
    assert k * DAY <= u - HOUR < (k + 1) * DAY;
    if k < day - 1 {
      assert u < w - HOUR;
    } else if k > day {
      assert u >= x + HOUR;
    }
  }

  /** Days have 46, 48 or 50 periods, by the offsets at their two ends, and the periods fill the day. */
  lemma DayLength(z: Zone, day: int)
    ensures Count(z, day) in {46, 48, 50}
    ensures Count(z, day) == 46 <==> !z(day - 1) && z(day)
    ensures Count(z, day) == 50 <==> z(day - 1) && !z(day)
    ensures Midnight(z, day) + Count(z, day) * HALF_HOUR == Midnight(z, day + 1)
  {
    var w, x := day * DAY, (day + 1) * DAY;
    assert (w - HOUR - HOUR) / DAY == day - 1;
    assert (x - HOUR - HOUR) / DAY == day;
  }

  // ------------------------------------------------------------------
  // Instants and periods are inverse
  // ------------------------------------------------------------------

  /** Every instant lies in the period it resolves to; neither guard ever fires. */
  lemma InstantInPeriod(z: Zone, u: int)
    ensures PeriodForInstant(z, u).Success?
    ensures
      var p := PeriodForInstant(z, u).value;
      && p.startUtc <= u < p.endUtc
      && 1 <= p.number <= Count(z, p.date) && p == PeriodOf(z, p.date, p.number)
  {
    var day := LocalDate(z, u);
    DayOfInstant(z, day, u);
    DayLength(z, day);
    var n := (u - Midnight(z, day)) / HALF_HOUR;
    assert n * HALF_HOUR <= u - Midnight(z, day) < (n + 1) * HALF_HOUR;
  }

  /** Resolving any instant of a period gives that period back; in particular its start does. */
  lemma PeriodResolves(z: Zone, day: int, number: int, u: int)
    requires 1 <= number <= Count(z, day)
    requires PeriodOf(z, day, number).startUtc <= u < PeriodOf(z, day, number).endUtc
    ensures PeriodForInstant(z, u) == PeriodAt(z, day, number)
  {
    DayLength(z, day);
    assert Midnight(z, day) <= u < Midnight(z, day + 1);
    DayOfInstant(z, day, u);
    assert (u - Midnight(z, day)) / HALF_HOUR == number - 1;
  }

  /** The periods of all days tile time: each instant is in exactly one. */
  lemma PeriodsTile(z: Zone, u: int, d: int, m: int, e: int, n: int)
    requires 1 <= m <= Count(z, d) && 1 <= n <= Count(z, e)
    requires PeriodOf(z, d, m).startUtc <= u < PeriodOf(z, d, m).endUtc
    requires PeriodOf(z, e, n).startUtc <= u < PeriodOf(z, e, n).endUtc
    ensures d == e && m == n
  {
    PeriodResolves(z, d, m, u);
    PeriodResolves(z, e, n, u);
  }

  // ------------------------------------------------------------------
  // The list of a day
  // ------------------------------------------------------------------

  lemma {:induction false} PeriodsAre(z: Zone, day: int, upto: int)
    requires 0 <= upto
    ensures |Periods(z, day, upto)| == upto
    ensures forall i :: 0 <= i < upto ==> Periods(z, day, upto)[i] == PeriodOf(z, day, i + 1)
  {
    if upto > 0 {
      PeriodsAre(z, day, upto - 1);
    }
  }

  /** The tuple comprehension never meets the range error, starts at one midnight, ends at the next, and has
      no gap or overlap. */
  lemma DayList(z: Zone, day: int)
    ensures
      var ps := Periods(z, day, Count(z, day));
      && |ps| == Count(z, day) > 0
      && (forall i :: 0 <= i < |ps| ==> PeriodAt(z, day, i + 1) == Success(ps[i]))
      && ps[0].startUtc == Midnight(z, day) && ps[|ps| - 1].endUtc == Midnight(z, day + 1)
      && (forall i :: 0 <= i < |ps| - 1 ==> ps[i].endUtc == ps[i + 1].startUtc)
  {
    DayLength(z, day);
    PeriodsAre(z, day, Count(z, day));
  }

  datatype Interval = Interval(date: int, number: int, start: int, end: int)

  function Strip(ps: seq<Period>): (stripped: seq<Interval>)
    ensures |stripped| == |ps|
  {
    if ps == [] then [] else
      var p := ps[|ps| - 1];
      Strip(ps[..|ps| - 1]) + [Interval(p.date, p.number, p.startUtc, p.endUtc)]
  }

  /** The calendar loop walks from midnight to midnight and builds the same list as the closed form, within
      the fifty periods an interval record admits. */
  method ExpectedIntervals(z: Zone, day: int) returns (intervals: seq<Interval>)
    ensures intervals == Strip(Periods(z, day, Count(z, day)))
    ensures |intervals| <= 50
  {
    var start, end := Midnight(z, day), Midnight(z, day + 1);
    DayLength(z, day);
    intervals := [];
    var cursor := start;
    var period := 1;
    while cursor < end
      invariant 1 <= period <= Count(z, day) + 1
      invariant cursor == start + (period - 1) * HALF_HOUR
      invariant intervals == Strip(Periods(z, day, period - 1))
      decreases end - cursor
    {
      var ps := Periods(z, day, period);
      assert ps[..|ps| - 1] == Periods(z, day, period - 1);
      intervals := intervals + [Interval(day, period, cursor, cursor + HALF_HOUR)];
      cursor := cursor + HALF_HOUR;
      period := period + 1;
    }
    assert period == Count(z, day) + 1;
    PeriodsAre(z, day, Count(z, day));
  }

  // ------------------------------------------------------------------
  // Local clocks
  // ------------------------------------------------------------------

  /** Summer time is in force at the instant: on from 01:00 UTC of a day on which it is, until it is not. */
  ghost predicate SummerAt(z: Zone, u: int) {
    exists k :: z(k) && k * 86_400_000_000 + 3_600_000_000 <= u < (k + 1) * 86_400_000_000 + 3_600_000_000
  }

  lemma LocalMeans(z: Zone, u: int)
    ensures Local(z, u) == if SummerAt(z, u) then u + 3_600_000_000 else u
  {
    var k := (u - HOUR) / DAY;
    assert k * DAY + HOUR <= u < (k + 1) * DAY + HOUR;
    if SummerAt(z, u) {
      var j :| z(j) && j * DAY + HOUR <= u < (j + 1) * DAY + HOUR;
      assert j == k;
    }
  }

  /** A period lasts half an hour, shows the clocks of its two ends, and starts on its date by the local clock; the
      first period of a day starts at local midnight. */
  lemma PeriodTells(z: Zone, day: int, number: int)
    requires PeriodAt(z, day, number).Success?
    ensures
      var p := PeriodAt(z, day, number).value;
      && p.date == day && p.number == number && p.endUtc == p.startUtc + 1_800_000_000
      && p.startLocal == (if SummerAt(z, p.startUtc) then p.startUtc + 3_600_000_000 else p.startUtc)
      && p.endLocal == (if SummerAt(z, p.endUtc) then p.endUtc + 3_600_000_000 else p.endUtc)
      && day * DAY <= p.startLocal < (day + 1) * DAY
      && (number == 1 ==> p.startLocal == day * DAY)
  {
    var p := PeriodAt(z, day, number).value;
    LocalMeans(z, p.startUtc);
    LocalMeans(z, p.endUtc);
    DayLength(z, day);
    DayOfInstant(z, day, p.startUtc);
    MidnightExact(z, day, p.startUtc);
  }
}
