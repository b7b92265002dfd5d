/** What the limiter of `RateLimit` guarantees, measured against a reference
    limiter that keeps every admission it ever made. */
module RateLimitLog {
  import opened Basics
  import opened RateLimit

  // ------------------------------------------------------------------
  // The reference: decide by looking at the whole admission log
  // ------------------------------------------------------------------

  predicate Matches(e: Request, p: Policy, who: Option<Client>) {
    e.policy == p && (who.None? || who.value == e.client)
  }

  /** Times of the admissions after `cutoff` under `p`, by everybody (None) or by one client. */
  function Calls(log: seq<Request>, p: Policy, who: Option<Client>, cutoff: real): seq<real> {
    if log == [] then [] else
      var e := log[|log| - 1];
      Calls(log[..|log| - 1], p, who, cutoff) + if Matches(e, p, who) && e.at > cutoff then [e.at] else []
  }

  function LogRetryAt(log: seq<Request>, r: Request): Option<real> {
    var cutoff := Cutoff(r.policy, r.at);
    RetryAt(r.policy, Calls(log, r.policy, None, cutoff), Calls(log, r.policy, Some(r.client), cutoff))
  }

  function LogVerdict(log: seq<Request>, r: Request): Option<int> {
    Verdict(LogRetryAt(log, r), r.at)
  }

  // ------------------------------------------------------------------
  // Runs
  // ------------------------------------------------------------------

  datatype Trace = Trace(buckets: Buckets, log: seq<Request>, verdicts: seq<Option<int>>)

  /** The limiter's run, with the log of what it admitted kept on the side. */
  function Limit(run: seq<Request>): Trace {
    if run == [] then Trace(EMPTY, [], []) else
      var t := Limit(run[..|run| - 1]);
      var r := run[|run| - 1];
      var (b, v) := Claim(t.buckets, r);
      Trace(b, if v.None? then t.log + [r] else t.log, t.verdicts + [v])
  }

  /** The reference limiter's run; its `buckets` stay empty. */
  function Refer(run: seq<Request>): Trace {
    if run == [] then Trace(EMPTY, [], []) else
      var t := Refer(run[..|run| - 1]);
      var r := run[|run| - 1];
      var v := LogVerdict(t.log, r);
      Trace(EMPTY, if v.None? then t.log + [r] else t.log, t.verdicts + [v])
  }

  ghost predicate Clocked(run: seq<Request>) {
    forall i, j :: 0 <= i < j < |run| ==> run[i].at <= run[j].at
  }

  ghost predicate Over(run: seq<Request>, policies: set<Policy>) {
    forall r :: r in run ==> r.policy in policies
  }

  /** A policy whose client bucket can be the only full one must not meet a
      sweep made with another policy's shorter window. */
  ghost predicate SweepSafe(policies: set<Policy>) {
    forall p, q :: p in policies && q in policies && q.windowSeconds < p.windowSeconds ==> p.perClient >= p.globalLimit
  }

  ghost predicate Exact(p: Policy, policies: set<Policy>) {
    forall q :: q in policies ==> q.windowSeconds >= p.windowSeconds
  }

  /** One such policy: another has a shorter window, and a client's list can fill before the policy's. */
  ghost predicate Exposed(p: Policy, policies: set<Policy>) {
    !Exact(p, policies) && p.perClient < p.globalLimit
  }

  lemma SafeIsUnexposed(policies: set<Policy>)
    ensures SweepSafe(policies) <==> forall p :: p in policies ==> !Exposed(p, policies)
  {
    forall p, q | p in policies && q in policies && q.windowSeconds < p.windowSeconds && p.perClient < p.globalLimit
      ensures Exposed(p, policies)
    {}
  }

  // ------------------------------------------------------------------
  // Popping expired times
  // ------------------------------------------------------------------

  ghost predicate Suffix(a: seq<real>, b: seq<real>) {
    |a| <= |b| && a == b[|b| - |a|..]
  }

  lemma {:induction false} DiscardIsSuffix(x: seq<real>, a: real)
    ensures Suffix(Discard(x, a), x)
  {
    if x != [] && x[0] <= a {
      DiscardIsSuffix(x[1..], a);
    }
  }

  lemma {:induction false} DiscardTwice(x: seq<real>, a: real, b: real)
    ensures Discard(Discard(x, a), b) == Discard(x, Max(a, b))
  {
    if x != [] && x[0] <= a {
      DiscardTwice(x[1..], a, b);
    } else if x != [] && x[0] <= b {
      assert a <= b;
    }
  }

  lemma {:induction false} DiscardAppend(x: seq<real>, t: real, b: real)
    ensures Discard(x + [t], b) == if Discard(x, b) == [] then Discard([t], b) else Discard(x, b) + [t]
  {
    if x == [] {
      assert x + [t] == [t];
    } else {
      assert (x + [t])[1..] == x[1..] + [t];
      DiscardAppend(x[1..], t, b);
    }
  }

  lemma {:induction false} CallsExpired(log: seq<Request>, p: Policy, who: Option<Client>, cutoff: real)
    requires forall i :: 0 <= i < |log| ==> log[i].at <= cutoff
    ensures Calls(log, p, who, cutoff) == []
  {
    if log != [] {
      CallsExpired(log[..|log| - 1], p, who, cutoff);
    }
  }

  // ------------------------------------------------------------------
  // The buckets track the log
  // ------------------------------------------------------------------

  ghost predicate TracksGlobal(b: Buckets, log: seq<Request>, now: real) {
    forall p: Policy, cutoff: real :: cutoff >= Cutoff(p, now) ==>
      Discard(Get(b.globals, p), cutoff) == Calls(log, p, None, cutoff)
  }

  /** A client bucket may have lost its oldest times to a sweep with a shorter window, but nothing else. */
  ghost predicate TracksClient(b: Buckets, log: seq<Request>, now: real, policies: set<Policy>) {
    forall p: Policy, c: Client, cutoff: real :: cutoff >= Cutoff(p, now) ==>
      && Suffix(Discard(Get(b.clients, (p, c)), cutoff), Calls(log, p, Some(c), cutoff))
      && (Exact(p, policies) ==> Discard(Get(b.clients, (p, c)), cutoff) == Calls(log, p, Some(c), cutoff))
  }

  ghost predicate Before(log: seq<Request>, now: real) {
    forall i :: 0 <= i < |log| ==> log[i].at <= now
  }

  function Extra(r: Request, admitted: bool): seq<real> {
    if admitted then [r.at] else []
  }

  function Logged(log: seq<Request>, r: Request, admitted: bool): seq<Request> {
    if admitted then log + [r] else log
  }

  lemma SuffixAppend(a: seq<real>, b: seq<real>, t: real)
    requires Suffix(a, b)
    ensures Suffix(a + [t], b + [t])
  {
    assert (b + [t])[|b| - |a|..] == b[|b| - |a|..] + [t];
  }

  /** What a later cutoff leaves of one bucket after a claim. */
  lemma BucketAfter(calls: seq<real>, r: Request, cutoff: real, admitted: bool)
    requires cutoff >= Cutoff(r.policy, r.at)
    ensures
      Discard(Discard(calls, Cutoff(r.policy, r.at)) + Extra(r, admitted), cutoff)
      == if admitted && (r.at > cutoff || Discard(calls, cutoff) != []) then Discard(calls, cutoff) + [r.at]
         else Discard(calls, cutoff)
  {
    assert [r.at][1..] == [];
    assert Discard(calls, cutoff) == [] ==> Discard(calls, cutoff) + [r.at] == [r.at];
    var kept := Discard(calls, Cutoff(r.policy, r.at));
    DiscardTwice(calls, Cutoff(r.policy, r.at), cutoff);
    DiscardAppend(kept, r.at, cutoff);
    assert kept + [] == kept;
  }

  /** What a later cutoff sees of the log after a claim. */
  lemma LogAfter(log: seq<Request>, p: Policy, who: Option<Client>, r: Request, cutoff: real, admitted: bool)
    requires Before(log, r.at)
    ensures Calls(Logged(log, r, admitted), p, who, cutoff)
         == if admitted && Matches(r, p, who) && r.at > cutoff then Calls(log, p, who, cutoff) + [r.at]
            else Calls(log, p, who, cutoff)
    ensures r.at <= cutoff ==> Calls(log, p, who, cutoff) == []
  {
    assert (log + [r])[..|log|] == log;
    if r.at <= cutoff {
      CallsExpired(log, p, who, cutoff);
    }
  }

  /** One bucket after a claim, against the log after that claim. */
  lemma BucketStep(calls: seq<real>, log: seq<Request>, who: Option<Client>, r: Request, cutoff: real, admitted: bool)
    requires Before(log, r.at) && Matches(r, r.policy, who)
    requires cutoff >= Cutoff(r.policy, r.at)
    requires Suffix(Discard(calls, cutoff), Calls(log, r.policy, who, cutoff))
    ensures
      var left := Discard(calls, Cutoff(r.policy, r.at)) + Extra(r, admitted);
      var all' := Calls(Logged(log, r, admitted), r.policy, who, cutoff);
      && Suffix(Discard(left, cutoff), all')
      && (Discard(calls, cutoff) == Calls(log, r.policy, who, cutoff) ==> Discard(left, cutoff) == all')
  {
    BucketAfter(calls, r, cutoff, admitted);
    LogAfter(log, r.policy, who, r, cutoff, admitted);
    var a, b := Discard(calls, cutoff), Calls(log, r.policy, who, cutoff);
    if admitted && r.at > cutoff {
      SuffixAppend(a, b, r.at);
    }
  }

  lemma SweepGet(clients: map<(Policy, Client), seq<real>>, k: (Policy, Client), cutoff: real)
    ensures Get(Sweep(clients, cutoff), k) == Get(clients, k)
         || Get(Sweep(clients, cutoff), k) == Discard(Get(clients, k), cutoff)
  {}

  lemma {:induction false} DiscardHead(x: seq<real>, a: real)
    ensures Discard(x, a) != [] ==> Discard(x, a)[0] > a
  {
    if x != [] && x[0] <= a {
      DiscardHead(x[1..], a);
    }
  }

  /** Up to 1,024 lists nothing is swept; above, exactly the lists with an unexpired time are left, without the expired
      times at their front. */
  lemma SweepTells(clients: map<(Policy, Client), seq<real>>, cutoff: real)
    ensures |clients| <= 1_024 ==> Sweep(clients, cutoff) == clients
    ensures |clients| > 1_024 ==> forall k :: k in Sweep(clients, cutoff) ==>
      k in clients && Sweep(clients, cutoff)[k] != [] && Sweep(clients, cutoff)[k][0] > cutoff
      && Suffix(Sweep(clients, cutoff)[k], clients[k])
    ensures forall k :: k in clients && clients[k] != [] && clients[k][0] > cutoff ==> k in Sweep(clients, cutoff)
  {
    forall k | k in clients ensures Discard(clients[k], cutoff) != [] ==> Discard(clients[k], cutoff)[0] > cutoff
      ensures Suffix(Discard(clients[k], cutoff), clients[k])
    {
      DiscardHead(clients[k], cutoff);
      DiscardIsSuffix(clients[k], cutoff);
    }
  }

  lemma SweepKeepsTrack(calls: seq<real>, swept: seq<real>, edge: real, cutoff: real, all: seq<real>)
    requires swept == calls || swept == Discard(calls, edge)
    ensures edge <= cutoff ==> Discard(swept, cutoff) == Discard(calls, cutoff)
    ensures Suffix(Discard(calls, cutoff), all) ==> Suffix(Discard(swept, cutoff), all)
  {
    DiscardTwice(calls, edge, cutoff);
    DiscardTwice(calls, cutoff, edge);
    DiscardIsSuffix(Discard(calls, cutoff), edge);
  }

  lemma ClaimTracksGlobal(b: Buckets, log: seq<Request>, r: Request, now: real)
    requires TracksGlobal(b, log, now) && Before(log, now) && now <= r.at
    ensures
      var (b', v) := Claim(b, r);
      TracksGlobal(b', Logged(log, r, v.None?), r.at)
  {
    var (b', v) := Claim(b, r);
    var log' := Logged(log, r, v.None?);
    forall p: Policy, cutoff: real | cutoff >= Cutoff(p, r.at)
      ensures Discard(Get(b'.globals, p), cutoff) == Calls(log', p, None, cutoff)
    {
      if p == r.policy {
        BucketStep(Get(b.globals, p), log, None, r, cutoff, v.None?);
      } else {
        LogAfter(log, p, None, r, cutoff, v.None?);
      }
    }
  }

  /** One client bucket, seen from one later cutoff. */
  ghost predicate TracksAt(calls: seq<real>, all: seq<real>, cutoff: real, exact: bool) {
    Suffix(Discard(calls, cutoff), all) && (exact ==> Discard(calls, cutoff) == all)
  }

  lemma SweepTracks(clients: map<(Policy, Client), seq<real>>, k: (Policy, Client), edge: real, cutoff: real,
                    all: seq<real>, exact: bool)
    requires TracksAt(Get(clients, k), all, cutoff, exact)
    requires exact ==> edge <= cutoff
    ensures TracksAt(Get(Sweep(clients, edge), k), all, cutoff, exact)
  {
    SweepGet(clients, k, edge);
    SweepKeepsTrack(Get(clients, k), Get(Sweep(clients, edge), k), edge, cutoff, all);
  }

  /** What a claim makes of one client bucket that the sweep left as `swept`. */
  function Claimed(swept: seq<real>, r: Request, own: bool, admitted: bool): seq<real> {
    if own then Discard(swept, Cutoff(r.policy, r.at)) + Extra(r, admitted) else swept
  }

  lemma ClaimTracksAt(swept: seq<real>, log: seq<Request>, r: Request, p: Policy, c: Client, cutoff: real, exact: bool,
                      admitted: bool)
    requires Before(log, r.at) && cutoff >= Cutoff(p, r.at)
    requires TracksAt(swept, Calls(log, p, Some(c), cutoff), cutoff, exact)
    ensures
      var own := p == r.policy && c == r.client;
      TracksAt(Claimed(swept, r, own, admitted), Calls(Logged(log, r, admitted), p, Some(c), cutoff), cutoff, exact)
  {
    if p == r.policy && c == r.client {
      BucketStep(swept, log, Some(c), r, cutoff, admitted);
    } else {
      LogAfter(log, p, Some(c), r, cutoff, admitted);
    }
  }

  lemma ClaimGet(b: Buckets, r: Request, p: Policy, c: Client)
    ensures
      var (b', v) := Claim(b, r);
      var swept := Get(Sweep(b.clients, Cutoff(r.policy, r.at)), (p, c));
      Get(b'.clients, (p, c)) == Claimed(swept, r, p == r.policy && c == r.client, v.None?)
  {}

  lemma ClaimTracksClient(b: Buckets, log: seq<Request>, r: Request, now: real, policies: set<Policy>)
    requires TracksClient(b, log, now, policies) && Before(log, now) && now <= r.at && r.policy in policies
    ensures
      var (b', v) := Claim(b, r);
      TracksClient(b', Logged(log, r, v.None?), r.at, policies)
  {
    var (b', v) := Claim(b, r);
    var log' := Logged(log, r, v.None?);
    forall p: Policy, c: Client, cutoff: real | cutoff >= Cutoff(p, r.at)
      ensures Suffix(Discard(Get(b'.clients, (p, c)), cutoff), Calls(log', p, Some(c), cutoff))
      ensures Exact(p, policies) ==> Discard(Get(b'.clients, (p, c)), cutoff) == Calls(log', p, Some(c), cutoff)
    {
      var edge, all, exact := Cutoff(r.policy, r.at), Calls(log, p, Some(c), cutoff), Exact(p, policies);
      assert TracksAt(Get(b.clients, (p, c)), all, cutoff, exact);
      SweepTracks(b.clients, (p, c), edge, cutoff, all, exact);
      ClaimTracksAt(Get(Sweep(b.clients, edge), (p, c)), log, r, p, c, cutoff, exact, v.None?);
      ClaimGet(b, r, p, c);
    }
  }

  /** The buckets after a run agree with the log of what it admitted. */
  ghost predicate Tracks(t: Trace, now: real, policies: set<Policy>) {
    && TracksGlobal(t.buckets, t.log, now) && TracksClient(t.buckets, t.log, now, policies)
    && Before(t.log, now) && Clocked(t.log)
  }

  lemma NothingTracks(now: real, policies: set<Policy>)
    ensures Tracks(Trace(EMPTY, [], []), now, policies)
  {}

  lemma LoggedInTime(log: seq<Request>, r: Request, admitted: bool)
    requires Before(log, r.at) && Clocked(log)
    ensures Before(Logged(log, r, admitted), r.at) && Clocked(Logged(log, r, admitted))
  {}

  lemma TracksStep(t: Trace, r: Request, now: real, policies: set<Policy>, next: Trace)
    requires Tracks(t, now, policies) && now <= r.at && r.policy in policies
    requires next.buckets == Claim(t.buckets, r).0 && next.log == Logged(t.log, r, Claim(t.buckets, r).1.None?)
    ensures Tracks(next, r.at, policies)
  {
    ClaimTracksGlobal(t.buckets, t.log, r, now);
    ClaimTracksClient(t.buckets, t.log, r, now, policies);
    LoggedInTime(t.log, r, Claim(t.buckets, r).1.None?);
  }

  /** When the last request of a run was made; any time at all before the first. */
  function Latest(run: seq<Request>, r: Request): real {
    if run == [] then r.at else run[|run| - 1].at
  }

  lemma {:induction false} LimitTracks(run: seq<Request>, r: Request, policies: set<Policy>)
    requires Clocked(run) && Over(run, policies)
    ensures Tracks(Limit(run), Latest(run, r), policies)
  {
    if run == [] {
      NothingTracks(r.at, policies);
    } else {
      var init, last := run[..|run| - 1], run[|run| - 1];
      LimitTracks(init, last, policies);
      TracksStep(Limit(init), last, Latest(init, last), policies, Limit(run));
    }
  }

  // ------------------------------------------------------------------
  // The limits, for every span of time
  // ------------------------------------------------------------------

  /** Admissions in the half-open span (lo, hi]. */
  function Span(log: seq<Request>, p: Policy, who: Option<Client>, lo: real, hi: real): nat {
    if log == [] then 0 else
      var e := log[|log| - 1];
      Span(log[..|log| - 1], p, who, lo, hi) + if Matches(e, p, who) && lo < e.at <= hi then 1 else 0
  }

  /** Every admission found fewer than `limit` unexpired ones before it. */
  ghost predicate Spaced(log: seq<Request>, p: Policy, who: Option<Client>, limit: int) {
    log == [] ||
    var e := log[|log| - 1];
    var init := log[..|log| - 1];
    && Spaced(init, p, who, limit)
    && (Matches(e, p, who) ==> |Calls(init, p, who, Cutoff(p, e.at))| < limit)
  }

  lemma {:induction false} SpanWithinCalls(log: seq<Request>, p: Policy, who: Option<Client>, cutoff: real, lo: real,
                                           hi: real)
    requires cutoff <= lo
    ensures Span(log, p, who, lo, hi) <= |Calls(log, p, who, cutoff)|
    ensures cutoff == lo && Before(log, hi) ==> Span(log, p, who, lo, hi) == |Calls(log, p, who, cutoff)|
  {
    if log != [] {
      SpanWithinCalls(log[..|log| - 1], p, who, cutoff, lo, hi);
    }
  }

  lemma {:induction false} SpacedBoundsSpan(log: seq<Request>, p: Policy, who: Option<Client>, limit: int, lo: real,
                                            hi: real)
    requires Spaced(log, p, who, limit) && limit > 0
    requires hi <= lo + p.windowSeconds as real
    ensures Span(log, p, who, lo, hi) <= limit
  {
    if log != [] {
      var init, e := log[..|log| - 1], log[|log| - 1];
      SpacedBoundsSpan(init, p, who, limit, lo, hi);
      if Matches(e, p, who) && lo < e.at <= hi {
        SpanWithinCalls(init, p, who, Cutoff(p, e.at), lo, hi);
      }
    }
  }

  lemma {:induction false} ClientWithinGlobal(log: seq<Request>, p: Policy, c: Client, cutoff: real)
    ensures
      var g, own := Calls(log, p, None, cutoff), Calls(log, p, Some(c), cutoff);
      |own| <= |g| && (|own| == |g| ==> own == g)
  {
    if log != [] {
      ClientWithinGlobal(log[..|log| - 1], p, c, cutoff);
    }
  }

  /** What one claim reads, in terms of the log. */
  lemma ClaimReads(b: Buckets, log: seq<Request>, r: Request, now: real, policies: set<Policy>)
    requires TracksGlobal(b, log, now) && TracksClient(b, log, now, policies) && now <= r.at
    ensures
      var cutoff := Cutoff(r.policy, r.at);
      && SeenGlobal(b, r) == Calls(log, r.policy, None, cutoff)
      && Suffix(SeenClient(b, r), Calls(log, r.policy, Some(r.client), cutoff))
      && (Exact(r.policy, policies) ==> SeenClient(b, r) == Calls(log, r.policy, Some(r.client), cutoff))
  {
    var cutoff := Cutoff(r.policy, r.at);
    var key := (r.policy, r.client);
    SweepGet(b.clients, key, cutoff);
    SweepKeepsTrack(Get(b.clients, key), Get(Sweep(b.clients, cutoff), key), cutoff, cutoff, []);
  }

  lemma SpacedStep(log: seq<Request>, r: Request, p: Policy, who: Option<Client>, limit: int, admitted: bool)
    requires Spaced(log, p, who, limit)
    requires admitted && Matches(r, p, who) ==> |Calls(log, p, who, Cutoff(p, r.at))| < limit
    ensures Spaced(Logged(log, r, admitted), p, who, limit)
  {
    assert (log + [r])[..|log|] == log;
  }

  lemma AdmissionFindsRoom(b: Buckets, log: seq<Request>, r: Request, now: real, policies: set<Policy>)
    requires TracksGlobal(b, log, now) && TracksClient(b, log, now, policies) && now <= r.at
    ensures Claim(b, r).1.None? ==> |Calls(log, r.policy, None, Cutoff(r.policy, r.at))| < r.policy.globalLimit
  {
    ClaimReads(b, log, r, now, policies);
  }

  /** The global limit needs nothing of the policies: global lists are never swept. */
  lemma {:induction false} LimitSpacesGlobal(run: seq<Request>, policies: set<Policy>, p: Policy)
    requires Clocked(run) && Over(run, policies)
    ensures Spaced(Limit(run).log, p, None, p.globalLimit)
  {
    if run != [] {
      var init, r := run[..|run| - 1], run[|run| - 1];
      LimitSpacesGlobal(init, policies, p);
      LimitTracks(init, r, policies);
      var t := Limit(init);
      AdmissionFindsRoom(t.buckets, t.log, r, Latest(init, r), policies);
      SpacedStep(t.log, r, p, None, p.globalLimit, Claim(t.buckets, r).1.None?);
    }
  }

  /** A client bucket that lost times to a foreign sweep cannot change the verdict of a safe policy. */
  lemma SameRetryAt(p: Policy, g: seq<real>, own: seq<real>, kept: seq<real>)
    requires |g| <= p.globalLimit <= p.perClient
    requires |own| <= |g| && (|own| == |g| ==> own == g)
    requires Suffix(kept, own)
    ensures RetryAt(p, g, kept) == RetryAt(p, g, own)
  {}

  /** Under a policy that is not exposed a claim reads the freeing instant of the log. */
  lemma UnexposedReads(b: Buckets, log: seq<Request>, r: Request, now: real, policies: set<Policy>)
    requires TracksGlobal(b, log, now) && TracksClient(b, log, now, policies) && now <= r.at
    requires !Exposed(r.policy, policies)
    requires Before(log, r.at) && Spaced(log, r.policy, None, r.policy.globalLimit)
    ensures FreedAt(b, r) == LogRetryAt(log, r)
  {
    var p, cutoff := r.policy, Cutoff(r.policy, r.at);
    ClaimReads(b, log, r, now, policies);
    if !Exact(p, policies) {
      SpanWithinCalls(log, p, None, cutoff, cutoff, r.at);
      SpacedBoundsSpan(log, p, None, p.globalLimit, cutoff, r.at);
      ClientWithinGlobal(log, p, r.client, cutoff);
      SameRetryAt(p, SeenGlobal(b, r), Calls(log, p, Some(r.client), cutoff), SeenClient(b, r));
    }
  }

  /** The compacting, forgetting limiter and the one that keeps everything admit and reject alike,
      with the same Retry-After values. */
  lemma {:induction false} LimiterRefinesLog(run: seq<Request>, policies: set<Policy>)
    requires Clocked(run) && Over(run, policies) && SweepSafe(policies)
    ensures Limit(run).verdicts == Refer(run).verdicts
    ensures Limit(run).log == Refer(run).log
  {
    if run != [] {
      var init, r := run[..|run| - 1], run[|run| - 1];
      LimiterRefinesLog(init, policies);
      LimitTracks(init, r, policies);
      LimitSpacesGlobal(init, policies, r.policy);
      var t := Limit(init);
      SafeIsUnexposed(policies);
      UnexposedReads(t.buckets, t.log, r, Latest(init, r), policies);
    }
  }

  lemma {:induction false} ReferSpaces(run: seq<Request>, p: Policy, c: Client)
    ensures Spaced(Refer(run).log, p, None, p.globalLimit)
    ensures Spaced(Refer(run).log, p, Some(c), p.perClient)
  {
    if run != [] {
      var init, r := run[..|run| - 1], run[|run| - 1];
      ReferSpaces(init, p, c);
      var log := Refer(init).log;
      assert (log + [r])[..|log|] == log;
    }
  }

  /** In no half-open span as long as the window are more than `globalLimit` admissions of a policy,
      whatever the other policies' windows are. */
  lemma GlobalLimitHolds(run: seq<Request>, p: Policy, lo: real, hi: real)
    requires Clocked(run) && hi <= lo + p.windowSeconds as real
    ensures Span(Limit(run).log, p, None, lo, hi) <= p.globalLimit
  {
    var policies := set r | r in run :: r.policy;
    LimitSpacesGlobal(run, policies, p);
    SpacedBoundsSpan(Limit(run).log, p, None, p.globalLimit, lo, hi);
  }

  /** The per-client limit, for a family of policies that is safe to sweep. */
  lemma ClientLimitHolds(run: seq<Request>, policies: set<Policy>, p: Policy, c: Client, lo: real, hi: real)
    requires Clocked(run) && Over(run, policies) && SweepSafe(policies)
    requires hi <= lo + p.windowSeconds as real
    ensures Span(Limit(run).log, p, Some(c), lo, hi) <= p.perClient
  {
    LimiterRefinesLog(run, policies);
    ReferSpaces(run, p, c);
    SpacedBoundsSpan(Limit(run).log, p, Some(c), p.perClient, lo, hi);
  }
}
