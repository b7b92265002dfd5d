/** When the compaction sweep of the limiter is visible: a sweep made while
    claiming under a policy with a shorter window drops admissions that a
    longer-window policy still has to count. */
module RateLimitSweep {
  import opened Basics
  import opened RateLimit
  import opened RateLimitLog

  function Zeros(n: nat): seq<real> {
    seq(n, _ => 0.0)
  }

  /** `n` claims by client 0 under `p`, then `m` claims by fresh clients under `q`, all at time 0. */
  function Filling(p: Policy, q: Policy, n: nat, m: nat): seq<Request> {
    seq(n, _ => Request(p, 0, 0.0)) + seq(m, (i: nat) => Request(q, i + 1, 0.0))
  }

  /** Enough of them to arm the sweep; then `q`'s window passes, somebody claims under `q`
      and client 0 claims under `p` once more. */
  function Exposing(p: Policy, q: Policy): seq<Request> {
    Filling(p, q, p.perClient, SWEEP_THRESHOLD)
    + [Request(q, 0, q.windowSeconds as real), Request(p, 0, q.windowSeconds as real)]
  }

  lemma LastStep(run: seq<Request>, r: Request)
    ensures (run + [r])[..|run|] == run
    ensures Limit(run + [r]).verdicts == Limit(run).verdicts + [Claim(Limit(run).buckets, r).1]
    ensures Limit(run + [r]).buckets == Claim(Limit(run).buckets, r).0
    ensures Refer(run + [r]).verdicts == Refer(run).verdicts + [LogVerdict(Refer(run).log, r)]
    ensures Refer(run + [r]).log == Logged(Refer(run).log, r, LogVerdict(Refer(run).log, r).None?)
  {
    assert (run + [r])[..|run|] == run;
  }

  lemma LastAdmission(run: seq<Request>, r: Request)
    ensures Limit(run + [r]).log == Logged(Limit(run).log, r, Claim(Limit(run).buckets, r).1.None?)
  {
    assert (run + [r])[..|run|] == run;
  }

  lemma ZerosStep(n: nat, cutoff: real)
    requires n > 0
    ensures Zeros(n) == Zeros(n - 1) + [0.0]
    ensures Zeros(n)[1..] == Zeros(n - 1)
  {}

  lemma {:induction false} DiscardZeros(n: nat, cutoff: real)
    ensures Discard(Zeros(n), cutoff) == if 0.0 <= cutoff then [] else Zeros(n)
  {
    if n > 0 {
      ZerosStep(n, cutoff);
      DiscardZeros(n - 1, cutoff);
    }
  }

  lemma OwnClaim(b: Buckets, p: Policy, n: nat)
    requires Get(b.globals, p) == Zeros(n) && Get(b.clients, (p, 0)) == Zeros(n)
    requires b.clients.Keys <= {(p, 0)}
    requires n < p.perClient < p.globalLimit
    ensures
      var b' := Claim(b, Request(p, 0, 0.0)).0;
      && Get(b'.globals, p) == Zeros(n + 1) && Get(b'.clients, (p, 0)) == Zeros(n + 1)
      && b'.clients.Keys == {(p, 0)}
      && Claim(b, Request(p, 0, 0.0)).1.None?
  {
    assert |b.clients.Keys| <= |{(p, 0 as Client)}| by {
      if b.clients.Keys != {} {
        assert b.clients.Keys == {(p, 0)};
      }
    }
    ZerosStep(n + 1, 0.0);
    DiscardZeros(n, Cutoff(p, 0.0));
  }

  /** Client 0 fills its bucket. */
  lemma {:induction false} FillFirst(p: Policy, q: Policy, n: nat)
    requires n <= p.perClient < p.globalLimit
    ensures
      var b := Limit(Filling(p, q, n, 0)).buckets;
      && Get(b.globals, p) == Zeros(n)
      && Get(b.clients, (p, 0)) == Zeros(n)
      && b.clients.Keys == (if n == 0 then {} else {(p, 0)})
  {
    if n == 0 {
      assert Filling(p, q, 0, 0) == [];
    } else {
      var init, r := Filling(p, q, n - 1, 0), Request(p, 0, 0.0);
      assert Filling(p, q, n, 0) == init + [r];
      FillFirst(p, q, n - 1);
      LastStep(init, r);
      OwnClaim(Limit(init).buckets, p, n - 1);
    }
  }

  lemma FreshClaim(b: Buckets, q: Policy, c: Client)
    requires |b.clients| <= SWEEP_THRESHOLD && (q, c) !in b.clients
    ensures
      var b' := Claim(b, Request(q, c, 0.0)).0;
      && b'.clients.Keys == b.clients.Keys + {(q, c)}
      && |b'.clients| == |b.clients| + 1
      && (forall k :: k in b.clients ==> b'.clients[k] == b.clients[k])
      && (forall p :: p in b.globals && p != q ==> p in b'.globals && b'.globals[p] == b.globals[p])
  {
    var b' := Claim(b, Request(q, c, 0.0)).0;
    assert b'.clients.Keys == b.clients.Keys + {(q, c)};
    assert |b'.clients| == |b'.clients.Keys| == |b.clients.Keys| + 1;
  }

  ghost predicate Filled(b: Buckets, p: Policy, q: Policy, m: nat) {
    && Get(b.globals, p) == Zeros(p.perClient)
    && Get(b.clients, (p, 0)) == Zeros(p.perClient)
    && |b.clients| == m + 1
    && (forall k :: k in b.clients ==> k == (p, 0) || (k.0 == q && k.1 <= m))
  }

  lemma FillOne(b: Buckets, p: Policy, q: Policy, m: nat)
    requires p != q && m < SWEEP_THRESHOLD && Filled(b, p, q, m)
    ensures Filled(Claim(b, Request(q, m + 1, 0.0)).0, p, q, m + 1)
  {
    assert (p, 0) in b.clients && p in b.globals by {
      assert Zeros(p.perClient) != [];
    }
    FreshClaim(b, q, m + 1);
  }

  /** Fresh clients claim under `q` until the next claim will sweep. */
  lemma {:induction false} FillRest(p: Policy, q: Policy, m: nat)
    requires p != q && p.perClient < p.globalLimit && m <= SWEEP_THRESHOLD
    ensures Filled(Limit(Filling(p, q, p.perClient, m)).buckets, p, q, m)
  {
    if m == 0 {
      FillFirst(p, q, p.perClient);
      var b := Limit(Filling(p, q, p.perClient, 0)).buckets;
      assert |b.clients| == |b.clients.Keys| == |{(p, 0 as Client)}| == 1;
    } else {
      var init, r := Filling(p, q, p.perClient, m - 1), Request(q, m, 0.0);
      assert Filling(p, q, p.perClient, m) == init + [r];
      FillRest(p, q, m - 1);
      LastStep(init, r);
      FillOne(Limit(init).buckets, p, q, m - 1);
    }
  }

  lemma LogSees(log: seq<Request>, r: Request, p: Policy, who: Option<Client>, cutoff: real, admitted: bool)
    ensures Calls(Logged(log, r, admitted), p, who, cutoff)
         == Calls(log, p, who, cutoff) + if admitted && Matches(r, p, who) && r.at > cutoff then [r.at] else []
  {
    assert (log + [r])[..|log|] == log;
    assert Calls(log, p, who, cutoff) + [] == Calls(log, p, who, cutoff);
  }

  lemma {:induction false} LogFillFirst(p: Policy, q: Policy, n: nat, cutoff: real)
    requires n <= p.perClient < p.globalLimit && cutoff < 0.0
    ensures
      var log := Refer(Filling(p, q, n, 0)).log;
      && Calls(log, p, None, cutoff) == Zeros(n)
      && Calls(log, p, Some(0), cutoff) == Zeros(n)
  {
    if n == 0 {
      assert Filling(p, q, 0, 0) == [];
    } else {
      var init, r := Filling(p, q, n - 1, 0), Request(p, 0, 0.0);
      assert Filling(p, q, n, 0) == init + [r];
      LogFillFirst(p, q, n - 1, cutoff);
      LogFillFirst(p, q, n - 1, Cutoff(p, 0.0));
      LastStep(init, r);
      ZerosStep(n, 0.0);
      LogSees(Refer(init).log, r, p, None, cutoff, true);
      LogSees(Refer(init).log, r, p, Some(0), cutoff, true);
    }
  }

  /** Nothing later in the run adds to, or removes from, what the log holds of client 0. */
  lemma {:induction false} LogFillRest(p: Policy, q: Policy, m: nat, cutoff: real)
    requires p != q && p.perClient < p.globalLimit && cutoff < 0.0
    ensures Calls(Refer(Filling(p, q, p.perClient, m)).log, p, Some(0), cutoff) == Zeros(p.perClient)
  {
    if m == 0 {
      LogFillFirst(p, q, p.perClient, cutoff);
    } else {
      var init, r := Filling(p, q, p.perClient, m - 1), Request(q, m, 0.0);
      assert Filling(p, q, p.perClient, m) == init + [r];
      LogFillRest(p, q, m - 1, cutoff);
      LastStep(init, r);
      LogSees(Refer(init).log, r, p, Some(0), cutoff, LogVerdict(Refer(init).log, r).None?);
    }
  }

  lemma FillingShape(p: Policy, q: Policy, policies: set<Policy>)
    requires p in policies && q in policies
    ensures Clocked(Exposing(p, q)) && Over(Exposing(p, q), policies)
  {
    var filling := Filling(p, q, p.perClient, SWEEP_THRESHOLD);
    assert forall r :: r in filling ==> r.at == 0.0 && r.policy in policies;
  }

  lemma {:induction false} VerdictCount(run: seq<Request>)
    ensures |Limit(run).verdicts| == |Refer(run).verdicts| == |run|
  {
    if run != [] {
      VerdictCount(run[..|run| - 1]);
    }
  }

  /** One sweep under `q` after its window forgets client 0's claims under `p`. */
  lemma SweepForgets(b: Buckets, p: Policy, q: Policy)
    requires p != q && |b.clients| > SWEEP_THRESHOLD
    requires Get(b.clients, (p, 0)) == Zeros(p.perClient)
    ensures
      var b' := Claim(b, Request(q, 0, q.windowSeconds as real)).0;
      Get(b'.clients, (p, 0)) == [] && Get(b'.globals, p) == Get(b.globals, p)
  {
    DiscardZeros(p.perClient, Cutoff(q, q.windowSeconds as real));
  }

  lemma ForgottenAdmits(b: Buckets, p: Policy, at: real)
    requires at < p.windowSeconds as real && p.perClient < p.globalLimit
    requires Get(b.clients, (p, 0)) == [] && Get(b.globals, p) == Zeros(p.perClient)
    ensures Claim(b, Request(p, 0, at)).1.None?
  {
    DiscardZeros(p.perClient, Cutoff(p, at));
    SweepGet(b.clients, (p, 0), Cutoff(p, at));
  }

  lemma LimiterForgets(p: Policy, q: Policy, filling: seq<Request>, at: real)
    requires q.windowSeconds < p.windowSeconds && p.perClient < p.globalLimit
    requires filling == Filling(p, q, p.perClient, SWEEP_THRESHOLD) && at == q.windowSeconds as real
    ensures Claim(Limit(filling + [Request(q, 0, at)]).buckets, Request(p, 0, at)).1.None?
  {
    LastStep(filling, Request(q, 0, at));
    FillRest(p, q, SWEEP_THRESHOLD);
    SweepForgets(Limit(filling).buckets, p, q);
    ForgottenAdmits(Limit(filling + [Request(q, 0, at)]).buckets, p, at);
  }

  lemma FullClientRejects(log: seq<Request>, r: Request)
    requires |Calls(log, r.policy, Some(r.client), Cutoff(r.policy, r.at))| >= r.policy.perClient
    ensures LogVerdict(log, r).Some?
  {}

  lemma LogRemembers(p: Policy, q: Policy, filling: seq<Request>, at: real)
    requires q.windowSeconds < p.windowSeconds && p.perClient < p.globalLimit
    requires filling == Filling(p, q, p.perClient, SWEEP_THRESHOLD) && at == q.windowSeconds as real
    ensures LogVerdict(Refer(filling + [Request(q, 0, at)]).log, Request(p, 0, at)).Some?
  {
    var other, log := Request(q, 0, at), Refer(filling).log;
    var admitted := LogVerdict(log, other).None?;
    LastStep(filling, other);
    assert |Calls(Logged(log, other, admitted), p, Some(0), Cutoff(p, at))| == p.perClient by {
      LogFillRest(p, q, SWEEP_THRESHOLD, Cutoff(p, at));
      LogSees(log, other, p, Some(0), Cutoff(p, at), admitted);
    }
    FullClientRejects(Logged(log, other, admitted), Request(p, 0, at));
  }

  /** The run on which the two limiters part: the log still counts client 0's claims, the limiter swept them away. */
  lemma ExposingDiffers(p: Policy, q: Policy)
    requires q.windowSeconds < p.windowSeconds && p.perClient < p.globalLimit
    ensures Limit(Exposing(p, q)).verdicts != Refer(Exposing(p, q)).verdicts
  {
    var at := q.windowSeconds as real;
    var filling := Filling(p, q, p.perClient, SWEEP_THRESHOLD);
    var init, mine := filling + [Request(q, 0, at)], Request(p, 0, at);
    assert Exposing(p, q) == init + [mine];
    LastStep(init, mine);
    LimiterForgets(p, q, filling, at);
    LogRemembers(p, q, filling, at);
    VerdictCount(init);
    assert Limit(init + [mine]).verdicts[|init|] != Refer(init + [mine]).verdicts[|init|];
  }

  ghost predicate SameDecisions(run: seq<Request>) {
    Limit(run).verdicts == Refer(run).verdicts
  }

  /** Exactly the safe families of policies are limited as if nothing were ever forgotten. */
  lemma SweepInvisibleIff(policies: set<Policy>)
    ensures SweepSafe(policies)
       <==> forall run :: Clocked(run) && Over(run, policies) ==> SameDecisions(run)
  {
    if SweepSafe(policies) {
      forall run | Clocked(run) && Over(run, policies) ensures SameDecisions(run) {
        LimiterRefinesLog(run, policies);
      }
    } else {
      var p, q :| p in policies && q in policies && q.windowSeconds < p.windowSeconds && p.perClient < p.globalLimit;
      FillingShape(p, q, policies);
      ExposingDiffers(p, q);
      assert !SameDecisions(Exposing(p, q));
    }
  }

  lemma {:induction false} AdmitsFirst(p: Policy, q: Policy, n: nat, cutoff: real)
    requires n <= p.perClient < p.globalLimit && cutoff < 0.0
    ensures Calls(Limit(Filling(p, q, n, 0)).log, p, Some(0), cutoff) == Zeros(n)
  {
    if n == 0 {
      assert Filling(p, q, 0, 0) == [];
    } else {
      var init, r := Filling(p, q, n - 1, 0), Request(p, 0, 0.0);
      assert Filling(p, q, n, 0) == init + [r];
      AdmitsFirst(p, q, n - 1, cutoff);
      FillFirst(p, q, n - 1);
      OwnClaim(Limit(init).buckets, p, n - 1);
      LastAdmission(init, r);
      ZerosStep(n, 0.0);
      LogSees(Limit(init).log, r, p, Some(0), cutoff, true);
    }
  }

  lemma {:induction false} AdmitsRest(p: Policy, q: Policy, m: nat, cutoff: real)
    requires p != q && p.perClient < p.globalLimit && cutoff < 0.0
    ensures Calls(Limit(Filling(p, q, p.perClient, m)).log, p, Some(0), cutoff) == Zeros(p.perClient)
  {
    if m == 0 {
      AdmitsFirst(p, q, p.perClient, cutoff);
    } else {
      var init, r := Filling(p, q, p.perClient, m - 1), Request(q, m, 0.0);
      assert Filling(p, q, p.perClient, m) == init + [r];
      AdmitsRest(p, q, m - 1, cutoff);
      LastAdmission(init, r);
      LogSees(Limit(init).log, r, p, Some(0), cutoff, Claim(Limit(init).buckets, r).1.None?);
    }
  }

  /** On the exposing run one client is admitted once more than its limit within one window. */
  lemma ExposingExceeds(p: Policy, q: Policy)
    requires q.windowSeconds < p.windowSeconds && p.perClient < p.globalLimit
    ensures
      var at := q.windowSeconds as real;
      Span(Limit(Exposing(p, q)).log, p, Some(0), Cutoff(p, at), at) == p.perClient + 1
  {
    var at := q.windowSeconds as real;
    var filling, other, mine := Filling(p, q, p.perClient, SWEEP_THRESHOLD), Request(q, 0, at), Request(p, 0, at);
    var init := filling + [other];
    assert Exposing(p, q) == init + [mine];
    AdmitsRest(p, q, SWEEP_THRESHOLD, Cutoff(p, at));
    LastAdmission(filling, other);
    LogSees(Limit(filling).log, other, p, Some(0), Cutoff(p, at), Claim(Limit(filling).buckets, other).1.None?);
    LimiterForgets(p, q, filling, at);
    LastAdmission(init, mine);
    LogSees(Limit(init).log, mine, p, Some(0), Cutoff(p, at), true);
    FillingShape(p, q, {p, q});
    LimitTracks(Exposing(p, q), mine, {p, q});
    SpanWithinCalls(Limit(Exposing(p, q)).log, p, Some(0), Cutoff(p, at), Cutoff(p, at), at);
  }

  /** No client is admitted beyond its limit within any one window. */
  ghost predicate ClientsLimited(run: seq<Request>) {
    forall p: Policy, c: Client, lo: real, hi: real :: hi <= lo + p.windowSeconds as real ==>
      Span(Limit(run).log, p, Some(c), lo, hi) <= p.perClient
  }

  /** The per-client limit holds over every run exactly for the safe families of policies. */
  lemma ClientLimitIff(policies: set<Policy>)
    ensures SweepSafe(policies)
       <==> forall run :: Clocked(run) && Over(run, policies) ==> ClientsLimited(run)
  {
    if SweepSafe(policies) {
      forall run | Clocked(run) && Over(run, policies) ensures ClientsLimited(run) {
        forall p: Policy, c: Client, lo: real, hi: real | hi <= lo + p.windowSeconds as real
          ensures Span(Limit(run).log, p, Some(c), lo, hi) <= p.perClient
        {
          ClientLimitHolds(run, policies, p, c, lo, hi);
        }
      }
    } else {
      var p, q :| p in policies && q in policies && q.windowSeconds < p.windowSeconds && p.perClient < p.globalLimit;
      FillingShape(p, q, policies);
      ExposingExceeds(p, q);
      assert !ClientsLimited(Exposing(p, q));
    }
  }

  // ------------------------------------------------------------------
  // The shipped policies
  // ------------------------------------------------------------------

  function Minute(httpMethod: string, pathPrefix: string, perClient: int, globalLimit: int): Policy
    requires perClient > 0 && globalLimit > 0
  {
    PolicyFields(httpMethod, pathPrefix, perClient, globalLimit, 60)
  }

  const DEFAULT_POLICIES: set<Policy> := {
    Minute("POST", "/v1/ask", 6, 30),
    Minute("GET", "/v1/events/", 12, 60),
    Minute("GET", "/v1/regions/", 30, 120),
    Minute("GET", "/v1/grid/timeline", 60, 300),
    Minute("GET", "/v1/export", 6, 30),
    Minute("GET", "/v1/briefing/today", 30, 120),
    Minute("GET", "/v1/sources/status", 30, 120),
    Minute("GET", "/v1/forecasts/verification", 12, 60),
    Minute("GET", "/v1/game/", 12, 60)
  }

  /** All of them share one window, so the sweep never shows: every run is decided as by the full log, and
      within any minute no limit is exceeded. */
  lemma DefaultsAreExact(run: seq<Request>, p: Policy, c: Client, lo: real, hi: real)
    requires Clocked(run) && Over(run, DEFAULT_POLICIES)
    requires p in DEFAULT_POLICIES && hi <= lo + 60.0
    ensures SameDecisions(run)
    ensures Span(Limit(run).log, p, None, lo, hi) <= p.globalLimit
    ensures Span(Limit(run).log, p, Some(c), lo, hi) <= p.perClient
  {
    assert SweepSafe(DEFAULT_POLICIES);
    LimiterRefinesLog(run, DEFAULT_POLICIES);
    GlobalLimitHolds(run, p, lo, hi);
    ClientLimitHolds(run, DEFAULT_POLICIES, p, c, lo, hi);
  }
}
