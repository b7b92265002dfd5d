/** Retry-After.  For every family of policies it is between 1 and the window, it
    is the least such number of seconds that reaches the claim's freeing instant,
    and from that instant on the claim is admitted if nobody else took the room.
    That nothing is admitted before that instant holds exactly for the families
    whose sweep is safe. */
module RateLimitRetry {
  import opened Basics
  import opened RateLimit
  import opened RateLimitLog
  import opened RateLimitSweep

  // ------------------------------------------------------------------
  // What a claim sees
  // ------------------------------------------------------------------

  lemma {:induction false} CallsRange(log: seq<Request>, p: Policy, who: Option<Client>, cutoff: real, now: real)
    requires Before(log, now)
    ensures forall x :: x in Calls(log, p, who, cutoff) ==> cutoff < x <= now
  {
    if log != [] {
      CallsRange(log[..|log| - 1], p, who, cutoff, now);
    }
  }

  function PoliciesOf(run: seq<Request>): set<Policy> {
    set r | r in run :: r.policy
  }

  lemma ClockedPrefix(run: seq<Request>, more: seq<Request>)
    requires Clocked(run + more)
    ensures Clocked(run)
    ensures more != [] ==> Latest(run, more[0]) <= more[0].at
  {
    assert forall i :: 0 <= i < |run| ==> (run + more)[i] == run[i];
    if more != [] && run != [] {
      assert (run + more)[|run| - 1].at <= (run + more)[|run|].at;
    }
  }

  lemma LogInTime(run: seq<Request>, r: Request)
    requires Clocked(run + [r])
    ensures Clocked(Limit(run).log) && Before(Limit(run).log, r.at)
  {
    ClockedPrefix(run, [r]);
    LimitTracks(run, r, PoliciesOf(run));
  }

  /** What the claim `r` sees after the run, in terms of the log. */
  lemma Sees(run: seq<Request>, r: Request, policies: set<Policy>)
    requires Clocked(run + [r]) && Over(run, policies)
    ensures
      var b, log, cutoff := Limit(run).buckets, Limit(run).log, Cutoff(r.policy, r.at);
      && SeenGlobal(b, r) == Calls(log, r.policy, None, cutoff)
      && Suffix(SeenClient(b, r), Calls(log, r.policy, Some(r.client), cutoff))
      && (Exact(r.policy, policies) ==> SeenClient(b, r) == Calls(log, r.policy, Some(r.client), cutoff))
  {
    ClockedPrefix(run, [r]);
    LimitTracks(run, r, policies);
    ClaimReads(Limit(run).buckets, Limit(run).log, r, Latest(run, r), policies);
  }

  lemma SeesUnexpired(run: seq<Request>, r: Request)
    requires Clocked(run + [r])
    ensures forall x :: x in SeenGlobal(Limit(run).buckets, r) ==> Cutoff(r.policy, r.at) < x <= r.at
    ensures forall x :: x in SeenClient(Limit(run).buckets, r) ==> Cutoff(r.policy, r.at) < x <= r.at
  {
    var log, cutoff := Limit(run).log, Cutoff(r.policy, r.at);
    LogInTime(run, r);
    Sees(run, r, PoliciesOf(run));
    CallsRange(log, r.policy, None, cutoff, r.at);
    CallsRange(log, r.policy, Some(r.client), cutoff, r.at);
    SuffixWithin(SeenClient(Limit(run).buckets, r), Calls(log, r.policy, Some(r.client), cutoff));
  }

  lemma SuffixWithin(a: seq<real>, b: seq<real>)
    requires Suffix(a, b)
    ensures forall x :: x in a ==> x in b
  {}

  lemma RetryIsLeast(p: Policy, g: seq<real>, c: seq<real>, now: real)
    requires RetryAt(p, g, c).Some?
    requires forall x :: x in g ==> Cutoff(p, now) < x <= now
    requires forall x :: x in c ==> Cutoff(p, now) < x <= now
    ensures
      var freed, n := RetryAt(p, g, c).value, Verdict(RetryAt(p, g, c), now).value;
      && now < freed <= now + p.windowSeconds as real
      && 1 <= n <= p.windowSeconds
      && freed <= now + n as real
      && (n > 1 ==> now + (n - 1) as real < freed)
  {
    assert g != [] ==> g[0] in g;
    assert c != [] ==> c[0] in c;
  }

  /** A claim is rejected exactly when it sees a full list; then Retry-After is between 1 and the window, and is
      the least such number of seconds that reaches the freeing instant. */
  lemma RetryAfterReaches(before: seq<Request>, r: Request)
    requires Clocked(before + [r])
    ensures
      var b := Limit(before).buckets;
      var v, freed := Claim(b, r).1, FreedAt(b, r);
      && (v.Some? <==> |SeenGlobal(b, r)| >= r.policy.globalLimit || |SeenClient(b, r)| >= r.policy.perClient)
      && (v.Some? <==> freed.Some?)
      && (v.Some? ==>
           && r.at < freed.value <= r.at + v.value as real
           && (v.value > 1 ==> r.at + (v.value - 1) as real < freed.value)
           && 1 <= v.value <= r.policy.windowSeconds)
  {
    var b := Limit(before).buckets;
    SeesUnexpired(before, r);
    if FreedAt(b, r).Some? {
      RetryIsLeast(r.policy, SeenGlobal(b, r), SeenClient(b, r), r.at);
    }
  }

  // ------------------------------------------------------------------
  // No list outgrows its limit
  // ------------------------------------------------------------------

  ghost predicate Bounded(b: Buckets) {
    && (forall p: Policy :: |Get(b.globals, p)| <= p.globalLimit)
    && (forall p: Policy, c: Client :: |Get(b.clients, (p, c))| <= p.perClient)
  }

  /** The two lists of `r` after its claim. */
  lemma OwnLists(b: Buckets, r: Request)
    ensures
      var (b', v) := Claim(b, r);
      && Get(b'.globals, r.policy) == SeenGlobal(b, r) + Extra(r, v.None?)
      && Get(b'.clients, (r.policy, r.client)) == SeenClient(b, r) + Extra(r, v.None?)
      && (forall p :: p != r.policy ==> Get(b'.globals, p) == Get(b.globals, p))
  {}

  lemma SeenIsSuffix(b: Buckets, r: Request)
    ensures Suffix(SeenGlobal(b, r), Get(b.globals, r.policy))
    ensures Suffix(SeenClient(b, r), Get(b.clients, (r.policy, r.client)))
  {
    var cutoff, key := Cutoff(r.policy, r.at), (r.policy, r.client);
    DiscardIsSuffix(Get(b.globals, r.policy), cutoff);
    DiscardIsSuffix(Get(b.clients, key), cutoff);
    SweptIsSuffix(b.clients, key, cutoff);
    DiscardIsSuffix(Get(Sweep(b.clients, cutoff), key), cutoff);
  }

  lemma SweptIsSuffix(clients: map<(Policy, Client), seq<real>>, k: (Policy, Client), cutoff: real)
    ensures Suffix(Get(Sweep(clients, cutoff), k), Get(clients, k))
  {
    SweepGet(clients, k, cutoff);
    DiscardIsSuffix(Get(clients, k), cutoff);
  }

  lemma ClaimBounds(b: Buckets, r: Request)
    requires Bounded(b)
    ensures Bounded(Claim(b, r).0)
  {
    var b' := Claim(b, r).0;
    OwnLists(b, r);
    SeenIsSuffix(b, r);
    forall p: Policy, c: Client ensures |Get(b'.clients, (p, c))| <= p.perClient {
      if p != r.policy || c != r.client {
        ClaimGet(b, r, p, c);
        SweptIsSuffix(b.clients, (p, c), Cutoff(r.policy, r.at));
      }
    }
  }

  lemma {:induction false} LimitBounds(run: seq<Request>)
    ensures Bounded(Limit(run).buckets)
  {
    if run != [] {
      LimitBounds(run[..|run| - 1]);
      ClaimBounds(Limit(run[..|run| - 1]).buckets, run[|run| - 1]);
    }
  }

  lemma SeenBounds(run: seq<Request>, r: Request)
    ensures |SeenGlobal(Limit(run).buckets, r)| <= r.policy.globalLimit
    ensures |SeenClient(Limit(run).buckets, r)| <= r.policy.perClient
  {
    LimitBounds(run);
    SeenIsSuffix(Limit(run).buckets, r);
  }

  // ------------------------------------------------------------------
  // From the freeing instant on: admitted, if nobody took the room
  // ------------------------------------------------------------------

  /** Later requests only append to the log. */
  lemma {:induction false} LimitExtends(before: seq<Request>, more: seq<Request>)
    ensures Limit(before).log <= Limit(before + more).log
  {
    if more == [] {
      assert before + more == before;
    } else {
      var init, e := more[..|more| - 1], more[|more| - 1];
      assert before + more == (before + init) + [e];
      LimitExtends(before, init);
      LastAdmission(before + init, e);
    }
  }

  /** The run that goes on after the claim `r`. */
  function After(before: seq<Request>, r: Request, between: seq<Request>): seq<Request> {
    before + [r] + between
  }

  lemma AfterStep(before: seq<Request>, r: Request, between: seq<Request>, e: Request)
    ensures After(before, r, between + [e]) == After(before, r, between) + [e]
  {}

  lemma AfterExtends(before: seq<Request>, r: Request, between: seq<Request>)
    ensures Limit(before).log <= Limit(After(before, r, between)).log
  {
    assert After(before, r, between) == before + ([r] + between);
    LimitExtends(before, [r] + between);
  }

  /** What was admitted from the claim `r` on. */
  function Meanwhile(before: seq<Request>, r: Request, between: seq<Request>): seq<Request> {
    AfterExtends(before, r, between);
    Limit(After(before, r, between)).log[|Limit(before).log|..]
  }

  ghost predicate NobodyElse(before: seq<Request>, r: Request, between: seq<Request>) {
    forall e :: e in Meanwhile(before, r, between) ==> e.policy != r.policy
  }

  /** The two lists of `r` have only lost times since it saw them. */
  ghost predicate OnlyLost(now: Buckets, b: Buckets, r: Request) {
    && Suffix(Get(now.globals, r.policy), SeenGlobal(b, r))
    && Suffix(Get(now.clients, (r.policy, r.client)), SeenClient(b, r))
  }

  lemma SuffixOfSuffix(x: seq<real>, y: seq<real>, z: seq<real>)
    requires Suffix(x, y) && Suffix(y, z)
    ensures Suffix(x, z)
  {}

  lemma LosesMore(now: Buckets, b: Buckets, r: Request, e: Request)
    requires OnlyLost(now, b, r) && (e.policy == r.policy ==> Claim(now, e).1.Some?)
    ensures OnlyLost(Claim(now, e).0, b, r)
  {
    var next, key := Claim(now, e).0, (r.policy, r.client);
    OwnLists(now, e);
    SeenIsSuffix(now, e);
    assert forall x: seq<real> :: x + [] == x;
    SuffixOfSuffix(Get(next.globals, r.policy), Get(now.globals, r.policy), SeenGlobal(b, r));
    if e.policy != r.policy || e.client != r.client {
      ClaimGet(now, e, r.policy, r.client);
      SweptIsSuffix(now.clients, key, Cutoff(e.policy, e.at));
    }
    SuffixOfSuffix(Get(next.clients, key), Get(now.clients, key), SeenClient(b, r));
  }

  lemma MeanwhileStep(before: seq<Request>, r: Request, between: seq<Request>, e: Request)
    ensures
      var admitted := Claim(Limit(After(before, r, between)).buckets, e).1.None?;
      Meanwhile(before, r, between + [e]) == Logged(Meanwhile(before, r, between), e, admitted)
  {
    AfterStep(before, r, between, e);
    AfterExtends(before, r, between);
    LastAdmission(After(before, r, between), e);
  }

  lemma NobodyStep(before: seq<Request>, r: Request, between: seq<Request>, e: Request)
    requires NobodyElse(before, r, between + [e])
    ensures NobodyElse(before, r, between)
    ensures e.policy == r.policy ==> Claim(Limit(After(before, r, between)).buckets, e).1.Some?
  {
    MeanwhileStep(before, r, between, e);
    if Claim(Limit(After(before, r, between)).buckets, e).1.None? {
      assert e in Meanwhile(before, r, between + [e]);
    }
  }

  lemma RejectedKeeps(b: Buckets, r: Request)
    requires Claim(b, r).1.Some?
    ensures OnlyLost(Claim(b, r).0, b, r)
  {
    OwnLists(b, r);
    assert forall x: seq<real> :: x + [] == x;
  }

  lemma {:induction false} RejectedThenLost(before: seq<Request>, r: Request, between: seq<Request>)
    requires FreedAt(Limit(before).buckets, r).Some? && NobodyElse(before, r, between)
    ensures OnlyLost(Limit(After(before, r, between)).buckets, Limit(before).buckets, r)
  {
    if between == [] {
      assert After(before, r, between) == before + [r];
      LastStep(before, r);
      RejectedKeeps(Limit(before).buckets, r);
    } else {
      var init, e := between[..|between| - 1], between[|between| - 1];
      assert between == init + [e];
      NobodyStep(before, r, init, e);
      RejectedThenLost(before, r, init);
      AfterStep(before, r, init, e);
      LastStep(After(before, r, init), e);
      LosesMore(Limit(After(before, r, init)).buckets, Limit(before).buckets, r, e);
    }
  }

  /** A list that was not full, or whose first time expires, has room in whatever is left of it. */
  lemma HasRoom(seen: seq<real>, left: seq<real>, limit: int, cutoff: real)
    requires Suffix(left, seen) && 0 < limit && |seen| <= limit
    requires |seen| == limit ==> seen[0] <= cutoff
    ensures |Discard(left, cutoff)| < limit
  {
    DiscardIsSuffix(left, cutoff);
    if |left| == limit {
      assert left == seen;
      DiscardIsSuffix(left[1..], cutoff);
    }
  }

  lemma RoomAgain(now: Buckets, b: Buckets, r: Request, t: real)
    requires OnlyLost(now, b, r) && FreedAt(b, r).Some? && t >= FreedAt(b, r).value
    requires |SeenGlobal(b, r)| <= r.policy.globalLimit && |SeenClient(b, r)| <= r.policy.perClient
    ensures Claim(now, r.(at := t)).1.None?
  {
    var p, key, cutoff := r.policy, (r.policy, r.client), Cutoff(r.policy, t);
    SweptIsSuffix(now.clients, key, cutoff);
    SuffixOfSuffix(Get(Sweep(now.clients, cutoff), key), Get(now.clients, key), SeenClient(b, r));
    HasRoom(SeenGlobal(b, r), Get(now.globals, p), p.globalLimit, cutoff);
    HasRoom(SeenClient(b, r), Get(Sweep(now.clients, cutoff), key), p.perClient, cutoff);
  }

  /** For every family of policies. */
  lemma FreedThenAdmitted(before: seq<Request>, r: Request, between: seq<Request>, t: real)
    requires FreedAt(Limit(before).buckets, r).Some? && t >= FreedAt(Limit(before).buckets, r).value
    requires NobodyElse(before, r, between)
    ensures Claim(Limit(After(before, r, between)).buckets, r.(at := t)).1.None?
  {
    SeenBounds(before, r);
    RejectedThenLost(before, r, between);
    RoomAgain(Limit(After(before, r, between)).buckets, Limit(before).buckets, r, t);
  }

  // ------------------------------------------------------------------
  // Before the freeing instant: rejected, unless the policy is exposed
  // ------------------------------------------------------------------

  /** On a log in time order, a later cutoff pops from the front. */
  lemma {:induction false} CallsTail(log: seq<Request>, p: Policy, who: Option<Client>, c1: real, c2: real)
    requires Clocked(log) && c1 <= c2
    ensures Calls(log, p, who, c2) == Discard(Calls(log, p, who, c1), c2)
  {
    if log != [] {
      var init, e := log[..|log| - 1], log[|log| - 1];
      CallsTail(init, p, who, c1, c2);
      assert forall c :: Calls(init, p, who, c) + [] == Calls(init, p, who, c);
      if Matches(e, p, who) && e.at > c1 {
        DiscardAppend(Calls(init, p, who, c1), e.at, c2);
        if e.at <= c2 {
          CallsExpired(init, p, who, c2);
        }
      }
    }
  }

  /** Admitting `more` takes no time away. */
  lemma {:induction false} CallsGrow(log: seq<Request>, more: seq<Request>, p: Policy, who: Option<Client>,
                                     cutoff: real)
    ensures |Calls(log + more, p, who, cutoff)| >= |Calls(log, p, who, cutoff)|
  {
    if more == [] {
      assert log + more == log;
    } else {
      var init, e := more[..|more| - 1], more[|more| - 1];
      CallsGrow(log, init, p, who, cutoff);
      LogSees(log + init, e, p, who, cutoff, true);
      assert log + more == log + init + [e];
    }
  }

  /** As long as its first time is unexpired, a full list of the log stays full. */
  lemma StaysFull(log: seq<Request>, later: seq<Request>, p: Policy, who: Option<Client>, c1: real, c2: real,
                  limit: int)
    requires Clocked(log) && c1 <= c2 && log <= later
    requires 0 < limit <= |Calls(log, p, who, c1)| && Calls(log, p, who, c1)[0] > c2
    ensures |Calls(later, p, who, c2)| >= limit
  {
    assert later == log + later[|log|..];
    CallsTail(log, p, who, c1, c2);
    CallsGrow(log, later[|log|..], p, who, c2);
  }

  /** The freeing instant that such a claim reads is the log's. */
  lemma FreedIsLogs(run: seq<Request>, r: Request, policies: set<Policy>)
    requires Clocked(run + [r]) && Over(run, policies) && !Exposed(r.policy, policies)
    ensures FreedAt(Limit(run).buckets, r) == LogRetryAt(Limit(run).log, r)
  {
    ClockedPrefix(run, [r]);
    LimitTracks(run, r, policies);
    LimitSpacesGlobal(run, policies, r.policy);
    LogInTime(run, r);
    UnexposedReads(Limit(run).buckets, Limit(run).log, r, Latest(run, r), policies);
  }

  lemma LogBlocks(log: seq<Request>, later: seq<Request>, r: Request, t: real)
    requires Clocked(log) && log <= later && r.at <= t
    requires LogRetryAt(log, r).Some? && t < LogRetryAt(log, r).value
    ensures LogRetryAt(later, r.(at := t)).Some?
  {
    var p, c1, c2 := r.policy, Cutoff(r.policy, r.at), Cutoff(r.policy, t);
    var g := Calls(log, p, None, c1);
    if |g| >= p.globalLimit && g[0] > c2 {
      StaysFull(log, later, p, None, c1, c2, p.globalLimit);
    } else {
      StaysFull(log, later, p, Some(r.client), c1, c2, p.perClient);
    }
  }

  /** The client of `r` asks again at `t`. */
  ghost predicate Wait(before: seq<Request>, r: Request, between: seq<Request>, t: real, policies: set<Policy>) {
    Clocked(After(before, r, between) + [r.(at := t)]) && Over(After(before, r, between), policies)
  }

  lemma WaitOver(before: seq<Request>, r: Request, between: seq<Request>, policies: set<Policy>)
    requires Over(After(before, r, between), policies)
    ensures Over(before, policies) && r.policy in policies
  {
    assert After(before, r, between)[|before|] == r;
    forall e | e in before ensures e in After(before, r, between) {}
  }

  lemma WaitClocked(before: seq<Request>, r: Request, between: seq<Request>, last: Request)
    requires Clocked(After(before, r, between) + [last])
    ensures Clocked(before + [r]) && r.at <= last.at
  {
    var run := After(before, r, between) + [last];
    assert run[|before|] == r && run[|run| - 1] == last;
    assert run == (before + [r]) + (between + [last]);
    ClockedPrefix(before + [r], between + [last]);
  }

  /** If `r` was rejected, its client is rejected at every `t` before the freeing instant. */
  ghost predicate Held(before: seq<Request>, r: Request, between: seq<Request>, t: real) {
    var freed := FreedAt(Limit(before).buckets, r);
    freed.Some? && t < freed.value ==> Claim(Limit(After(before, r, between)).buckets, r.(at := t)).1.Some?
  }

  lemma UnexposedHolds(before: seq<Request>, r: Request, between: seq<Request>, t: real, policies: set<Policy>)
    requires Wait(before, r, between, t, policies) && !Exposed(r.policy, policies)
    ensures Held(before, r, between, t)
  {
    var run, log := After(before, r, between), Limit(before).log;
    var freed := FreedAt(Limit(before).buckets, r);
    WaitOver(before, r, between, policies);
    WaitClocked(before, r, between, r.(at := t));
    if freed.Some? && t < freed.value {
      FreedIsLogs(before, r, policies);
      LogInTime(before, r);
      AfterExtends(before, r, between);
      LogBlocks(log, Limit(run).log, r, t);
      FreedIsLogs(run, r.(at := t), policies);
    }
  }

  /** Whatever happens in between, a client rejected under an unexposed policy stays rejected until the
      freeing instant; under any policy it is admitted from then on, if its policy admitted nobody in between. */
  lemma RetryAfterExact(before: seq<Request>, r: Request, between: seq<Request>, t: real, policies: set<Policy>)
    requires Wait(before, r, between, t, policies)
    requires FreedAt(Limit(before).buckets, r).Some?
    ensures
      var freed := FreedAt(Limit(before).buckets, r).value;
      var last := Claim(Limit(After(before, r, between)).buckets, r.(at := t)).1;
      && (t < freed && !Exposed(r.policy, policies) ==> last.Some?)
      && (t >= freed && NobodyElse(before, r, between) ==> last.None?)
  {
    if t >= FreedAt(Limit(before).buckets, r).value {
      if NobodyElse(before, r, between) {
        FreedThenAdmitted(before, r, between, t);
      }
    } else if !Exposed(r.policy, policies) {
      UnexposedHolds(before, r, between, t, policies);
    }
  }

  // ------------------------------------------------------------------
  // An exposed policy admits a rejected client early
  // ------------------------------------------------------------------

  /** Client 0 fills its list under `p`, and one fresh client too few claims under `q` for the next claim to sweep. */
  function Crowd(p: Policy, q: Policy): seq<Request> {
    Filling(p, q, p.perClient, SWEEP_THRESHOLD - 1)
  }

  /** One more fresh client, and a sweep under `q` once its window has passed. */
  function Forgetting(q: Policy): seq<Request> {
    [Request(q, SWEEP_THRESHOLD, 0.0), Request(q, 0, q.windowSeconds as real)]
  }

  /** With both limits as they are, client 0 is rejected at time 0, and that claim changes nothing. */
  lemma FullRejected(b: Buckets, p: Policy, q: Policy, m: nat)
    requires Filled(b, p, q, m) && m < SWEEP_THRESHOLD && p.perClient < p.globalLimit
    ensures FreedAt(b, Request(p, 0, 0.0)) == Some(p.windowSeconds as real)
    ensures Filled(Claim(b, Request(p, 0, 0.0)).0, p, q, m)
  {
    var r := Request(p, 0, 0.0);
    DiscardZeros(p.perClient, Cutoff(p, 0.0));
    assert (p, 0) in b.clients by {
      assert Zeros(p.perClient) != [];
    }
    OwnLists(b, r);
    assert forall x: seq<real> :: x + [] == x;
    assert Claim(b, r).0.clients.Keys == b.clients.Keys;
    assert |Claim(b, r).0.clients.Keys| == |b.clients.Keys|;
  }

  /** Rejected with the whole window to wait, the client is admitted when only the shorter one has passed. */
  lemma AdmittedEarly(p: Policy, q: Policy)
    requires q.windowSeconds < p.windowSeconds && p.perClient < p.globalLimit
    ensures
      var r, at := Request(p, 0, 0.0), q.windowSeconds as real;
      && FreedAt(Limit(Crowd(p, q)).buckets, r) == Some(p.windowSeconds as real)
      && Claim(Limit(After(Crowd(p, q), r, Forgetting(q))).buckets, r.(at := at)).1.None?
  {
    var r, at := Request(p, 0, 0.0), q.windowSeconds as real;
    var rejected := Crowd(p, q) + [r];
    var armed := rejected + [Request(q, SWEEP_THRESHOLD, 0.0)];
    assert rejected + Forgetting(q) == armed + [Request(q, 0, at)];
    FillRest(p, q, SWEEP_THRESHOLD - 1);
    FullRejected(Limit(Crowd(p, q)).buckets, p, q, SWEEP_THRESHOLD - 1);
    LastStep(Crowd(p, q), r);
    FillOne(Limit(rejected).buckets, p, q, SWEEP_THRESHOLD - 1);
    LastStep(rejected, Request(q, SWEEP_THRESHOLD, 0.0));
    SweepForgets(Limit(armed).buckets, p, q);
    LastStep(armed, Request(q, 0, at));
    ForgottenAdmits(Limit(rejected + Forgetting(q)).buckets, p, at);
  }

  lemma EarlyIsAWait(p: Policy, q: Policy, policies: set<Policy>)
    requires p in policies && q in policies
    ensures Wait(Crowd(p, q), Request(p, 0, 0.0), Forgetting(q), q.windowSeconds as real, policies)
  {
    assert forall r :: r in Crowd(p, q) ==> r.at == 0.0 && r.policy in policies;
  }

  lemma ExposedFails(p: Policy, policies: set<Policy>)
    requires p in policies && Exposed(p, policies)
    ensures exists before, r: Request, between, t ::
      r.policy == p && Wait(before, r, between, t, policies) && !Held(before, r, between, t)
  {
    var q :| q in policies && q.windowSeconds < p.windowSeconds;
    var r := Request(p, 0, 0.0);
    EarlyIsAWait(p, q, policies);
    AdmittedEarly(p, q);
    assert !Held(Crowd(p, q), r, Forgetting(q), q.windowSeconds as real);
  }

  /** Policy by policy: a rejected client stays rejected until its freeing instant, over every run, exactly when
      no other policy has a shorter window or the per-client limit is no less than the global one. */
  lemma HeldIffUnexposed(p: Policy, policies: set<Policy>)
    requires p in policies
    ensures !Exposed(p, policies)
       <==> forall before, r: Request, between, t ::
              r.policy == p && Wait(before, r, between, t, policies) ==> Held(before, r, between, t)
  {
    if Exposed(p, policies) {
      ExposedFails(p, policies);
    } else {
      forall before, r: Request, between, t | r.policy == p && Wait(before, r, between, t, policies)
        ensures Held(before, r, between, t)
      {
        UnexposedHolds(before, r, between, t, policies);
      }
    }
  }

  /** For a whole family: exactly when the sweep is safe. */
  lemma HeldIffSafe(policies: set<Policy>)
    ensures SweepSafe(policies)
       <==> forall before, r, between, t :: Wait(before, r, between, t, policies) ==> Held(before, r, between, t)
  {
    SafeIsUnexposed(policies);
    if SweepSafe(policies) {
      forall before, r, between, t | Wait(before, r, between, t, policies) ensures Held(before, r, between, t) {
        WaitOver(before, r, between, policies);
        UnexposedHolds(before, r, between, t, policies);
      }
    } else {
      var p :| p in policies && Exposed(p, policies);
      ExposedFails(p, policies);
    }
  }
}
