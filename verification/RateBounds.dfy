/** What the limiter guarantees over whole runs, on a clock that never goes back. */
module RateBounds {
  import opened RateLimit

  /** The tokens a request at time `t` would find under a key. */
  function Available(p: Policy, levels: Levels, key: Key, t: real): real {
    if key in levels then levels[key].Refilled(t).tokens else Burst(p, key)
  }

  function Burst(p: Policy, key: Key): real {
    Max(1.0, p.LimitOf(key).burst)
  }

  function Rate(p: Policy, key: Key): real {
    Max(0.001, p.LimitOf(key).rate)
  }

  // ------------------------------------------------------------------- one bucket

  lemma EarnsMore(rate: real, a: real, b: real)
    requires rate > 0.0 && a <= b
    ensures Earned(a, rate) <= Earned(b, rate)
    ensures a >= 0.0 ==> Earned(a, rate) >= 0.0
  {
    assert (b - a) * rate >= 0.0;
  }

  lemma EarnsInParts(rate: real, a: real, b: real)
    ensures Earned(a + b, rate) == Earned(a, rate) + Earned(b, rate)
  {
  }

  /** Refilling twice is refilling once. */
  lemma RefillTwice(l: Level, a: real, b: real)
    requires l.Sound() && a <= b
    ensures l.Refilled(a).Refilled(b).tokens == l.Refilled(b).tokens
  {
    hide Earned;
    if a > l.updatedAt {
      EarnsMore(l.rate, a - l.updatedAt, a - l.updatedAt);
      EarnsMore(l.rate, b - a, b - a);
      EarnsInParts(l.rate, a - l.updatedAt, b - a);
    }
  }

  /** A bucket never loses by waiting, and gains at most its rate, which it does until it is full. */
  lemma RefillSlope(l: Level, a: real, b: real)
    requires l.Sound() && a <= b
    ensures l.Refilled(a).tokens <= l.Refilled(b).tokens <= l.Refilled(a).tokens + Earned(b - a, l.rate)
    ensures a >= l.updatedAt ==> l.Refilled(b).tokens == Min(l.burst, l.Refilled(a).tokens + Earned(b - a, l.rate))
  {
    hide Earned;
    EarnsMore(l.rate, b - a, b - a);
    EarnsMore(l.rate, 0.0, 0.0);
    NothingEarned(l.rate);
    if a > l.updatedAt {
      EarnsMore(l.rate, a - l.updatedAt, a - l.updatedAt);
      EarnsInParts(l.rate, a - l.updatedAt, b - a);
    } else if b > l.updatedAt {
      EarnsMore(l.rate, b - l.updatedAt, b - a);
    }
  }

  lemma NothingEarned(rate: real)
    ensures Earned(0.0, rate) == 0.0
  {
  }

  /** What a request finds is what is available. */
  lemma FoundIsAvailable(p: Policy, levels: Levels, key: Key, now: real)
    requires AllSound(p, levels)
    ensures var found := Found(p, levels, key, now);
      && found.tokens == Available(p, levels, key, now) && found.rate == Rate(p, key) && found.burst == Burst(p, key)
      && found.Sound() && (found.updatedAt <= now || (key in levels && found == levels[key]))
  {
    FoundIsSound(p, levels, key, now);
    if key in levels {
      assert SoundAt(p, levels, key);
    }
  }

  lemma AvailableSlope(p: Policy, levels: Levels, key: Key, a: real, b: real)
    requires AllSound(p, levels) && a <= b
    ensures 0.0 <= Available(p, levels, key, a) <= Available(p, levels, key, b) <= Burst(p, key)
    ensures Available(p, levels, key, b) <= Available(p, levels, key, a) + Earned(b - a, Rate(p, key))
  {
    hide Earned;
    EarnsMore(Rate(p, key), b - a, b - a);
    if key in levels {
      assert SoundAt(p, levels, key);
      RefillIsSound(levels[key], a);
      RefillIsSound(levels[key], b);
      RefillSlope(levels[key], a, b);
    }
  }

  // ------------------------------------------------------------------ one request

  lemma WaitsIffShort(p: Policy, levels: Levels, req: Request, scope: Scope)
    requires AllSound(p, levels)
    ensures var short := req.Charge() - Available(p, levels, p.KeyFor(req, scope), req.now);
      && (WaitAt(p, levels, req, scope) > 0.0 <==> short > 0.0)
      && (short > 0.0 ==> Earned(WaitAt(p, levels, req, scope), Rate(p, p.KeyFor(req, scope))) == short)
      && WaitAt(p, levels, req, scope) >= 0.0
  {
    var key := p.KeyFor(req, scope);
    FoundIsAvailable(p, levels, key, req.now);
    Quotient(Max(0.0, req.Charge() - Available(p, levels, key, req.now)), Rate(p, key));
  }

  lemma Quotient(a: real, b: real)
    requires a >= 0.0 && b > 0.0
    ensures a / b >= 0.0 && Earned(a / b, b) == a && (a / b > 0.0 <==> a > 0.0)
  {
  }

  /** A request is admitted exactly when all three of its buckets hold its cost. */
  lemma AdmitsIffAvailable(p: Policy, before: Levels, req: Request, d: Decision, after: Levels)
    requires Steps(p, before, req, d, after)
    ensures d.allowed <==> forall scope :: Available(p, before, p.KeyFor(req, scope), req.now) >= req.Charge()
  {
    hide Visited, Charged, Trimmed, WaitAt, Available;
    WaitsIffShort(p, before, req, Global);
    WaitsIffShort(p, before, req, Subnet);
    WaitsIffShort(p, before, req, Ip);
    forall scope
      ensures WaitAt(p, before, req, scope) > 0.0 <==>
                Available(p, before, p.KeyFor(req, scope), req.now) < req.Charge()
    {
      WaitsIffShort(p, before, req, scope);
    }
    forall scope
      ensures WaitAt(p, before, req, scope) <= Wait(p, before, req)
    {
      match scope
      case Global =>
      case Subnet =>
      case Ip =>
    }
  }

  function Spent(p: Policy, req: Request, d: Decision, key: Key): real {
    if d.allowed && p.Touches(req, key) then req.Charge() else 0.0
  }

  /** The key was not evicted by this request. */
  predicate Stays(p: Policy, before: Levels, req: Request, after: Levels, key: Key) {
    key in before || p.Touches(req, key) ==> key in after
  }

  /** What a request leaves under a key that stays: what it found, less what it was charged. */
  lemma Leaves(p: Policy, before: Levels, req: Request, d: Decision, after: Levels, key: Key)
    requires Steps(p, before, req, d, after) && Stays(p, before, req, after, key)
    ensures if p.Touches(req, key)
            then key in after && after[key] == Found(p, before, key, req.now)
                                                 .(tokens := Available(p, before, key, req.now) - Spent(p, req, d, key))
            else if key in before then key in after && after[key] == before[key]
            else key !in after
  {
    VisitedAt(p, before, req);
    AdmitsIffAvailable(p, before, req, d, after);
    FoundIsAvailable(p, before, key, req.now);
    hide Visited, Found, Available, AllSound, Level.Refilled, Charged;
    var visited := Visited(p, before, req);
    if d.allowed {
      ChargedAt(p, visited, req, key);
      if p.Touches(req, key) {
        assert Available(p, before, p.KeyFor(req, key.scope), req.now) >= req.Charge();
      }
    }
  }

  lemma ChargedAt(p: Policy, levels: Levels, req: Request, key: Key)
    requires forall scope :: p.KeyFor(req, scope) in levels
    ensures Charged(p, levels, req).Keys == levels.Keys
    ensures key in levels ==>
      Charged(p, levels, req)[key] == if p.Touches(req, key) then levels[key].Consumed(req.Charge()) else levels[key]
  {
    hide Level.Consumed;
  }

  lemma StepKeepsSound(p: Policy, before: Levels, req: Request, d: Decision, after: Levels)
    requires Steps(p, before, req, d, after)
    ensures AllSound(p, after)
  {
    VisitedAt(p, before, req);
    hide Visited, AllSound;
    var visited := Visited(p, before, req);
    if d.allowed {
      ChargedSound(p, visited, req);
      KeptSound(p, Charged(p, visited, req), after);
    } else {
      KeptSound(p, visited, after);
    }
  }

  lemma ChargedSound(p: Policy, levels: Levels, req: Request)
    requires AllSound(p, levels) && forall scope :: p.KeyFor(req, scope) in levels
    ensures AllSound(p, Charged(p, levels, req))
  {
    var charged := Charged(p, levels, req);
    forall k | k in charged
      ensures SoundAt(p, charged, k)
    {
      ChargedAt(p, levels, req, k);
      assert SoundAt(p, levels, k);
    }
  }

  lemma KeptSound(p: Policy, levels: Levels, kept: Levels)
    requires AllSound(p, levels) && Evicted(levels, kept)
    ensures AllSound(p, kept)
  {
    forall k | k in kept
      ensures SoundAt(p, kept, k)
    {
      assert SoundAt(p, levels, k);
    }
  }

  lemma RefilledAgain(l: Level, now: real, x: real)
    requires l.Sound()
    ensures l.Refilled(now).(tokens := x).Refilled(now).tokens == x
  {
  }

  lemma FullStaysFull(limit: Limit, now: real, t: real)
    requires now <= t
    ensures Full(limit, now).Refilled(now) == Full(limit, now)
    ensures Full(limit, now).Refilled(t).tokens == Max(1.0, limit.burst)
    ensures forall x :: Full(limit, now).(tokens := x).Refilled(now).tokens == x
  {
    EarnsMore(Max(0.001, limit.rate), t - now, t - now);
  }

  /** What is available under a key that stays, at any time from the request on. */
  lemma AvailableAfter(p: Policy, before: Levels, req: Request, d: Decision, after: Levels, key: Key, t: real)
    requires Steps(p, before, req, d, after) && Stays(p, before, req, after, key) && req.now <= t
    ensures Spent(p, req, d, key) == 0.0 ==> Available(p, after, key, t) == Available(p, before, key, t)
    ensures Available(p, after, key, req.now) == Available(p, before, key, req.now) - Spent(p, req, d, key)
  {
    Leaves(p, before, req, d, after, key);
    hide Steps, AllSound, Spent, Full;
    if p.Touches(req, key) {
      FullStaysFull(p.LimitOf(key), req.now, t);
      if key in before {
        SoundBefore(p, before, req, d, after, key);
        RefillTwice(before[key], req.now, t);
        RefilledAgain(before[key], req.now, Available(p, before, key, req.now) - Spent(p, req, d, key));
        hide Level.Refilled;
        var left := Available(p, before, key, req.now) - Spent(p, req, d, key);
        assert after[key] == before[key].Refilled(req.now).(tokens := left);
      } else {
        hide Level.Refilled;
        NewIsFull(p, before, key, req.now);
      }
    } else {
      NothingSpent(p, req, d, key);
    }
  }

  lemma NewIsFull(p: Policy, levels: Levels, key: Key, now: real)
    requires key !in levels
    ensures Found(p, levels, key, now) == Full(p.LimitOf(key), now)
    ensures Found(p, levels, key, now).tokens == Available(p, levels, key, now)
  {
    FullStaysFull(p.LimitOf(key), now, now);
  }

  lemma NothingSpent(p: Policy, req: Request, d: Decision, key: Key)
    requires !p.Touches(req, key)
    ensures Spent(p, req, d, key) == 0.0
  {
  }

  lemma SoundBefore(p: Policy, before: Levels, req: Request, d: Decision, after: Levels, key: Key)
    requires Steps(p, before, req, d, after) && key in before
    ensures SoundAt(p, before, key)
  {
  }

  /** Denials consume nothing: afterwards every bucket that stays offers what it would have offered. */
  lemma DenialsAreFree(p: Policy, before: Levels, req: Request, d: Decision, after: Levels, key: Key, t: real)
    requires Steps(p, before, req, d, after) && !d.allowed && req.now <= t && Stays(p, before, req, after, key)
    ensures Available(p, after, key, t) == Available(p, before, key, t)
  {
    AvailableAfter(p, before, req, d, after, key, t);
  }

  // ------------------------------------------------------------------- whole runs

  datatype Event = Event(req: Request, decision: Decision, after: Levels)

  predicate Run(p: Policy, start: Levels, events: seq<Event>)
    decreases |events|
  {
    events != [] ==>
      Steps(p, start, events[0].req, events[0].decision, events[0].after) && Run(p, events[0].after, events[1..])
  }

  /** Times never decrease and lie within [from, until]. */
  predicate Within(events: seq<Event>, from: real, until: real)
    decreases |events|
  {
    if events == [] then from <= until
    else from <= events[0].req.now && Within(events[1..], events[0].req.now, until)
  }

  /** How often the key was evicted on the run. */
  function Evictions(p: Policy, start: Levels, events: seq<Event>, key: Key): nat
    decreases |events|
  {
    if events == [] then 0
    else (if Stays(p, start, events[0].req, events[0].after, key) then 0 else 1)
         + Evictions(p, events[0].after, events[1..], key)
  }

  /** The cost admitted under a key. */
  function Admitted(p: Policy, events: seq<Event>, key: Key): real {
    if events == [] then 0.0 else Spent(p, events[0].req, events[0].decision, key) + Admitted(p, events[1..], key)
  }

  /** What is charged was there. */
  lemma SpentWasThere(p: Policy, before: Levels, req: Request, d: Decision, after: Levels, key: Key)
    requires Steps(p, before, req, d, after)
    ensures AllSound(p, before) && Spent(p, req, d, key) <= Available(p, before, key, req.now)
  {
    hide Available;
    AdmitsIffAvailable(p, before, req, d, after);
    AvailableSlope(p, before, key, req.now, req.now);
    assert p.Touches(req, key) && d.allowed ==> Available(p, before, p.KeyFor(req, key.scope), req.now) >= req.Charge();
  }

  /** `n` full bursts. */
  function Refills(p: Policy, key: Key, n: nat): real {
    n as real * Burst(p, key)
  }

  lemma OneMoreRefill(p: Policy, key: Key, n: nat)
    ensures Refills(p, key, n + 1) == Refills(p, key, n) + Burst(p, key) && Refills(p, key, 0) == 0.0
  {
  }

  lemma {:induction false} AdmittedWithinAvailable(p: Policy, start: Levels, events: seq<Event>, key: Key, from: real,
                                                   until: real)
    requires AllSound(p, start) && Run(p, start, events) && Within(events, from, until)
    ensures Admitted(p, events, key) <=
              Available(p, start, key, from) + Earned(until - from, Rate(p, key))
              + Refills(p, key, Evictions(p, start, events, key))
    decreases |events|
  {
    hide Available, AllSound, Steps, Spent, Rate, Earned, Stays, Refills, Burst;
    PositiveRate(p, key);
    AvailableSlope(p, start, key, from, from);
    OneMoreRefill(p, key, 0);
    if events == [] {
      EarnsMore(Rate(p, key), until - from, until - from);
    } else {
      var e := events[0];
      StepKeepsSound(p, start, e.req, e.decision, e.after);
      AdmittedWithinAvailable(p, e.after, events[1..], key, e.req.now, until);
      AvailableSlope(p, start, key, from, e.req.now);
      EarnsInParts(Rate(p, key), e.req.now - from, until - e.req.now);
      assert Within(events[1..], e.req.now, until);
      if Stays(p, start, e.req, e.after, key) {
        AvailableAfter(p, start, e.req, e.decision, e.after, key, e.req.now);
      } else {
        SpentWasThere(p, start, e.req, e.decision, e.after, key);
        AvailableSlope(p, e.after, key, e.req.now, e.req.now);
        OneMoreRefill(p, key, Evictions(p, e.after, events[1..], key));
      }
    }
  }

  lemma PositiveRate(p: Policy, key: Key)
    ensures Rate(p, key) > 0.0
  {
  }

  /** The token-bucket bound: over any run within [from, until], the cost admitted under any key of any
      scope is at most its burst plus its rate over the window, and one burst more for every time the key
      was evicted on the way. */
  lemma WindowBound(p: Policy, start: Levels, events: seq<Event>, key: Key, from: real, until: real)
    requires AllSound(p, start) && Run(p, start, events) && Within(events, from, until)
    ensures Admitted(p, events, key) <=
              (1 + Evictions(p, start, events, key)) as real * Burst(p, key) + Rate(p, key) * (until - from)
  {
    hide Available, AllSound, Rate, Burst, Run, Within, Evictions, Admitted;
    AdmittedWithinAvailable(p, start, events, key, from, until);
    AvailableSlope(p, start, key, from, from);
    OneMoreRefill(p, key, Evictions(p, start, events, key));
    assert Earned(until - from, Rate(p, key)) == Rate(p, key) * (until - from);
  }

  // ------------------------------------------------------- lanes, subnets and addresses

  /** The cost of all admitted requests of a kind, whoever sent them. */
  function AdmittedOf(events: seq<Event>, kind: Request -> bool): real {
    if events == [] then 0.0
    else (if events[0].decision.allowed && kind(events[0].req) then Max(1.0, events[0].req.cost) else 0.0)
         + AdmittedOf(events[1..], kind)
  }

  lemma {:induction false} OfOneKey(p: Policy, events: seq<Event>, kind: Request -> bool, key: Key)
    requires forall req :: kind(req) <==> p.Touches(req, key)
    ensures AdmittedOf(events, kind) == Admitted(p, events, key)
    decreases |events|
  {
    hide Policy.Touches;
    if events != [] {
      OfOneKey(p, events[1..], kind, key);
    }
  }

  /** What a bucket of this limit lets through in a window, and once more for each eviction. */
  function Allowance(limit: Limit, evictions: nat, window: real): real {
    (1 + evictions) as real * Max(1.0, limit.burst) + Max(0.001, limit.rate) * window
  }

  lemma KindBound(p: Policy, start: Levels, events: seq<Event>, kind: Request -> bool, key: Key, from: real,
                  until: real)
    requires AllSound(p, start) && Run(p, start, events) && Within(events, from, until)
    requires forall req :: kind(req) <==> p.Touches(req, key)
    ensures AdmittedOf(events, kind) <=
              Allowance(p.limits(key.lane, key.scope), Evictions(p, start, events, key), until - from)
  {
    hide AllSound, Run, Within, Evictions, Admitted, AdmittedOf, Policy.Touches;
    OfOneKey(p, events, kind, key);
    assert Burst(p, key) == Max(1.0, p.limits(key.lane, key.scope).burst);
    assert Rate(p, key) == Max(0.001, p.limits(key.lane, key.scope).rate);
    hide Burst, Rate, Max;
    WindowBound(p, start, events, key, from, until);
  }

  /** Over any run, all peers together get no more out of a lane than its own bucket gives. */
  lemma LaneBound(p: Policy, start: Levels, events: seq<Event>, lane: Lane, from: real, until: real)
    requires AllSound(p, start) && Run(p, start, events) && Within(events, from, until)
    ensures AdmittedOf(events, (req: Request) => LaneFor(req.bucket) == lane) <=
              Allowance(p.limits(lane, Global), Evictions(p, start, events, Key(Global, lane, "*")), until - from)
  {
    KindBound(p, start, events, (req: Request) => LaneFor(req.bucket) == lane, Key(Global, lane, "*"), from, until);
  }

  /** All peers of a subnet together get no more than the subnet's bucket gives. */
  lemma SubnetBound(p: Policy, start: Levels, events: seq<Event>, lane: Lane, subnet: string, from: real, until: real)
    requires AllSound(p, start) && Run(p, start, events) && Within(events, from, until)
    ensures var kind := (req: Request) => LaneFor(req.bucket) == lane && p.subnetOf(p.ipOf(req.peer)) == subnet;
      AdmittedOf(events, kind) <=
        Allowance(p.limits(lane, Subnet), Evictions(p, start, events, Key(Subnet, lane, subnet)), until - from)
  {
    var kind := (req: Request) => LaneFor(req.bucket) == lane && p.subnetOf(p.ipOf(req.peer)) == subnet;
    KindBound(p, start, events, kind, Key(Subnet, lane, subnet), from, until);
  }

  /** All requests from one address, on whatever connections, get no more than its bucket gives. */
  lemma AddressBound(p: Policy, start: Levels, events: seq<Event>, lane: Lane, ip: string, from: real, until: real)
    requires AllSound(p, start) && Run(p, start, events) && Within(events, from, until)
    ensures var kind := (req: Request) => LaneFor(req.bucket) == lane && p.ipOf(req.peer) == ip;
      AdmittedOf(events, kind) <=
        Allowance(p.limits(lane, Ip), Evictions(p, start, events, Key(Ip, lane, ip)), until - from)
  {
    var kind := (req: Request) => LaneFor(req.bucket) == lane && p.ipOf(req.peer) == ip;
    KindBound(p, start, events, kind, Key(Ip, lane, ip), from, until);
  }

  // ----------------------------------------------------------------- the retry hint

  /** The cost is within every burst it is charged to. */
  predicate CostFits(p: Policy, req: Request) {
    forall scope :: req.Charge() <= Burst(p, p.KeyFor(req, scope))
  }

  /** The hint covers what each bucket is short of. */
  lemma HintCovers(p: Policy, before: Levels, req: Request, d: Decision, after: Levels, scope: Scope, later: real)
    requires Steps(p, before, req, d, after) && !d.allowed && CostFits(p, req) && req.now + d.retryAfter <= later
    requires forall k :: k in before ==> before[k].updatedAt <= req.now
    ensures Available(p, after, p.KeyFor(req, scope), later) >= req.Charge()
  {
    var key := p.KeyFor(req, scope);
    if key in after {
      DeniedLevel(p, before, req, d, after, scope);
      WaitIsHinted(p, before, req, d, after, scope);
      hide Steps, AllSound, Level.Refilled;
      WaitsIffShort(p, before, req, scope);
      hide WaitAt, Level.Sound, Earned, Rate;
      var l := after[key];
      EarnsMore(Rate(p, key), WaitAt(p, before, req, scope), later - req.now);
      WaitCovers(l, req.now, later, req.Charge());
    }
  }

  /** A denial leaves a bucket that stays refilled, and with all it had. */
  lemma DeniedLevel(p: Policy, before: Levels, req: Request, d: Decision, after: Levels, scope: Scope)
    requires Steps(p, before, req, d, after) && !d.allowed && p.KeyFor(req, scope) in after
    requires forall k :: k in before ==> before[k].updatedAt <= req.now
    ensures AllSound(p, before)
    ensures var key := p.KeyFor(req, scope);
      && after[key].Sound() && after[key].updatedAt <= req.now
      && after[key].tokens == Available(p, before, key, req.now)
      && after[key].rate == Rate(p, key) && after[key].burst == Burst(p, key)
  {
    var key := p.KeyFor(req, scope);
    assert p.Touches(req, key);
    Leaves(p, before, req, d, after, key);
    hide Trimmed, Visited;
    FoundIsAvailable(p, before, key, req.now);
  }

  lemma WaitIsHinted(p: Policy, before: Levels, req: Request, d: Decision, after: Levels, scope: Scope)
    requires Steps(p, before, req, d, after) && !d.allowed
    ensures WaitAt(p, before, req, scope) <= d.retryAfter
  {
    hide WaitAt, AllSound, Trimmed, Visited;
    match scope
    case Global =>
    case Subnet =>
    case Ip =>
  }

  lemma WaitCovers(l: Level, now: real, later: real, cost: real)
    requires l.Sound() && l.updatedAt <= now <= later && cost <= l.burst
    requires l.tokens + Earned(later - now, l.rate) >= cost
    ensures l.Refilled(later).tokens >= cost
  {
    hide Earned;
    RefillSlope(l, now, later);
    RefillSlope(l, l.updatedAt, now);
  }

  /** With no other traffic, a denied request whose cost fits is admitted once the delay has passed. */
  lemma HintIsHonest(p: Policy, before: Levels, req: Request, d: Decision, after: Levels,
                     again: Request, d': Decision, after': Levels)
    requires Steps(p, before, req, d, after) && !d.allowed && CostFits(p, req)
    requires forall k :: k in before ==> before[k].updatedAt <= req.now
    requires again == req.(now := again.now) && req.now + d.retryAfter <= again.now
    requires Steps(p, after, again, d', after')
    ensures d'.allowed
  {
    hide Steps, Available;
    AdmitsIffAvailable(p, after, again, d', after');
    forall scope
      ensures Available(p, after, p.KeyFor(again, scope), again.now) >= again.Charge()
    {
      HintCovers(p, before, req, d, after, scope, again.now);
      assert p.KeyFor(again, scope) == p.KeyFor(req, scope);
    }
  }

  /** The hint is honest exactly when the cost fits every burst: then a denied request is admitted once
      the returned delay has passed, if there is no other traffic; otherwise it is still denied. */
  lemma RetryIsHonestIffCostFits(p: Policy, before: Levels, req: Request, d: Decision, after: Levels)
    requires Steps(p, before, req, d, after) && !d.allowed
    requires forall k :: k in before ==> before[k].updatedAt <= req.now
    ensures CostFits(p, req) <==>
      forall later, d', after' ::
        req.now + d.retryAfter <= later && Steps(p, after, req.(now := later), d', after') ==> d'.allowed
  {
    hide Steps;
    if CostFits(p, req) {
      forall later, d', after' | req.now + d.retryAfter <= later && Steps(p, after, req.(now := later), d', after')
        ensures d'.allowed
      {
        HintIsHonest(p, before, req, d, after, req.(now := later), d', after');
      }
    } else {
      var again := req.(now := req.now + d.retryAfter);
      StepKeepsSound(p, before, req, d, after);
      var scope :| req.Charge() > Burst(p, p.KeyFor(req, scope));
      assert again.Charge() > Burst(p, p.KeyFor(again, scope));
      var d', after' := TooDearIsDenied(p, after, again);
    }
  }

  /** No bucket is ever dated later than the last request. */
  lemma StepKeepsClock(p: Policy, before: Levels, req: Request, d: Decision, after: Levels)
    requires Steps(p, before, req, d, after) && forall k :: k in before ==> before[k].updatedAt <= req.now
    ensures forall k :: k in after ==> after[k].updatedAt <= req.now
  {
    forall k | k in after
      ensures after[k].updatedAt <= req.now
    {
      Leaves(p, before, req, d, after, k);
      FoundIsAvailable(p, before, k, req.now);
      hide Steps, Available, AllSound;
    }
  }

  /** Every request in every sound state is decided one way. */
  lemma EveryRequestIsDecided(p: Policy, levels: Levels, req: Request) returns (d: Decision, after: Levels)
    requires AllSound(p, levels)
    ensures Steps(p, levels, req, d, after)
  {
    VisitedAt(p, levels, req);
    hide AllSound, Visited, Trimmed, Charged;
    if Wait(p, levels, req) > 0.0 {
      d := Decision(false, Max(0.1, Wait(p, levels, req)));
      after := TrimExists(Visited(p, levels, req), p.maxEntries);
    } else {
      d := Decision(true, 0.0);
      after := TrimExists(Charged(p, Visited(p, levels, req), req), p.maxEntries);
    }
  }

  /** A request that costs more than a burst is denied in every state. */
  lemma TooDearIsDenied(p: Policy, levels: Levels, req: Request) returns (d: Decision, after: Levels)
    requires AllSound(p, levels) && !CostFits(p, req)
    ensures Steps(p, levels, req, d, after) && !d.allowed
  {
    hide AllSound, Available, Steps;
    var scope :| req.Charge() > Burst(p, p.KeyFor(req, scope));
    d, after := EveryRequestIsDecided(p, levels, req);
    AdmitsIffAvailable(p, levels, req, d, after);
    AvailableSlope(p, levels, p.KeyFor(req, scope), req.now, req.now);
  }

  /** Trimming is always possible. */
  lemma {:induction false} TrimExists(levels: Levels, capacity: nat) returns (after: Levels)
    ensures Trimmed(levels, after, capacity)
    decreases |levels|
  {
    if |levels| <= capacity {
      after := levels;
    } else {
      var k := OldestExists(levels);
      assert levels.Keys == (levels - {k}).Keys + {k};
      after := TrimExists(levels - {k}, capacity);
      assert levels.Keys >= after.Keys;
    }
  }

  lemma {:induction false} OldestExists(levels: Levels) returns (oldest: Key)
    requires |levels| > 0
    ensures IsOldest(levels, oldest)
    decreases |levels|
  {
    var k :| k in levels;
    oldest := k;
    var rest := levels - {k};
    assert levels.Keys == rest.Keys + {k};
    if |rest| > 0 {
      var o := OldestExists(rest);
      oldest := if levels[k].updatedAt <= levels[o].updatedAt then k else o;
    }
  }
}
