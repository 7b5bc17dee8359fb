/** Token buckets for three scopes at once, and what they admit over whole runs. */
module RateLimit {
  import opened Wrappers

  function Max(a: real, b: real): real {
    if a < b then b else a
  }

  function Min(a: real, b: real): real {
    if a < b then a else b
  }

  /** Tokens gained over a time. */
  function Earned(time: real, rate: real): real {
    time * rate
  }

  // -------------------------------------------------------------------- one bucket

  /** What a bucket holds. */
  datatype Level = Level(rate: real, burst: real, tokens: real, updatedAt: real) {
    predicate Sound() {
      rate > 0.0 && burst >= 1.0 && 0.0 <= tokens <= burst
    }

    function Refilled(now: real): Level {
      var elapsed := Max(0.0, now - updatedAt);
      if elapsed == 0.0 then this
      else this.(tokens := Min(burst, tokens + Earned(elapsed, rate)), updatedAt := now)
    }

    /** The time until `cost` is covered. */
    function RetryAfter(cost: real): real
      requires rate > 0.0
    {
      Max(0.0, cost - tokens) / rate
    }

    function Consumed(cost: real): Level {
      this.(tokens := Max(0.0, tokens - cost))
    }
  }

  datatype Limit = Limit(rate: real, burst: real)

  /** A new bucket starts full; rates and bursts have a floor. */
  function Full(limit: Limit, now: real): Level {
    var burst := Max(1.0, limit.burst);
    Level(Max(0.001, limit.rate), burst, burst, now)
  }

  datatype Scope = Global | Subnet | Ip

  datatype Lane = Gossip | Evidence | Critical | Invalid | Control

  datatype Key = Key(scope: Scope, lane: Lane, who: string)

  class TokenBucket {
    ghost const key: Key
    const rate: real
    const burst: real
    var tokens: real
    var updatedAt: real

    function Now(): Level
      reads this
    {
      Level(rate, burst, tokens, updatedAt)
    }

    constructor (ghost key: Key, limit: Limit, now: real)
      ensures Now() == Full(limit, now) && this.key == key
    {
      this.key := key;
      rate := Max(0.001, limit.rate);
      burst := Max(1.0, limit.burst);
      tokens := Max(1.0, limit.burst);
      updatedAt := now;
    }

    method Refill(now: real)
      modifies this
      ensures Now() == old(Now()).Refilled(now)
    {
      var elapsed := Max(0.0, now - updatedAt);
      if elapsed != 0.0 {
        tokens := Min(burst, tokens + Earned(elapsed, rate));
        updatedAt := now;
      }
    }

    method RetryAfter(cost: real) returns (r: real)
      requires rate > 0.0
      ensures r == Now().RetryAfter(cost)
    {
      var missing := Max(0.0, cost - tokens);
      if missing <= 0.0 {
        return 0.0;
      }
      return missing / rate;
    }

    method Consume(cost: real)
      modifies this
      ensures Now() == old(Now()).Consumed(cost)
    {
      tokens := Max(0.0, tokens - cost);
    }
  }

  // ------------------------------------------------------------- scopes, lanes, requests

  datatype Decision = Decision(allowed: bool, retryAfter: real)

  /** Traffic classes by name; anything unknown is control traffic. */
  function LaneFor(bucket: string): Lane {
    if bucket in {"gossip", "root_gossip"} then Gossip
    else if bucket in {"evidence", "evidence_verification"} then Evidence
    else if bucket in {"equivocation_gossip", "critical"} then Critical
    else if bucket in {"gossip_decode_error", "invalid"} then Invalid
    else Control
  }

  /** Which names each lane takes; all others are control traffic. */
  lemma LanesByName(a: string)
    ensures LaneFor(a) == Gossip <==> a == "gossip" || a == "root_gossip"
    ensures LaneFor(a) == Evidence <==> a == "evidence" || a == "evidence_verification"
    ensures LaneFor(a) == Critical <==> a == "critical" || a == "equivocation_gossip"
    ensures LaneFor(a) == Invalid <==> a == "invalid" || a == "gossip_decode_error"
  {
  }

  datatype Request = Request(peer: string, bucket: string, cost: real, now: real) {
    /** A request costs at least one token. */
    function Charge(): real {
      Max(1.0, cost)
    }

    function Lane(): Lane {
      LaneFor(bucket)
    }
  }

  /** How peers are grouped and what each lane allows. */
  datatype Policy = Policy(
    ipOf: string -> string,
    subnetOf: string -> string,
    limits: (Lane, Scope) -> Limit,
    maxEntries: nat)
  {
    function KeyFor(req: Request, scope: Scope): Key {
      match scope
      case Global => Key(Global, req.Lane(), "*")
      case Subnet => Key(Subnet, req.Lane(), subnetOf(ipOf(req.peer)))
      case Ip => Key(Ip, req.Lane(), ipOf(req.peer))
    }

    predicate Touches(req: Request, key: Key) {
      key == KeyFor(req, key.scope)
    }

    function LimitOf(key: Key): Limit {
      limits(key.lane, key.scope)
    }
  }

  type Levels = map<Key, Level>

  /** The level a request finds under a key: a new bucket if there is none. */
  function Found(p: Policy, levels: Levels, key: Key, now: real): Level {
    if key in levels then levels[key].Refilled(now) else Full(p.LimitOf(key), now).Refilled(now)
  }

  function Visit(p: Policy, levels: Levels, key: Key, now: real): Levels {
    levels[key := Found(p, levels, key, now)]
  }

  /** All three buckets of a request, refilled. */
  function Visited(p: Policy, levels: Levels, req: Request): Levels {
    Visit(p, Visit(p, Visit(p, levels, p.KeyFor(req, Global), req.now), p.KeyFor(req, Subnet), req.now),
          p.KeyFor(req, Ip), req.now)
  }

  predicate AllSound(p: Policy, levels: Levels) {
    forall k :: k in levels ==> SoundAt(p, levels, k)
  }

  /** A stored bucket is sound and has its lane's rate and burst. */
  predicate SoundAt(p: Policy, levels: Levels, k: Key)
    requires k in levels
  {
    && levels[k].Sound()
    && levels[k].rate == Max(0.001, p.LimitOf(k).rate) && levels[k].burst == Max(1.0, p.LimitOf(k).burst)
  }

  /** The longest wait among the three scopes. */
  function Wait(p: Policy, levels: Levels, req: Request): real
    requires AllSound(p, levels)
  {
    var now, cost := req.now, req.Charge();
    Max(Max(WaitAt(p, levels, req, Global), WaitAt(p, levels, req, Subnet)), WaitAt(p, levels, req, Ip))
  }

  function WaitAt(p: Policy, levels: Levels, req: Request, scope: Scope): real
    requires AllSound(p, levels)
  {
    var key := p.KeyFor(req, scope);
    assert key in levels ==> SoundAt(p, levels, key);
    Found(p, levels, key, req.now).RetryAfter(req.Charge())
  }

  function Charge(levels: Levels, key: Key, cost: real): Levels
    requires key in levels
  {
    levels[key := levels[key].Consumed(cost)]
  }

  function Charged(p: Policy, levels: Levels, req: Request): Levels
    requires forall scope :: p.KeyFor(req, scope) in levels
  {
    Charge(Charge(Charge(levels, p.KeyFor(req, Global), req.Charge()), p.KeyFor(req, Subnet), req.Charge()),
           p.KeyFor(req, Ip), req.Charge())
  }

  /** What goes was updated no later than what stays; what stays is as it was. */
  predicate Evicted(before: Levels, after: Levels) {
    && after.Keys <= before.Keys && (forall k :: k in after ==> after[k] == before[k])
    && forall gone, kept :: gone in before && gone !in after && kept in after ==>
         before[gone].updatedAt <= before[kept].updatedAt
  }

  /** Only what exceeds the capacity is evicted. */
  predicate Trimmed(before: Levels, after: Levels, capacity: nat) {
    Evicted(before, after) && |after| == if |before| <= capacity then |before| else capacity
  }

  /** Among buckets updated at one time, those created first go first. */
  predicate InTurn(before: Levels, order: seq<Key>, after: Levels) {
    forall i, j :: 0 <= i < |order| && 0 <= j < |order| ==>
      order[i] in before && order[i] !in after && order[j] in before && order[j] in after ==>
        Sooner(before, order, i, j)
  }

  predicate Sooner(levels: Levels, order: seq<Key>, i: nat, j: nat)
    requires i < |order| && j < |order| && order[i] in levels && order[j] in levels
  {
    || levels[order[i]].updatedAt < levels[order[j]].updatedAt
    || (levels[order[i]].updatedAt == levels[order[j]].updatedAt && i < j)
  }

  /** The keys in the order in which their buckets were created. */
  ghost predicate Lists(order: seq<Key>, levels: Levels) {
    && (forall i, j :: 0 <= i < j < |order| ==> order[i] != order[j])
    && forall k :: k in levels <==> k in order
  }

  function Entered(order: seq<Key>, key: Key): seq<Key> {
    if key in order then order else order + [key]
  }

  function EnteredAll(p: Policy, order: seq<Key>, req: Request): seq<Key> {
    Entered(Entered(Entered(order, p.KeyFor(req, Global)), p.KeyFor(req, Subnet)), p.KeyFor(req, Ip))
  }

  function StillIn(order: seq<Key>, levels: Levels): seq<Key> {
    if order == [] then []
    else (if order[0] in levels then [order[0]] else []) + StillIn(order[1..], levels)
  }

  /** What is trimmed is determined: two ways to trim in turn are the same. */
  lemma TrimIsDetermined(before: Levels, order: seq<Key>, x: Levels, y: Levels, capacity: nat)
    requires Lists(order, before) && Trimmed(before, x, capacity) && Trimmed(before, y, capacity)
    requires InTurn(before, order, x) && InTurn(before, order, y)
    ensures x == y
  {
    if x.Keys != y.Keys {
      assert |x.Keys| == |y.Keys|;
      if x.Keys <= y.Keys {
        Outnumbered(x.Keys, y.Keys);
        assert false;
      }
      if y.Keys <= x.Keys {
        Outnumbered(y.Keys, x.Keys);
        assert false;
      }
      var a :| a in x.Keys && a !in y.Keys;
      var b :| b in y.Keys && b !in x.Keys;
      hide Trimmed, InTurn, Lists;
      NotSwapped(before, order, x, y, a, b);
    }
  }

  /** No two ways to trim in turn keep one key each that the other drops. */
  lemma NotSwapped(before: Levels, order: seq<Key>, x: Levels, y: Levels, a: Key, b: Key)
    requires InTurn(before, order, x) && InTurn(before, order, y) && a in order && b in order
    requires a in before && b in before && a in x && a !in y && b in y
    ensures b in x
  {
    var i: nat :| i < |order| && order[i] == a;
    var j: nat :| j < |order| && order[j] == b;
    assert Sooner(before, order, i, j);
    if b !in x {
      assert false;
    }
  }

  lemma Outnumbered<T>(a: set<T>, b: set<T>)
    requires a <= b && a != b
    ensures |a| < |b|
  {
    var x :| x in b && x !in a;
    assert a <= b - {x};
    Fewer(a, b - {x});
  }

  lemma {:induction false} Fewer<T>(a: set<T>, b: set<T>)
    requires a <= b
    ensures |a| <= |b|
    decreases |a|
  {
    if a != {} {
      var x :| x in a;
      Fewer(a - {x}, b - {x});
    }
  }

  lemma {:induction false} StillInLists(order: seq<Key>, before: Levels, after: Levels)
    requires Lists(order, before) && after.Keys <= before.Keys
    ensures Lists(StillIn(order, after), after)
  {
    StillInKeeps(order, after);
    forall k | k in after
      ensures k in StillIn(order, after)
    {
      assert k in order;
    }
  }

  lemma {:induction false} StillInKeeps(order: seq<Key>, after: Levels)
    requires forall i, j :: 0 <= i < j < |order| ==> order[i] != order[j]
    ensures var kept := StillIn(order, after);
      && (forall k :: k in kept <==> k in order && k in after)
      && forall i, j :: 0 <= i < j < |kept| ==> kept[i] != kept[j]
    decreases |order|
  {
    if order != [] {
      StillInKeeps(order[1..], after);
      assert order == [order[0]] + order[1..];
      assert order[0] !in order[1..];
    }
  }

  /** What a request leaves before anything is trimmed. */
  function Touched(p: Policy, levels: Levels, req: Request): Levels
    requires AllSound(p, levels)
  {
    var visited := Visited(p, levels, req);
    if Wait(p, levels, req) > 0.0 then visited
    else
      VisitedAt(p, levels, req);
      Charged(p, visited, req)
  }

  /** One request: refill, decide, charge all three buckets or none, trim. */
  predicate Steps(p: Policy, before: Levels, req: Request, d: Decision, after: Levels) {
    && AllSound(p, before)
    && var visited := Visited(p, before, req);
       var wait := Wait(p, before, req);
       if wait > 0.0
       then d == Decision(false, Max(0.1, wait)) && Trimmed(visited, after, p.maxEntries)
       else d == Decision(true, 0.0) && Trimmed(Charged(p, visited, req), after, p.maxEntries)
  }

  // ------------------------------------------------------------------- the limiter

  class PeerRateLimiter {
    const policy: Policy
    var buckets: map<Key, TokenBucket>
    var order: seq<Key>
    ghost var levels: Levels
    ghost var repr: set<TokenBucket>

    /** `order` is the order in which the buckets were created. */
    ghost predicate Listed()
      reads this
    {
      Lists(order, levels)
    }

    /** `levels` is what the buckets hold; keys never share a bucket. */
    ghost predicate Valid()
      reads this`buckets, this`levels, this`repr, repr
    {
      && (forall k :: k in levels <==> k in buckets) && AllSound(policy, levels)
      && forall k :: k in buckets ==> buckets[k] in repr && buckets[k].key == k && buckets[k].Now() == levels[k]
    }

    constructor (policy: Policy)
      ensures Valid() && Listed() && this.policy == policy && levels == map[] && fresh(repr)
    {
      this.policy := policy;
      buckets, order, levels, repr := map[], [], map[], {};
    }

    method Create(key: Key, now: real)
      requires Valid() && key !in buckets
      modifies this`buckets, this`levels, this`repr
      ensures Valid() && levels == old(levels)[key := Full(policy.LimitOf(key), now)]
      ensures buckets.Keys == old(buckets.Keys) + {key} && fresh(repr - old(repr))
      ensures forall k :: k in old(buckets) ==> buckets[k] == old(buckets[k])
    {
      hide AllSound, Full, Level.Sound, Policy.LimitOf, SoundAt;
      CreateIsSound(policy, levels, key, now);
      var bucket := new TokenBucket(key, policy.LimitOf(key), now);
      buckets := buckets[key := bucket];
      repr := repr + {bucket};
      levels := levels[key := Full(policy.LimitOf(key), now)];
    }

    method Refresh(key: Key, now: real) returns (bucket: TokenBucket)
      requires Valid() && key in buckets
      modifies this`levels, buckets[key]
      ensures Valid() && levels == Visit(policy, old(levels), key, now) && bucket == buckets[key]
    {
      hide AllSound, Level.Refilled, Full, Earned;
      VisitIsSound(policy, levels, key, now);
      bucket := buckets[key];
      bucket.Refill(now);
      levels := Visit(policy, levels, key, now);
    }

    method BucketFor(key: Key, now: real) returns (bucket: TokenBucket)
      requires Valid() && Listed()
      modifies this, repr
      ensures Valid() && Listed() && levels == Visit(policy, old(levels), key, now)
      ensures order == Entered(old(order), key)
      ensures key in buckets && buckets[key] == bucket
      ensures forall k :: k in old(buckets) ==> k in buckets && buckets[k] == old(buckets[k])
      ensures fresh(repr - old(repr))
    {
      hide AllSound, Full, Lists, Found, TokenBucket.Now;
      VisitLists(policy, order, levels, key, now);
      if key !in buckets {
        Create(key, now);
        order := order + [key];
        VisitFull(policy, old(levels), key, now);
      }
      VisitLists(policy, order, levels, key, now);
      bucket := Refresh(key, now);
    }

    /** The key updated longest ago; among equals, the one created first. */
    method Oldest() returns (ghost p: nat, oldest: Key)
      requires Valid() && buckets != map[] && forall k :: k in levels ==> k in order
      ensures IsNext(levels, order, p) && order[p] == oldest && oldest in buckets
    {
      var best: Option<Key>;
      best, p := None, 0;
      for i := 0 to |order|
        invariant best.None? ==> forall k :: 0 <= k < i ==> order[k] !in levels
        invariant best.Some? ==> p < i && order[p] == best.value && best.value in levels
        invariant best.Some? ==>
                    forall k :: 0 <= k < i && order[k] in levels && k != p ==> Sooner(levels, order, p, k)
      {
        var key := order[i];
        if key in buckets && (best.None? || buckets[key].updatedAt < buckets[best.value].updatedAt) {
          best, p := Some(key), i;
        }
      }
      var k :| k in buckets;
      assert k in order;
      oldest := best.value;
    }

    method Drop(key: Key)
      requires Valid() && key in buckets && AllSound(policy, levels - {key})
      modifies this`levels, this`buckets
      ensures Valid() && levels == old(levels) - {key} && buckets == old(buckets) - {key}
    {
      hide AllSound;
      levels := levels - {key};
      buckets := buckets - {key};
    }

    method Trim()
      requires Valid() && Listed()
      modifies this
      ensures Valid() && Listed() && Trimmed(old(levels), levels, policy.maxEntries) && repr == old(repr)
      ensures InTurn(old(levels), old(order), levels) && order == StillIn(old(order), levels)
    {
      hide AllSound, Evicted, IsNext, Valid, InTurn, Lists, StillIn;
      ghost var before := levels;
      NoneEvicted(levels, order);
      var overflow := Count() - policy.maxEntries;
      while overflow > 0
        invariant Valid() && repr == old(repr) && order == old(order) && Evicted(before, levels)
        invariant InTurn(before, order, levels) && Lists(order, before)
        invariant |before| <= policy.maxEntries ==> |levels| == |before|
        invariant |before| > policy.maxEntries ==> 0 <= overflow == |levels| - policy.maxEntries
        invariant |before| <= policy.maxEntries ==> overflow <= 0
        decreases overflow
      {
        EvictNext(before);
        overflow := overflow - 1;
      }
      EvictedLists(order, before, levels);
      order := Remaining();
    }

    /** The order without the keys that are gone. */
    method Remaining() returns (kept: seq<Key>)
      requires Valid()
      ensures kept == StillIn(order, levels)
    {
      assert buckets.Keys == levels.Keys;
      hide Valid, AllSound;
      kept := [];
      var i := 0;
      assert order[0..] == order;
      while i < |order|
        invariant 0 <= i <= |order|
        invariant StillIn(order, levels) == kept + StillIn(order[i..], levels)
      {
        assert order[i..][0] == order[i] && order[i..][1..] == order[i + 1..];
        if order[i] in buckets {
          kept := kept + [order[i]];
        }
        i := i + 1;
      }
    }

    function Count(): nat
      requires Valid()
      reads this, repr
      ensures Count() == |levels|
    {
      SameSize(levels, buckets);
      |buckets|
    }

    method EvictNext(ghost before: Levels)
      requires Valid() && Evicted(before, levels) && |levels| > 0
      requires Lists(order, before) && InTurn(before, order, levels)
      modifies this`levels, this`buckets
      ensures Valid() && Evicted(before, levels) && InTurn(before, order, levels) && |levels| == |old(levels)| - 1
    {
      hide AllSound, Evicted, Lists, InTurn, IsNext;
      SameSize(levels, buckets);
      EvictedAreListed(order, before, levels);
      ghost var p;
      var k;
      p, k := Oldest();
      EvictOldest(policy, before, levels, order, p);
      Drop(k);
    }

    ghost predicate Holds(key: Key, bucket: TokenBucket)
      reads this
    {
      key in buckets && buckets[key] == bucket
    }

    /** The three buckets of a request, created or refilled. */
    method BucketsFor(req: Request) returns (g: TokenBucket, s: TokenBucket, i: TokenBucket)
      requires Valid() && Listed()
      modifies this, repr
      ensures Valid() && Listed() && levels == Visited(policy, old(levels), req)
      ensures order == EnteredAll(policy, old(order), req)
      ensures Holds(policy.KeyFor(req, Global), g) && Holds(policy.KeyFor(req, Subnet), s)
      ensures Holds(policy.KeyFor(req, Ip), i)
      ensures fresh(repr - old(repr))
    {
      hide Visit, AllSound, Lists, Entered;
      g := BucketFor(policy.KeyFor(req, Global), req.now);
      s := BucketFor(policy.KeyFor(req, Subnet), req.now);
      i := BucketFor(policy.KeyFor(req, Ip), req.now);
    }

    method Consume(bucket: TokenBucket, ghost key: Key, cost: real)
      requires Valid() && Holds(key, bucket) && cost >= 0.0
      modifies this`levels, bucket
      ensures Valid() && levels == Charge(old(levels), key, cost)
    {
      ChargeIsSound(policy, levels, key, cost);
      bucket.Consume(cost);
      levels := Charge(levels, key, cost);
    }

    method ConsumeAll(ghost req: Request, g: TokenBucket, s: TokenBucket, i: TokenBucket, cost: real)
      requires Valid() && cost == req.Charge()
      requires Holds(policy.KeyFor(req, Global), g) && Holds(policy.KeyFor(req, Subnet), s)
      requires Holds(policy.KeyFor(req, Ip), i)
      modifies this`levels, g, s, i
      ensures Valid() && forall scope :: policy.KeyFor(req, scope) in old(levels)
      ensures levels == Charged(policy, old(levels), req)
    {
      hide AllSound;
      KeysInScope(policy, levels, req);
      Consume(g, policy.KeyFor(req, Global), cost);
      Consume(s, policy.KeyFor(req, Subnet), cost);
      Consume(i, policy.KeyFor(req, Ip), cost);
    }

    /** Admits or refuses one request. */
    method Check(req: Request) returns (d: Decision)
      requires Valid() && Listed()
      modifies this, repr
      ensures Valid() && Listed() && Steps(policy, old(levels), req, d, levels)
      ensures InTurn(Touched(policy, old(levels), req), EnteredAll(policy, old(order), req), levels)
      ensures order == StillIn(EnteredAll(policy, old(order), req), levels)
      ensures fresh(repr - old(repr))
    {
      hide Visited, Charged, Trimmed, AllSound, Steps, Level.RetryAfter, Lists, InTurn, EnteredAll, StillIn;
      ghost var before := levels;
      var cost := req.Charge();
      var g, s, i := BucketsFor(req);
      WaitIsLongest(policy, before, req);
      var waitG := g.RetryAfter(cost);
      var waitS := s.RetryAfter(cost);
      var waitI := i.RetryAfter(cost);
      var wait := Max(Max(waitG, waitS), waitI);
      assert wait == Wait(policy, before, req);
      if wait > 0.0 {
        Trim();
        Denies(policy, before, req, levels);
        return Decision(false, Max(0.1, wait));
      }
      ChargedLists(policy, order, levels, req);
      ConsumeAll(req, g, s, i, cost);
      Trim();
      Admits(policy, before, req, levels);
      return Decision(true, 0.0);
    }
  }

  lemma SameSize<K, V, W>(a: map<K, V>, b: map<K, W>)
    requires forall k :: k in a <==> k in b
    ensures |a| == |b|
  {
    assert a.Keys == b.Keys;
  }

  lemma KeysInScope(p: Policy, levels: Levels, req: Request)
    requires p.KeyFor(req, Global) in levels && p.KeyFor(req, Subnet) in levels && p.KeyFor(req, Ip) in levels
    ensures forall scope :: p.KeyFor(req, scope) in levels
  {
    forall scope
      ensures p.KeyFor(req, scope) in levels
    {
      assert scope == Global || scope == Subnet || scope == Ip;
    }
  }

  lemma Denies(p: Policy, before: Levels, req: Request, after: Levels)
    requires AllSound(p, before) && Wait(p, before, req) > 0.0 && Trimmed(Visited(p, before, req), after, p.maxEntries)
    ensures Steps(p, before, req, Decision(false, Max(0.1, Wait(p, before, req))), after)
  {
  }

  lemma Admits(p: Policy, before: Levels, req: Request, after: Levels)
    requires AllSound(p, before) && !(Wait(p, before, req) > 0.0)
    requires forall scope :: p.KeyFor(req, scope) in Visited(p, before, req)
    requires Trimmed(Charged(p, Visited(p, before, req), req), after, p.maxEntries)
    ensures Steps(p, before, req, Decision(true, 0.0), after)
  {
  }

  predicate IsOldest(levels: Levels, key: Key) {
    key in levels && forall k :: k in levels ==> levels[key].updatedAt <= levels[k].updatedAt
  }

  /** The bucket at this place is the next to go. */
  ghost predicate IsNext(levels: Levels, order: seq<Key>, p: nat) {
    && p < |order| && order[p] in levels && IsOldest(levels, order[p])
    && forall k :: 0 <= k < |order| && order[k] in levels && k != p ==> Sooner(levels, order, p, k)
  }

  lemma NoneEvicted(levels: Levels, order: seq<Key>)
    ensures Evicted(levels, levels) && InTurn(levels, order, levels)
  {
  }

  lemma EvictedLists(order: seq<Key>, before: Levels, after: Levels)
    requires Lists(order, before) && Evicted(before, after)
    ensures Lists(StillIn(order, after), after)
  {
    StillInLists(order, before, after);
  }

  lemma EvictedAreListed(order: seq<Key>, before: Levels, here: Levels)
    requires Lists(order, before) && Evicted(before, here)
    ensures forall k :: k in here ==> k in order
  {
  }

  lemma EvictOldest(p: Policy, before: Levels, here: Levels, order: seq<Key>, i: nat)
    requires Evicted(before, here) && InTurn(before, order, here) && IsNext(here, order, i) && AllSound(p, here)
    requires Lists(order, before)
    ensures var key := order[i];
      && Evicted(before, here - {key}) && InTurn(before, order, here - {key})
      && AllSound(p, here - {key}) && |here - {key}| == |here| - 1
  {
    var key := order[i];
    assert here.Keys == (here - {key}).Keys + {key};
    forall k | k in here - {key}
      ensures SoundAt(p, here - {key}, k)
    {
      assert SoundAt(p, here, k);
    }
    forall a: nat, b: nat | a < |order| && b < |order| && order[a] in before && order[a] !in here - {key}
                            && order[b] in before && order[b] in here - {key}
      ensures Sooner(before, order, a, b)
    {
      if order[a] == key {
        assert Sooner(here, order, i, b);
      }
    }
  }

  /** Visiting a bucket just created is visiting none. */
  lemma VisitFull(p: Policy, levels: Levels, key: Key, now: real)
    requires key !in levels
    ensures Visit(p, levels[key := Full(p.LimitOf(key), now)], key, now) == Visit(p, levels, key, now)
  {
  }

  lemma CreateIsSound(p: Policy, levels: Levels, key: Key, now: real)
    requires AllSound(p, levels) && key !in levels
    ensures AllSound(p, levels[key := Full(p.LimitOf(key), now)])
  {
    forall k | k in levels
      ensures SoundAt(p, levels[key := Full(p.LimitOf(key), now)], k)
    {
      assert SoundAt(p, levels, k);
    }
  }

  lemma VisitLists(p: Policy, order: seq<Key>, levels: Levels, key: Key, now: real)
    requires Lists(order, levels)
    ensures Lists(Entered(order, key), Visit(p, levels, key, now))
    ensures key in order <==> key in levels
  {
  }

  lemma ChargedLists(p: Policy, order: seq<Key>, levels: Levels, req: Request)
    requires Lists(order, levels) && forall scope :: p.KeyFor(req, scope) in levels
    ensures Lists(order, Charged(p, levels, req))
  {
    assert Charged(p, levels, req).Keys == levels.Keys;
    assert forall k :: k in Charged(p, levels, req) <==> k in levels;
  }

  lemma ChargeIsSound(p: Policy, levels: Levels, key: Key, cost: real)
    requires AllSound(p, levels) && key in levels && cost >= 0.0
    ensures AllSound(p, Charge(levels, key, cost))
  {
    forall k | k in levels
      ensures SoundAt(p, Charge(levels, key, cost), k)
    {
      assert SoundAt(p, levels, k);
    }
  }

  /** The wait is what the three refilled buckets say. */
  lemma WaitIsLongest(p: Policy, levels: Levels, req: Request)
    requires AllSound(p, levels)
    ensures forall scope ::
      && p.KeyFor(req, scope) in Visited(p, levels, req) && Visited(p, levels, req)[p.KeyFor(req, scope)].rate > 0.0
      && Visited(p, levels, req)[p.KeyFor(req, scope)].RetryAfter(req.Charge()) == WaitAt(p, levels, req, scope)
  {
    VisitedAt(p, levels, req);
    hide Visit, Found;
    forall scope
      ensures Visited(p, levels, req)[p.KeyFor(req, scope)].rate > 0.0
    {
      assert SoundAt(p, Visited(p, levels, req), p.KeyFor(req, scope));
    }
  }

  lemma RefillIsSound(l: Level, now: real)
    requires l.Sound()
    ensures l.Refilled(now).Sound()
  {
    if now > l.updatedAt {
      assert Earned(now - l.updatedAt, l.rate) >= 0.0;
    }
  }

  lemma FoundIsSound(p: Policy, levels: Levels, key: Key, now: real)
    requires AllSound(p, levels)
    ensures SoundAt(p, Visit(p, levels, key, now), key)
  {
    if key in levels {
      assert SoundAt(p, levels, key);
      RefillIsSound(levels[key], now);
    }
  }

  lemma VisitIsSound(p: Policy, levels: Levels, key: Key, now: real)
    requires AllSound(p, levels)
    ensures AllSound(p, Visit(p, levels, key, now))
  {
    FoundIsSound(p, levels, key, now);
    forall k | k in levels && k != key
      ensures SoundAt(p, Visit(p, levels, key, now), k)
    {
      assert SoundAt(p, levels, k);
    }
  }

  /** The three scopes have three different keys, so each visit sees the state before the request. */
  lemma VisitedAt(p: Policy, levels: Levels, req: Request)
    requires AllSound(p, levels)
    ensures AllSound(p, Visited(p, levels, req))
    ensures forall scope ::
      && p.KeyFor(req, scope) in Visited(p, levels, req)
      && Visited(p, levels, req)[p.KeyFor(req, scope)] == Found(p, levels, p.KeyFor(req, scope), req.now)
    ensures forall k :: k in levels && !p.Touches(req, k) ==>
      k in Visited(p, levels, req) && Visited(p, levels, req)[k] == levels[k]
    ensures forall k :: k in Visited(p, levels, req) ==> k in levels || p.Touches(req, k)
  {
    hide Found, SoundAt;
    var one := Visit(p, levels, p.KeyFor(req, Global), req.now);
    var two := Visit(p, one, p.KeyFor(req, Subnet), req.now);
    VisitIsSound(p, levels, p.KeyFor(req, Global), req.now);
    VisitIsSound(p, one, p.KeyFor(req, Subnet), req.now);
    VisitIsSound(p, two, p.KeyFor(req, Ip), req.now);
    FoundIgnoresOthers(p, levels, one, p.KeyFor(req, Subnet), req.now);
    FoundIgnoresOthers(p, levels, two, p.KeyFor(req, Ip), req.now);
  }

  lemma FoundIgnoresOthers(p: Policy, levels: Levels, others: Levels, key: Key, now: real)
    requires key in levels <==> key in others
    requires key in levels ==> levels[key] == others[key]
    ensures Found(p, levels, key, now) == Found(p, others, key, now)
  {
  }
}
