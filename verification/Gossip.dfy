/** The node's bounded state: connection counts, seen keys and the gossip pool. */
module Gossip {
  type Peer = string

  // ----------------------------------------------------------------- connections

  function NotNegative(x: int): nat {
    if x < 0 then 0 else x
  }

  class ActivePeerConnections {
    const maxTotal: nat
    const maxPerPeer: nat
    var total: nat
    var byPeer: map<Peer, nat>
    ghost var held: multiset<Peer>

    /** `held` lists the open connections: `total` counts them all and `byPeer` each peer's, and both
        stay within their caps. */
    ghost predicate Valid()
      reads this
    {
      && total == |held| <= maxTotal
      && (forall p :: p in byPeer ==> 1 <= byPeer[p] == held[p] <= maxPerPeer)
      && forall p :: p in held ==> p in byPeer
    }

    constructor (maxTotal: nat, maxPerPeer: nat)
      ensures Valid() && held == multiset{} && this.maxTotal == maxTotal && this.maxPerPeer == maxPerPeer
    {
      this.maxTotal, this.maxPerPeer := maxTotal, maxPerPeer;
      total, byPeer, held := 0, map[], multiset{};
    }

    function CountFor(peer: Peer): nat
      reads this
    {
      if peer in byPeer then byPeer[peer] else 0
    }

    method TryAcquire(peer: Peer) returns (acquired: bool)
      requires Valid()
      modifies this
      ensures Valid()
      ensures acquired <==> |old(held)| < maxTotal && old(held)[peer] < maxPerPeer
      ensures held == if acquired then old(held) + multiset{peer} else old(held)
    {
      var peerCount := CountFor(peer);
      assert peerCount == held[peer];
      if total >= maxTotal || peerCount >= maxPerPeer {
        return false;
      }
      total := total + 1;
      byPeer := byPeer[peer := peerCount + 1];
      held := held + multiset{peer};
      return true;
    }

    /** Releasing what is not held changes nothing. */
    method Release(peer: Peer)
      requires Valid()
      modifies this
      ensures Valid() && held == old(held) - multiset{peer}
    {
      var peerCount := CountFor(peer);
      assert peerCount == held[peer];
      if peerCount == 0 {
        return;
      }
      if peerCount == 1 {
        byPeer := byPeer - {peer};
      } else {
        byPeer := byPeer[peer := peerCount - 1];
      }
      total := NotNegative(total - 1);
      held := held - multiset{peer};
    }
  }

  // -------------------------------------------------------------------- seen keys

  /** The keys held, and the order they were added in. */
  datatype Seen = Seen(items: set<string>, order: seq<string>) {
    predicate Valid(limit: nat) {
      |order| <= limit && forall v :: v in items ==> v in order
    }

    function Added(limit: nat, v: string): Seen {
      if v in items then this
      else
        var grown := Seen(items + {v}, order + [v]);
        if |grown.order| <= limit then grown
        else Seen(grown.items - {grown.order[0]}, grown.order[1..])
    }

    function Discarded(v: string): Seen {
      Seen(items - {v}, order)
    }
  }

  class BoundedSeenSet {
    const limit: nat
    var items: set<string>
    var order: seq<string>

    function State(): Seen
      reads this
    {
      Seen(items, order)
    }

    ghost predicate Valid()
      reads this
    {
      State().Valid(limit)
    }

    constructor (limit: nat)
      ensures Valid() && State() == Seen({}, []) && this.limit == limit
    {
      this.limit := limit;
      items, order := {}, [];
    }

    method Add(v: string) returns (isNew: bool)
      requires Valid()
      modifies this
      ensures Valid() && State() == old(State()).Added(limit, v) && isNew == (v !in old(items))
    {
      if v in items {
        return false;
      }
      ghost var grown := Seen(items + {v}, order + [v]);
      items := items + {v};
      order := order + [v];
      while |order| > limit
        invariant limit <= |order| || State() == grown
        invariant State() == grown || |grown.order| == limit + 1
        invariant State() == grown || State() == Seen(grown.items - {grown.order[0]}, grown.order[1..])
        decreases |order|
      {
        items := items - {order[0]};
        order := order[1..];
      }
      AddKeepsValid(old(State()), limit, v);
      return true;
    }

    method Discard(v: string)
      requires Valid()
      modifies this
      ensures Valid() && State() == old(State()).Discarded(v)
    {
      items := items - {v};
    }
  }

  lemma AddKeepsValid(s: Seen, limit: nat, v: string)
    requires s.Valid(limit)
    ensures s.Added(limit, v).Valid(limit)
  {
    var after := s.Added(limit, v);
    forall x | x in after.items
      ensures x in after.order
    {
      assert x in s.order + [v];
      if v !in s.items && |s.order| == limit {
        assert s.order + [v] == [(s.order + [v])[0]] + (s.order + [v])[1..];
      }
    }
  }

  /** A new key is remembered unless it is dropped in the same call, which happens exactly when the set is
      full and the oldest entry is the key itself, left over from before it was discarded. */
  lemma NewKeyIsDroppedIff(s: Seen, limit: nat, v: string)
    requires s.Valid(limit) && v !in s.items
    ensures v !in s.Added(limit, v).items <==> |s.order| == limit && (s.order + [v])[0] == v
  {
  }

  datatype SeenOp = Add(v: string) | Discard(v: string)

  function Apply(s: Seen, limit: nat, op: SeenOp): Seen {
    match op
    case Add(v) => s.Added(limit, v)
    case Discard(v) => s.Discarded(v)
  }

  function ApplyAll(s: Seen, limit: nat, ops: seq<SeenOp>): Seen {
    if ops == [] then s else Apply(ApplyAll(s, limit, ops[..|ops| - 1]), limit, ops[|ops| - 1])
  }

  /** The last operation on a key was an add. */
  predicate LastWasAdd(ops: seq<SeenOp>, v: string) {
    ops != [] && (if ops[|ops| - 1].v == v then ops[|ops| - 1].Add? else LastWasAdd(ops[..|ops| - 1], v))
  }

  /** Over every run: the set stays within its limit, and holds a key only if the last thing done to that
      key was to add it. */
  lemma {:induction false} HeldMeansAdded(limit: nat, ops: seq<SeenOp>, v: string)
    ensures ApplyAll(Seen({}, []), limit, ops).Valid(limit)
    ensures v in ApplyAll(Seen({}, []), limit, ops).items ==> LastWasAdd(ops, v)
    decreases |ops|
  {
    if ops != [] {
      var before := ApplyAll(Seen({}, []), limit, ops[..|ops| - 1]);
      HeldMeansAdded(limit, ops[..|ops| - 1], v);
      if ops[|ops| - 1].Add? {
        AddKeepsValid(before, limit, ops[|ops| - 1].v);
      }
    }
  }

  /** Without discards, the order lists exactly the keys held, once each. */
  ghost predicate Clean(s: Seen) {
    (forall v :: v in s.items <==> v in s.order) && forall i, j :: 0 <= i < j < |s.order| ==> s.order[i] != s.order[j]
  }

  lemma AddKeepsClean(s: Seen, limit: nat, v: string)
    requires s.Valid(limit) && Clean(s)
    ensures Clean(s.Added(limit, v))
  {
    if v !in s.items {
      var all := s.order + [v];
      assert forall i, j :: 0 <= i < j < |all| ==> all[i] != all[j];
      assert forall x :: x in all <==> x in s.items + {v};
      if |all| > limit {
        var rest := all[1..];
        assert all == [all[0]] + rest;
        assert forall i :: 0 <= i < |rest| ==> rest[i] == all[i + 1] != all[0];
        assert forall x :: x in rest <==> x in s.items + {v} - {all[0]};
      }
    }
  }

  /** A key stays for as many further adds as there are entries older than it and free places. */
  lemma {:induction false} YoungKeysStay(s: Seen, limit: nat, ops: seq<SeenOp>, i: nat)
    requires s.Valid(limit) && Clean(s) && i < |s.order|
    requires forall op :: op in ops ==> op.Add?
    requires |ops| <= i + (limit - |s.order|)
    ensures ApplyAll(s, limit, ops).Valid(limit) && Clean(ApplyAll(s, limit, ops))
    ensures exists j :: KeptAt(s, i, limit, ApplyAll(s, limit, ops), |ops|, j)
    ensures s.order[i] in ApplyAll(s, limit, ops).items
    decreases |ops|
  {
    if ops == [] {
      assert KeptAt(s, i, limit, s, 0, i);
    } else {
      var front := ops[..|ops| - 1];
      assert ops[|ops| - 1] in ops && forall op :: op in front ==> op in ops;
      YoungKeysStay(s, limit, front, i);
      var mid := ApplyAll(s, limit, front);
      var j :| KeptAt(s, i, limit, mid, |front|, j);
      var v := ops[|ops| - 1].v;
      AddKeepsValid(mid, limit, v);
      AddKeepsClean(mid, limit, v);
      var after := mid.Added(limit, v);
      var k := if v in mid.items || |mid.order| < limit then j else j - 1;
      assert KeptAt(s, i, limit, after, |ops|, k);
    }
  }

  /** The key at position `i` of `s` is at position `j` of `t`, no further forward than `adds` allow. */
  predicate KeptAt(s: Seen, i: nat, limit: nat, t: Seen, adds: nat, j: int)
    requires i < |s.order|
  {
    && 0 <= j < |t.order| && t.order[j] == s.order[i] && t.order[j] in t.items
    && j + (limit - |t.order|) >= i + (limit - |s.order|) - adds
  }

  // --------------------------------------------------------------------- the pool

  datatype Entry = Entry(raw: string, hash: string, kind: string, highPriority: bool)

  function Keys(items: seq<Entry>): set<string> {
    set e | e in items :: e.hash
  }

  predicate DistinctKeys(items: seq<Entry>) {
    forall i, j :: 0 <= i < j < |items| ==> items[i].hash != items[j].hash
  }

  /** What trimming keeps: the front after a high-priority add, the back otherwise. */
  function Kept(items: seq<Entry>, highPriority: bool, limit: nat): seq<Entry> {
    if |items| <= limit then items
    else if highPriority then items[..limit]
    else items[|items| - limit..]
  }

  function Placed(items: seq<Entry>, e: Entry): seq<Entry> {
    if e.highPriority then [e] + items else items + [e]
  }

  function Pooled(items: seq<Entry>, e: Entry, limit: nat): seq<Entry> {
    if e.hash in Keys(items) then items else Kept(Placed(items, e), e.highPriority, limit)
  }

  class GossipPool {
    const limit: nat
    const metaOf: string -> (string, string)
    var items: seq<Entry>
    var seen: set<string>

    /** The dedupe index is exactly the keys of the entries, which are distinct. */
    ghost predicate Valid()
      reads this
    {
      seen == Keys(items) && DistinctKeys(items)
    }

    constructor (limit: nat, metaOf: string -> (string, string))
      ensures Valid() && items == [] && this.limit == limit && this.metaOf == metaOf
    {
      this.limit, this.metaOf := limit, metaOf;
      items, seen := [], {};
    }

    function EntryFor(raw: string, highPriority: bool): Entry {
      Entry(raw, metaOf(raw).0, metaOf(raw).1, highPriority)
    }

    /** A missing or zero limit means the pool's own. */
    function Effective(given: nat): nat {
      if given == 0 then limit else given
    }

    method Trim(highPriority: bool, given: nat)
      requires Valid()
      modifies this
      ensures Valid() && items == Kept(old(items), highPriority, Effective(given))
    {
      ghost var all := items;
      var cap := Effective(given);
      while |items| > cap
        invariant Valid() && Kept(items, highPriority, cap) == Kept(all, highPriority, cap)
        decreases |items|
      {
        var removed: Entry;
        ghost var before := items;
        if highPriority {
          removed, items := items[|items| - 1], items[..|items| - 1];
        } else {
          removed, items := items[0], items[1..];
        }
        seen := seen - {removed.hash};
        KeysWithout(before, items, removed, highPriority);
      }
    }

    method Add(raw: string, highPriority: bool, given: nat) returns (isNew: bool)
      requires Valid()
      modifies this
      ensures Valid() && isNew == (metaOf(raw).0 !in Keys(old(items)))
      ensures items == Pooled(old(items), EntryFor(raw, highPriority), Effective(given))
      ensures isNew ==> |items| <= Effective(given)
    {
      var entry := EntryFor(raw, highPriority);
      if entry.hash in seen {
        return false;
      }
      seen := seen + {entry.hash};
      ghost var before := items;
      items := if highPriority then [entry] + items else items + [entry];
      KeysWith(before, items, entry);
      Trim(highPriority, given);
      return true;
    }

    method Contains(raw: string) returns (there: bool)
      requires Valid()
      ensures there <==> exists e :: e in items && e.hash == metaOf(raw).0
    {
      there := metaOf(raw).0 in seen;
    }
  }

  lemma KeysWith(before: seq<Entry>, after: seq<Entry>, e: Entry)
    requires after == Placed(before, e) && e.hash !in Keys(before) && DistinctKeys(before)
    ensures Keys(after) == Keys(before) + {e.hash} && DistinctKeys(after)
  {
    assert forall x :: x in after <==> x in before || x == e;
    forall x | x in before
      ensures x.hash in Keys(before)
    {
    }
  }

  lemma KeysWithout(before: seq<Entry>, after: seq<Entry>, removed: Entry, highPriority: bool)
    requires before != [] && DistinctKeys(before)
    requires if highPriority then after == before[..|before| - 1] && removed == before[|before| - 1]
             else after == before[1..] && removed == before[0]
    ensures Keys(after) == Keys(before) - {removed.hash} && DistinctKeys(after)
  {
    assert before == if highPriority then after + [removed] else [removed] + after;
    assert forall x :: x in before <==> x in after || x == removed;
    forall x | x in after
      ensures x.hash != removed.hash
    {
      var i :| 0 <= i < |after| && after[i] == x;
    }
  }

  /** A normal add to a full pool evicts the front entry, whatever its priority. */
  lemma FullPoolLosesItsFront(items: seq<Entry>, e: Entry, limit: nat)
    requires |items| == limit >= 1 && e.hash !in Keys(items) && !e.highPriority
    ensures Pooled(items, e, limit) == items[1..] + [e]
  {
    assert (items + [e])[1..] == items[1..] + [e];
  }

  /** So a high-priority message survives the next normal one exactly when there is room left for it. */
  lemma UrgentSurvivesIffRoom(items: seq<Entry>, urgent: Entry, next: Entry, limit: nat)
    requires limit >= 1 && |items| <= limit && DistinctKeys(items)
    requires urgent.highPriority && urgent.hash !in Keys(items) && !next.highPriority
    requires next.hash !in Keys(Pooled(items, urgent, limit))
    ensures urgent in Pooled(Pooled(items, urgent, limit), next, limit) <==> |items| + 1 < limit
  {
    var first := Pooled(items, urgent, limit);
    assert first[0] == urgent;
    assert urgent.hash in Keys(first);
    assert forall x :: x in first[1..] ==> x in items;
    if |items| + 1 < limit {
      assert Pooled(first, next, limit) == first + [next];
    } else {
      FullPoolLosesItsFront(first, next, limit);
      forall x | x in first[1..] + [next]
        ensures x != urgent
      {
        if x in items {
          assert x.hash in Keys(items);
        }
      }
    }
  }

  datatype PoolOp = PoolOp(entry: Entry, limit: nat)

  function PoolAll(items: seq<Entry>, ops: seq<PoolOp>): seq<Entry> {
    if ops == [] then items else Pooled(PoolAll(items, ops[..|ops| - 1]), ops[|ops| - 1].entry, ops[|ops| - 1].limit)
  }

  /** Over every run of adds with limits up to `bound`, keys stay distinct and entries within the bound. */
  lemma {:induction false} PoolStaysBounded(ops: seq<PoolOp>, bound: nat)
    requires forall op :: op in ops ==> op.limit <= bound
    ensures |PoolAll([], ops)| <= bound && DistinctKeys(PoolAll([], ops))
    decreases |ops|
  {
    if ops != [] {
      var op := ops[|ops| - 1];
      assert op in ops && forall o :: o in ops[..|ops| - 1] ==> o in ops;
      PoolStaysBounded(ops[..|ops| - 1], bound);
      var before := PoolAll([], ops[..|ops| - 1]);
      if op.entry.hash !in Keys(before) {
        KeysWith(before, Placed(before, op.entry), op.entry);
      }
    }
  }
}
