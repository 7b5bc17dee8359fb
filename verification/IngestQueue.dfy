/** Messages that are marked as seen first and ingested later: in the background, or by a queue's worker. */
module IngestQueue {
  import opened Wrappers
  import opened Gossip
  import opened Ingest

  /** Marking a message's keys before its attempts is one more pass, and nothing else: so all that holds of
      a message's attempts holds of marking and attempts together. */
  lemma MarkedThenIngested(s: Seen, limit: nat, keys: seq<string>, status: Status, used: nat)
    requires s.Valid(limit) && used >= 1
    ensures AddedAll(s, limit, keys).Valid(limit)
    ensures var after := SeenAfter(AddedAll(s, limit, keys), limit, keys, status, used);
      after == SeenAfter(s, limit, keys, status, used + 1) && Remembers(s, limit, keys, status, after)
  {
    hide AddedAll, News, Dropped, Seen.Valid, Remembers, SeenAfter;
    OrderAfter(s, limit, keys);
    MarkedState(s, limit, keys, status, used);
    SeenAfterFacts(s, limit, keys, status, used + 1);
  }

  lemma AfterAccepted(s: Seen, limit: nat, keys: seq<string>, used: nat)
    requires used >= 1
    ensures SeenAfter(s, limit, keys, Accepted, used) == AddedAll(s, limit, Repeated(keys, used))
  {
  }

  lemma AfterOther(s: Seen, limit: nat, keys: seq<string>, status: Status, used: nat)
    requires used >= 1 && status != Accepted
    ensures SeenAfter(s, limit, keys, status, used) == DiscardedAll(AddedAll(s, limit, Repeated(keys, used - 1)), keys)
  {
  }

  lemma MarkedState(s: Seen, limit: nat, keys: seq<string>, status: Status, used: nat)
    requires used >= 1
    ensures SeenAfter(AddedAll(s, limit, keys), limit, keys, status, used)
         == SeenAfter(s, limit, keys, status, used + 1)
  {
    hide AddedAll, Repeated, DiscardedAll, SeenAfter;
    var marked := AddedAll(s, limit, keys);
    if status == Accepted {
      MarkIsOnePass(s, limit, keys, used);
      AfterAccepted(marked, limit, keys, used);
      AfterAccepted(s, limit, keys, used + 1);
    } else {
      MarkIsOnePass(s, limit, keys, used - 1);
      AfterOther(marked, limit, keys, status, used);
      AfterOther(s, limit, keys, status, used + 1);
    }
  }

  lemma {:induction false} MarkIsOnePass(s: Seen, limit: nat, keys: seq<string>, n: nat)
    ensures AddedAll(AddedAll(s, limit, keys), limit, Repeated(keys, n)) == AddedAll(s, limit, Repeated(keys, n + 1))
    decreases n
  {
    NothingRepeated(AddedAll(s, limit, keys), limit, keys);
    NothingRepeated(s, limit, keys);
    OneMoreAttempt(s, limit, keys, n);
    hide AddedAll, Repeated;
    if n > 0 {
      MarkIsOnePass(s, limit, keys, n - 1);
      OneMoreAttempt(AddedAll(s, limit, keys), limit, keys, n - 1);
    }
  }

  /** The slots for messages ingested in the background. */
  class IngestSlots {
    const capacity: nat
    var free: nat

    ghost predicate Valid()
      reads this
    {
      free <= capacity
    }

    constructor (capacity: nat)
      ensures Valid() && free == capacity && this.capacity == capacity
    {
      this.capacity, free := capacity, capacity;
    }

    /** Takes a slot if one is free, marks the keys, makes the attempts and gives the slot back. */
    method MarkAndIngest(m: Prepared, verdicts: nat -> Verdict, configured: nat, seen: BoundedSeenSet, pool: GossipPool,
                         cap: nat)
      returns (started: bool, status: Status, used: nat)
      requires Valid() && seen.Valid() && pool.Valid()
      modifies this, seen, pool
      ensures Valid() && seen.Valid() && pool.Valid() && free == old(free) && started == (old(free) > 0)
      ensures !started ==> seen.State() == old(seen.State()) && pool.items == old(pool.items)
      ensures started ==>
                && Concludes(verdicts, configured, status, used)
                && pool.items == PoolAfter(old(pool.items), pool.metaOf, m, verdicts(used - 1), pool.Effective(cap))
                && seen.State() == SeenAfter(old(seen.State()), seen.limit, m.keys, status, used + 1)
                && Remembers(old(seen.State()), seen.limit, m.keys, status, seen.State())
    {
      hide AddedAll, PoolAfter, Seen.Valid, SeenAfter, Remembers;
      if free == 0 {
        return false, Rejected, 0;
      }
      free := free - 1;
      AddAll(seen, m.keys);
      status, used := IngestWithRetry(m, verdicts, configured, seen, pool, cap);
      MarkedThenIngested(old(seen.State()), seen.limit, m.keys, status, used);
      free := free + 1;
      started := true;
    }
  }

  /** Two lanes of messages waiting for a worker, with their keys already marked. */
  class GossipIngestQueue {
    const seen: BoundedSeenSet
    const pool: GossipPool
    const criticalMax: nat
    const gossipMax: nat
    var critical: seq<Prepared>
    var gossip: seq<Prepared>

    ghost predicate Valid()
      reads this, seen, pool
    {
      && seen.Valid() && pool.Valid() && 1 <= criticalMax && 1 <= gossipMax
      && |critical| <= criticalMax && |gossip| <= gossipMax
    }

    constructor (seen: BoundedSeenSet, pool: GossipPool, criticalMax: nat, gossipMax: nat)
      requires seen.Valid() && pool.Valid()
      ensures Valid() && this.seen == seen && this.pool == pool && critical == [] && gossip == []
      ensures this.criticalMax == AtLeastOne(criticalMax) && this.gossipMax == AtLeastOne(gossipMax)
    {
      this.seen, this.pool := seen, pool;
      this.criticalMax, this.gossipMax := AtLeastOne(criticalMax), AtLeastOne(gossipMax);
      critical, gossip := [], [];
    }

    /** Marks the keys and queues the message in its lane; a full lane refuses it and unmarks them. */
    method Enqueue(m: Prepared) returns (allowed: bool, retryAfter: real)
      requires Valid()
      modifies this, seen
      ensures Valid() && pool.items == old(pool.items)
      ensures allowed == if m.kind in URGENT_KINDS then |old(critical)| < criticalMax else |old(gossip)| < gossipMax
      ensures allowed ==>
                && retryAfter == 0.0 && seen.State() == AddedAll(old(seen.State()), seen.limit, m.keys)
                && critical == old(critical) + (if m.kind in URGENT_KINDS then [m] else [])
                && gossip == old(gossip) + (if m.kind in URGENT_KINDS then [] else [m])
      ensures !allowed ==>
                && retryAfter == 11.0 && critical == old(critical) && gossip == old(gossip)
                && seen.State() == SeenAfter(old(seen.State()), seen.limit, m.keys, Rejected, 2)
                && Remembers(old(seen.State()), seen.limit, m.keys, Rejected, seen.State())
    {
      hide AddedAll, DiscardedAll, Seen.Valid, Remembers;
      var urgent := m.kind in URGENT_KINDS;
      var waiting, room := if urgent then |critical| else |gossip|, if urgent then criticalMax else gossipMax;
      AddAll(seen, m.keys);
      if waiting < room {
        if urgent {
          critical := critical + [m];
        } else {
          gossip := gossip + [m];
        }
        return true, 0.0;
      }
      DiscardAll(seen, m.keys);
      RefusedAfterMark(old(seen.State()), seen.limit, m.keys);
      var load := waiting as real / room as real;
      assert waiting == room;
      FullLoad(room);
      return false, Clamped(1.0, 30.0, 1.0 + load * 10.0);
    }

    /** One turn of a worker: the next urgent message, or else the next other one. */
    method Work(verdicts: nat -> Verdict, configured: nat, cap: nat)
      returns (m: Option<Prepared>, status: Status, used: nat)
      requires Valid()
      modifies this, seen, pool
      ensures Valid()
      ensures m == Next(old(critical), old(gossip))
      ensures critical == (if old(critical) == [] then [] else old(critical)[1..])
      ensures gossip == (if old(critical) == [] && old(gossip) != [] then old(gossip)[1..] else old(gossip))
      ensures m.None? ==> seen.State() == old(seen.State()) && pool.items == old(pool.items)
      ensures m.Some? ==>
                && Concludes(verdicts, configured, status, used)
                && pool.items
                     == PoolAfter(old(pool.items), pool.metaOf, m.value, verdicts(used - 1), pool.Effective(cap))
                && seen.State() == SeenAfter(old(seen.State()), seen.limit, m.value.keys, status, used)
                && Remembers(old(seen.State()), seen.limit, m.value.keys, status, seen.State())
    {
      hide AddedAll, PoolAfter, Seen.Valid, SeenAfter, Remembers;
      if critical != [] {
        m := Some(critical[0]);
        critical := critical[1..];
      } else if gossip != [] {
        m := Some(gossip[0]);
        gossip := gossip[1..];
      } else {
        return None, Rejected, 0;
      }
      status, used := IngestWithRetry(m.value, verdicts, configured, seen, pool, cap);
    }
  }

  function Next(critical: seq<Prepared>, gossip: seq<Prepared>): Option<Prepared> {
    if critical != [] then Some(critical[0]) else if gossip != [] then Some(gossip[0]) else None
  }

  function Clamped(low: real, high: real, x: real): real {
    if x < low then low else if high < x then high else x
  }

  lemma FullLoad(room: nat)
    requires room >= 1
    ensures room as real / room as real == 1.0
  {
  }

  /** A message that is marked and then refused is one whose only attempt was refused. */
  lemma RefusedAfterMark(s: Seen, limit: nat, keys: seq<string>)
    requires s.Valid(limit)
    ensures var after := DiscardedAll(AddedAll(s, limit, keys), keys);
      after == SeenAfter(s, limit, keys, Rejected, 2) && Remembers(s, limit, keys, Rejected, after)
  {
    hide DiscardedAll, AddedAll, Repeated, Seen.Valid, Remembers;
    NothingRepeated(AddedAll(s, limit, keys), limit, keys);
    MarkedThenIngested(s, limit, keys, Rejected, 1);
  }
}
