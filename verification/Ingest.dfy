/** What one gossiped message does to the seen keys and the pool, attempt by attempt. */
module Ingest {
  import opened Wrappers
  import opened Gossip

  const URGENT_KINDS: set<string> := {
    "ind.conflict_proof.v3", "ind.transparency_equivocation_proof.v3", "ind.transparency_operator_policy_violation.v3"}

  /** A message the store wants passed on. */
  datatype Queued = Queued(raw: string, kind: string)

  datatype StoreResult = StoreResult(accepted: bool, relay: bool, messages: seq<Queued>, conflictProof: Option<string>)

  /** The store answers or fails; transient failures may go away. */
  datatype Verdict = Answers(result: StoreResult) | Fails | FailsTransiently

  datatype Status = Accepted | Rejected | Retryable

  datatype Prepared = Prepared(raw: string, kind: string, keys: seq<string>)

  function StatusOf(v: Verdict): Status {
    match v
    case Answers(result) => if result.accepted then Accepted else Rejected
    case Fails => Rejected
    case FailsTransiently => Retryable
  }

  // ------------------------------------------------------------------------ seen keys

  function AddedAll(s: Seen, limit: nat, keys: seq<string>): Seen {
    if keys == [] then s else AddedAll(s, limit, keys[..|keys| - 1]).Added(limit, keys[|keys| - 1])
  }

  function DiscardedAll(s: Seen, keys: seq<string>): Seen {
    Seen(s.items - (set k | k in keys), s.order)
  }

  function Repeated(keys: seq<string>, n: nat): seq<string> {
    if n == 0 then [] else Repeated(keys, n - 1) + keys
  }

  method AddAll(seen: BoundedSeenSet, keys: seq<string>)
    requires seen.Valid()
    modifies seen
    ensures seen.Valid() && seen.State() == AddedAll(old(seen.State()), seen.limit, keys)
  {
    for i := 0 to |keys|
      invariant seen.Valid() && seen.State() == AddedAll(old(seen.State()), seen.limit, keys[..i])
    {
      assert keys[..i + 1][..i] == keys[..i];
      var _ := seen.Add(keys[i]);
    }
    assert keys[..|keys|] == keys;
  }

  method DiscardAll(seen: BoundedSeenSet, keys: seq<string>)
    requires seen.Valid()
    modifies seen
    ensures seen.Valid() && seen.State() == DiscardedAll(old(seen.State()), keys)
  {
    for i := 0 to |keys|
      invariant seen.Valid() && seen.State() == DiscardedAll(old(seen.State()), keys[..i])
    {
      assert keys[..i + 1] == keys[..i] + [keys[i]];
      seen.Discard(keys[i]);
    }
    assert keys[..|keys|] == keys;
  }

  lemma {:induction false} AddedInParts(s: Seen, limit: nat, a: seq<string>, b: seq<string>)
    ensures AddedAll(s, limit, a + b) == AddedAll(AddedAll(s, limit, a), limit, b)
    decreases |b|
  {
    if b == [] {
      assert a + b == a;
    } else {
      assert (a + b)[..|a + b| - 1] == a + b[..|b| - 1];
      AddedInParts(s, limit, a, b[..|b| - 1]);
    }
  }

  lemma {:induction false} RepeatedHolds(keys: seq<string>, n: nat, k: string)
    ensures k in Repeated(keys, n) <==> n > 0 && k in keys
    decreases n
  {
    if n > 1 {
      RepeatedHolds(keys, n - 1, k);
    }
  }

  /** The keys that were new at their turn, in order. */
  function News(s: Seen, limit: nat, keys: seq<string>): seq<string> {
    if keys == [] then []
    else
      var front, v := keys[..|keys| - 1], keys[|keys| - 1];
      News(s, limit, front) + if v in AddedAll(s, limit, front).items then [] else [v]
  }

  /** How many entries were dropped to make place. */
  function Dropped(s: Seen, limit: nat, keys: seq<string>): nat {
    if keys == [] then 0
    else
      var mid := AddedAll(s, limit, keys[..|keys| - 1]);
      Dropped(s, limit, keys[..|keys| - 1]) + if keys[|keys| - 1] !in mid.items && |mid.order| >= limit then 1 else 0
  }

  /** One new key on an order that is the tail of `all` from `d`: a full set drops the entry at `d`. */
  lemma OneMoreKey(mid: Seen, limit: nat, all: seq<string>, d: nat, v: string)
    requires mid.Valid(limit) && d <= |all| && mid.order == all[d..] && v !in mid.items
    ensures var full := |mid.order| >= limit;
      && mid.Added(limit, v).Valid(limit)
      && mid.Added(limit, v).order == (all + [v])[if full then d + 1 else d..]
      && mid.Added(limit, v).items == if full then mid.items + {v} - {(all + [v])[d]} else mid.items + {v}
  {
    AddKeepsValid(mid, limit, v);
    assert (all + [v])[d..] == mid.order + [v];
    if |mid.order| >= limit {
      assert (mid.order + [v])[1..] == (all + [v])[d + 1..];
      assert (mid.order + [v])[0] == (all + [v])[d];
    }
  }

  /** The three counts, one key further. */
  lemma KeyByKey(s: Seen, limit: nat, front: seq<string>, v: string)
    ensures var mid := AddedAll(s, limit, front);
      && AddedAll(s, limit, front + [v]) == mid.Added(limit, v)
      && News(s, limit, front + [v]) == News(s, limit, front) + (if v in mid.items then [] else [v])
      && Dropped(s, limit, front + [v])
           == Dropped(s, limit, front) + (if v !in mid.items && |mid.order| >= limit then 1 else 0)
  {
    hide Seen.Added;
    assert (front + [v])[..|front|] == front;
  }

  /** The order after adding: what there was and what was new, less what was dropped from the front. */
  lemma {:induction false} OrderAfter(s: Seen, limit: nat, keys: seq<string>)
    requires s.Valid(limit)
    ensures var all, d := s.order + News(s, limit, keys), Dropped(s, limit, keys);
      && AddedAll(s, limit, keys).Valid(limit) && d <= |all| && AddedAll(s, limit, keys).order == all[d..]
      && |News(s, limit, keys)| <= |keys| && forall k :: k in News(s, limit, keys) ==> k in keys
    ensures Dropped(s, limit, keys) == 0 || |AddedAll(s, limit, keys).order| == limit
    decreases |keys|
  {
    if keys != [] {
      var front, v := keys[..|keys| - 1], keys[|keys| - 1];
      assert keys == front + [v];
      OrderAfter(s, limit, front);
      KeyByKey(s, limit, front, v);
      hide Seen.Added, Seen.Valid, AddedAll, News, Dropped;
      var mid := AddedAll(s, limit, front);
      var all := s.order + News(s, limit, front);
      if v in mid.items {
        HeldAlready(mid, limit, v);
      } else {
        OneMoreKey(mid, limit, all, Dropped(s, limit, front), v);
        OrderFits(mid, limit);
        assert s.order + News(s, limit, keys) == all + [v];
      }
    }
  }

  lemma HeldAlready(s: Seen, limit: nat, v: string)
    requires v in s.items
    ensures s.Added(limit, v) == s
  {
  }

  lemma OrderFits(s: Seen, limit: nat)
    requires s.Valid(limit)
    ensures |s.order| <= limit
  {
  }

  /** The last add, seen from the whole order. */
  lemma LastAdd(s: Seen, limit: nat, front: seq<string>, v: string)
    requires s.Valid(limit)
    ensures var mid, after := AddedAll(s, limit, front), AddedAll(s, limit, front + [v]);
      var d, all := Dropped(s, limit, front), s.order + News(s, limit, front);
      && d <= |all| && mid.Valid(limit) && mid.order == all[d..] && after == mid.Added(limit, v)
      && Dropped(s, limit, front + [v]) == d + (if v !in mid.items && |mid.order| >= limit then 1 else 0)
      && after.items == if v in mid.items then mid.items
                        else if |mid.order| >= limit then mid.items + {v} - {(all + [v])[d]}
                        else mid.items + {v}
  {
    OrderAfter(s, limit, front);
    KeyByKey(s, limit, front, v);
    var mid := AddedAll(s, limit, front);
    hide Seen.Added, Seen.Valid, AddedAll, News, Dropped;
    if v in mid.items {
      HeldAlready(mid, limit, v);
    } else {
      OneMoreKey(mid, limit, s.order + News(s, limit, front), Dropped(s, limit, front), v);
    }
  }

  /** The first `d` entries, or all there are. */
  function Front(order: seq<string>, d: nat): seq<string> {
    if d <= |order| then order[..d] else order
  }

  /** Dropping one entry more loses another key only if that entry is the key. */
  lemma NextEvictee(order: seq<string>, news: seq<string>, d: nat, v: string, k: string)
    requires d <= |order + news| && k != v && k !in news
    ensures var all := order + news;
      k in Front(order, d + 1) <==> k in Front(order, d) || (all + [v])[d] == k
  {
    var all := order + news;
    if d < |order| {
      assert (all + [v])[d] == order[d] && order[..d + 1] == order[..d] + [order[d]];
    } else {
      assert (all + [v])[d] in news + [v];
    }
  }

  /** What adding keys does to any other key: it stays exactly if it is not among the entries dropped. */
  lemma {:induction false} OthersOnlyEvicted(s: Seen, limit: nat, keys: seq<string>, k: string)
    requires s.Valid(limit) && k !in keys
    ensures k in AddedAll(s, limit, keys).items <==> k in s.items && k !in Front(s.order, Dropped(s, limit, keys))
    decreases |keys|
  {
    if keys != [] {
      var front, v := keys[..|keys| - 1], keys[|keys| - 1];
      assert keys == front + [v];
      OthersOnlyEvicted(s, limit, front, k);
      LastAdd(s, limit, front, v);
      OrderAfter(s, limit, front);
      hide AddedAll, Dropped, News, Seen.Valid, Seen.Added, Front;
      NextEvictee(s.order, News(s, limit, front), Dropped(s, limit, front), v, k);
    }
  }

  /** Nothing is held afterwards but what was held or added. */
  lemma {:induction false} OnlyAddedHeld(s: Seen, limit: nat, keys: seq<string>, k: string)
    ensures k in AddedAll(s, limit, keys).items ==> k in s.items || k in keys
    decreases |keys|
  {
    if keys != [] {
      assert keys == keys[..|keys| - 1] + [keys[|keys| - 1]];
      OnlyAddedHeld(s, limit, keys[..|keys| - 1], k);
    }
  }

  /** Keys the order does not know are all remembered, even by a full set, if it has as many places. */
  lemma {:induction false} FreshKeysAreHeld(s: Seen, limit: nat, keys: seq<string>)
    requires s.Valid(limit) && |keys| <= limit && forall k :: k in keys ==> k !in s.order
    ensures forall k :: k in keys ==> k in AddedAll(s, limit, keys).items
    decreases |keys|
  {
    if keys != [] {
      var front, v := keys[..|keys| - 1], keys[|keys| - 1];
      assert keys == front + [v];
      FreshKeysAreHeld(s, limit, front);
      LastAdd(s, limit, front, v);
      OrderAfter(s, limit, front);
      OrderFits(AddedAll(s, limit, front), limit);
      hide AddedAll, Dropped, News, Seen.Valid, Seen.Added;
      var d, all := Dropped(s, limit, front), s.order + News(s, limit, front);
      if |AddedAll(s, limit, front).order| >= limit {
        assert |all| - d == limit && d < |s.order|;
        assert (all + [v])[d] == s.order[d];
      }
    }
  }

  lemma {:induction false} HeldKeysStay(s: Seen, limit: nat, keys: seq<string>)
    requires forall k :: k in keys ==> k in s.items
    ensures AddedAll(s, limit, keys) == s
    decreases |keys|
  {
    if keys != [] {
      assert keys[|keys| - 1] in keys;
      HeldKeysStay(s, limit, keys[..|keys| - 1]);
    }
  }

  /** Once a pass leaves all keys held, further passes change nothing. */
  lemma {:induction false} OnceIsEnough(s: Seen, limit: nat, keys: seq<string>, n: nat)
    requires n > 0 && forall k :: k in keys ==> k in AddedAll(s, limit, keys).items
    ensures AddedAll(s, limit, Repeated(keys, n)) == AddedAll(s, limit, keys)
    decreases n
  {
    hide AddedAll;
    AddedInParts(s, limit, Repeated(keys, n - 1), keys);
    if n > 1 {
      OnceIsEnough(s, limit, keys, n - 1);
      HeldKeysStay(AddedAll(s, limit, keys), limit, keys);
    } else {
      NothingRepeated(s, limit, keys);
    }
  }

  /** As long as nothing is dropped, what is held is what was held and what was added. */
  lemma {:induction false} NothingDropped(s: Seen, limit: nat, keys: seq<string>)
    requires s.Valid(limit) && Dropped(s, limit, keys) == 0
    ensures AddedAll(s, limit, keys).items == s.items + set k | k in keys
    decreases |keys|
  {
    if keys != [] {
      var front, v := keys[..|keys| - 1], keys[|keys| - 1];
      assert keys == front + [v];
      LastAdd(s, limit, front, v);
      hide AddedAll, News, Dropped, Seen.Added, Seen.Valid;
      NothingDropped(s, limit, front);
      assert (set k | k in keys) == (set k | k in front) + {v};
    }
  }

  /** A set with a place for every key to come drops nothing. */
  lemma RoomHoldsAll(s: Seen, limit: nat, keys: seq<string>)
    requires s.Valid(limit) && |s.order| + |keys| <= limit
    ensures AddedAll(s, limit, keys).items == s.items + set k | k in keys
  {
    hide AddedAll, Dropped, News, Seen.Valid;
    OrderAfter(s, limit, keys);
    NothingDropped(s, limit, keys);
  }

  /** Adding fresh keys again and again is adding them once. */
  lemma FreshKeysStay(s: Seen, limit: nat, keys: seq<string>, n: nat)
    requires s.Valid(limit) && |keys| <= limit && n > 0 && forall k :: k in keys ==> k !in s.order
    ensures AddedAll(s, limit, Repeated(keys, n)) == AddedAll(s, limit, keys)
    ensures forall k :: k in keys ==> k in AddedAll(s, limit, Repeated(keys, n)).items
  {
    hide AddedAll, Repeated, Seen.Valid;
    FreshKeysAreHeld(s, limit, keys);
    OnceIsEnough(s, limit, keys, n);
  }

  predicate DistinctNames(keys: seq<string>) {
    forall i, j :: 0 <= i < j < |keys| ==> keys[i] != keys[j]
  }

  /** A stale copy of the key, left in the order by an earlier discard, is dropped by add `i` or a later
      one: the entry at position `p` is dropped once the free places and `p` more are used up. */
  predicate StaleCopyDropped(s: Seen, limit: nat, keys: seq<string>, i: nat)
    requires i < |keys| <= limit && |s.order| <= limit
  {
    exists p :: 0 <= p < |s.order| && s.order[p] == keys[i] && i <= limit - |s.order| + p < |keys|
  }

  lemma {:induction false} NewKeysCount(s: Seen, limit: nat, keys: seq<string>)
    requires s.Valid(limit) && DistinctNames(keys) && forall k :: k in keys ==> k !in s.items
    ensures News(s, limit, keys) == keys
    decreases |keys|
  {
    if keys != [] {
      var front, v := keys[..|keys| - 1], keys[|keys| - 1];
      assert keys == front + [v];
      NewKeysCount(s, limit, front);
      OnlyAddedHeld(s, limit, front, v);
    }
  }

  /** The last of several new keys: it takes a free place, or that of the entry next in line. */
  lemma LastNewKey(s: Seen, limit: nat, front: seq<string>, v: string)
    requires s.Valid(limit) && |front| < limit && DistinctNames(front + [v])
    requires forall k :: k in front + [v] ==> k !in s.items
    ensures |s.order| <= limit
    ensures var room, mid, after := limit - |s.order|, AddedAll(s, limit, front), AddedAll(s, limit, front + [v]);
      after.items == if |front| >= room then mid.items + {v} - {s.order[|front| - room]} else mid.items + {v}
  {
    OrderFits(s, limit);
    assert forall i :: 0 <= i < |front| ==> (front + [v])[i] == front[i] && front[i] in front + [v];
    NewKeysCount(s, limit, front);
    OnlyAddedHeld(s, limit, front, v);
    LastAdd(s, limit, front, v);
    OrderAfter(s, limit, front);
    OrderFits(AddedAll(s, limit, front), limit);
    hide AddedAll, Dropped, News, Seen.Valid, Seen.Added;
    var room, d, all := limit - |s.order|, Dropped(s, limit, front), s.order + front;
    assert v in front + [v];
    if |front| >= room {
      assert d == |front| - room && (all + [v])[d] == s.order[|front| - room];
    }
  }

  /** Exactly which of a message's keys are forgotten while they are added: those of which a stale copy
      is dropped at or after their own add. */
  lemma {:induction false} KeyIsForgottenIff(s: Seen, limit: nat, keys: seq<string>, i: nat)
    requires s.Valid(limit) && i < |keys| <= limit && DistinctNames(keys) && forall k :: k in keys ==> k !in s.items
    ensures |s.order| <= limit
    ensures keys[i] !in AddedAll(s, limit, keys).items <==> StaleCopyDropped(s, limit, keys, i)
    decreases |keys|
  {
    hide AddedAll, Seen.Valid, StaleCopyDropped;
    var front, v := keys[..|keys| - 1], keys[|keys| - 1];
    assert keys == front + [v];
    LastNewKey(s, limit, front, v);
    if i < |front| {
      KeyIsForgottenIff(s, limit, front, i);
      assert front[i] == keys[i] != v;
    }
    if |front| >= limit - |s.order| {
      LaterCopy(s, limit, front, v, i);
    } else {
      NoCopyDropped(s, limit, keys, i);
    }
  }

  /** With places to spare nothing is dropped. */
  lemma NoCopyDropped(s: Seen, limit: nat, keys: seq<string>, i: nat)
    requires i < |keys| <= limit - |s.order|
    ensures !StaleCopyDropped(s, limit, keys, i)
    ensures i < |keys| - 1 ==> !StaleCopyDropped(s, limit, keys[..|keys| - 1], i)
  {
  }

  /** One more add may drop one more stale copy, the one it makes place over. */
  lemma LaterCopy(s: Seen, limit: nat, front: seq<string>, v: string, i: nat)
    requires i <= |front| < limit && |s.order| <= limit && |front| >= limit - |s.order|
    ensures var key := (front + [v])[i];
      StaleCopyDropped(s, limit, front + [v], i) <==>
        (i < |front| && StaleCopyDropped(s, limit, front, i)) || s.order[|front| - (limit - |s.order|)] == key
  {
    var keys, room, key := front + [v], limit - |s.order|, (front + [v])[i];
    if StaleCopyDropped(s, limit, keys, i) {
      var p :| 0 <= p < |s.order| && s.order[p] == key && i <= room + p < |keys|;
      if room + p < |front| {
        assert StaleCopyDropped(s, limit, front, i);
      }
    }
    if i < |front| && StaleCopyDropped(s, limit, front, i) {
      var p :| 0 <= p < |s.order| && s.order[p] == front[i] && i <= room + p < |front|;
      assert StaleCopyDropped(s, limit, keys, i);
    }
  }

  // -------------------------------------------------------------------------- the pool

  function EntryOf(metaOf: string -> (string, string), raw: string, highPriority: bool): Entry {
    Entry(raw, metaOf(raw).0, metaOf(raw).1, highPriority)
  }

  function QueuedAll(items: seq<Entry>, metaOf: string -> (string, string), messages: seq<Queued>,
                     limit: nat): seq<Entry> {
    if messages == [] then items
    else
      var last := messages[|messages| - 1];
      Pooled(QueuedAll(items, metaOf, messages[..|messages| - 1], limit),
             EntryOf(metaOf, last.raw, last.kind in URGENT_KINDS), limit)
  }

  /** The message itself if it is accepted for relay, then what the store hands back, accepted or not: its
      messages, and last a conflict proof. */
  function PoolAfter(items: seq<Entry>, metaOf: string -> (string, string), m: Prepared, v: Verdict,
                     limit: nat): seq<Entry> {
    if !v.Answers? then items
    else
      var own := if v.result.accepted && v.result.relay
                 then Pooled(items, EntryOf(metaOf, m.raw, m.kind in URGENT_KINDS), limit) else items;
      var queued := QueuedAll(own, metaOf, v.result.messages, limit);
      if v.result.conflictProof.None? then queued
      else Pooled(queued, EntryOf(metaOf, v.result.conflictProof.value, true), limit)
  }

  /** A message that is not accepted for relay leaves no trace of its own in the pool; one that is goes in
      before anything the store hands back. */
  lemma OnlyRelayedIsPooled(items: seq<Entry>, metaOf: string -> (string, string), m: Prepared, other: Prepared,
                            result: StoreResult, limit: nat)
    ensures !(result.accepted && result.relay) ==>
              PoolAfter(items, metaOf, m, Answers(result), limit)
                == PoolAfter(items, metaOf, other, Answers(result), limit)
    ensures result.accepted && result.relay && result.messages == [] && result.conflictProof.None? ==>
              PoolAfter(items, metaOf, m, Answers(result), limit)
                == Pooled(items, Entry(m.raw, metaOf(m.raw).0, metaOf(m.raw).1, m.kind in URGENT_KINDS), limit)
  {
  }

  method QueueStoreResult(pool: GossipPool, result: StoreResult, cap: nat)
    requires pool.Valid()
    modifies pool
    ensures pool.Valid()
    ensures var queued := QueuedAll(old(pool.items), pool.metaOf, result.messages, pool.Effective(cap));
      pool.items == if result.conflictProof.None? then queued
                    else Pooled(queued, EntryOf(pool.metaOf, result.conflictProof.value, true), pool.Effective(cap))
  {
    for i := 0 to |result.messages|
      invariant pool.Valid()
      invariant pool.items == QueuedAll(old(pool.items), pool.metaOf, result.messages[..i], pool.Effective(cap))
    {
      assert result.messages[..i + 1][..i] == result.messages[..i];
      var _ := pool.Add(result.messages[i].raw, result.messages[i].kind in URGENT_KINDS, cap);
    }
    assert result.messages[..|result.messages|] == result.messages;
    if result.conflictProof.Some? {
      var _ := pool.Add(result.conflictProof.value, true, cap);
    }
  }

  // ---------------------------------------------------------------------- one attempt

  /** A transient failure keeps the keys while another attempt is to follow. */
  function AfterIngest(s: Seen, limit: nat, keys: seq<string>, v: Verdict, keepOnRetry: bool): Seen {
    if StatusOf(v) == Accepted || (v.FailsTransiently? && keepOnRetry) then AddedAll(s, limit, keys)
    else DiscardedAll(s, keys)
  }

  method IngestPrepared(m: Prepared, v: Verdict, seen: BoundedSeenSet, pool: GossipPool, cap: nat, keepOnRetry: bool)
    returns (status: Status)
    requires seen.Valid() && pool.Valid()
    modifies seen, pool
    ensures seen.Valid() && pool.Valid() && status == StatusOf(v)
    ensures seen.State() == AfterIngest(old(seen.State()), seen.limit, m.keys, v, keepOnRetry)
    ensures pool.items == PoolAfter(old(pool.items), pool.metaOf, m, v, pool.Effective(cap))
  {
    match v
    case FailsTransiently =>
      if keepOnRetry {
        AddAll(seen, m.keys);
      } else {
        DiscardAll(seen, m.keys);
      }
      return Retryable;
    case Fails =>
      DiscardAll(seen, m.keys);
      return Rejected;
    case Answers(result) =>
      if result.accepted {
        AddAll(seen, m.keys);
        if result.relay {
          var _ := pool.Add(m.raw, m.kind in URGENT_KINDS, cap);
        }
      } else {
        DiscardAll(seen, m.keys);
      }
      QueueStoreResult(pool, result, cap);
      return if result.accepted then Accepted else Rejected;
  }

  // ---------------------------------------------------------------------- the retries

  /** The first attempt that is not transient, if it comes in time. */
  function FirstFinal(verdicts: nat -> Verdict, i: nat, attempts: nat): nat
    requires i <= attempts
    decreases attempts - i
  {
    if i < attempts && verdicts(i).FailsTransiently? then FirstFinal(verdicts, i + 1, attempts) else i
  }

  function AtLeastOne(configured: nat): nat {
    if configured < 1 then 1 else configured
  }

  /** The first verdict that is not transient decides, if it comes within the configured attempts. */
  predicate Concludes(verdicts: nat -> Verdict, configured: nat, status: Status, used: nat) {
    var final := FirstFinal(verdicts, 0, AtLeastOne(configured));
    && 1 <= used <= AtLeastOne(configured)
    && used == (if final < AtLeastOne(configured) then final + 1 else final)
    && status == (if final < AtLeastOne(configured) then StatusOf(verdicts(final)) else Retryable)
  }

  /** The seen set after a message's attempts: its keys added at every attempt that kept them, and taken
      out again unless the last one accepted. */
  function SeenAfter(s: Seen, limit: nat, keys: seq<string>, status: Status, used: nat): Seen
    requires used >= 1
  {
    if status == Accepted then AddedAll(s, limit, Repeated(keys, used))
    else DiscardedAll(AddedAll(s, limit, Repeated(keys, used - 1)), keys)
  }

  /** What a message's attempts do to the seen set, in the terms of one pass over its keys. If accepted:
      where that pass leaves all keys held, nothing more happens, so keys held at entry leave the set as it
      was, and fresh keys are held even by a full set with as many places. With room for all keys, no other
      key is touched and the message's are held exactly if it is accepted. */
  ghost predicate Remembers(s: Seen, limit: nat, keys: seq<string>, status: Status, after: Seen) {
    && (status == Accepted && (forall k :: k in keys ==> k in AddedAll(s, limit, keys).items) ==>
          after == AddedAll(s, limit, keys))
    && (status == Accepted && (forall k :: k in keys ==> k in s.items) ==> after == s)
    && (status == Accepted && |keys| <= limit && (forall k :: k in keys ==> k !in s.order) ==>
          forall k :: k in keys ==> k in after.items)
    && (|s.order| + |keys| <= limit ==>
          after.items == if status == Accepted then s.items + set k | k in keys else s.items - set k | k in keys)
    && (status != Accepted ==> forall k :: k in keys ==> k !in after.items)
    && (forall k :: k !in keys && k in after.items ==> k in s.items)
  }

  /** Attempts in a row while failures are transient, up to the configured number. */
  method IngestWithRetry(m: Prepared, verdicts: nat -> Verdict, configured: nat, seen: BoundedSeenSet,
                         pool: GossipPool, cap: nat)
    returns (status: Status, used: nat)
    requires seen.Valid() && pool.Valid()
    modifies seen, pool
    ensures seen.Valid() && pool.Valid() && Concludes(verdicts, configured, status, used)
    ensures pool.items == PoolAfter(old(pool.items), pool.metaOf, m, verdicts(used - 1), pool.Effective(cap))
    ensures seen.State() == SeenAfter(old(seen.State()), seen.limit, m.keys, status, used)
    ensures Remembers(old(seen.State()), seen.limit, m.keys, status, seen.State())
  {
    hide AddedAll, DiscardedAll, PoolAfter, Repeated, Seen.Valid, Remembers;
    var attempts := AtLeastOne(configured);
    ghost var start := seen.State();
    ghost var pooled := pool.items;
    NothingRepeated(start, seen.limit, m.keys);
    used := 0;
    status := Rejected;
    while used < attempts
      invariant 0 <= used <= attempts && seen.Valid() && pool.Valid() && pool.items == pooled
      invariant FirstFinal(verdicts, 0, attempts) == FirstFinal(verdicts, used, attempts)
      invariant used > 0 ==> status == Retryable && verdicts(used - 1).FailsTransiently?
      invariant used < attempts ==> seen.State() == AddedAll(start, seen.limit, Repeated(m.keys, used))
      invariant used == attempts ==> seen.State() == SeenAfter(start, seen.limit, m.keys, Retryable, used)
    {
      OneMoreAttempt(start, seen.limit, m.keys, used);
      TransientKeepsPool(pooled, pool.metaOf, m, pool.Effective(cap));
      status := IngestPrepared(m, verdicts(used), seen, pool, cap, used + 1 < attempts);
      used := used + 1;
      if status != Retryable {
        SeenAfterFacts(start, seen.limit, m.keys, status, used);
        return;
      }
    }
    DiscardedTwice(AddedAll(start, seen.limit, Repeated(m.keys, used - 1)), m.keys);
    DiscardAll(seen, m.keys);
    TransientKeepsPool(pooled, pool.metaOf, m, pool.Effective(cap));
    SeenAfterFacts(start, seen.limit, m.keys, status, used);
  }

  lemma NothingRepeated(s: Seen, limit: nat, keys: seq<string>)
    ensures AddedAll(s, limit, Repeated(keys, 0)) == s
  {
  }

  lemma OneMoreAttempt(s: Seen, limit: nat, keys: seq<string>, n: nat)
    ensures AddedAll(AddedAll(s, limit, Repeated(keys, n)), limit, keys) == AddedAll(s, limit, Repeated(keys, n + 1))
  {
    AddedInParts(s, limit, Repeated(keys, n), keys);
  }

  lemma DiscardedTwice(s: Seen, keys: seq<string>)
    ensures DiscardedAll(DiscardedAll(s, keys), keys) == DiscardedAll(s, keys)
  {
  }

  lemma TransientKeepsPool(items: seq<Entry>, metaOf: string -> (string, string), m: Prepared, limit: nat)
    ensures PoolAfter(items, metaOf, m, FailsTransiently, limit) == items
  {
  }

  /** The keys of an accepted message, after any number of passes. */
  lemma AcceptedFacts(s: Seen, limit: nat, keys: seq<string>, n: nat)
    requires s.Valid(limit) && n > 0
    ensures Remembers(s, limit, keys, Accepted, AddedAll(s, limit, Repeated(keys, n)))
  {
    OthersOnlyLeave(s, limit, keys, n);
    hide AddedAll, Repeated, Seen.Valid;
    if forall k :: k in keys ==> k in s.items {
      HeldKeysStay(s, limit, keys);
    }
    if forall k :: k in keys ==> k in AddedAll(s, limit, keys).items {
      OnceIsEnough(s, limit, keys, n);
    }
    if |keys| <= limit && forall k :: k in keys ==> k !in s.order {
      FreshKeysStay(s, limit, keys, n);
    }
    if |s.order| + |keys| <= limit {
      RoomHoldsAll(s, limit, keys);
    }
  }

  lemma OthersOnlyLeave(s: Seen, limit: nat, keys: seq<string>, n: nat)
    ensures forall k :: k !in keys && k in AddedAll(s, limit, Repeated(keys, n)).items ==> k in s.items
  {
    forall k | k !in keys && k in AddedAll(s, limit, Repeated(keys, n)).items
      ensures k in s.items
    {
      OnlyAddedHeld(s, limit, Repeated(keys, n), k);
      RepeatedHolds(keys, n, k);
    }
  }

  lemma SeenAfterFacts(s: Seen, limit: nat, keys: seq<string>, status: Status, used: nat)
    requires s.Valid(limit) && used >= 1
    ensures Remembers(s, limit, keys, status, SeenAfter(s, limit, keys, status, used))
  {
    hide AddedAll, Repeated, Seen.Valid;
    if status == Accepted {
      AcceptedFacts(s, limit, keys, used);
    } else {
      OthersOnlyLeave(s, limit, keys, used - 1);
      NothingRepeated(s, limit, keys);
      if used > 1 && |s.order| + |keys| <= limit {
        RoomHoldsAll(s, limit, keys);
        OnceIsEnough(s, limit, keys, used - 1);
      }
    }
  }
}
