/** Folding signed transfers over a bill's state. */
module Replay {
  import opened Wrappers
  import opened Binary
  import opened Objects

  function DayOf(timestamp: nat): nat {
    timestamp / SECONDS_PER_DAY
  }

  /** One transfer linked to a state: the checks in the order they are made, then the new state. */
  function Link(ctx: Context, tokenId: Hash, s: State, t: Transfer): Result<State> {
    if !(ValidShape(ctx, t) && SignatureShape(t)) then Err(Malformed) else
    :- Require(t.tokenId == tokenId, WrongToken);
    :- Require(t.sequence == s.sequence + 1, SequenceGap);
    :- Require(t.previousHash == s.lastTransferHash, NotTheTip);
    :- Require(t.senderAddress == s.ownerAddress, NotTheOwner);
    :- Require(t.timestamp > s.lastTransferTimestamp, TimestampNotIncreasing);
    :- Require(t.timestamp <= ctx.now + MAX_TRANSFER_FUTURE_SKEW_SECONDS, TimestampInFuture);
    var day := DayOf(t.timestamp);
    var dayCount := if day == s.lastTransferDay then s.transfersInLastDay + 1 else 1;
    :- Require(dayCount <= MAX_TRANSFERS_PER_BILL_PER_DAY, DailyLimit);
    Ok(State(s.sequence + 1, t.recipientAddress, ctx.suite.transferHash(t), t.timestamp, day, dayCount,
             s.displayId, s.value))
  }

  /** The fixed parameters of a replay. */
  datatype Replayer = Replayer(ctx: Context, tokenId: Hash, verifySignatures: bool) {

    predicate Authorized(t: Transfer) {
      if verifySignatures then ValidSignature(ctx.suite, t)
      else KeyMatches(ctx.suite, t.senderPublicKey, t.senderAddress)
    }

    function Step(s: State, t: Transfer): Result<State> {
      var next :- Link(ctx, tokenId, s, t);
      var _ :- CheckAuthority(ctx.suite, t, verifySignatures);
      Ok(next)
    }

    /** All transfers in order, stopping at the first that is refused. */
    function Fold(s: State, ts: seq<Transfer>): Result<State>
      decreases |ts|
    {
      if ts == [] then Ok(s)
      else
        var next :- Step(s, ts[0]);
        Fold(next, ts[1..])
    }

    function Replay(s: State, ts: seq<Transfer>): Result<State> {
      if !(ValidState(ctx.suite, s)) then Err(Malformed) else
      Fold(s, ts)
    }

    /** The loop: a state updated transfer by transfer. */
    method ReplayTransfers(base: State, ts: seq<Transfer>) returns (r: Result<State>)
      ensures r == Replay(base, ts)
    {
      if !ValidState(ctx.suite, base) {
        return Err(Malformed);
      }
      var state := base;
      var i := 0;
      assert ts[0..] == ts;
      while i < |ts|
        invariant 0 <= i <= |ts|
        invariant Fold(base, ts) == Fold(state, ts[i..])
      {
        assert ts[i..][0] == ts[i] && ts[i..][1..] == ts[i + 1..];
        state :- Step(state, ts[i]);
        i := i + 1;
      }
      return Ok(state);
    }
  }

  // --------------------------------------------------------------- composition

  function Then(r: Replayer, first: Result<State>, ts: seq<Transfer>): Result<State> {
    match first
    case Ok(mid) => r.Replay(mid, ts)
    case Err(e) => Err(e)
  }

  lemma {:induction false} FoldKeepsValid(r: Replayer, s: State, ts: seq<Transfer>)
    requires ValidState(r.ctx.suite, s) && r.Fold(s, ts).Ok?
    ensures ValidState(r.ctx.suite, r.Fold(s, ts).value)
    decreases |ts|
  {
    if ts != [] {
      FoldKeepsValid(r, r.Step(s, ts[0]).value, ts[1..]);
    }
  }

  lemma {:induction false} FoldComposes(r: Replayer, s: State, a: seq<Transfer>, b: seq<Transfer>)
    ensures r.Fold(s, a + b) == match r.Fold(s, a)
                                case Ok(mid) => r.Fold(mid, b)
                                case Err(e) => Err(e)
    decreases |a|
  {
    if a == [] {
      assert a + b == b;
    } else {
      assert (a + b)[0] == a[0] && (a + b)[1..] == a[1..] + b;
      var next := r.Step(s, a[0]);
      if next.Ok? {
        FoldComposes(r, next.value, a[1..], b);
      }
    }
  }

  /** Replaying `a` then `b` is replaying `a` and then `b` from where it ended, failures included:
      the state in between always passes the check a replay makes on its starting state. */
  lemma ReplayComposes(r: Replayer, s: State, a: seq<Transfer>, b: seq<Transfer>)
    ensures r.Replay(s, a + b) == Then(r, r.Replay(s, a), b)
  {
    FoldComposes(r, s, a, b);
    if r.Replay(s, a).Ok? {
      FoldKeepsValid(r, s, a);
    }
  }

  // ------------------------------------------------- what an accepted replay says

  /** Numbering, links, ownership and authority of an accepted list, position by position. */
  lemma {:induction false} AcceptedAt(r: Replayer, s: State, ts: seq<Transfer>, i: nat)
    requires i < |ts| && r.Fold(s, ts).Ok?
    ensures Encodable(r.ctx, ts[i]) && ts[i].tokenId == r.tokenId && r.Authorized(ts[i])
    ensures ts[i].sequence == s.sequence + 1 + i
    ensures ts[i].previousHash == if i == 0 then s.lastTransferHash else r.ctx.suite.transferHash(ts[i - 1])
    ensures ts[i].senderAddress == if i == 0 then s.ownerAddress else ts[i - 1].recipientAddress
    decreases i
  {
    if i > 0 {
      AcceptedAt(r, r.Step(s, ts[0]).value, ts[1..], i - 1);
    }
  }

  /** Where an accepted list ends: its length counted, its last transfer hashed and obeyed. */
  lemma {:induction false} AcceptedEnd(r: Replayer, s: State, ts: seq<Transfer>)
    requires r.Fold(s, ts).Ok?
    ensures var last := r.Fold(s, ts).value;
      && last.sequence == s.sequence + |ts| && last.value == s.value && last.displayId == s.displayId
      && (ts != [] ==>
            var t := ts[|ts| - 1];
            && last.ownerAddress == t.recipientAddress && last.lastTransferHash == r.ctx.suite.transferHash(t)
            && last.lastTransferTimestamp == t.timestamp && last.lastTransferDay == DayOf(t.timestamp)
            && last.transfersInLastDay >= 1)
    decreases |ts|
  {
    if ts != [] {
      AcceptedEnd(r, r.Step(s, ts[0]).value, ts[1..]);
    }
  }

  // ------------------------------------------------------ signatures and the clock

  /** Skipping signature checks accepts exactly the lists whose signatures would otherwise be
      the only complaint, and computes the same state. */
  lemma {:induction false} UnsignedFoldAgrees(r: Replayer, s: State, ts: seq<Transfer>)
    requires r.verifySignatures
    ensures r.Fold(s, ts).Ok? <==>
            r.(verifySignatures := false).Fold(s, ts).Ok? && forall t :: t in ts ==> ValidSignature(r.ctx.suite, t)
    ensures r.Fold(s, ts).Ok? ==> r.(verifySignatures := false).Fold(s, ts) == r.Fold(s, ts)
    decreases |ts|
  {
    if ts != [] {
      assert ts == [ts[0]] + ts[1..];
      var fast := r.(verifySignatures := false);
      assert ts[0] in ts;
      assert r.Step(s, ts[0]).Ok? <==> fast.Step(s, ts[0]).Ok? && ValidSignature(r.ctx.suite, ts[0]);
      hide Link;
      if fast.Step(s, ts[0]).Ok? {
        UnsignedFoldAgrees(r, fast.Step(s, ts[0]).value, ts[1..]);
      }
    }
  }

  /** Time only widens what is accepted: a list accepted once is accepted ever after, with the same state. */
  lemma {:induction false} LaterClockAgrees(r: Replayer, now: nat, s: State, ts: seq<Transfer>)
    requires r.ctx.now <= now && r.Fold(s, ts).Ok?
    ensures r.(ctx := r.ctx.(now := now)).Fold(s, ts) == r.Fold(s, ts)
    decreases |ts|
  {
    if ts != [] {
      LaterClockAgrees(r, now, r.Step(s, ts[0]).value, ts[1..]);
    }
  }

  // ------------------------------------------------------------- the daily limit

  /** UTC days are 86400 seconds long and start at the epoch. */
  lemma DayExact(timestamp: nat, day: nat)
    ensures DayOf(timestamp) == day <==> 86400 * day <= timestamp < 86400 * (day + 1)
  {
  }

  /** How many of the transfers fall on a UTC day. */
  function CountOnDay(ts: seq<Transfer>, day: nat): nat {
    if ts == [] then 0 else (if DayOf(ts[0].timestamp) == day then 1 else 0) + CountOnDay(ts[1..], day)
  }

  /** What the day counter of a starting state still leaves for a day. */
  function Used(s: State, day: nat): nat {
    if s.lastTransferDay == day then s.transfersInLastDay else 0
  }

  lemma {:induction false} NoneEarlier(r: Replayer, s: State, ts: seq<Transfer>, day: nat)
    requires r.Fold(s, ts).Ok? && day < DayOf(s.lastTransferTimestamp)
    ensures CountOnDay(ts, day) == 0
    decreases |ts|
  {
    if ts != [] {
      NoneEarlier(r, r.Step(s, ts[0]).value, ts[1..], day);
    }
  }

  lemma {:induction false} LaterThanBase(r: Replayer, s: State, ts: seq<Transfer>, i: nat)
    requires i < |ts| && r.Fold(s, ts).Ok?
    ensures ts[i].timestamp > s.lastTransferTimestamp
    decreases i
  {
    if i > 0 {
      LaterThanBase(r, r.Step(s, ts[0]).value, ts[1..], i - 1);
    }
  }

  /** Timestamps are strictly increasing along an accepted list. */
  lemma {:induction false} TimestampsIncrease(r: Replayer, s: State, ts: seq<Transfer>, i: nat, j: nat)
    requires i < j < |ts| && r.Fold(s, ts).Ok?
    ensures ts[i].timestamp < ts[j].timestamp
    decreases i
  {
    var next := r.Step(s, ts[0]).value;
    if i == 0 {
      LaterThanBase(r, next, ts[1..], j - 1);
    } else {
      TimestampsIncrease(r, next, ts[1..], i - 1, j - 1);
    }
  }

  /** From a state whose day field is the day of its last transfer, the counter of the final state
      is the true number of transfers on the last day, on top of what the base already counted. */
  lemma {:induction false} CounterIsTrue(r: Replayer, s: State, ts: seq<Transfer>)
    requires s.lastTransferDay == DayOf(s.lastTransferTimestamp) && r.Fold(s, ts).Ok?
    ensures var last := r.Fold(s, ts).value;
      && last.lastTransferDay == DayOf(last.lastTransferTimestamp) >= s.lastTransferDay
      && last.transfersInLastDay == Used(s, last.lastTransferDay) + CountOnDay(ts, last.lastTransferDay)
    decreases |ts|
  {
    if ts != [] {
      var next := r.Step(s, ts[0]).value;
      CounterIsTrue(r, next, ts[1..]);
    }
  }

  /** At most ten accepted transfers fall on any one UTC day, whatever the starting state claims;
      a truthful starting counter is counted in. */
  lemma {:induction false} DailyBound(r: Replayer, s: State, ts: seq<Transfer>, day: nat)
    requires r.Fold(s, ts).Ok?
    ensures CountOnDay(ts, day) <= MAX_TRANSFERS_PER_BILL_PER_DAY
    ensures s.lastTransferDay == DayOf(s.lastTransferTimestamp)
            && s.transfersInLastDay <= MAX_TRANSFERS_PER_BILL_PER_DAY
            ==> Used(s, day) + CountOnDay(ts, day) <= MAX_TRANSFERS_PER_BILL_PER_DAY
    decreases |ts|
  {
    if ts != [] {
      var next := r.Step(s, ts[0]).value;
      DailyBound(r, next, ts[1..], day);
      if day < next.lastTransferDay {
        NoneEarlier(r, next, ts[1..], day);
      }
    }
  }

  // --------------------------------------------------------- histories of any tokens

  predicate Chronological(ts: seq<Transfer>) {
    forall i, j :: 0 <= i < j < |ts| ==> ts[i].timestamp < ts[j].timestamp
  }

  /** A state's day and counter tell the truth about the history behind it, or cover more. */
  ghost predicate Chronicled(s: State, history: seq<Transfer>) {
    && Chronological(history)
    && (forall day :: CountOnDay(history, day) <= MAX_TRANSFERS_PER_BILL_PER_DAY)
    && (history != [] ==>
          && history[|history| - 1].timestamp == s.lastTransferTimestamp
          && s.lastTransferDay == DayOf(s.lastTransferTimestamp)
          && CountOnDay(history, s.lastTransferDay) <= s.transfersInLastDay
          && forall day :: day > s.lastTransferDay ==> CountOnDay(history, day) == 0)
  }

  lemma {:induction false} CountAppends(ts: seq<Transfer>, t: Transfer, day: nat)
    ensures CountOnDay(ts + [t], day) == CountOnDay(ts, day) + if DayOf(t.timestamp) == day then 1 else 0
    decreases |ts|
  {
    if ts == [] {
      assert [t][1..] == [];
    } else {
      assert (ts + [t])[1..] == ts[1..] + [t];
      CountAppends(ts[1..], t, day);
    }
  }

  lemma StepKeepsChronicle(r: Replayer, s: State, history: seq<Transfer>, t: Transfer)
    requires Chronicled(s, history) && r.Step(s, t).Ok?
    ensures Chronicled(r.Step(s, t).value, history + [t])
  {
    hide ValidShape, SignatureShape, CheckAuthority;
    forall day
      ensures CountOnDay(history + [t], day) == CountOnDay(history, day) + if DayOf(t.timestamp) == day then 1 else 0
    {
      CountAppends(history, t, day);
    }
    hide CountOnDay;
    assert DayOf(t.timestamp) >= DayOf(s.lastTransferTimestamp);
    if history == [] {
      NoneCounted();
    }
  }

  lemma NoneCounted()
    ensures forall day :: CountOnDay([], day) == 0
  {
  }

  /** Replaying on, under any token, keeps the day and the counter true to the whole history. */
  lemma {:induction false} FoldKeepsChronicle(r: Replayer, s: State, history: seq<Transfer>, ts: seq<Transfer>)
    requires Chronicled(s, history) && r.Fold(s, ts).Ok?
    ensures Chronicled(r.Fold(s, ts).value, history + ts)
    decreases |ts|
  {
    hide Chronicled, Link;
    if ts == [] {
      assert history + ts == history;
    } else {
      StepKeepsChronicle(r, s, history, ts[0]);
      FoldKeepsChronicle(r, r.Step(s, ts[0]).value, history + [ts[0]], ts[1..]);
      assert (history + [ts[0]]) + ts[1..] == history + ts;
    }
  }

  predicate ThreadAt(c: Suite, s: State, ts: seq<Transfer>, i: nat)
    requires i < |ts|
  {
    && ts[i].sequence == s.sequence + 1 + i
    && ts[i].previousHash == (if i == 0 then s.lastTransferHash else c.transferHash(ts[i - 1]))
    && ts[i].senderAddress == (if i == 0 then s.ownerAddress else ts[i - 1].recipientAddress)
  }

  /** Numbered from the state on, each transfer linked to the one before and sent by its recipient. */
  predicate Threaded(c: Suite, s: State, ts: seq<Transfer>) {
    forall i :: 0 <= i < |ts| ==> ThreadAt(c, s, ts, i)
  }

  /** The state such a list leads to. */
  predicate EndsAt(c: Suite, s: State, ts: seq<Transfer>, last: State) {
    && last.sequence == s.sequence + |ts|
    && last.lastTransferHash == (if ts == [] then s.lastTransferHash else c.transferHash(ts[|ts| - 1]))
    && last.ownerAddress == (if ts == [] then s.ownerAddress else ts[|ts| - 1].recipientAddress)
  }

  lemma FoldThreads(r: Replayer, s: State, ts: seq<Transfer>)
    requires r.Fold(s, ts).Ok?
    ensures Threaded(r.ctx.suite, s, ts) && EndsAt(r.ctx.suite, s, ts, r.Fold(s, ts).value)
  {
    hide Link;
    forall i | 0 <= i < |ts|
      ensures ThreadAt(r.ctx.suite, s, ts, i)
    {
      AcceptedAt(r, s, ts, i);
    }
    AcceptedEnd(r, s, ts);
  }

  /** Threads join where one ends at the state the other starts from, whatever tokens they name. */
  lemma ThreadsJoin(c: Suite, s: State, a: seq<Transfer>, mid: State, b: seq<Transfer>, last: State)
    requires Threaded(c, s, a) && EndsAt(c, s, a, mid) && Threaded(c, mid, b) && EndsAt(c, mid, b, last)
    ensures Threaded(c, s, a + b) && EndsAt(c, s, a + b, last)
  {
    forall i | 0 <= i < |a + b|
      ensures ThreadAt(c, s, a + b, i)
    {
      if i < |a| {
        assert ThreadAt(c, s, a, i);
      } else {
        assert ThreadAt(c, mid, b, i - |a|);
      }
    }
  }
}
