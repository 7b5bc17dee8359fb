/** What each verdict on transfers and archives means, declared in the terms of the primitives alone. */
module Meaning {
  import opened Wrappers
  import opened Binary
  import opened DisplayId
  import opened Objects
  import opened Codec
  import opened Commitments
  import opened Replay
  import opened Segments

  // ----------------------------------------------------------------- plain values

  predicate IsAddress(p: Primitives, a: bytes) {
    |a| == 33 && (forall i :: 0 <= i < |a| ==> a[i] < 128) && p.addressChecks(a)
  }

  predicate IsMetadata(p: Primitives, m: bytes) {
    p.jsonText(m) == Some(m) && p.jsonIsObject(m) && |m| <= 256
  }

  /** The id spells this value and serial, and the denomination has such a serial. */
  predicate Spells(displayId: bytes, value: nat, serial: nat) {
    ValidSerial(value, serial) && displayId == CanonicalDisplayId(value, serial)
  }

  /** For whom a transfer is judged: the network, the clock, and whether signatures are checked. */
  datatype Terms = Terms(p: Primitives, networkId: nat, now: nat, signed: bool)

  function Of(p: Primitives, r: Replayer): Terms {
    Terms(p, r.ctx.networkId, r.ctx.now, r.verifySignatures)
  }

  function Here(p: Primitives, ctx: Context): Terms {
    Terms(p, ctx.networkId, ctx.now, true)
  }

  /** A well-formed transfer of this network, dated at most five minutes ahead. */
  predicate IsShaped(w: Terms, t: Transfer) {
    && t.networkId == w.networkId && t.signatureAlgorithm == 1
    && w.networkId < 0x8000_0000_0000_0000 && 1 <= t.sequence < 0x8000_0000_0000_0000
    && t.timestamp <= w.now + 300 && t.timestamp < 0x8000_0000_0000_0000
    && IsAddress(w.p, t.senderAddress) && IsAddress(w.p, t.recipientAddress) && IsMetadata(w.p, t.metadata)
    && |t.signature| == 64
  }

  lemma ShapeExact(p: Primitives, ctx: Context, t: Transfer)
    requires ctx.suite == Standard(p)
    ensures Encodable(ctx, t) <==> IsShaped(Here(p, ctx), t)
  {
    hide TransferSigningInput, SigningInput.Preimage, ParseDisplayId, TransferPreimage;
    assert MAX_UVARINT == 0x7fff_ffff_ffff_ffff;
    AddressExact(p, t.senderAddress);
    AddressExact(p, t.recipientAddress);
  }

  /** Such a transfer, signed with a key of its sender. */
  predicate IsSigned(w: Terms, t: Transfer) {
    && IsShaped(w, t) && w.p.addressOf(t.senderPublicKey) == t.senderAddress
    && (w.signed ==> w.p.verify(t.senderPublicKey, t.signature, TransferSigningInput(t).Preimage()))
  }

  /** The shape and authority checks together ask for exactly that. */
  lemma SignedExact(p: Primitives, r: Replayer, t: Transfer)
    requires r.ctx.suite == Standard(p)
    ensures Encodable(r.ctx, t) && r.Authorized(t) <==> IsSigned(Of(p, r), t)
  {
    ShapeExact(p, r.ctx, t);
    AddressExact(p, t.senderAddress);
    hide TransferSigningInput, SigningInput.Preimage, ParseDisplayId, TransferPreimage, Encodable;
  }

  lemma AddressExact(p: Primitives, a: bytes)
    ensures Standard(p).validAddress(a) <==> IsAddress(p, a)
  {
    hide ParseDisplayId, TransferPreimage, TransferSigningInput, StandardMetadata;
  }

  lemma DisplayIdSpells(p: Primitives, displayId: bytes, value: nat)
    ensures DisplayIdHasValue(Standard(p), displayId, value) <==> exists serial: nat :: Spells(displayId, value, serial)
  {
    hide CanonicalDisplayId, ParseDisplayId, TransferPreimage, TransferSigningInput;
    var parts := ParseDisplayId(displayId);
    forall v: nat, serial: nat
      ensures parts == Some((v, serial)) <==> Spells(displayId, v, serial)
    {
      DisplayIdExact(displayId, v, serial);
    }
    if DisplayIdHasValue(Standard(p), displayId, value) {
      assert Spells(displayId, value, parts.value.1);
    }
  }

  // ------------------------------------------------------------------ whole replays

  /** What the base's own counter adds to the count of the day of transfer `i`: it counts as long as no
      transfer has left the base's day. */
  function Carried(s: State, ts: seq<Transfer>, i: nat): nat
    requires i < |ts|
  {
    if DayOf(ts[0].timestamp) == s.lastTransferDay == DayOf(ts[i].timestamp) then s.transfersInLastDay else 0
  }

  function CountAt(s: State, ts: seq<Transfer>, i: nat): nat
    requires i < |ts|
  {
    Carried(s, ts, i) + CountOnDay(ts[..i + 1], DayOf(ts[i].timestamp))
  }

  /** Transfer `i` continues the one before it, or the base. */
  predicate Continues(p: Primitives, tokenId: Hash, s: State, ts: seq<Transfer>, i: nat)
    requires i < |ts|
  {
    var t := ts[i];
    && t.tokenId == tokenId && t.sequence == s.sequence + i + 1
    && t.previousHash == (if i == 0 then s.lastTransferHash else p.sha3(TransferPreimage(ts[i - 1])))
    && t.senderAddress == (if i == 0 then s.ownerAddress else ts[i - 1].recipientAddress)
    && t.timestamp > (if i == 0 then s.lastTransferTimestamp else ts[i - 1].timestamp)
    && CountAt(s, ts, i) <= 10
  }

  predicate IsHistory(w: Terms, tokenId: Hash, s: State, ts: seq<Transfer>) {
    forall i :: 0 <= i < |ts| ==> IsSigned(w, ts[i]) && Continues(w.p, tokenId, s, ts, i)
  }

  function EndOf(p: Primitives, s: State, ts: seq<Transfer>): State {
    if ts == [] then s
    else
      var t := ts[|ts| - 1];
      State(s.sequence + |ts|, t.recipientAddress, p.sha3(TransferPreimage(t)), t.timestamp, DayOf(t.timestamp),
            CountAt(s, ts, |ts| - 1), s.displayId, s.value)
  }

  /** One step, in these terms. */
  lemma StepExact(p: Primitives, r: Replayer, s: State, t: Transfer)
    requires r.ctx.suite == Standard(p)
    ensures var count := (if DayOf(t.timestamp) == s.lastTransferDay then s.transfersInLastDay else 0) + 1;
      var step := r.Step(s, t);
      && (step.Ok? <==>
            && IsSigned(Of(p, r), t) && t.tokenId == r.tokenId && t.sequence == s.sequence + 1
            && t.previousHash == s.lastTransferHash && t.senderAddress == s.ownerAddress
            && t.timestamp > s.lastTransferTimestamp && count <= 10)
      && (step.Ok? ==>
            step.value == State(s.sequence + 1, t.recipientAddress, p.sha3(TransferPreimage(t)), t.timestamp,
                                DayOf(t.timestamp), count, s.displayId, s.value))
  {
    SignedExact(p, r, t);
    TransferHashIs(p, t);
    hide IsSigned, Standard, ValidSignature, KeyMatches, DayOf;
    AuthorityExact(r, t);
  }

  lemma TransferHashIs(p: Primitives, t: Transfer)
    ensures Standard(p).transferHash(t) == p.sha3(TransferPreimage(t))
  {
    hide TransferPreimage, TransferSigningInput, ParseDisplayId, StandardAddress, StandardMetadata;
  }

  lemma AuthorityExact(r: Replayer, t: Transfer)
    ensures ValidShape(r.ctx, t) && SignatureShape(t) && CheckAuthority(r.ctx.suite, t, r.verifySignatures).Ok? <==>
              Encodable(r.ctx, t) && r.Authorized(t)
  {
    hide ValidShape;
  }

  /** The day's count, one transfer further. */
  lemma CountsOn(w: Terms, tokenId: Hash, s: State, ts: seq<Transfer>, t: Transfer)
    requires IsHistory(w, tokenId, s, ts)
    requires ts != [] ==> t.timestamp > ts[|ts| - 1].timestamp
    ensures var last := EndOf(w.p, s, ts);
      CountAt(s, ts + [t], |ts|)
        == (if DayOf(t.timestamp) == last.lastTransferDay then last.transfersInLastDay else 0) + 1
  {
    hide IsSigned, TransferPreimage;
    var all, n, day := ts + [t], |ts|, DayOf(t.timestamp);
    assert all[..n + 1] == all;
    CountAppends(ts, t, day);
    if n == 0 {
      NoneCounted();
    } else {
      assert ts[..n] == ts;
      if day != DayOf(ts[n - 1].timestamp) {
        EarlierDays(w, tokenId, s, ts, day);
      }
    }
  }

  lemma Rises(w: Terms, tokenId: Hash, s: State, ts: seq<Transfer>, i: nat)
    requires IsHistory(w, tokenId, s, ts) && 0 < i < |ts|
    ensures ts[i - 1].timestamp < ts[i].timestamp
  {
    hide IsSigned, TransferPreimage, CountAt;
    assert Continues(w.p, tokenId, s, ts, i);
  }

  lemma {:induction false} Rising(w: Terms, tokenId: Hash, s: State, ts: seq<Transfer>, i: nat, j: nat)
    requires IsHistory(w, tokenId, s, ts) && i <= j < |ts|
    ensures ts[i].timestamp <= ts[j].timestamp
    decreases j
  {
    hide IsHistory;
    if i < j {
      Rises(w, tokenId, s, ts, j);
      Rising(w, tokenId, s, ts, i, j - 1);
    }
  }

  lemma {:induction false} NoneThatDay(ts: seq<Transfer>, day: nat)
    requires forall i :: 0 <= i < |ts| ==> DayOf(ts[i].timestamp) != day
    ensures CountOnDay(ts, day) == 0
    decreases |ts|
  {
    if ts != [] {
      NoneThatDay(ts[1..], day);
    }
  }

  /** A day later than the last transfer's has none yet. */
  lemma EarlierDays(w: Terms, tokenId: Hash, s: State, ts: seq<Transfer>, day: nat)
    requires IsHistory(w, tokenId, s, ts) && ts != [] && DayOf(ts[|ts| - 1].timestamp) < day
    ensures CountOnDay(ts, day) == 0 && forall i :: 0 <= i < |ts| ==> DayOf(ts[i].timestamp) < day
  {
    hide IsHistory, CountOnDay;
    forall i | 0 <= i < |ts|
      ensures DayOf(ts[i].timestamp) < day
    {
      Rising(w, tokenId, s, ts, i, |ts| - 1);
    }
    NoneThatDay(ts, day);
  }

  /** What comes later does not matter to a transfer's place. */
  lemma SamePlace(p: Primitives, tokenId: Hash, s: State, ts: seq<Transfer>, t: Transfer, i: nat)
    requires i < |ts|
    ensures Continues(p, tokenId, s, ts + [t], i) <==> Continues(p, tokenId, s, ts, i)
  {
    hide TransferPreimage, CountOnDay, DayOf;
    assert (ts + [t])[..i + 1] == ts[..i + 1];
    assert (ts + [t])[0] == ts[0] && (ts + [t])[i] == ts[i];
  }

  /** A longer history is a shorter one and one transfer that continues it. */
  lemma HistoryGrows(w: Terms, tokenId: Hash, s: State, ts: seq<Transfer>, t: Transfer)
    ensures IsHistory(w, tokenId, s, ts + [t]) <==>
      && IsHistory(w, tokenId, s, ts) && IsSigned(w, t)
      && Continues(w.p, tokenId, s, ts + [t], |ts|)
  {
    hide IsSigned, Continues;
    var all := ts + [t];
    forall i | 0 <= i < |ts|
      ensures all[i] == ts[i]
      ensures Continues(w.p, tokenId, s, all, i) <==> Continues(w.p, tokenId, s, ts, i)
    {
      SamePlace(w.p, tokenId, s, ts, t, i);
    }
    if IsHistory(w, tokenId, s, all) {
      assert all[|ts|] == t;
    }
  }

  ghost predicate FoldsExactly(p: Primitives, r: Replayer, s: State, ts: seq<Transfer>) {
    && (r.Fold(s, ts).Ok? <==> IsHistory(Of(p, r), r.tokenId, s, ts))
    && (r.Fold(s, ts).Ok? ==> r.Fold(s, ts).value == EndOf(p, s, ts))
  }

  lemma FoldsOn(p: Primitives, r: Replayer, s: State, ts: seq<Transfer>, t: Transfer)
    requires r.ctx.suite == Standard(p) && FoldsExactly(p, r, s, ts)
    ensures FoldsExactly(p, r, s, ts + [t])
  {
    FoldComposes(r, s, ts, [t]);
    HistoryGrows(Of(p, r), r.tokenId, s, ts, t);
    hide Replayer.Fold, Replayer.Step, IsHistory, EndOf, Continues, IsSigned, CountAt, Standard, DayOf,
      TransferPreimage;
    if r.Fold(s, ts).Ok? {
      OneFold(r, r.Fold(s, ts).value, t);
      StepExact(p, r, EndOf(p, s, ts), t);
      LastContinues(Of(p, r), r.tokenId, s, ts, t);
      EndGrows(p, s, ts, t);
    }
  }

  /** Replay accepts exactly the histories so declared, and computes the state where they end. */
  lemma {:induction false} FoldExact(p: Primitives, r: Replayer, s: State, ts: seq<Transfer>)
    requires r.ctx.suite == Standard(p)
    ensures FoldsExactly(p, r, s, ts)
    decreases |ts|
  {
    if ts != [] {
      hide FoldsExactly;
      FoldExact(p, r, s, Init(ts));
      FoldsOn(p, r, s, Init(ts), Last(ts));
      assert ts == Init(ts) + [Last(ts)];
    }
  }

  lemma EndGrows(p: Primitives, s: State, ts: seq<Transfer>, t: Transfer)
    ensures EndOf(p, s, ts + [t])
         == State(EndOf(p, s, ts).sequence + 1, t.recipientAddress, p.sha3(TransferPreimage(t)), t.timestamp,
                  DayOf(t.timestamp), CountAt(s, ts + [t], |ts|), EndOf(p, s, ts).displayId, EndOf(p, s, ts).value)
  {
    hide TransferPreimage, CountAt, DayOf;
  }

  lemma OneFold(r: Replayer, s: State, t: Transfer)
    ensures r.Fold(s, [t]) == r.Step(s, t)
  {
    hide Link;
    assert [t][1..] == [];
  }

  /** Continuing a history is stepping on from where it ends. */
  lemma LastContinues(w: Terms, tokenId: Hash, s: State, ts: seq<Transfer>, t: Transfer)
    requires IsHistory(w, tokenId, s, ts)
    ensures var last := EndOf(w.p, s, ts);
      var count := (if DayOf(t.timestamp) == last.lastTransferDay then last.transfersInLastDay else 0) + 1;
      Continues(w.p, tokenId, s, ts + [t], |ts|) <==>
        && t.tokenId == tokenId && t.sequence == last.sequence + 1 && t.previousHash == last.lastTransferHash
        && t.senderAddress == last.ownerAddress && t.timestamp > last.lastTransferTimestamp && count <= 10
    ensures t.timestamp > EndOf(w.p, s, ts).lastTransferTimestamp ==>
      var last := EndOf(w.p, s, ts);
      CountAt(s, ts + [t], |ts|)
        == (if DayOf(t.timestamp) == last.lastTransferDay then last.transfersInLastDay else 0) + 1
  {
    hide IsHistory, TransferPreimage, CountAt, CountOnDay, Carried, DayOf;
    var last := EndOf(w.p, s, ts);
    assert (ts + [t])[|ts|] == t;
    if t.timestamp > last.lastTransferTimestamp {
      CountsOn(w, tokenId, s, ts, t);
    }
  }

  /** A whole replay: from a valid base, exactly the declared histories, to their end. */
  lemma ReplayExact(p: Primitives, r: Replayer, s: State, ts: seq<Transfer>)
    requires r.ctx.suite == Standard(p)
    ensures var verdict := r.Replay(s, ts);
      && (verdict.Ok? <==>
            && IsAddress(p, s.ownerAddress) && (exists serial: nat :: Spells(s.displayId, s.value, serial))
            && IsHistory(Of(p, r), r.tokenId, s, ts))
      && (verdict.Ok? ==> verdict == Ok(EndOf(p, s, ts)))
  {
    FoldExact(p, r, s, ts);
    AddressExact(p, s.ownerAddress);
    DisplayIdSpells(p, s.displayId, s.value);
    hide Standard, Replayer.Fold, IsHistory, EndOf, DisplayIdHasValue, IsAddress, Spells;
  }

  // ------------------------------------------------------------------- one segment

  /** The genesis reference is this network's and trusted, and its issue index is the serial spelled. */
  predicate FitsRef(p: Primitives, networkId: nat, g: GenesisRef, displayId: bytes, value: nat) {
    g.networkId == networkId && p.genesisTrusted(g.manifestHash) && Spells(displayId, value, g.issueIndex)
  }

  lemma RefExact(p: Primitives, ctx: Context, g: GenesisRef, displayId: bytes, value: nat)
    requires ctx.suite == Standard(p)
    ensures ValidGenesisRef(ctx, g) && IssueIndexMatches(ctx.suite, displayId, value, g.issueIndex) <==>
              FitsRef(p, ctx.networkId, g, displayId, value)
  {
    hide CanonicalDisplayId, ParseDisplayId, TransferPreimage, TransferSigningInput;
    DisplayIdExact(displayId, value, g.issueIndex);
  }

  /** The checkpoint of a state, under its own hash. */
  function CoreOf(p: Primitives, networkId: nat, tokenId: Hash, genesisHash: Hash, s: State,
                  previous: Option<Hash>): CheckpointCore {
    var core := CheckpointCore(networkId, tokenId, genesisHash, s.sequence, s.ownerAddress, s.value, s.displayId,
                               p.sha3(s.displayId), s.lastTransferHash, s.lastTransferTimestamp, s.lastTransferDay,
                               s.transfersInLastDay, previous, ZERO_HASH);
    core.(checkpointHash := p.sha3(CheckpointCorePreimage(core)))
  }

  predicate NumbersInRange(networkId: nat, s: State) {
    && networkId <= MAX_UVARINT && 1 <= s.sequence <= MAX_UVARINT && s.lastTransferTimestamp <= MAX_UVARINT
    && s.lastTransferDay <= MAX_UVARINT && 1 <= s.transfersInLastDay <= MAX_UVARINT
  }

  lemma CoreExact(p: Primitives, ctx: Context, tokenId: Hash, genesisHash: Hash, s: State, previous: Option<Hash>)
    requires ctx.suite == Standard(p)
    ensures var made := CheckpointFromState(ctx, tokenId, genesisHash, s, previous);
      && (made.Ok? <==> ValidState(ctx.suite, s) && NumbersInRange(ctx.networkId, s))
      && (made.Ok? ==> made.value == CoreOf(p, ctx.networkId, tokenId, genesisHash, s, previous))
  {
    hide CanonicalDisplayId, ParseDisplayId, TransferPreimage, TransferSigningInput, CheckpointCorePreimage,
      StandardAddress;
    SuiteHashes(p);
    var core := CheckpointCore(ctx.networkId, tokenId, genesisHash, s.sequence, s.ownerAddress, s.value, s.displayId,
                               p.sha3(s.displayId), s.lastTransferHash, s.lastTransferTimestamp, s.lastTransferDay,
                               s.transfersInLastDay, previous, ZERO_HASH);
    assert core.(checkpointHash := ZERO_HASH) == core;
  }

  lemma SuiteHashes(p: Primitives)
    ensures forall x: bytes :: Standard(p).displayIdHash(x) == p.sha3(x)
    ensures forall x: CheckpointCore :: Standard(p).checkpointHash(x) == p.sha3(CheckpointCorePreimage(x))
    ensures forall a: ArchiveSegment :: Standard(p).segmentHash(a) == StandardSegmentHash(p, a)
  {
    hide TransferPreimage, TransferSigningInput, ParseDisplayId, StandardAddress, StandardMetadata,
      CheckpointCorePreimage, StandardSegmentHash;
  }

  /** The checkpoint a segment leads to. */
  function CoreAfter(p: Primitives, a: ArchiveSegment): CheckpointCore {
    CoreOf(p, a.networkId, a.tokenId, a.genesisRef.genesisHash, EndOf(p, a.baseState, a.transfers),
           a.previousCheckpointHash)
  }

  /** A segment as it should be: its own history from its base, labelled, hashed and ended as it says. */
  predicate IsSegment(w: Terms, a: ArchiveSegment) {
    && a.networkId == w.networkId && a.transfers != [] && FitsRef(w.p, w.networkId, a.genesisRef, a.displayId, a.value)
    && a.baseState.displayId == a.displayId && a.baseState.value == a.value && IsAddress(w.p, a.baseState.ownerAddress)
    && IsHistory(w, a.tokenId, a.baseState, a.transfers)
    && a.startSequence == a.baseState.sequence + 1 && a.endSequence == a.baseState.sequence + |a.transfers|
    && SegmentFits(w.p, Unhashed(a)) && |EncodeSegment(Unhashed(a))| <= 0x1_0000
    && a.segmentHash == w.p.sha3(SegmentPreimage(Unhashed(a))) && a.checkpointHash == CoreAfter(w.p, a).checkpointHash
  }

  lemma SegmentHashExact(p: Primitives, a: ArchiveSegment)
    ensures SegmentHash(Standard(p), a) == Some(a.segmentHash) <==>
      && SegmentFits(p, Unhashed(a)) && |EncodeSegment(Unhashed(a))| <= 0x1_0000
      && a.segmentHash == p.sha3(SegmentPreimage(Unhashed(a)))
  {
    hide SegmentFits, EncodeSegment, SegmentPreimage;
    SuiteHashes(p);
  }

  /** Where a history ends, everything is in range and the base's labels are kept. */
  lemma HistoryEnds(w: Terms, tokenId: Hash, s: State, ts: seq<Transfer>)
    requires IsHistory(w, tokenId, s, ts) && ts != []
    ensures var last := EndOf(w.p, s, ts);
      && NumbersInRange(w.networkId, last) && IsAddress(w.p, last.ownerAddress)
      && last.displayId == s.displayId && last.value == s.value && last.sequence == s.sequence + |ts|
  {
    hide TransferPreimage, CountAt, DayOf, TransferSigningInput;
    var n := |ts| - 1;
    assert IsSigned(w, ts[n]) && Continues(w.p, tokenId, s, ts, n);
    CountsItself(s, ts, n);
    DayIsSmall(ts[n].timestamp);
  }

  lemma CountsItself(s: State, ts: seq<Transfer>, n: nat)
    requires n == |ts| - 1
    ensures CountAt(s, ts, n) >= 1
  {
    assert ts[..n + 1] == ts && ts == Init(ts) + [ts[n]];
    CountAppends(Init(ts), ts[n], DayOf(ts[n].timestamp));
  }

  lemma DayIsSmall(timestamp: nat)
    ensures DayOf(timestamp) <= timestamp
  {
  }

  lemma ValidStateExact(p: Primitives, s: State, value: nat, serial: nat)
    requires Spells(s.displayId, value, serial)
    ensures ValidState(Standard(p), s) <==> IsAddress(p, s.ownerAddress) && s.value == value
  {
    hide CanonicalDisplayId, ParseDisplayId, TransferPreimage, TransferSigningInput, StandardMetadata;
    DisplayIdExact(s.displayId, value, serial);
  }

  /** What the body's checks ask, in order. */
  lemma BodyParts(ctx: Context, a: ArchiveSegment)
    ensures var fold := Verifier(ctx, a.tokenId).Fold(a.baseState, a.transfers);
      CheckBody(ctx, a).Ok? <==>
        && a.startSequence == a.baseState.sequence + 1 && ValidState(ctx.suite, a.baseState) && fold.Ok?
        && fold.value.sequence == a.endSequence && fold.value.value == a.value && fold.value.displayId == a.displayId
        && var core := CheckpointFromState(ctx, a.tokenId, a.genesisRef.genesisHash, fold.value,
                                           a.previousCheckpointHash);
           core.Ok? && core.value.checkpointHash == a.checkpointHash && CheckBody(ctx, a) == core
  {
    hide Replayer.Fold, ValidState, CheckpointFromState;
  }

  /** The body's checks, once the labels are known to be good. */
  lemma BodyExact(p: Primitives, ctx: Context, a: ArchiveSegment)
    requires ctx.suite == Standard(p) && a.networkId == ctx.networkId && a.transfers != []
    requires FitsRef(p, ctx.networkId, a.genesisRef, a.displayId, a.value)
    ensures CheckBody(ctx, a).Ok? <==>
      && a.baseState.displayId == a.displayId && a.baseState.value == a.value && IsAddress(p, a.baseState.ownerAddress)
      && IsHistory(Here(p, ctx), a.tokenId, a.baseState, a.transfers)
      && a.startSequence == a.baseState.sequence + 1 && a.endSequence == a.baseState.sequence + |a.transfers|
      && a.checkpointHash == CoreAfter(p, a).checkpointHash
    ensures CheckBody(ctx, a).Ok? ==> CheckBody(ctx, a).value == CoreAfter(p, a)
  {
    var last := EndOf(p, a.baseState, a.transfers);
    EndKeeps(p, a.baseState, a.transfers);
    FoldExact(p, Verifier(ctx, a.tokenId), a.baseState, a.transfers);
    CoreExact(p, ctx, a.tokenId, a.genesisRef.genesisHash, last, a.previousCheckpointHash);
    if a.baseState.displayId == a.displayId {
      ValidStateExact(p, a.baseState, a.value, a.genesisRef.issueIndex);
      ValidStateExact(p, last, a.value, a.genesisRef.issueIndex);
    }
    if IsHistory(Here(p, ctx), a.tokenId, a.baseState, a.transfers) {
      HistoryEnds(Here(p, ctx), a.tokenId, a.baseState, a.transfers);
    }
    BodyParts(ctx, a);
    hide IsHistory, EndOf, Replayer.Fold, Standard, ValidState, NumbersInRange, CheckpointFromState, CoreOf, IsAddress,
      FitsRef, CheckBody;
  }

  /** The header's and the body's checks together accept exactly the segments so declared. */
  lemma SegmentExact(p: Primitives, ctx: Context, a: ArchiveSegment)
    requires ctx.suite == Standard(p)
    ensures CheckHeader(ctx, a).Ok? && CheckBody(ctx, a).Ok? <==> IsSegment(Here(p, ctx), a)
    ensures CheckHeader(ctx, a).Ok? && CheckBody(ctx, a).Ok? ==> CheckBody(ctx, a).value == CoreAfter(p, a)
  {
    RefExact(p, ctx, a.genesisRef, a.displayId, a.value);
    SegmentHashExact(p, a);
    PositiveValue(a.displayId, a.value, a.genesisRef.issueIndex);
    if a.networkId == ctx.networkId && a.transfers != []
       && FitsRef(p, ctx.networkId, a.genesisRef, a.displayId, a.value) {
      BodyExact(p, ctx, a);
    }
    hide CheckBody, IsHistory, CoreAfter, Standard, FitsRef, ValidGenesisRef, IssueIndexMatches, SegmentFits,
      EncodeSegment, SegmentPreimage, SegmentHash, IsAddress;
    HeaderParts(p, ctx, a);
  }

  lemma PositiveValue(displayId: bytes, value: nat, serial: nat)
    ensures Spells(displayId, value, serial) ==> value >= 1
  {
  }

  lemma HeaderParts(p: Primitives, ctx: Context, a: ArchiveSegment)
    ensures CheckHeader(ctx, a).Ok? <==>
      && a.networkId == ctx.networkId && a.value >= 1 && 1 <= a.startSequence <= a.endSequence && a.transfers != []
      && SegmentHash(ctx.suite, a) == Some(a.segmentHash) && ValidGenesisRef(ctx, a.genesisRef)
      && IssueIndexMatches(ctx.suite, a.displayId, a.value, a.genesisRef.issueIndex)
  {
  }

  /** The segment that would be made of these parts. */
  function Drafted(p: Primitives, networkId: nat, tokenId: Hash, g: GenesisRef, base: State, ts: seq<Transfer>,
                   previousSegment: Option<Hash>, previousCheckpoint: Option<Hash>): ArchiveSegment {
    var core := CoreOf(p, networkId, tokenId, g.genesisHash, EndOf(p, base, ts), previousCheckpoint);
    var bare := ArchiveSegment(networkId, tokenId, base.value, base.displayId, g, base, base.sequence + 1,
                               base.sequence + |ts|, previousSegment, previousCheckpoint, core.checkpointHash, ts,
                               ZERO_HASH);
    bare.(segmentHash := p.sha3(SegmentPreimage(bare)))
  }

  /** Making a segment succeeds exactly if the segment so drafted is as it should be, and names both a segment
      and a checkpoint below it or neither; and that is the segment made. */
  lemma MakeExact(p: Primitives, ctx: Context, tokenId: Hash, g: GenesisRef, base: State, ts: seq<Transfer>,
                  previousSegment: Option<Hash>, previousCheckpoint: Option<Hash>)
    requires ctx.suite == Standard(p)
    ensures var made := MakeSegment(ctx, tokenId, g, base, ts, previousSegment, previousCheckpoint);
      var a := Drafted(p, ctx.networkId, tokenId, g, base, ts, previousSegment, previousCheckpoint);
      && (made.Ok? <==> IsSegment(Here(p, ctx), a) && (previousSegment.None? <==> previousCheckpoint.None?))
      && (made.Ok? ==> made.value == a)
  {
    var a := Drafted(p, ctx.networkId, tokenId, g, base, ts, previousSegment, previousCheckpoint);
    var last := EndOf(p, base, ts);
    EndKeeps(p, base, ts);
    FoldExact(p, Verifier(ctx, tokenId), base, ts);
    CoreExact(p, ctx, tokenId, g.genesisHash, last, previousCheckpoint);
    RefExact(p, ctx, g, base.displayId, base.value);
    if FitsRef(p, ctx.networkId, g, base.displayId, base.value) {
      ValidStateExact(p, base, base.value, g.issueIndex);
      ValidStateExact(p, last, base.value, g.issueIndex);
    }
    if IsHistory(Here(p, ctx), tokenId, base, ts) && ts != [] {
      HistoryEnds(Here(p, ctx), tokenId, base, ts);
    }
    DraftHash(p, a);
    DraftParts(p, Here(p, ctx), tokenId, g, base, ts, previousSegment, previousCheckpoint);
    MakeParts(ctx, tokenId, g, base, ts, previousSegment, previousCheckpoint);
    hide IsSegment, Standard, EndOf, Replayer.Fold, IsHistory, CheckpointFromState, ValidState, ValidGenesisRef,
      IssueIndexMatches, NumbersInRange, FitsRef, IsAddress, MakeSegment, Drafted, SegmentFits, EncodeSegment,
      SegmentPreimage, CoreOf;
  }

  /** What making a segment asks, in order. */
  lemma MakeParts(ctx: Context, tokenId: Hash, g: GenesisRef, base: State, ts: seq<Transfer>,
                  previousSegment: Option<Hash>, previousCheckpoint: Option<Hash>)
    ensures var made := MakeSegment(ctx, tokenId, g, base, ts, previousSegment, previousCheckpoint);
      made.Ok? <==>
        && ts != [] && (previousSegment.None? <==> previousCheckpoint.None?) && ValidGenesisRef(ctx, g)
        && ValidState(ctx.suite, base) && Verifier(ctx, tokenId).Fold(base, ts).Ok?
        && var last := Verifier(ctx, tokenId).Fold(base, ts).value;
           && IssueIndexMatches(ctx.suite, last.displayId, last.value, g.issueIndex)
           && var core := CheckpointFromState(ctx, tokenId, g.genesisHash, last, previousCheckpoint);
              && core.Ok?
              && SegmentHash(ctx.suite, Bare(ctx.networkId, tokenId, g, base, ts, last, previousSegment,
                                             previousCheckpoint, core.value.checkpointHash)).Some?
    ensures var made := MakeSegment(ctx, tokenId, g, base, ts, previousSegment, previousCheckpoint);
      made.Ok? ==>
        var last := Verifier(ctx, tokenId).Fold(base, ts).value;
        var core := CheckpointFromState(ctx, tokenId, g.genesisHash, last, previousCheckpoint).value;
        var bare := Bare(ctx.networkId, tokenId, g, base, ts, last, previousSegment, previousCheckpoint,
                         core.checkpointHash);
        made.value == bare.(segmentHash := SegmentHash(ctx.suite, bare).value)
  {
    hide ValidState, Replayer.Fold, ValidGenesisRef, IssueIndexMatches, CheckpointFromState, SegmentHash;
  }

  function Bare(networkId: nat, tokenId: Hash, g: GenesisRef, base: State, ts: seq<Transfer>, last: State,
                previousSegment: Option<Hash>, previousCheckpoint: Option<Hash>, checkpointHash: Hash): ArchiveSegment {
    ArchiveSegment(networkId, tokenId, last.value, last.displayId, g, base, base.sequence + 1, last.sequence,
                   previousSegment, previousCheckpoint, checkpointHash, ts, ZERO_HASH)
  }

  /** What a drafted segment is. */
  lemma DraftParts(p: Primitives, w: Terms, tokenId: Hash, g: GenesisRef, base: State, ts: seq<Transfer>,
                   previousSegment: Option<Hash>, previousCheckpoint: Option<Hash>)
    requires w.p == p
    ensures var a := Drafted(p, w.networkId, tokenId, g, base, ts, previousSegment, previousCheckpoint);
      var core := CoreOf(p, w.networkId, tokenId, g.genesisHash, EndOf(p, base, ts), previousCheckpoint);
      && Unhashed(a) == Bare(w.networkId, tokenId, g, base, ts, EndOf(p, base, ts), previousSegment, previousCheckpoint,
                             core.checkpointHash)
      && a == Unhashed(a).(segmentHash := p.sha3(SegmentPreimage(Unhashed(a))))
      && (IsSegment(w, a) <==>
            && ts != [] && FitsRef(p, w.networkId, g, base.displayId, base.value) && IsAddress(p, base.ownerAddress)
            && IsHistory(w, tokenId, base, ts) && SegmentFits(p, Unhashed(a))
            && |EncodeSegment(Unhashed(a))| <= 0x1_0000)
  {
    EndKeeps(p, base, ts);
    hide EndOf, CoreOf, IsHistory, FitsRef, IsAddress, SegmentFits, EncodeSegment, SegmentPreimage;
  }

  lemma EndKeeps(p: Primitives, s: State, ts: seq<Transfer>)
    ensures EndOf(p, s, ts).displayId == s.displayId && EndOf(p, s, ts).value == s.value
    ensures EndOf(p, s, ts).sequence == s.sequence + |ts|
  {
    hide TransferPreimage, CountAt;
  }

  /** A segment's hash is that of its encoding without one, if that is not too large. */
  lemma DraftHash(p: Primitives, a: ArchiveSegment)
    ensures SegmentHash(Standard(p), Unhashed(a))
         == if SegmentFits(p, Unhashed(a)) && |EncodeSegment(Unhashed(a))| <= 0x1_0000
            then Some(p.sha3(SegmentPreimage(Unhashed(a)))) else None
  {
    hide SegmentFits, EncodeSegment, SegmentPreimage;
    SuiteHashes(p);
  }

  // ------------------------------------------------------------------ whole archives

  /** Segment `i` names the hash and the checkpoint of the one below it, and starts where that one ends. */
  predicate Follows(p: Primitives, chain: seq<ArchiveSegment>, i: nat)
    requires 0 < i < |chain|
  {
    var a, below := chain[i], chain[i - 1];
    && a.previousSegmentHash == Some(below.segmentHash) && a.previousCheckpointHash == Some(below.checkpointHash)
    && a.baseState == EndOf(p, below.baseState, below.transfers)
  }

  predicate IsArchive(w: Terms, chain: seq<ArchiveSegment>) {
    && chain != [] && (forall i :: 0 <= i < |chain| ==> IsSegment(w, chain[i]))
    && forall i :: 0 < i < |chain| ==> Follows(w.p, chain, i)
  }

  lemma ArchiveGrows(w: Terms, chain: seq<ArchiveSegment>)
    requires |chain| > 1
    ensures IsArchive(w, chain) <==>
              IsArchive(w, Init(chain)) && IsSegment(w, Last(chain)) && Follows(w.p, chain, |chain| - 1)
  {
    hide IsSegment, EndOf;
    forall i | 0 < i < |chain| - 1
      ensures Follows(w.p, chain, i) <==> Follows(w.p, Init(chain), i)
    {
    }
    if IsArchive(w, Init(chain)) && IsSegment(w, Last(chain)) && Follows(w.p, chain, |chain| - 1) {
      forall i | 0 <= i < |chain|
        ensures IsSegment(w, chain[i])
      {
        if i < |chain| - 1 {
          assert IsSegment(w, Init(chain)[i]);
        }
      }
    }
    if IsArchive(w, chain) {
      forall i | 0 <= i < |chain| - 1
        ensures IsSegment(w, Init(chain)[i])
      {
        assert IsSegment(w, chain[i]);
      }
    }
  }

  lemma AfterTip(p: Primitives, a: ArchiveSegment)
    ensures CoreAfter(p, a).Tip() == EndOf(p, a.baseState, a.transfers)
  {
    hide EndOf, CheckpointCorePreimage;
  }

  /** Linked chains are exactly the archives so declared. */
  lemma {:induction false} LinkedExact(p: Primitives, ctx: Context, chain: seq<ArchiveSegment>)
    requires ctx.suite == Standard(p)
    ensures Linked(ctx, chain) <==> IsArchive(Here(p, ctx), chain)
    decreases |chain|
  {
    hide CheckHeader, CheckBody, IsSegment, EndOf, CoreAfter, Standard, Here;
    if chain != [] {
      SegmentExact(p, ctx, Last(chain));
      if |chain| > 1 {
        LinkedExact(p, ctx, Init(chain));
        ArchiveGrows(Here(p, ctx), chain);
        SegmentExact(p, ctx, Last(Init(chain)));
        AfterTip(p, Last(Init(chain)));
        if IsArchive(Here(p, ctx), Init(chain)) {
          assert IsSegment(Here(p, ctx), Init(chain)[|chain| - 2]);
          DeclaredCheckpoint(Here(p, ctx), Last(Init(chain)));
        }
        TermsKeep(p, ctx);
      }
    }
  }

  lemma TermsKeep(p: Primitives, ctx: Context)
    ensures Here(p, ctx).p == p
  {
  }

  lemma DeclaredCheckpoint(w: Terms, a: ArchiveSegment)
    requires IsSegment(w, a)
    ensures CoreAfter(w.p, a).checkpointHash == a.checkpointHash
  {
    hide CoreAfter, IsHistory;
  }

  /** A checkpoint as it should be, but for its own hash, which verification takes on trust. */
  ghost predicate IsCheckpoint(w: Terms, core: CheckpointCore) {
    && core.networkId == w.networkId && core.sequence >= 1 && core.transfersInLastDay >= 1
    && IsAddress(w.p, core.ownerAddress) && core.displayIdHash == w.p.sha3(core.displayId)
    && exists serial: nat :: Spells(core.displayId, core.value, serial)
  }

  lemma CheckpointExact(p: Primitives, ctx: Context, core: CheckpointCore)
    requires ctx.suite == Standard(p)
    ensures ValidCheckpointCore(ctx.suite, ctx.networkId, core) <==> IsCheckpoint(Here(p, ctx), core)
  {
    DisplayIdSpells(p, core.displayId, core.value);
    AddressExact(p, core.ownerAddress);
    SuiteHashes(p);
    hide Standard, Spells, IsAddress, DisplayIdHasValue;
  }

  /** What an archive may stand on: genesis, or a checkpoint that was resolved. */
  ghost predicate Stands(w: Terms, a: ArchiveSegment, checkpoints: Option<CheckpointStore>) {
    if a.previousSegmentHash.None?
    then a.previousCheckpointHash.None? && a.baseState.sequence == 0
         && a.baseState.lastTransferHash == a.genesisRef.genesisHash
    else
      && a.previousCheckpointHash.Some? && checkpoints.Some? && a.previousCheckpointHash.value in checkpoints.value
      && var core := checkpoints.value[a.previousCheckpointHash.value];
         IsCheckpoint(w, core) && core.checkpointHash == a.previousCheckpointHash.value && a.baseState == core.Tip()
  }

  /** Verifying a segment accepts exactly the archives so declared, on such ground, that fit the stack; and
      it returns the checkpoint they lead to. */
  lemma ArchiveExact(p: Primitives, ctx: Context, a: ArchiveSegment, given: Option<ArchiveSegment>,
                     store: Option<SegmentStore>, checkpoints: Option<CheckpointStore>, depth: nat)
    requires ctx.suite == Standard(p)
    ensures var verdict := VerifySegment(ctx, a, given, store, checkpoints, depth);
      var chain := Ancestry(a, given, store, depth);
      && (verdict.Ok? <==>
            |chain| <= depth && IsArchive(Here(p, ctx), chain) && Stands(Here(p, ctx), chain[0], checkpoints))
      && (verdict.Ok? ==> verdict.value == CoreAfter(p, a))
  {
    var chain := Ancestry(a, given, store, depth);
    AcceptedExactly(ctx, a, given, store, checkpoints, depth);
    LinkedExact(p, ctx, chain);
    StandsExact(p, ctx, chain[0], checkpoints);
    hide VerifySegment, Linked, IsArchive, Stands, RestsOn, StartsAtGenesis, CheckBody, CheckHeader, CoreAfter,
      Standard;
    if VerifySegment(ctx, a, given, store, checkpoints, depth).Ok? {
      AcceptedIsLinked(ctx, a, given, store, checkpoints, depth);
      LinkFacts(ctx, a, given, store, checkpoints, depth);
      SegmentExact(p, ctx, a);
    }
  }

  lemma StandsExact(p: Primitives, ctx: Context, a: ArchiveSegment, checkpoints: Option<CheckpointStore>)
    requires ctx.suite == Standard(p)
    ensures StartsAtGenesis(a) || RestsOn(ctx, a, checkpoints) <==> Stands(Here(p, ctx), a, checkpoints)
  {
    hide IsCheckpoint, ValidCheckpointCore, Standard;
    if a.previousCheckpointHash.Some? && checkpoints.Some? && a.previousCheckpointHash.value in checkpoints.value {
      CheckpointExact(p, ctx, checkpoints.value[a.previousCheckpointHash.value]);
    }
  }
}
