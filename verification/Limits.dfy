/** Exactly which blocks of an accepted history can be archived: the limit on hashed payloads decides. */
module Limits {
  import opened Wrappers
  import opened Binary
  import opened DisplayId
  import opened Fields
  import opened Objects
  import opened Codec
  import opened Commitments
  import opened Replay
  import opened Segments

  lemma JoinSplits(fs: seq<Field>, gs: seq<Field>, tail: bytes)
    ensures |Join(fs + gs, tail)| == |Join(fs, [])| + |Join(gs, tail)|
  {
    JoinConcat(fs, gs, tail);
    JoinAppends(fs, Join(gs, tail));
  }

  // ------------------------------------------------------------------- sizes

  predicate Archivable(p: Primitives, t: Transfer) {
    && TransferFits(t) && t.signatureAlgorithm == SIGNATURE_ALGORITHM_ID
    && StandardAddress(p, t.senderAddress) && StandardAddress(p, t.recipientAddress)
  }

  /** What a signed transfer takes: 229 bytes, its sequence, its timestamp and its metadata; between 232
      and 505 in all. */
  lemma TransferSize(p: Primitives, t: Transfer)
    requires Archivable(p, t)
    ensures |Join(TransferFields(t), [])|
         == 229 + |Uvarint(t.sequence)| + |Uvarint(t.timestamp)| + |Uvarint(|t.metadata|)| + |t.metadata|
    ensures 232 <= |Join(TransferFields(t), [])| <= 505
  {
    hide Join, Uvarint, StandardAddress;
    var front := [Digest(t.tokenId), Number(t.sequence), Digest(t.previousHash), Text(t.senderAddress),
                  Digest(t.senderPublicKey)];
    var back := [Text(t.recipientAddress), Number(t.timestamp), Blob(t.metadata), Number(t.signatureAlgorithm),
                 Fixed(t.signature)];
    assert TransferFields(t) == front + back;
    FieldFitsAt(t);
    JoinSplits(front, back, []);
    FiveFields(front);
    FiveFields(back);
    AddressBytes(p, t.senderAddress);
    AddressBytes(p, t.recipientAddress);
    UvarintAtMostNine(t.sequence);
    UvarintAtMostNine(t.timestamp);
    ShortUvarint(|t.metadata|);
    ShortUvarint(t.signatureAlgorithm);
  }

  lemma FieldFitsAt(t: Transfer)
    requires TransferFits(t)
    ensures t.sequence <= MAX_UVARINT && t.timestamp <= MAX_UVARINT && |t.metadata| <= 256 && |t.signature| == 64
  {
    var fs := TransferFields(t);
    assert FieldFits(fs[1], TRANSFER_LAYOUT[1]) && FieldFits(fs[6], TRANSFER_LAYOUT[6]);
    assert FieldFits(fs[7], TRANSFER_LAYOUT[7]) && FieldFits(fs[9], TRANSFER_LAYOUT[9]);
  }

  lemma AddressBytes(p: Primitives, address: bytes)
    requires StandardAddress(p, address)
    ensures |FieldBytes(Text(address))| == 34
  {
    ShortUvarint(33);
  }

  lemma ShortUvarint(v: nat)
    requires v <= 256
    ensures 1 <= |Uvarint(v)| <= 2 && (v < 128 ==> |Uvarint(v)| == 1)
  {
  }

  lemma FieldAt(fs: seq<Field>, k: nat)
    requires k <= |fs|
    ensures |Join(fs[k..], [])| == if k < |fs| then |FieldBytes(fs[k])| + |Join(fs[k + 1..], [])| else 0
  {
    if k < |fs| {
      assert fs[k..][1..] == fs[k + 1..];
    }
  }

  lemma FiveFields(fs: seq<Field>)
    requires |fs| == 5
    ensures |Join(fs, [])| == |FieldBytes(fs[0])| + |FieldBytes(fs[1])| + |FieldBytes(fs[2])|
                              + |FieldBytes(fs[3])| + |FieldBytes(fs[4])|
  {
    hide Join, FieldBytes;
    assert fs[0..] == fs;
    FieldAt(fs, 0);
    FieldAt(fs, 1);
    FieldAt(fs, 2);
    FieldAt(fs, 3);
    FieldAt(fs, 4);
    FieldAt(fs, 5);
  }

  lemma WeightAt(ks: seq<Kind>, k: nat)
    requires k <= |ks|
    ensures TotalWeight(ks[k..]) == if k < |ks| then Weight(ks[k]) + TotalWeight(ks[k + 1..]) else 0
  {
    if k < |ks| {
      assert ks[k..][1..] == ks[k + 1..];
    }
  }

  lemma FiveWeights(ks: seq<Kind>)
    requires |ks| == 5
    ensures TotalWeight(ks) == Weight(ks[0]) + Weight(ks[1]) + Weight(ks[2]) + Weight(ks[3]) + Weight(ks[4])
  {
    hide TotalWeight, Weight;
    assert ks[0..] == ks;
    WeightAt(ks, 0);
    WeightAt(ks, 1);
    WeightAt(ks, 2);
    WeightAt(ks, 3);
    WeightAt(ks, 4);
    WeightAt(ks, 5);
  }

  lemma ThreeWeights(ks: seq<Kind>)
    requires |ks| == 3
    ensures TotalWeight(ks) == Weight(ks[0]) + Weight(ks[1]) + Weight(ks[2])
  {
    hide TotalWeight, Weight;
    assert ks[0..] == ks;
    WeightAt(ks, 0);
    WeightAt(ks, 1);
    WeightAt(ks, 2);
    WeightAt(ks, 3);
  }

  lemma {:induction false} TransfersSize(p: Primitives, ts: seq<Transfer>)
    requires forall t :: t in ts ==> Archivable(p, t)
    ensures 232 * |ts| <= |Join(TransfersFields(ts), [])| <= 505 * |ts|
    decreases |ts|
  {
    if ts != [] {
      assert ts[0] in ts && forall t :: t in ts[1..] ==> t in ts;
      TransferSize(p, ts[0]);
      JoinSplits(TransferFields(ts[0]), TransfersFields(ts[1..]), []);
      TransfersSize(p, ts[1..]);
    }
  }

  /** Everything in a segment but its transfers takes at most 700 bytes. */
  lemma SegmentSize(p: Primitives, a: ArchiveSegment)
    requires SegmentFits(p, a)
    ensures |Join(TransfersFields(a.transfers), [])| <= |EncodeSegment(a)|
    ensures |EncodeSegment(a)| <= 700 + |Join(TransfersFields(a.transfers), [])|
  {
    hide SegmentHeadFields, GenesisRefFields, StateFields, SegmentLinkFields, TransfersFields, TransfersFit, Join,
      Fit, TotalWeight;
    SegmentJoinSize(a);
    EnvelopeFits(a.networkId);
    JoinWeighs(EnvelopeFields(ARCHIVE_SEGMENT_MAGIC, a.networkId), ENVELOPE_LAYOUT, []);
    JoinWeighs(SegmentHeadFields(a), SEGMENT_HEAD_LAYOUT, []);
    JoinWeighs(GenesisRefFields(a.genesisRef), GENESIS_REF_LAYOUT, []);
    JoinWeighs(StateFields(a.baseState), STATE_LAYOUT, []);
    JoinWeighs(SegmentLinkFields(a), SEGMENT_LINK_LAYOUT, []);
    HeadWeights();
  }

  lemma SegmentJoinSize(a: ArchiveSegment)
    ensures |EncodeSegment(a)| == |Join(EnvelopeFields(ARCHIVE_SEGMENT_MAGIC, a.networkId), [])|
              + |Join(SegmentHeadFields(a), [])|
              + |Join(GenesisRefFields(a.genesisRef), [])| + |Join(StateFields(a.baseState), [])|
              + |Join(SegmentLinkFields(a), [])| + |Join(TransfersFields(a.transfers), [])| + 32
  {
    hide SegmentHeadFields, GenesisRefFields, StateFields, SegmentLinkFields, TransfersFields, Join;
    var hash := [Digest(a.segmentHash)];
    var tail := TransfersFields(a.transfers) + hash;
    JoinSplits(SegmentHeadFields(a),
               GenesisRefFields(a.genesisRef) + (StateFields(a.baseState) + (SegmentLinkFields(a) + tail)), []);
    JoinSplits(GenesisRefFields(a.genesisRef), StateFields(a.baseState) + (SegmentLinkFields(a) + tail), []);
    JoinSplits(StateFields(a.baseState), SegmentLinkFields(a) + tail, []);
    JoinSplits(SegmentLinkFields(a), tail, []);
    JoinSplits(TransfersFields(a.transfers), hash, []);
    JoinAppends(EnvelopeFields(ARCHIVE_SEGMENT_MAGIC, a.networkId), Join(SegmentFields(a), []));
    OneField(Digest(a.segmentHash));
  }

  lemma EnvelopeFits(networkId: nat)
    requires networkId <= MAX_UVARINT
    ensures Fit(EnvelopeFields(ARCHIVE_SEGMENT_MAGIC, networkId), ENVELOPE_LAYOUT)
  {
    var fs := EnvelopeFields(ARCHIVE_SEGMENT_MAGIC, networkId);
    assert forall i :: 0 <= i < 3 ==> FieldFits(fs[i], ENVELOPE_LAYOUT[i]);
  }

  lemma OneField(f: Field)
    ensures Join([f], []) == FieldBytes(f)
  {
    assert [f][1..] == [];
  }

  lemma HeadWeights()
    ensures TotalWeight(ENVELOPE_LAYOUT) == 26 && TotalWeight(SEGMENT_HEAD_LAYOUT) == 114
    ensures TotalWeight(GENESIS_REF_LAYOUT) == 116 && TotalWeight(SEGMENT_LINK_LAYOUT) == 125
    ensures TotalWeight(STATE_LAYOUT) == 287
  {
    hide TotalWeight;
    ThreeWeights(ENVELOPE_LAYOUT);
    ThreeWeights(SEGMENT_HEAD_LAYOUT);
    FiveWeights(GENESIS_REF_LAYOUT);
    TotalWeightSplits(SEGMENT_LINK_LAYOUT[..3], SEGMENT_LINK_LAYOUT[3..]);
    assert SEGMENT_LINK_LAYOUT == SEGMENT_LINK_LAYOUT[..3] + SEGMENT_LINK_LAYOUT[3..];
    ThreeWeights(SEGMENT_LINK_LAYOUT[..3]);
    ThreeWeights(SEGMENT_LINK_LAYOUT[3..]);
    TotalWeightSplits(STATE_LAYOUT[..5], STATE_LAYOUT[5..]);
    assert STATE_LAYOUT == STATE_LAYOUT[..5] + STATE_LAYOUT[5..];
    FiveWeights(STATE_LAYOUT[..5]);
    ThreeWeights(STATE_LAYOUT[5..]);
  }

  // ---------------------------------------------------- which blocks can be archived

  /** The numbers of a starting state and a genesis reference that the encoder may still refuse. */
  predicate NumbersFit(base: State, g: GenesisRef) {
    && base.lastTransferTimestamp <= MAX_UVARINT && base.lastTransferDay <= MAX_UVARINT
    && base.transfersInLastDay <= MAX_UVARINT && g.issuedAt <= MAX_UVARINT
  }

  /** The segment a block makes, before its own hash is filled in. */
  function Draft(ar: Archiver, base: State, transfers: seq<Transfer>, below: Option<ArchiveSegment>,
                 checkpointHash: Hash): ArchiveSegment
    requires ar.Tip(base, transfers).Ok?
  {
    var last := ar.Tip(base, transfers).value;
    ArchiveSegment(ar.ctx.networkId, ar.tokenId, last.value, last.displayId, ar.genesisRef, base, base.sequence + 1,
                   last.sequence, HashOf(below), CheckpointOf(below), checkpointHash, transfers, ZERO_HASH)
  }

  /** An accepted block in the standard suite, from a base that agrees with its genesis reference. */
  ghost predicate Ready(p: Primitives, ar: Archiver, base: State, transfers: seq<Transfer>) {
    && ar.ctx.suite == Standard(p) && transfers != [] && ValidGenesisRef(ar.ctx, ar.genesisRef)
    && IssueIndexMatches(ar.ctx.suite, base.displayId, base.value, ar.genesisRef.issueIndex)
    && ar.Tip(base, transfers).Ok?
  }

  lemma ReadyTransfers(p: Primitives, ar: Archiver, base: State, transfers: seq<Transfer>)
    requires Ready(p, ar, base, transfers)
    ensures forall t :: t in transfers ==> Archivable(p, t)
    ensures TransfersFit(p, transfers, ar.ctx.networkId) && ar.ctx.networkId <= MAX_UVARINT
  {
    hide Link, Standard;
    forall t | t in transfers
      ensures Encodable(ar.ctx, t)
    {
      var i :| 0 <= i < |transfers| && transfers[i] == t;
      AcceptedAt(Verifier(ar.ctx, ar.tokenId), base, transfers, i);
    }
    forall t | t in transfers
      ensures Archivable(p, t) && t.networkId == ar.ctx.networkId && p.jsonText(t.metadata) == Some(t.metadata)
    {
      EncodableIsArchivable(p, ar.ctx, t);
    }
    assert transfers[0] in transfers;
  }

  lemma EncodableIsArchivable(p: Primitives, ctx: Context, t: Transfer)
    requires ctx.suite == Standard(p) && Encodable(ctx, t)
    ensures Archivable(p, t) && t.networkId == ctx.networkId <= MAX_UVARINT
    ensures p.jsonText(t.metadata) == Some(t.metadata)
  {
    EncodableFits(p, ctx, t);
  }

  /** Where an accepted block starts and ends: within the encoder's range, but for the base's own claims. */
  lemma ReadyRange(p: Primitives, ar: Archiver, base: State, transfers: seq<Transfer>)
    requires Ready(p, ar, base, transfers)
    ensures var last := ar.Tip(base, transfers).value;
      && base.sequence < last.sequence == base.sequence + |transfers| <= MAX_UVARINT
      && last.lastTransferTimestamp <= MAX_UVARINT && last.lastTransferDay <= MAX_UVARINT
      && 1 <= last.transfersInLastDay <= MAX_UVARINT
      && last.displayId == base.displayId && last.value == base.value && ValidState(ar.ctx.suite, last)
  {
    hide Link, Standard;
    var r := Verifier(ar.ctx, ar.tokenId);
    var n := |transfers| - 1;
    AcceptedAt(r, base, transfers, n);
    AcceptedEnd(r, base, transfers);
    FoldKeepsValid(r, base, transfers);
    CounterIsBounded(r, base, transfers);
  }

  lemma {:induction false} CounterIsBounded(r: Replayer, s: State, ts: seq<Transfer>)
    requires r.Fold(s, ts).Ok? && ts != []
    ensures r.Fold(s, ts).value.transfersInLastDay <= MAX_TRANSFERS_PER_BILL_PER_DAY
    decreases |ts|
  {
    if |ts| == 1 {
      assert r.Fold(s, ts) == r.Fold(r.Step(s, ts[0]).value, []);
    } else {
      CounterIsBounded(r, r.Step(s, ts[0]).value, ts[1..]);
    }
  }

  lemma DraftFits(p: Primitives, ar: Archiver, base: State, transfers: seq<Transfer>, below: Option<ArchiveSegment>,
                  h: Hash)
    requires Ready(p, ar, base, transfers)
    ensures SegmentFits(p, Draft(ar, base, transfers, below, h)) <==> NumbersFit(base, ar.genesisRef)
  {
    ReadyTransfers(p, ar, base, transfers);
    ReadyRange(p, ar, base, transfers);
    var a := Draft(ar, base, transfers, below, h);
    var parts := ParseDisplayId(base.displayId);
    hide Link, Replayer.Fold;
    DisplayIdExact(base.displayId, parts.value.0, parts.value.1);
    CanonicalIsShort(parts.value.0, parts.value.1);
    CapsAreBounded(parts.value.0, parts.value.1);
    HeadFits(a);
    StateFitsIff(p, base);
    GenesisFitsIff(ar.genesisRef);
    LinksFit(a);
  }

  lemma HeadFits(a: ArchiveSegment)
    requires a.value <= MAX_UVARINT && |a.displayId| <= 64 && IsAscii(a.displayId)
    ensures Fit(SegmentHeadFields(a), SEGMENT_HEAD_LAYOUT)
  {
  }

  lemma LinksFit(a: ArchiveSegment)
    requires a.startSequence <= MAX_UVARINT && a.endSequence <= MAX_UVARINT && |a.transfers| <= MAX_UVARINT
    ensures Fit(SegmentLinkFields(a), SEGMENT_LINK_LAYOUT)
  {
  }

  lemma StateFitsIff(p: Primitives, s: State)
    requires StandardAddress(p, s.ownerAddress) && |s.displayId| <= 64 && IsAscii(s.displayId)
    requires s.sequence <= MAX_UVARINT && s.value <= MAX_UVARINT
    ensures Fit(StateFields(s), STATE_LAYOUT) <==>
      s.lastTransferTimestamp <= MAX_UVARINT && s.lastTransferDay <= MAX_UVARINT && s.transfersInLastDay <= MAX_UVARINT
  {
    var fs := StateFields(s);
    assert FieldFits(fs[3], STATE_LAYOUT[3]) <==> s.lastTransferTimestamp <= MAX_UVARINT;
    assert FieldFits(fs[4], STATE_LAYOUT[4]) <==> s.lastTransferDay <= MAX_UVARINT;
    assert FieldFits(fs[5], STATE_LAYOUT[5]) <==> s.transfersInLastDay <= MAX_UVARINT;
  }

  lemma GenesisFitsIff(g: GenesisRef)
    requires g.issueIndex <= MAX_UVARINT
    ensures Fit(GenesisRefFields(g), GENESIS_REF_LAYOUT) <==> g.issuedAt <= MAX_UVARINT
  {
    assert FieldFits(GenesisRefFields(g)[4], GENESIS_REF_LAYOUT[4]) <==> g.issuedAt <= MAX_UVARINT;
  }

  /** The checkpoint an accepted block would get. */
  function DraftCheckpoint(ar: Archiver, base: State, transfers: seq<Transfer>,
                           below: Option<ArchiveSegment>): Result<CheckpointCore>
    requires ar.Tip(base, transfers).Ok?
  {
    CheckpointFromState(ar.ctx, ar.tokenId, ar.genesisRef.genesisHash, ar.Tip(base, transfers).value,
                        CheckpointOf(below))
  }

  lemma DraftCheckpointExists(p: Primitives, ar: Archiver, base: State, transfers: seq<Transfer>,
                              below: Option<ArchiveSegment>)
    requires Ready(p, ar, base, transfers)
    ensures DraftCheckpoint(ar, base, transfers, below).Ok?
  {
    hide Link, Replayer.Fold, Standard;
    ReadyRange(p, ar, base, transfers);
    ReadyTransfers(p, ar, base, transfers);
  }

  /** An accepted block still agrees with its genesis reference where it ends. */
  lemma ReadyMatches(p: Primitives, ar: Archiver, base: State, transfers: seq<Transfer>)
    requires Ready(p, ar, base, transfers)
    ensures transfers != [] && ValidGenesisRef(ar.ctx, ar.genesisRef) && ar.Tip(base, transfers).Ok?
    ensures var last := ar.Tip(base, transfers).value;
      IssueIndexMatches(ar.ctx.suite, last.displayId, last.value, ar.genesisRef.issueIndex)
  {
    hide Standard, Replayer.Replay, ValidGenesisRef, IssueIndexMatches;
    ReadyRange(p, ar, base, transfers);
  }

  /** Once the checkpoint exists, only the segment's own hash is left to fail. */
  lemma MakesIffHashed(p: Primitives, ar: Archiver, base: State, transfers: seq<Transfer>,
                       below: Option<ArchiveSegment>)
    requires Ready(p, ar, base, transfers) && DraftCheckpoint(ar, base, transfers, below).Ok?
    ensures var h := DraftCheckpoint(ar, base, transfers, below).value.checkpointHash;
      ar.Make(base, transfers, below).Ok? <==> SegmentHash(ar.ctx.suite, Draft(ar, base, transfers, below, h)).Some?
  {
    ReadyMatches(p, ar, base, transfers);
    hide Ready, Replayer.Replay, SegmentHash, CheckpointFromState, ValidGenesisRef, IssueIndexMatches;
  }

  lemma StandardSegmentHashIff(p: Primitives, a: ArchiveSegment)
    requires a.segmentHash == ZERO_HASH
    ensures SegmentHash(Standard(p), a).Some? <==> SegmentFits(p, a) && |EncodeSegment(a)| <= MAX_BOUNDED_BYTES
  {
    hide EncodeSegment, SegmentFits;
    assert a.(segmentHash := ZERO_HASH) == a;
  }

  /** Archiving a block of an accepted history succeeds exactly when its numbers are in range and its
      encoding is within the 64 KiB a hashed object may take. */
  lemma ArchivesIffSmall(p: Primitives, ar: Archiver, base: State, transfers: seq<Transfer>,
                         below: Option<ArchiveSegment>)
    requires Ready(p, ar, base, transfers)
    ensures DraftCheckpoint(ar, base, transfers, below).Ok?
    ensures var h := DraftCheckpoint(ar, base, transfers, below).value.checkpointHash;
      ar.Make(base, transfers, below).Ok? <==>
        NumbersFit(base, ar.genesisRef) && |EncodeSegment(Draft(ar, base, transfers, below, h))| <= MAX_BOUNDED_BYTES
  {
    hide Link, Replayer.Replay, EncodeSegment, SegmentFits, MakeSegment, CheckpointFromState, SegmentHash, NumbersFit,
      Standard;
    DraftCheckpointExists(p, ar, base, transfers, below);
    var h := DraftCheckpoint(ar, base, transfers, below).value.checkpointHash;
    MakesIffHashed(p, ar, base, transfers, below);
    DraftFits(p, ar, base, transfers, below, h);
    StandardSegmentHashIff(p, Draft(ar, base, transfers, below, h));
  }

  /** So up to 128 transfers always fit in one segment, and 283 or more never do. */
  lemma BlockSizeLimits(p: Primitives, ar: Archiver, base: State, transfers: seq<Transfer>,
                        below: Option<ArchiveSegment>)
    requires Ready(p, ar, base, transfers)
    ensures NumbersFit(base, ar.genesisRef) && |transfers| <= 128 ==> ar.Make(base, transfers, below).Ok?
    ensures |transfers| >= 283 ==> ar.Make(base, transfers, below).Err?
  {
    hide Link, Replayer.Fold, Standard, EncodeSegment, SegmentFits, MakeSegment;
    ArchivesIffSmall(p, ar, base, transfers, below);
    var h := DraftCheckpoint(ar, base, transfers, below).value.checkpointHash;
    DraftFits(p, ar, base, transfers, below, h);
    ReadyTransfers(p, ar, base, transfers);
    if NumbersFit(base, ar.genesisRef) {
      SegmentSize(p, Draft(ar, base, transfers, below, h));
      TransfersSize(p, transfers);
    }
  }

  /** Every accepted history, cut into blocks of at most 128 transfers, archives to the end. */
  lemma {:induction false} SmallCutsArchive(p: Primitives, ar: Archiver, base: State, blocks: seq<seq<Transfer>>,
                                            below: Option<ArchiveSegment>)
    requires ar.ctx.suite == Standard(p) && ValidGenesisRef(ar.ctx, ar.genesisRef) && NumbersFit(base, ar.genesisRef)
    requires IssueIndexMatches(ar.ctx.suite, base.displayId, base.value, ar.genesisRef.issueIndex)
    requires ar.Tip(base, Flatten(blocks)).Ok? && forall b :: b in blocks ==> 1 <= |b| <= 128
    ensures ar.BuildChain(base, blocks, below).Ok?
    decreases |blocks|
  {
    hide Link, Replayer.Fold, Standard, MakeSegment;
    if blocks != [] {
      assert blocks[0] in blocks && forall b :: b in blocks[1..] ==> b in blocks;
      ReplayComposes(Verifier(ar.ctx, ar.tokenId), base, blocks[0], Flatten(blocks[1..]));
      BlockSizeLimits(p, ar, base, blocks[0], below);
      ReadyRange(p, ar, base, blocks[0]);
      SmallCutsArchive(p, ar, ar.Tip(base, blocks[0]).value, blocks[1..], Some(ar.Make(base, blocks[0], below).value));
    }
  }
}
