/** The field layout of every binary object, its envelope, and the decoders that undo them. */
module Codec {
  import opened Wrappers
  import opened Binary
  import opened Fields
  import opened Objects

  const VERSION: nat := 3
  const MAX_ADDRESS_BYTES: Size := 128
  const MAX_DISPLAY_ID_BYTES: Size := 64

  const BILL_MAGIC: bytes := Ascii("IND3BILL")
  const TRANSFER_MAGIC: bytes := Ascii("IND3XFER")
  const CHECKPOINT_CORE_MAGIC: bytes := Ascii("IND3CPNT")
  const ARCHIVE_SEGMENT_MAGIC: bytes := Ascii("IND3ARCH")

  const CONFLICT_PROOF_MAGIC: bytes := Ascii("IND3CFLP")

  const TRANSFER_TYPE: bytes := Ascii("ind.transfer.v3")
  const CHECKPOINT_CORE_TYPE: bytes := Ascii("ind.checkpoint_core.v3")
  const ARCHIVE_SEGMENT_TYPE: bytes := Ascii("ind.archive_segment.v3")
  const CONFLICT_PROOF_TYPE: bytes := Ascii("ind.conflict_proof.v3")

  // ------------------------------------------------------------------- layouts

  const GENESIS_REF_LAYOUT: seq<Kind> := [DigestKind, MaybeDigestKind, MaybeDigestKind, NumberKind, NumberKind]

  function GenesisRefFields(g: GenesisRef): seq<Field> {
    [Digest(g.genesisHash), MaybeDigest(g.manifestHash), MaybeDigest(g.issuerKeyId),
     Number(g.issueIndex), Number(g.issuedAt)]
  }

  function GenesisRefOf(fs: seq<Field>, networkId: nat): GenesisRef
    requires Fit(fs, GENESIS_REF_LAYOUT)
  {
    GenesisRef(networkId, fs[0].h, fs[1].o, fs[2].o, fs[3].v, fs[4].v)
  }

  const STATE_LAYOUT: seq<Kind> := [
    NumberKind, TextKind(MAX_ADDRESS_BYTES), DigestKind, NumberKind, NumberKind, NumberKind,
    TextKind(MAX_DISPLAY_ID_BYTES), NumberKind]

  function StateFields(s: State): seq<Field> {
    [Number(s.sequence), Text(s.ownerAddress), Digest(s.lastTransferHash), Number(s.lastTransferTimestamp),
     Number(s.lastTransferDay), Number(s.transfersInLastDay), Text(s.displayId), Number(s.value)]
  }

  function StateOf(fs: seq<Field>): State
    requires Fit(fs, STATE_LAYOUT)
  {
    State(fs[0].v, fs[1].ascii, fs[2].h, fs[3].v, fs[4].v, fs[5].v, fs[6].ascii, fs[7].v)
  }

  const CHECKPOINT_CORE_LAYOUT: seq<Kind> := [
    DigestKind, DigestKind, NumberKind, TextKind(MAX_ADDRESS_BYTES), NumberKind,
    TextKind(MAX_DISPLAY_ID_BYTES), DigestKind, DigestKind, NumberKind, NumberKind, NumberKind,
    MaybeDigestKind, DigestKind]

  function CheckpointCoreFields(c: CheckpointCore): seq<Field> {
    [Digest(c.tokenId), Digest(c.genesisHash), Number(c.sequence), Text(c.ownerAddress), Number(c.value),
     Text(c.displayId), Digest(c.displayIdHash), Digest(c.lastTransferHash), Number(c.lastTransferTimestamp),
     Number(c.lastTransferDay), Number(c.transfersInLastDay), MaybeDigest(c.previousCheckpointHash),
     Digest(c.checkpointHash)]
  }

  function CheckpointCoreOf(fs: seq<Field>, networkId: nat): CheckpointCore
    requires Fit(fs, CHECKPOINT_CORE_LAYOUT)
  {
    CheckpointCore(networkId, fs[0].h, fs[1].h, fs[2].v, fs[3].ascii, fs[4].v, fs[5].ascii, fs[6].h, fs[7].h,
                   fs[8].v, fs[9].v, fs[10].v, fs[11].o, fs[12].h)
  }

  const BUNDLE_REF_LAYOUT: seq<Kind> := [TextKind(128), DigestKind, NumberKind, NumberKind, DigestKind]

  function BundleRefFields(r: ProofBundleRef): seq<Field> {
    [Text(r.logId), Digest(r.signedRootHash), Number(r.treeSize), Number(r.algorithm), Digest(r.bundleHash)]
  }

  function BundleRefOf(fs: seq<Field>, networkId: nat): ProofBundleRef
    requires Fit(fs, BUNDLE_REF_LAYOUT)
  {
    ProofBundleRef(networkId, fs[0].ascii, fs[1].h, fs[2].v, fs[3].v, fs[4].h)
  }

  const UNSIGNED_TRANSFER_LAYOUT: seq<Kind> := [
    DigestKind, NumberKind, DigestKind, TextKind(MAX_ADDRESS_BYTES), DigestKind, TextKind(MAX_ADDRESS_BYTES),
    NumberKind, BlobKind(MAX_TRANSFER_METADATA_BYTES), NumberKind]
  const TRANSFER_LAYOUT: seq<Kind> := UNSIGNED_TRANSFER_LAYOUT + [FixedKind(64)]

  function UnsignedTransferFields(t: Transfer): seq<Field> {
    [Digest(t.tokenId), Number(t.sequence), Digest(t.previousHash), Text(t.senderAddress),
     Digest(t.senderPublicKey), Text(t.recipientAddress), Number(t.timestamp), Blob(t.metadata),
     Number(t.signatureAlgorithm)]
  }

  function TransferFields(t: Transfer): seq<Field> {
    UnsignedTransferFields(t) + [Fixed(t.signature)]
  }

  /** The transfer a field list spells, its metadata replaced by the canonical text `metadata`. */
  function TransferOf(fs: seq<Field>, metadata: bytes, networkId: nat): Transfer
    requires Fit(fs, TRANSFER_LAYOUT)
  {
    Transfer(networkId, fs[8].v, fs[0].h, fs[1].v, fs[2].h, fs[3].ascii, fs[4].h, fs[5].ascii, fs[6].v,
             metadata, fs[9].exact)
  }

  const CONFLICT_HEAD_LAYOUT: seq<Kind> := [
    DigestKind, DigestKind, NumberKind, TextKind(MAX_ADDRESS_BYTES), DigestKind, DigestKind, DigestKind]
  const CONFLICT_TAIL_LAYOUT: seq<Kind> := [NumberKind, DigestKind]
  const CONFLICT_LAYOUT: seq<Kind> :=
    CONFLICT_HEAD_LAYOUT + (TRANSFER_LAYOUT + (TRANSFER_LAYOUT + CONFLICT_TAIL_LAYOUT))

  function ConflictHeadFields(c: ConflictProof): seq<Field> {
    [Digest(c.spent.tokenId), Digest(c.spent.previousHash), Number(c.spent.sequence), Text(c.spent.senderAddress),
     Digest(c.spendKey), Digest(c.transferHashA), Digest(c.transferHashB)]
  }

  function ConflictTailFields(c: ConflictProof): seq<Field> {
    [Number(c.detectedAt), Digest(c.proofHash)]
  }

  function ConflictFields(c: ConflictProof): seq<Field> {
    ConflictHeadFields(c) + (TransferFields(c.transferA) + (TransferFields(c.transferB) + ConflictTailFields(c)))
  }

  // ------------------------------------------------------------------- parsers

  function ParseGenesisRef(s: bytes, networkId: nat): Parsed<GenesisRef> {
    var (fs, rest) :- ParseFields(GENESIS_REF_LAYOUT, s);
    if !Fit(fs, GENESIS_REF_LAYOUT) then Rejected else
    Parsed(GenesisRefOf(fs, networkId), rest)
  }

  function ParseState(s: bytes): Parsed<State> {
    var (fs, rest) :- ParseFields(STATE_LAYOUT, s);
    if !Fit(fs, STATE_LAYOUT) then Rejected else
    Parsed(StateOf(fs), rest)
  }

  function ParseCheckpointCore(s: bytes, networkId: nat): Parsed<CheckpointCore> {
    var (fs, rest) :- ParseFields(CHECKPOINT_CORE_LAYOUT, s);
    if !Fit(fs, CHECKPOINT_CORE_LAYOUT) then Rejected else
    Parsed(CheckpointCoreOf(fs, networkId), rest)
  }

  function ParseBundleRef(s: bytes, networkId: nat): Parsed<ProofBundleRef> {
    var (fs, rest) :- ParseFields(BUNDLE_REF_LAYOUT, s);
    if !Fit(fs, BUNDLE_REF_LAYOUT) then Rejected else
    Parsed(BundleRefOf(fs, networkId), rest)
  }

  function ParseTransfer(p: Primitives, s: bytes, networkId: nat): Parsed<Transfer> {
    var (fs, rest) :- ParseFields(TRANSFER_LAYOUT, s);
    if !Fit(fs, TRANSFER_LAYOUT) then Rejected else
    match p.jsonText(fs[7].raw)
    case None => Rejected
    case Some(metadata) => Parsed(TransferOf(fs, metadata, networkId), rest)
  }

  // ------------------------------- each layout against its object, both directions

  lemma CheckpointCoreFieldsOf(fs: seq<Field>, networkId: nat)
    requires Fit(fs, CHECKPOINT_CORE_LAYOUT)
    ensures CheckpointCoreFields(CheckpointCoreOf(fs, networkId)) == fs
  {
    var gs := CheckpointCoreFields(CheckpointCoreOf(fs, networkId));
    forall i | 0 <= i < |fs|
      ensures gs[i] == fs[i]
    {
      assert FieldFits(fs[i], CHECKPOINT_CORE_LAYOUT[i]);
    }
  }

  /** A checkpoint body parses to `core` exactly when it is `core`'s encoding. */
  lemma CheckpointCoreExact(s: bytes, core: CheckpointCore, rest: bytes)
    ensures ParseCheckpointCore(s, core.networkId) == Parsed(core, rest)
       <==> Fit(CheckpointCoreFields(core), CHECKPOINT_CORE_LAYOUT) && s == Join(CheckpointCoreFields(core), rest)
  {
    FieldsExact(CHECKPOINT_CORE_LAYOUT, s, CheckpointCoreFields(core), rest);
    var parsed := ParseFields(CHECKPOINT_CORE_LAYOUT, s);
    if parsed.Parsed? {
      FieldsExact(CHECKPOINT_CORE_LAYOUT, s, parsed.value, parsed.rest);
      CheckpointCoreFieldsOf(parsed.value, core.networkId);
    }
  }

  lemma GenesisRefExact(s: bytes, g: GenesisRef, rest: bytes)
    ensures ParseGenesisRef(s, g.networkId) == Parsed(g, rest)
       <==> Fit(GenesisRefFields(g), GENESIS_REF_LAYOUT) && s == Join(GenesisRefFields(g), rest)
  {
    FieldsExact(GENESIS_REF_LAYOUT, s, GenesisRefFields(g), rest);
    var parsed := ParseFields(GENESIS_REF_LAYOUT, s);
    if parsed.Parsed? {
      FieldsExact(GENESIS_REF_LAYOUT, s, parsed.value, parsed.rest);
      assert GenesisRefFields(GenesisRefOf(parsed.value, g.networkId)) == parsed.value;
    }
  }

  lemma StateFieldsOf(fs: seq<Field>)
    requires Fit(fs, STATE_LAYOUT)
    ensures StateFields(StateOf(fs)) == fs
  {
    forall i | 0 <= i < |fs|
      ensures StateFields(StateOf(fs))[i] == fs[i]
    {
      assert FieldFits(fs[i], STATE_LAYOUT[i]);
    }
  }

  lemma StateExact(s: bytes, st: State, rest: bytes)
    ensures ParseState(s) == Parsed(st, rest)
       <==> Fit(StateFields(st), STATE_LAYOUT) && s == Join(StateFields(st), rest)
  {
    FieldsExact(STATE_LAYOUT, s, StateFields(st), rest);
    var parsed := ParseFields(STATE_LAYOUT, s);
    if parsed.Parsed? {
      FieldsExact(STATE_LAYOUT, s, parsed.value, parsed.rest);
      StateFieldsOf(parsed.value);
    }
  }

  lemma BundleRefExact(s: bytes, r: ProofBundleRef, rest: bytes)
    ensures ParseBundleRef(s, r.networkId) == Parsed(r, rest)
       <==> Fit(BundleRefFields(r), BUNDLE_REF_LAYOUT) && s == Join(BundleRefFields(r), rest)
  {
    FieldsExact(BUNDLE_REF_LAYOUT, s, BundleRefFields(r), rest);
    var parsed := ParseFields(BUNDLE_REF_LAYOUT, s);
    if parsed.Parsed? {
      FieldsExact(BUNDLE_REF_LAYOUT, s, parsed.value, parsed.rest);
      assert BundleRefFields(BundleRefOf(parsed.value, r.networkId)) == parsed.value;
    }
  }

  predicate TransferFits(t: Transfer) {
    Fit(TransferFields(t), TRANSFER_LAYOUT) && t.networkId <= MAX_UVARINT
  }

  lemma TransferFieldsOf(fs: seq<Field>, networkId: nat)
    requires Fit(fs, TRANSFER_LAYOUT)
    ensures TransferFields(TransferOf(fs, fs[7].raw, networkId)) == fs
  {
    var gs := TransferFields(TransferOf(fs, fs[7].raw, networkId));
    forall i | 0 <= i < |fs|
      ensures gs[i] == fs[i]
    {
      assert FieldFits(fs[i], TRANSFER_LAYOUT[i]);
    }
  }

  lemma TransferReadsBack(p: Primitives, t: Transfer, rest: bytes)
    requires TransferFits(t) && p.jsonText(t.metadata) == Some(t.metadata)
    ensures ParseTransfer(p, Join(TransferFields(t), rest), t.networkId) == Parsed(t, rest)
  {
    FieldsExact(TRANSFER_LAYOUT, Join(TransferFields(t), rest), TransferFields(t), rest);
  }

  /** Metadata is the one field with several spellings: re-encoding a decoded transfer gives back
      its bytes exactly when its metadata was spelled canonically. */
  lemma TransferReencodes(p: Primitives, s: bytes, fs: seq<Field>, t: Transfer, rest: bytes)
    requires ParseFields(TRANSFER_LAYOUT, s) == Parsed(fs, rest)
    requires ParseTransfer(p, s, t.networkId) == Parsed(t, rest)
    ensures |fs| == 10 && fs[7].Blob?
    ensures Fit(TransferFields(t), TRANSFER_LAYOUT) && s == Join(TransferFields(t), rest)
       <==> p.jsonText(fs[7].raw) == Some(fs[7].raw)
  {
    FieldsExact(TRANSFER_LAYOUT, s, fs, rest);
    assert FieldFits(fs[7], TRANSFER_LAYOUT[7]);
    TransferFieldsOf(fs, t.networkId);
    FieldsExact(TRANSFER_LAYOUT, s, TransferFields(t), rest);
    assert TransferFields(t)[7] == Blob(t.metadata);
  }

  // ----------------------------------------------------------------- envelopes

  const ENVELOPE_LAYOUT: seq<Kind> := [FixedKind(8), NumberKind, NumberKind]

  function EnvelopeFields(magic: bytes, networkId: nat): seq<Field> {
    [Fixed(magic), Number(VERSION), Number(networkId)]
  }

  function Envelope(magic: bytes, networkId: nat, body: seq<Field>): bytes {
    Join(EnvelopeFields(magic, networkId), Join(body, []))
  }

  function ParseEnvelope(s: bytes, magic: bytes): Parsed<nat> {
    var (fs, rest) :- ParseFields(ENVELOPE_LAYOUT, s);
    if !Fit(fs, ENVELOPE_LAYOUT) then Rejected else
    if fs[0].exact == magic && fs[1].v == VERSION then Parsed(fs[2].v, rest) else Rejected
  }

  lemma EnvelopeThen(magic: bytes, networkId: nat, body: seq<Field>, rest: bytes)
    ensures Envelope(magic, networkId, body) + rest == Join(EnvelopeFields(magic, networkId), Join(body, rest))
  {
    hide EnvelopeFields, Join;
    JoinAppends(EnvelopeFields(magic, networkId), Join(body, []));
    JoinAppends(EnvelopeFields(magic, networkId), Join(body, rest));
    JoinAppends(body, rest);
  }

  lemma EnvelopeExact(s: bytes, magic: bytes, networkId: nat, rest: bytes)
    requires |magic| == 8
    ensures ParseEnvelope(s, magic) == Parsed(networkId, rest)
       <==> networkId <= MAX_UVARINT && s == Join(EnvelopeFields(magic, networkId), rest)
  {
    FieldsExact(ENVELOPE_LAYOUT, s, EnvelopeFields(magic, networkId), rest);
    var parsed := ParseFields(ENVELOPE_LAYOUT, s);
    if parsed.Parsed? {
      FieldsExact(ENVELOPE_LAYOUT, s, parsed.value, parsed.rest);
      if ParseEnvelope(s, magic).Parsed? {
        assert EnvelopeFields(magic, parsed.value[2].v) == parsed.value;
      }
    }
  }

  // ------------------------------------------------------------- transfer lists

  function TransfersFields(ts: seq<Transfer>): seq<Field> {
    if ts == [] then [] else TransferFields(ts[0]) + TransfersFields(ts[1..])
  }

  function ParseTransfers(p: Primitives, count: nat, s: bytes, networkId: nat): Parsed<seq<Transfer>> {
    if count == 0 then Parsed([], s)
    else
      var (t, s) :- ParseTransfer(p, s, networkId);
      var (ts, s) :- ParseTransfers(p, count - 1, s, networkId);
      Parsed([t] + ts, s)
  }

  /** Every transfer belongs to the envelope's network and spells its metadata canonically. */
  predicate TransfersFit(p: Primitives, ts: seq<Transfer>, networkId: nat) {
    forall t :: t in ts ==>
      TransferFits(t) && t.networkId == networkId && p.jsonText(t.metadata) == Some(t.metadata)
  }

  lemma JoinNone(rest: bytes)
    ensures Join([], rest) == rest
  {
  }

  lemma {:induction false} TransfersReadBack(p: Primitives, ts: seq<Transfer>, networkId: nat, rest: bytes)
    requires TransfersFit(p, ts, networkId)
    ensures ParseTransfers(p, |ts|, Join(TransfersFields(ts), rest), networkId) == Parsed(ts, rest)
    decreases |ts|
  {
    hide ParseTransfer, TransferFields, TransferFits, Join;
    if ts == [] {
      JoinNone(rest);
    } else {
      var after := Join(TransfersFields(ts[1..]), rest);
      assert ts[0] in ts && forall t :: t in ts[1..] ==> t in ts;
      assert ts == [ts[0]] + ts[1..];
      JoinConcat(TransferFields(ts[0]), TransfersFields(ts[1..]), rest);
      TransferReadsBack(p, ts[0], after);
      TransfersReadBack(p, ts[1..], networkId, rest);
    }
  }

  /** What follows a join can be read off it. */
  lemma JoinCancels(fs: seq<Field>, x: bytes, y: bytes)
    ensures Join(fs, x) == Join(fs, y) <==> x == y
  {
    JoinAppends(fs, x);
    JoinAppends(fs, y);
    if Join(fs, x) == Join(fs, y) {
      assert x == Join(fs, x)[|Join(fs, [])|..] == y;
    }
  }

  /** Each of the next `count` transfers spells its metadata canonically. */
  predicate SpellsCanonically(p: Primitives, count: nat, s: bytes) {
    count == 0 ||
      match ParseFields(TRANSFER_LAYOUT, s)
      case Rejected => false
      case Parsed(fs, rest) =>
        && |fs| == 10 && fs[7].Blob? && p.jsonText(fs[7].raw) == Some(fs[7].raw)
        && SpellsCanonically(p, count - 1, rest)
  }

  lemma {:induction false} TransfersCounted(p: Primitives, count: nat, s: bytes, networkId: nat)
    requires ParseTransfers(p, count, s, networkId).Parsed?
    ensures |ParseTransfers(p, count, s, networkId).value| == count
    decreases count
  {
    hide ParseTransfer;
    if count > 0 {
      TransfersCounted(p, count - 1, ParseTransfer(p, s, networkId).rest, networkId);
    }
  }

  /** A decoded list of transfers re-encodes to its input exactly when all metadata was canonical. */
  lemma {:induction false} TransfersReencode(p: Primitives, count: nat, s: bytes, networkId: nat, ts: seq<Transfer>,
                                             rest: bytes)
    requires networkId <= MAX_UVARINT && ParseTransfers(p, count, s, networkId) == Parsed(ts, rest)
    ensures TransfersFit(p, ts, networkId) && s == Join(TransfersFields(ts), rest) <==> SpellsCanonically(p, count, s)
    decreases count
  {
    hide TransferFields, Join, Fit;
    JoinNone(rest);
    if count > 0 {
      var t, after := ParseTransfer(p, s, networkId).value, ParseTransfer(p, s, networkId).rest;
      var tail := Join(TransfersFields(ts[1..]), rest);
      assert ts == [t] + ts[1..] && ts[0] == t;
      JoinConcat(TransferFields(t), TransfersFields(ts[1..]), rest);
      TransfersReencode(p, count - 1, after, networkId, ts[1..], rest);
      TransferReencodes(p, s, ParseFields(TRANSFER_LAYOUT, s).value, t, after);
      JoinCancels(TransferFields(t), after, tail);
      if TransfersFit(p, ts, networkId) && s == Join(TransfersFields(ts), rest) {
        assert t in ts && forall u :: u in ts[1..] ==> u in ts;
        TransferReadsBack(p, t, tail);
      }
    }
  }

  // ----------------------------------------------------------- archive segments

  const SEGMENT_HEAD_LAYOUT: seq<Kind> := [DigestKind, NumberKind, TextKind(MAX_DISPLAY_ID_BYTES)]
  const SEGMENT_LINK_LAYOUT: seq<Kind> := [
    NumberKind, NumberKind, MaybeDigestKind, MaybeDigestKind, DigestKind, NumberKind]

  function SegmentHeadFields(a: ArchiveSegment): seq<Field> {
    [Digest(a.tokenId), Number(a.value), Text(a.displayId)]
  }

  function SegmentLinkFields(a: ArchiveSegment): seq<Field> {
    [Number(a.startSequence), Number(a.endSequence), MaybeDigest(a.previousSegmentHash),
     MaybeDigest(a.previousCheckpointHash), Digest(a.checkpointHash), Number(|a.transfers|)]
  }

  function SegmentFields(a: ArchiveSegment): seq<Field> {
    SegmentHeadFields(a) + (GenesisRefFields(a.genesisRef) + (StateFields(a.baseState)
    + (SegmentLinkFields(a) + (TransfersFields(a.transfers) + [Digest(a.segmentHash)]))))
  }

  predicate SegmentFits(p: Primitives, a: ArchiveSegment) {
    && a.networkId <= MAX_UVARINT && a.genesisRef.networkId == a.networkId
    && Fit(SegmentHeadFields(a), SEGMENT_HEAD_LAYOUT)
    && Fit(GenesisRefFields(a.genesisRef), GENESIS_REF_LAYOUT)
    && Fit(StateFields(a.baseState), STATE_LAYOUT)
    && Fit(SegmentLinkFields(a), SEGMENT_LINK_LAYOUT)
    && TransfersFit(p, a.transfers, a.networkId)
  }

  function EncodeSegment(a: ArchiveSegment): bytes {
    Envelope(ARCHIVE_SEGMENT_MAGIC, a.networkId, SegmentFields(a))
  }

  datatype SegmentHead = SegmentHead(tokenId: Hash, value: nat, displayId: bytes)

  datatype SegmentLinks = SegmentLinks(
    startSequence: nat, endSequence: nat, previousSegmentHash: Option<Hash>,
    previousCheckpointHash: Option<Hash>, checkpointHash: Hash, count: nat)

  function ParseSegmentHead(s: bytes): Parsed<SegmentHead> {
    var (fs, rest) :- ParseFields(SEGMENT_HEAD_LAYOUT, s);
    if !Fit(fs, SEGMENT_HEAD_LAYOUT) then Rejected else
    Parsed(SegmentHead(fs[0].h, fs[1].v, fs[2].ascii), rest)
  }

  function ParseSegmentLinks(s: bytes): Parsed<SegmentLinks> {
    var (fs, rest) :- ParseFields(SEGMENT_LINK_LAYOUT, s);
    if !Fit(fs, SEGMENT_LINK_LAYOUT) then Rejected else
    Parsed(SegmentLinks(fs[0].v, fs[1].v, fs[2].o, fs[3].o, fs[4].h, fs[5].v), rest)
  }

  function ParseSegment(p: Primitives, s: bytes): Parsed<ArchiveSegment> {
    var (networkId, s) :- ParseEnvelope(s, ARCHIVE_SEGMENT_MAGIC);
    var (head, s) :- ParseSegmentHead(s);
    var (genesisRef, s) :- ParseGenesisRef(s, networkId);
    var (baseState, s) :- ParseState(s);
    var (links, s) :- ParseSegmentLinks(s);
    var (transfers, s) :- ParseTransfers(p, links.count, s, networkId);
    var (segmentHash, s) :- ParseHash(s);
    Parsed(ArchiveSegment(networkId, head.tokenId, head.value, head.displayId, genesisRef, baseState,
                          links.startSequence, links.endSequence, links.previousSegmentHash,
                          links.previousCheckpointHash, links.checkpointHash, transfers, segmentHash), s)
  }

  /** All of a segment up to its transfers, followed by `tail`. */
  function SegmentFront(a: ArchiveSegment, tail: bytes): bytes {
    Join(EnvelopeFields(ARCHIVE_SEGMENT_MAGIC, a.networkId),
         Join(SegmentHeadFields(a), Join(GenesisRefFields(a.genesisRef), Join(StateFields(a.baseState),
              Join(SegmentLinkFields(a), tail)))))
  }

  lemma SegmentFrontCancels(a: ArchiveSegment, x: bytes, y: bytes)
    ensures SegmentFront(a, x) == SegmentFront(a, y) <==> x == y
  {
    hide Join, EnvelopeFields, SegmentHeadFields, GenesisRefFields, StateFields, SegmentLinkFields;
    var (x3, y3) := (Join(SegmentLinkFields(a), x), Join(SegmentLinkFields(a), y));
    var (x2, y2) := (Join(StateFields(a.baseState), x3), Join(StateFields(a.baseState), y3));
    var (x1, y1) := (Join(GenesisRefFields(a.genesisRef), x2), Join(GenesisRefFields(a.genesisRef), y2));
    JoinCancels(SegmentLinkFields(a), x, y);
    JoinCancels(StateFields(a.baseState), x3, y3);
    JoinCancels(GenesisRefFields(a.genesisRef), x2, y2);
    JoinCancels(SegmentHeadFields(a), x1, y1);
    JoinCancels(EnvelopeFields(ARCHIVE_SEGMENT_MAGIC, a.networkId), Join(SegmentHeadFields(a), x1),
                Join(SegmentHeadFields(a), y1));
  }

  /** An encoded segment as nested joins, one per part, whatever follows it. */
  lemma SegmentNests(a: ArchiveSegment, rest: bytes)
    ensures EncodeSegment(a) + rest == SegmentFront(a, Join(TransfersFields(a.transfers), a.segmentHash + rest))
  {
    var hash := [Digest(a.segmentHash)];
    assert Join(hash, rest) == a.segmentHash + rest;
    hide Join, EnvelopeFields, SegmentHeadFields, GenesisRefFields, StateFields, SegmentLinkFields, TransfersFields;
    var f4 := TransfersFields(a.transfers) + hash;
    var f3 := SegmentLinkFields(a) + f4;
    var f2 := StateFields(a.baseState) + f3;
    var f1 := GenesisRefFields(a.genesisRef) + f2;
    EnvelopeThen(ARCHIVE_SEGMENT_MAGIC, a.networkId, SegmentFields(a), rest);
    JoinConcat(SegmentHeadFields(a), f1, rest);
    JoinConcat(GenesisRefFields(a.genesisRef), f2, rest);
    JoinConcat(StateFields(a.baseState), f3, rest);
    JoinConcat(SegmentLinkFields(a), f4, rest);
    JoinConcat(TransfersFields(a.transfers), hash, rest);
  }

  /** Decoding an encoded segment gives it back and leaves what follows it, so trailing bytes are refused. */
  lemma SegmentReadsBack(p: Primitives, a: ArchiveSegment, rest: bytes)
    requires SegmentFits(p, a)
    ensures ParseSegment(p, EncodeSegment(a) + rest) == Parsed(a, rest)
    ensures Whole(ParseSegment(p, EncodeSegment(a) + rest)) == if rest == [] then Some(a) else None
  {
    SegmentNests(a, rest);
    var s5 := a.segmentHash + rest;
    var s4 := Join(TransfersFields(a.transfers), s5);
    var s3 := Join(SegmentLinkFields(a), s4);
    var s2 := Join(StateFields(a.baseState), s3);
    var s1 := Join(GenesisRefFields(a.genesisRef), s2);
    var s0 := Join(SegmentHeadFields(a), s1);
    EnvelopeExact(EncodeSegment(a) + rest, ARCHIVE_SEGMENT_MAGIC, a.networkId, s0);
    FieldsExact(SEGMENT_HEAD_LAYOUT, s0, SegmentHeadFields(a), s1);
    GenesisRefExact(s1, a.genesisRef, s2);
    StateExact(s2, a.baseState, s3);
    FieldsExact(SEGMENT_LINK_LAYOUT, s3, SegmentLinkFields(a), s4);
    TransfersReadBack(p, a.transfers, a.networkId, s5);
    HashExact(s5, a.segmentHash, rest);
  }

  /** Where the transfers of an encoded segment start, and how many are announced. */
  function SegmentTransfersAt(s: bytes): Parsed<nat> {
    var (networkId, s) :- ParseEnvelope(s, ARCHIVE_SEGMENT_MAGIC);
    var (head, s) :- ParseSegmentHead(s);
    var (genesisRef, s) :- ParseGenesisRef(s, networkId);
    var (baseState, s) :- ParseState(s);
    var (links, s) :- ParseSegmentLinks(s);
    Parsed(links.count, s)
  }

  lemma SegmentHeadExact(s: bytes)
    requires ParseSegmentHead(s).Parsed?
    ensures var head := ParseSegmentHead(s).value;
      var fs := [Digest(head.tokenId), Number(head.value), Text(head.displayId)];
      Fit(fs, SEGMENT_HEAD_LAYOUT) && s == Join(fs, ParseSegmentHead(s).rest)
  {
    var parsed := ParseFields(SEGMENT_HEAD_LAYOUT, s);
    FieldsExact(SEGMENT_HEAD_LAYOUT, s, parsed.value, parsed.rest);
    var head := ParseSegmentHead(s).value;
    assert [Digest(head.tokenId), Number(head.value), Text(head.displayId)] == parsed.value;
  }

  lemma SegmentLinksExact(s: bytes)
    requires ParseSegmentLinks(s).Parsed?
    ensures var l := ParseSegmentLinks(s).value;
      var fs := [Number(l.startSequence), Number(l.endSequence), MaybeDigest(l.previousSegmentHash),
                 MaybeDigest(l.previousCheckpointHash), Digest(l.checkpointHash), Number(l.count)];
      Fit(fs, SEGMENT_LINK_LAYOUT) && s == Join(fs, ParseSegmentLinks(s).rest)
  {
    var parsed := ParseFields(SEGMENT_LINK_LAYOUT, s);
    FieldsExact(SEGMENT_LINK_LAYOUT, s, parsed.value, parsed.rest);
    var l := ParseSegmentLinks(s).value;
    var fs := [Number(l.startSequence), Number(l.endSequence), MaybeDigest(l.previousSegmentHash),
               MaybeDigest(l.previousCheckpointHash), Digest(l.checkpointHash), Number(l.count)];
    forall i | 0 <= i < |fs|
      ensures fs[i] == parsed.value[i]
    {
      assert FieldFits(parsed.value[i], SEGMENT_LINK_LAYOUT[i]);
    }
    assert fs == parsed.value;
  }

  /** What decoding a segment read, part by part: everything but the transfers is spelled in one way. */
  lemma SegmentParts(p: Primitives, s: bytes, a: ArchiveSegment, rest: bytes)
    requires ParseSegment(p, s) == Parsed(a, rest)
    ensures SegmentTransfersAt(s).Parsed? && SegmentTransfersAt(s).value == |a.transfers|
    ensures a.networkId <= MAX_UVARINT && a.genesisRef.networkId == a.networkId
    ensures Fit(SegmentHeadFields(a), SEGMENT_HEAD_LAYOUT) && Fit(GenesisRefFields(a.genesisRef), GENESIS_REF_LAYOUT)
    ensures Fit(StateFields(a.baseState), STATE_LAYOUT) && Fit(SegmentLinkFields(a), SEGMENT_LINK_LAYOUT)
    ensures var at := SegmentTransfersAt(s).rest;
      && s == SegmentFront(a, at)
      && ParseTransfers(p, |a.transfers|, at, a.networkId) == Parsed(a.transfers, a.segmentHash + rest)
  {
    hide ParseSegmentHead, ParseSegmentLinks, ParseGenesisRef, ParseState, ParseTransfers, ParseEnvelope, Fit,
      EnvelopeFields, GenesisRefFields, StateFields, Join;
    var s0 := ParseEnvelope(s, ARCHIVE_SEGMENT_MAGIC).rest;
    var s1 := ParseSegmentHead(s0).rest;
    var s2 := ParseGenesisRef(s1, a.networkId).rest;
    var s3 := ParseState(s2).rest;
    var s4 := ParseSegmentLinks(s3).rest;
    var s5 := ParseTransfers(p, ParseSegmentLinks(s3).value.count, s4, a.networkId).rest;
    EnvelopeExact(s, ARCHIVE_SEGMENT_MAGIC, a.networkId, s0);
    SegmentHeadExact(s0);
    GenesisNetwork(s1, a.networkId);
    GenesisRefExact(s1, a.genesisRef, s2);
    StateExact(s2, a.baseState, s3);
    SegmentLinksExact(s3);
    TransfersCounted(p, ParseSegmentLinks(s3).value.count, s4, a.networkId);
    HashExact(s5, a.segmentHash, rest);
  }

  lemma GenesisNetwork(s: bytes, networkId: nat)
    requires ParseGenesisRef(s, networkId).Parsed?
    ensures ParseGenesisRef(s, networkId).value.networkId == networkId
  {
  }

  /** A decoded segment re-encodes to its input exactly when every transfer spelled its metadata
      canonically: nothing else in a segment has two spellings. */
  lemma SegmentReencodes(p: Primitives, s: bytes, a: ArchiveSegment, rest: bytes)
    requires ParseSegment(p, s) == Parsed(a, rest)
    ensures SegmentTransfersAt(s).Parsed?
    ensures SegmentFits(p, a) && s == EncodeSegment(a) + rest
       <==> SpellsCanonically(p, SegmentTransfersAt(s).value, SegmentTransfersAt(s).rest)
  {
    hide ParseSegment, SegmentTransfersAt, SegmentFront, TransfersFields, TransfersFit, Fit, EncodeSegment,
      SpellsCanonically, ParseTransfers, Join;
    SegmentParts(p, s, a, rest);
    SegmentNests(a, rest);
    var at := SegmentTransfersAt(s).rest;
    SegmentFrontCancels(a, at, Join(TransfersFields(a.transfers), a.segmentHash + rest));
    TransfersReencode(p, |a.transfers|, at, a.networkId, a.transfers, a.segmentHash + rest);
  }

  // --------------------------------------------------------------------- bills

  function BillHeadFields(b: Bill): seq<Field> {
    [Digest(b.tokenId), Number(b.value)]
  }

  function BillFields(b: Bill): seq<Field> {
    BillHeadFields(b) + (GenesisRefFields(b.genesisRef) + (CheckpointCoreFields(b.checkpointCore)
    + (BundleRefFields(b.proofBundleRef) + ([Number(|b.recentTransfers|)] + TransfersFields(b.recentTransfers)))))
  }

  /** Nested objects do not carry a network id: they must all be on the envelope's network. */
  predicate BillFits(p: Primitives, b: Bill) {
    && b.networkId <= MAX_UVARINT
    && b.genesisRef.networkId == b.checkpointCore.networkId == b.proofBundleRef.networkId == b.networkId
    && b.value <= MAX_UVARINT
    && Fit(GenesisRefFields(b.genesisRef), GENESIS_REF_LAYOUT)
    && Fit(CheckpointCoreFields(b.checkpointCore), CHECKPOINT_CORE_LAYOUT)
    && Fit(BundleRefFields(b.proofBundleRef), BUNDLE_REF_LAYOUT)
    && |b.recentTransfers| <= MAX_UVARINT
    && TransfersFit(p, b.recentTransfers, b.networkId)
  }

  function EncodeBill(b: Bill): bytes {
    Envelope(BILL_MAGIC, b.networkId, BillFields(b))
  }

  function ParseBill(p: Primitives, s: bytes): Parsed<Bill> {
    var (networkId, s) :- ParseEnvelope(s, BILL_MAGIC);
    var (tokenId, s) :- ParseHash(s);
    var (value, s) :- ParseUvarint(s);
    var (genesisRef, s) :- ParseGenesisRef(s, networkId);
    var (core, s) :- ParseCheckpointCore(s, networkId);
    var (bundleRef, s) :- ParseBundleRef(s, networkId);
    var (count, s) :- ParseUvarint(s);
    var (transfers, s) :- ParseTransfers(p, count, s, networkId);
    Parsed(Bill(networkId, tokenId, value, genesisRef, core, bundleRef, transfers), s)
  }

  /** All of a bill up to its transfers, followed by `tail`. */
  function BillFront(b: Bill, tail: bytes): bytes {
    Join(EnvelopeFields(BILL_MAGIC, b.networkId),
         Join(BillHeadFields(b), Join(GenesisRefFields(b.genesisRef), Join(CheckpointCoreFields(b.checkpointCore),
              Join(BundleRefFields(b.proofBundleRef), Join([Number(|b.recentTransfers|)], tail))))))
  }

  lemma BillFrontCancels(b: Bill, x: bytes, y: bytes)
    ensures BillFront(b, x) == BillFront(b, y) <==> x == y
  {
    hide Join, EnvelopeFields, BillHeadFields, GenesisRefFields, CheckpointCoreFields, BundleRefFields;
    var count := [Number(|b.recentTransfers|)];
    var (x4, y4) := (Join(count, x), Join(count, y));
    var (x3, y3) := (Join(BundleRefFields(b.proofBundleRef), x4), Join(BundleRefFields(b.proofBundleRef), y4));
    var core := CheckpointCoreFields(b.checkpointCore);
    var (x2, y2) := (Join(core, x3), Join(core, y3));
    var (x1, y1) := (Join(GenesisRefFields(b.genesisRef), x2), Join(GenesisRefFields(b.genesisRef), y2));
    JoinCancels(count, x, y);
    JoinCancels(BundleRefFields(b.proofBundleRef), x4, y4);
    JoinCancels(core, x3, y3);
    JoinCancels(GenesisRefFields(b.genesisRef), x2, y2);
    JoinCancels(BillHeadFields(b), x1, y1);
    JoinCancels(EnvelopeFields(BILL_MAGIC, b.networkId), Join(BillHeadFields(b), x1), Join(BillHeadFields(b), y1));
  }

  /** An encoded bill as nested joins, one per part, whatever follows it. */
  lemma BillNests(b: Bill, rest: bytes)
    ensures EncodeBill(b) + rest == BillFront(b, Join(TransfersFields(b.recentTransfers), rest))
  {
    hide Join, EnvelopeFields, BillHeadFields, GenesisRefFields, CheckpointCoreFields, BundleRefFields, TransfersFields;
    var count := [Number(|b.recentTransfers|)];
    var f4 := count + TransfersFields(b.recentTransfers);
    var f3 := BundleRefFields(b.proofBundleRef) + f4;
    var f2 := CheckpointCoreFields(b.checkpointCore) + f3;
    var f1 := GenesisRefFields(b.genesisRef) + f2;
    EnvelopeThen(BILL_MAGIC, b.networkId, BillFields(b), rest);
    JoinConcat(BillHeadFields(b), f1, rest);
    JoinConcat(GenesisRefFields(b.genesisRef), f2, rest);
    JoinConcat(CheckpointCoreFields(b.checkpointCore), f3, rest);
    JoinConcat(BundleRefFields(b.proofBundleRef), f4, rest);
    JoinConcat(count, TransfersFields(b.recentTransfers), rest);
  }

  lemma JoinOne(f: Field, tail: bytes)
    ensures Join([f], tail) == FieldBytes(f) + tail
  {
    assert [f][1..] == [];
  }

  /** The two plain fields in front of a bill, and the count, as bytes. */
  lemma BillPlainFields(b: Bill, tail: bytes)
    ensures Join(BillHeadFields(b), tail) == b.tokenId + (Uvarint(b.value) + tail)
    ensures Join([Number(|b.recentTransfers|)], tail) == Uvarint(|b.recentTransfers|) + tail
  {
    JoinConcat([Digest(b.tokenId)], [Number(b.value)], tail);
    assert BillHeadFields(b) == [Digest(b.tokenId)] + [Number(b.value)];
    JoinOne(Digest(b.tokenId), Uvarint(b.value) + tail);
    JoinOne(Number(b.value), tail);
    JoinOne(Number(|b.recentTransfers|), tail);
  }

  /** Decoding an encoded bill gives it back and leaves what follows it, so trailing bytes are refused. */
  lemma BillReadsBack(p: Primitives, b: Bill, rest: bytes)
    requires BillFits(p, b)
    ensures ParseBill(p, EncodeBill(b) + rest) == Parsed(b, rest)
    ensures Whole(ParseBill(p, EncodeBill(b) + rest)) == if rest == [] then Some(b) else None
  {
    BillNests(b, rest);
    var s5 := Join(TransfersFields(b.recentTransfers), rest);
    BillPlainFields(b, s5);
    var s4 := Uvarint(|b.recentTransfers|) + s5;
    var s3 := Join(BundleRefFields(b.proofBundleRef), s4);
    var s2 := Join(CheckpointCoreFields(b.checkpointCore), s3);
    var s1 := Join(GenesisRefFields(b.genesisRef), s2);
    BillPlainFields(b, s1);
    var s0 := b.tokenId + (Uvarint(b.value) + s1);
    EnvelopeExact(EncodeBill(b) + rest, BILL_MAGIC, b.networkId, s0);
    HashExact(s0, b.tokenId, Uvarint(b.value) + s1);
    UvarintExact(Uvarint(b.value) + s1, b.value, s1);
    GenesisRefExact(s1, b.genesisRef, s2);
    CheckpointCoreExact(s2, b.checkpointCore, s3);
    BundleRefExact(s3, b.proofBundleRef, s4);
    UvarintExact(s4, |b.recentTransfers|, s5);
    TransfersReadBack(p, b.recentTransfers, b.networkId, rest);
  }

  /** Where the transfers of an encoded bill start, and how many are announced. */
  function BillTransfersAt(s: bytes): Parsed<nat> {
    var (networkId, s) :- ParseEnvelope(s, BILL_MAGIC);
    var (tokenId, s) :- ParseHash(s);
    var (value, s) :- ParseUvarint(s);
    var (genesisRef, s) :- ParseGenesisRef(s, networkId);
    var (core, s) :- ParseCheckpointCore(s, networkId);
    var (bundleRef, s) :- ParseBundleRef(s, networkId);
    ParseUvarint(s)
  }

  lemma NestedNetworks(s: bytes, networkId: nat)
    ensures ParseCheckpointCore(s, networkId).Parsed? ==>
              ParseCheckpointCore(s, networkId).value.networkId == networkId
    ensures ParseBundleRef(s, networkId).Parsed? ==> ParseBundleRef(s, networkId).value.networkId == networkId
  {
  }

  /** What decoding a bill read, part by part. */
  lemma BillParts(p: Primitives, s: bytes, b: Bill, rest: bytes)
    requires ParseBill(p, s) == Parsed(b, rest)
    ensures BillTransfersAt(s).Parsed? && BillTransfersAt(s).value == |b.recentTransfers| <= MAX_UVARINT
    ensures b.networkId <= MAX_UVARINT && b.value <= MAX_UVARINT
    ensures b.genesisRef.networkId == b.checkpointCore.networkId == b.proofBundleRef.networkId == b.networkId
    ensures Fit(GenesisRefFields(b.genesisRef), GENESIS_REF_LAYOUT)
    ensures Fit(CheckpointCoreFields(b.checkpointCore), CHECKPOINT_CORE_LAYOUT)
    ensures Fit(BundleRefFields(b.proofBundleRef), BUNDLE_REF_LAYOUT)
    ensures var at := BillTransfersAt(s).rest;
      && s == BillFront(b, at)
      && ParseTransfers(p, |b.recentTransfers|, at, b.networkId) == Parsed(b.recentTransfers, rest)
  {
    hide ParseHash, ParseUvarint, ParseGenesisRef, ParseCheckpointCore, ParseBundleRef, ParseTransfers, ParseEnvelope,
      Fit, EnvelopeFields, GenesisRefFields, CheckpointCoreFields, BundleRefFields, BillHeadFields, Join;
    var s0 := ParseEnvelope(s, BILL_MAGIC).rest;
    var after := ParseHash(s0).rest;
    var s1 := ParseUvarint(after).rest;
    var s2 := ParseGenesisRef(s1, b.networkId).rest;
    var s3 := ParseCheckpointCore(s2, b.networkId).rest;
    var s4 := ParseBundleRef(s3, b.networkId).rest;
    var s5 := ParseUvarint(s4).rest;
    EnvelopeExact(s, BILL_MAGIC, b.networkId, s0);
    HashExact(s0, b.tokenId, after);
    UvarintExact(after, b.value, s1);
    GenesisNetwork(s1, b.networkId);
    GenesisRefExact(s1, b.genesisRef, s2);
    NestedNetworks(s2, b.networkId);
    CheckpointCoreExact(s2, b.checkpointCore, s3);
    NestedNetworks(s3, b.networkId);
    BundleRefExact(s3, b.proofBundleRef, s4);
    TransfersCounted(p, ParseUvarint(s4).value, s5, b.networkId);
    UvarintExact(s4, |b.recentTransfers|, s5);
    BillPlainFields(b, s1);
    BillPlainFields(b, s5);
  }

  /** A decoded bill re-encodes to its input exactly when every transfer spelled its metadata canonically. */
  lemma BillReencodes(p: Primitives, s: bytes, b: Bill, rest: bytes)
    requires ParseBill(p, s) == Parsed(b, rest)
    ensures BillTransfersAt(s).Parsed?
    ensures BillFits(p, b) && s == EncodeBill(b) + rest
       <==> SpellsCanonically(p, BillTransfersAt(s).value, BillTransfersAt(s).rest)
  {
    hide ParseBill, BillTransfersAt, BillFront, TransfersFields, TransfersFit, Fit, EncodeBill, SpellsCanonically,
      ParseTransfers, Join;
    BillParts(p, s, b, rest);
    BillNests(b, rest);
    var at := BillTransfersAt(s).rest;
    BillFrontCancels(b, at, Join(TransfersFields(b.recentTransfers), rest));
    TransfersReencode(p, |b.recentTransfers|, at, b.networkId, b.recentTransfers, rest);
  }

  // ------------------------------------------------------------------ decoders

  /** A complete envelope: trailing bytes are refused. */
  function Whole<T>(parsed: Parsed<T>): Option<T> {
    if parsed.Parsed? && parsed.rest == [] then Some(parsed.value) else None
  }

  method ReadEnvelope(reader: Reader, magic: bytes) returns (r: Option<nat>)
    requires reader.Valid()
    modifies reader`offset
    ensures reader.Valid()
    ensures Agrees(ParseEnvelope(old(reader.Rest()), magic), r, reader.Rest())
  {
    ghost var s := reader.Rest();
    var fs :- ReadFields(reader, ENVELOPE_LAYOUT);
    FieldsExact(ENVELOPE_LAYOUT, s, fs, reader.Rest());
    return if fs[0].exact == magic && fs[1].v == VERSION then Some(fs[2].v) else None;
  }

  method ReadGenesisRef(reader: Reader, networkId: nat) returns (r: Option<GenesisRef>)
    requires reader.Valid()
    modifies reader`offset
    ensures reader.Valid()
    ensures Agrees(ParseGenesisRef(old(reader.Rest()), networkId), r, reader.Rest())
  {
    ghost var s := reader.Rest();
    var fs :- ReadFields(reader, GENESIS_REF_LAYOUT);
    FieldsExact(GENESIS_REF_LAYOUT, s, fs, reader.Rest());
    return Some(GenesisRefOf(fs, networkId));
  }

  method ReadState(reader: Reader) returns (r: Option<State>)
    requires reader.Valid()
    modifies reader`offset
    ensures reader.Valid()
    ensures Agrees(ParseState(old(reader.Rest())), r, reader.Rest())
  {
    ghost var s := reader.Rest();
    var fs :- ReadFields(reader, STATE_LAYOUT);
    FieldsExact(STATE_LAYOUT, s, fs, reader.Rest());
    return Some(StateOf(fs));
  }

  method ReadCheckpointCore(reader: Reader, networkId: nat) returns (r: Option<CheckpointCore>)
    requires reader.Valid()
    modifies reader`offset
    ensures reader.Valid()
    ensures Agrees(ParseCheckpointCore(old(reader.Rest()), networkId), r, reader.Rest())
  {
    ghost var s := reader.Rest();
    var fs :- ReadFields(reader, CHECKPOINT_CORE_LAYOUT);
    FieldsExact(CHECKPOINT_CORE_LAYOUT, s, fs, reader.Rest());
    return Some(CheckpointCoreOf(fs, networkId));
  }

  method ReadBundleRef(reader: Reader, networkId: nat) returns (r: Option<ProofBundleRef>)
    requires reader.Valid()
    modifies reader`offset
    ensures reader.Valid()
    ensures Agrees(ParseBundleRef(old(reader.Rest()), networkId), r, reader.Rest())
  {
    ghost var s := reader.Rest();
    var fs :- ReadFields(reader, BUNDLE_REF_LAYOUT);
    FieldsExact(BUNDLE_REF_LAYOUT, s, fs, reader.Rest());
    return Some(BundleRefOf(fs, networkId));
  }

  method ReadTransfer(p: Primitives, reader: Reader, networkId: nat) returns (r: Option<Transfer>)
    requires reader.Valid()
    modifies reader`offset
    ensures reader.Valid()
    ensures Agrees(ParseTransfer(p, old(reader.Rest()), networkId), r, reader.Rest())
  {
    ghost var s := reader.Rest();
    var fs :- ReadFields(reader, TRANSFER_LAYOUT);
    FieldsExact(TRANSFER_LAYOUT, s, fs, reader.Rest());
    var metadata :- p.jsonText(fs[7].raw);
    return Some(TransferOf(fs, metadata, networkId));
  }

  function PrependTransfers(ts: seq<Transfer>, parsed: Parsed<seq<Transfer>>): Parsed<seq<Transfer>> {
    match parsed
    case Rejected => Rejected
    case Parsed(us, rest) => Parsed(ts + us, rest)
  }

  lemma PrependTransfer(ts: seq<Transfer>, t: Transfer, parsed: Parsed<seq<Transfer>>)
    ensures PrependTransfers(ts, PrependTransfers([t], parsed)) == PrependTransfers(ts + [t], parsed)
  {
    if parsed.Parsed? {
      assert ts + ([t] + parsed.value) == ts + [t] + parsed.value;
    }
  }

  method ReadTransfers(p: Primitives, reader: Reader, count: nat, networkId: nat) returns (r: Option<seq<Transfer>>)
    requires reader.Valid()
    modifies reader`offset
    ensures reader.Valid()
    ensures Agrees(ParseTransfers(p, count, old(reader.Rest()), networkId), r, reader.Rest())
  {
    var ts: seq<Transfer> := [];
    ghost var s := reader.Rest();
    ghost var whole := ParseTransfers(p, count, s, networkId);
    assert whole.Parsed? ==> [] + whole.value == whole.value;
    var i := 0;
    while i < count
      invariant 0 <= i <= count && reader.Valid()
      invariant whole == PrependTransfers(ts, ParseTransfers(p, count - i, reader.Rest(), networkId))
    {
      var t :- ReadTransfer(p, reader, networkId);
      PrependTransfer(ts, t, ParseTransfers(p, count - i - 1, reader.Rest(), networkId));
      ts := ts + [t];
      i := i + 1;
    }
    assert ts + [] == ts;
    return Some(ts);
  }

  method ReadSegmentHead(reader: Reader) returns (r: Option<SegmentHead>)
    requires reader.Valid()
    modifies reader`offset
    ensures reader.Valid()
    ensures Agrees(ParseSegmentHead(old(reader.Rest())), r, reader.Rest())
  {
    ghost var s := reader.Rest();
    var fs :- ReadFields(reader, SEGMENT_HEAD_LAYOUT);
    FieldsExact(SEGMENT_HEAD_LAYOUT, s, fs, reader.Rest());
    return Some(SegmentHead(fs[0].h, fs[1].v, fs[2].ascii));
  }

  method ReadSegmentLinks(reader: Reader) returns (r: Option<SegmentLinks>)
    requires reader.Valid()
    modifies reader`offset
    ensures reader.Valid()
    ensures Agrees(ParseSegmentLinks(old(reader.Rest())), r, reader.Rest())
  {
    ghost var s := reader.Rest();
    var fs :- ReadFields(reader, SEGMENT_LINK_LAYOUT);
    FieldsExact(SEGMENT_LINK_LAYOUT, s, fs, reader.Rest());
    return Some(SegmentLinks(fs[0].v, fs[1].v, fs[2].o, fs[3].o, fs[4].h, fs[5].v));
  }

  method DecodeCheckpointCore(data: bytes) returns (r: Option<CheckpointCore>)
    ensures r == match ParseEnvelope(data, CHECKPOINT_CORE_MAGIC)
                 case Rejected => None
                 case Parsed(networkId, s) => Whole(ParseCheckpointCore(s, networkId))
  {
    var reader := new Reader(data);
    var networkId :- ReadEnvelope(reader, CHECKPOINT_CORE_MAGIC);
    var core :- ReadCheckpointCore(reader, networkId);
    var complete := reader.AtEnd();
    return if complete then Some(core) else None;
  }

  method DecodeSegment(p: Primitives, data: bytes) returns (r: Option<ArchiveSegment>)
    ensures r == Whole(ParseSegment(p, data))
  {
    var reader := new Reader(data);
    var networkId :- ReadEnvelope(reader, ARCHIVE_SEGMENT_MAGIC);
    var head :- ReadSegmentHead(reader);
    var genesisRef :- ReadGenesisRef(reader, networkId);
    var baseState :- ReadState(reader);
    var links :- ReadSegmentLinks(reader);
    var transfers :- ReadTransfers(p, reader, links.count, networkId);
    var segmentHash :- reader.ReadHash();
    var complete := reader.AtEnd();
    if !complete {
      return None;
    }
    return Some(ArchiveSegment(networkId, head.tokenId, head.value, head.displayId, genesisRef, baseState,
                               links.startSequence, links.endSequence, links.previousSegmentHash,
                               links.previousCheckpointHash, links.checkpointHash, transfers, segmentHash));
  }

  method DecodeBill(p: Primitives, data: bytes) returns (r: Option<Bill>)
    ensures r == Whole(ParseBill(p, data))
  {
    var reader := new Reader(data);
    var networkId :- ReadEnvelope(reader, BILL_MAGIC);
    var tokenId :- reader.ReadHash();
    var value :- reader.ReadUvarint();
    var genesisRef :- ReadGenesisRef(reader, networkId);
    var core :- ReadCheckpointCore(reader, networkId);
    var bundleRef :- ReadBundleRef(reader, networkId);
    var count :- reader.ReadUvarint();
    var transfers :- ReadTransfers(p, reader, count, networkId);
    var complete := reader.AtEnd();
    return if complete
      then Some(Bill(networkId, tokenId, value, genesisRef, core, bundleRef, transfers))
      else None;
  }
}
