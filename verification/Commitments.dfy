/**
  Self-hashes and signed bytes. A hash is SHA3 of a domain and a canonical encoding; what it
  commits to follows from the encoding alone, up to an explicit SHA3 collision.
 */
module Commitments {
  import opened Wrappers
  import opened Binary
  import opened DisplayId
  import opened Fields
  import opened Objects
  import opened Codec

  /** Two different messages with one digest. */
  predicate Collides(p: Primitives, x: bytes, y: bytes) {
    x != y && p.sha3(x) == p.sha3(y)
  }

  // --------------------------------------------------------- the standard suite

  function TransferPreimage(t: Transfer): bytes {
    ObjectPreimage(TRANSFER_TYPE, Envelope(TRANSFER_MAGIC, t.networkId, TransferFields(t)))
  }

  function TransferSigningInput(t: Transfer): SigningInput {
    SigningInput(t.networkId, TRANSFER_TYPE, VERSION, SIGNATURE_ALGORITHM_ID, TRANSFER_TYPE,
                 Envelope(TRANSFER_MAGIC, t.networkId, UnsignedTransferFields(t)))
  }

  function CheckpointCorePreimage(core: CheckpointCore): bytes {
    ObjectPreimage(CHECKPOINT_CORE_TYPE, Envelope(CHECKPOINT_CORE_MAGIC, core.networkId, CheckpointCoreFields(core)))
  }

  function SegmentPreimage(a: ArchiveSegment): bytes {
    ObjectPreimage(ARCHIVE_SEGMENT_TYPE, EncodeSegment(a))
  }

  predicate StandardAddress(p: Primitives, address: bytes) {
    |address| == 33 && IsAscii(address) && p.addressChecks(address)
  }

  predicate StandardMetadata(p: Primitives, metadata: bytes) {
    && p.jsonText(metadata) == Some(metadata)
    && p.jsonIsObject(metadata)
    && |metadata| <= MAX_TRANSFER_METADATA_BYTES
  }

  /** The content hash of a segment. Hashed payloads are limited to 64 KiB, so a long segment has none. */
  function StandardSegmentHash(p: Primitives, a: ArchiveSegment): Option<Hash> {
    if SegmentFits(p, a) && |EncodeSegment(a)| <= MAX_BOUNDED_BYTES then Some(p.sha3(SegmentPreimage(a))) else None
  }

  function ConflictPreimage(proof: ConflictProof): bytes {
    ObjectPreimage(CONFLICT_PROOF_TYPE, Envelope(CONFLICT_PROOF_MAGIC, proof.networkId, ConflictFields(proof)))
  }

  /** Both transfers are of the proof's own network, and every number is in range. */
  predicate ConflictFits(proof: ConflictProof) {
    && proof.transferA.networkId == proof.networkId == proof.transferB.networkId <= MAX_UVARINT
    && Fit(ConflictFields(proof), CONFLICT_LAYOUT)
  }

  /** The operations the code uses: SHA3 and Ed25519 over canonical encodings. */
  function Standard(p: Primitives): Suite {
    Suite(
      transferHash := t => p.sha3(TransferPreimage(t)),
      transferSigned := (t: Transfer) => p.verify(t.senderPublicKey, t.signature, TransferSigningInput(t).Preimage()),
      addressOf := p.addressOf,
      validAddress := address => StandardAddress(p, address),
      validMetadata := metadata => StandardMetadata(p, metadata),
      displayIdParts := displayId => ParseDisplayId(displayId),
      displayIdHash := displayId => p.sha3(displayId),
      checkpointHash := core => p.sha3(CheckpointCorePreimage(core)),
      segmentHash := a => StandardSegmentHash(p, a),
      spendKey := p.spendDigest,
      conflictHash := proof => if ConflictFits(proof) then Some(p.sha3(ConflictPreimage(proof))) else None,
      conflictKey := p.conflictDigest,
      genesisTrusted := p.genesisTrusted)
  }

  lemma EncodableFits(p: Primitives, ctx: Context, t: Transfer)
    requires ctx.suite == Standard(p) && Encodable(ctx, t)
    ensures TransferFits(t) && p.jsonText(t.metadata) == Some(t.metadata)
  {
    forall i | 0 <= i < |TransferFields(t)|
      ensures FieldFits(TransferFields(t)[i], TRANSFER_LAYOUT[i])
    {
    }
  }

  // ----------------------------------------------------------------- encodings

  lemma JoinInjective(ks: seq<Kind>, fs: seq<Field>, gs: seq<Field>, r: bytes, t: bytes)
    requires Fit(fs, ks) && Fit(gs, ks) && Join(fs, r) == Join(gs, t)
    ensures fs == gs && r == t
  {
    FieldsExact(ks, Join(fs, r), fs, r);
    FieldsExact(ks, Join(fs, r), gs, t);
  }

  lemma EnvelopeInjective(magic: bytes, m: nat, n: nat, fs: seq<Field>, gs: seq<Field>)
    requires |magic| == 8 && m <= MAX_UVARINT && n <= MAX_UVARINT
    requires Envelope(magic, m, fs) == Envelope(magic, n, gs)
    ensures m == n && Join(fs, []) == Join(gs, [])
  {
    EnvelopeExact(Envelope(magic, m, fs), magic, m, Join(fs, []));
    EnvelopeExact(Envelope(magic, m, fs), magic, n, Join(gs, []));
  }

  lemma EnvelopeWeighs(magic: bytes, networkId: nat, fs: seq<Field>, ks: seq<Kind>)
    requires |magic| == 8 && networkId <= MAX_UVARINT && Fit(fs, ks)
    ensures |Envelope(magic, networkId, fs)| <= 26 + TotalWeight(ks)
  {
    JoinWeighs(fs, ks, []);
    JoinWeighs(EnvelopeFields(magic, networkId), ENVELOPE_LAYOUT, Join(fs, []));
    assert ENVELOPE_LAYOUT[1..][1..][1..] == [];
    assert TotalWeight(ENVELOPE_LAYOUT) == 26;
  }

  lemma TransferPreimageInjective(a: Transfer, b: Transfer)
    requires TransferFits(a) && TransferFits(b) && TransferPreimage(a) == TransferPreimage(b)
    ensures a == b
  {
    TransferEncodingIsSmall(a);
    TransferEncodingIsSmall(b);
    ObjectPreimageInjective(TRANSFER_TYPE, Envelope(TRANSFER_MAGIC, a.networkId, TransferFields(a)),
                            TRANSFER_TYPE, Envelope(TRANSFER_MAGIC, b.networkId, TransferFields(b)));
    EnvelopeInjective(TRANSFER_MAGIC, a.networkId, b.networkId, TransferFields(a), TransferFields(b));
    JoinInjective(TRANSFER_LAYOUT, TransferFields(a), TransferFields(b), [], []);
    SameTransferFields(a, b);
  }

  lemma SameTransferFields(a: Transfer, b: Transfer)
    requires TransferFields(a) == TransferFields(b) && a.networkId == b.networkId
    ensures a == b
  {
    var fs := TransferFields(a);
    assert fs[0] == Digest(a.tokenId) && fs[1] == Number(a.sequence) && fs[2] == Digest(a.previousHash);
    assert fs[3] == Text(a.senderAddress) && fs[4] == Digest(a.senderPublicKey) && fs[5] == Text(a.recipientAddress);
    assert fs[6] == Number(a.timestamp) && fs[7] == Blob(a.metadata) && fs[8] == Number(a.signatureAlgorithm);
    assert fs[9] == Fixed(a.signature);
  }

  lemma {:induction false} LightLayout(ks: seq<Kind>)
    requires forall i :: 0 <= i < |ks| ==> Weight(ks[i]) <= 512
    ensures TotalWeight(ks) <= 512 * |ks|
    decreases |ks|
  {
    if ks != [] {
      LightLayout(ks[1..]);
    }
  }

  /** No transfer comes near the 64 KiB limit on hashed objects, so its hash never fails. */
  lemma TransferEncodingIsSmall(t: Transfer)
    requires TransferFits(t)
    ensures |Envelope(TRANSFER_MAGIC, t.networkId, TransferFields(t))| <= MAX_BOUNDED_BYTES
  {
    EnvelopeWeighs(TRANSFER_MAGIC, t.networkId, TransferFields(t), TRANSFER_LAYOUT);
    LightLayout(TRANSFER_LAYOUT);
  }

  /** Equal transfer hashes mean equal transfers, or a collision between two named preimages. */
  lemma TransferHashCommits(p: Primitives, a: Transfer, b: Transfer)
    requires TransferFits(a) && TransferFits(b)
    requires Standard(p).transferHash(a) == Standard(p).transferHash(b)
    ensures a == b || Collides(p, TransferPreimage(a), TransferPreimage(b))
  {
    if TransferPreimage(a) == TransferPreimage(b) {
      TransferPreimageInjective(a, b);
    }
  }

  /** The signing preimage commits to everything but the signature itself. */
  lemma SigningCommits(a: Transfer, b: Transfer)
    requires TransferFits(a) && TransferFits(b)
    requires TransferSigningInput(a).Preimage() == TransferSigningInput(b).Preimage()
    ensures a.(signature := b.signature) == b
  {
    UnsignedFits(a);
    UnsignedFits(b);
    SigningPreimageInjective(TransferSigningInput(a), TransferSigningInput(b));
    EnvelopeInjective(TRANSFER_MAGIC, a.networkId, b.networkId, UnsignedTransferFields(a), UnsignedTransferFields(b));
    JoinInjective(UNSIGNED_TRANSFER_LAYOUT, UnsignedTransferFields(a), UnsignedTransferFields(b), [], []);
    SameTransferFields(a.(signature := b.signature), b);
  }

  lemma UnsignedFits(t: Transfer)
    requires TransferFits(t)
    ensures Fit(UnsignedTransferFields(t), UNSIGNED_TRANSFER_LAYOUT) && TransferSigningInput(t).Encodable()
  {
    forall i | 0 <= i < 9
      ensures FieldFits(UnsignedTransferFields(t)[i], UNSIGNED_TRANSFER_LAYOUT[i])
    {
      assert FieldFits(TransferFields(t)[i], TRANSFER_LAYOUT[i]);
    }
    EnvelopeWeighs(TRANSFER_MAGIC, t.networkId, UnsignedTransferFields(t), UNSIGNED_TRANSFER_LAYOUT);
    LightLayout(UNSIGNED_TRANSFER_LAYOUT);
  }

  // --------------------------------------------------------------- checkpoints

  predicate CoreFits(core: CheckpointCore) {
    core.networkId <= MAX_UVARINT && Fit(CheckpointCoreFields(core), CHECKPOINT_CORE_LAYOUT)
  }

  /** A display id that parses fits its 64-byte field: that bound is never what rejects. */
  lemma DisplayIdIsShort(displayId: bytes, value: nat, serial: nat)
    requires ParseDisplayId(displayId) == Some((value, serial))
    ensures |displayId| <= 64 && IsAscii(displayId) && 1 <= value <= 100_000
  {
    DisplayIdExact(displayId, value, serial);
    CanonicalIsShort(value, serial);
  }

  lemma EncodableCoreFits(p: Primitives, core: CheckpointCore)
    requires CoreEncodable(Standard(p), core)
    ensures CoreFits(core)
  {
    DisplayIdIsShort(core.displayId, core.value, ParseDisplayId(core.displayId).value.1);
    forall i | 0 <= i < |CheckpointCoreFields(core)|
      ensures FieldFits(CheckpointCoreFields(core)[i], CHECKPOINT_CORE_LAYOUT[i])
    {
    }
  }

  lemma CoreEncodingIsSmall(core: CheckpointCore)
    requires CoreFits(core)
    ensures |Envelope(CHECKPOINT_CORE_MAGIC, core.networkId, CheckpointCoreFields(core))| <= MAX_BOUNDED_BYTES
  {
    EnvelopeWeighs(CHECKPOINT_CORE_MAGIC, core.networkId, CheckpointCoreFields(core), CHECKPOINT_CORE_LAYOUT);
    LightLayout(CHECKPOINT_CORE_LAYOUT);
  }

  lemma ZeroedCoreFits(core: CheckpointCore)
    requires CoreFits(core)
    ensures CoreFits(Zeroed(core))
  {
    var zeroed := CheckpointCoreFields(Zeroed(core));
    forall i | 0 <= i < |zeroed|
      ensures FieldFits(zeroed[i], CHECKPOINT_CORE_LAYOUT[i])
    {
      assert FieldFits(CheckpointCoreFields(core)[i], CHECKPOINT_CORE_LAYOUT[i]);
    }
  }

  lemma SameCoreFields(a: CheckpointCore, b: CheckpointCore)
    requires CheckpointCoreFields(a) == CheckpointCoreFields(b) && a.networkId == b.networkId
    ensures a == b
  {
    var fs := CheckpointCoreFields(a);
    assert fs[0] == Digest(a.tokenId) && fs[1] == Digest(a.genesisHash) && fs[2] == Number(a.sequence);
    assert fs[3] == Text(a.ownerAddress) && fs[4] == Number(a.value) && fs[5] == Text(a.displayId);
    assert fs[6] == Digest(a.displayIdHash) && fs[7] == Digest(a.lastTransferHash);
    assert fs[8] == Number(a.lastTransferTimestamp) && fs[9] == Number(a.lastTransferDay);
    assert fs[10] == Number(a.transfersInLastDay) && fs[11] == MaybeDigest(a.previousCheckpointHash);
    assert fs[12] == Digest(a.checkpointHash);
  }

  /** Equal checkpoint hashes mean cores equal in every other field, or a collision. */
  lemma CheckpointHashCommits(p: Primitives, a: CheckpointCore, b: CheckpointCore)
    requires CoreFits(a) && CoreFits(b)
    requires CheckpointCoreHash(Standard(p), a) == CheckpointCoreHash(Standard(p), b)
    ensures Zeroed(a) == Zeroed(b)
         || Collides(p, CheckpointCorePreimage(Zeroed(a)), CheckpointCorePreimage(Zeroed(b)))
  {
    var za, zb := Zeroed(a), Zeroed(b);
    if CheckpointCorePreimage(za) == CheckpointCorePreimage(zb) {
      ZeroedCoreFits(a);
      ZeroedCoreFits(b);
      CoreEncodingIsSmall(za);
      CoreEncodingIsSmall(zb);
      ObjectPreimageInjective(
        CHECKPOINT_CORE_TYPE, Envelope(CHECKPOINT_CORE_MAGIC, a.networkId, CheckpointCoreFields(za)),
        CHECKPOINT_CORE_TYPE, Envelope(CHECKPOINT_CORE_MAGIC, b.networkId, CheckpointCoreFields(zb)));
      EnvelopeInjective(CHECKPOINT_CORE_MAGIC, a.networkId, b.networkId, CheckpointCoreFields(za),
                        CheckpointCoreFields(zb));
      JoinInjective(CHECKPOINT_CORE_LAYOUT, CheckpointCoreFields(za), CheckpointCoreFields(zb), [], []);
      SameCoreFields(za, zb);
    }
  }

  /** Any finite set of encodable cores is told apart by its hashes, short of a collision inside it. */
  lemma CoresDistinguished(p: Primitives, cores: set<CheckpointCore>)
    requires forall x :: x in cores ==> CoreFits(x)
    ensures Distinguishes(Standard(p), cores)
         || exists x, y :: x in cores && y in cores
                        && Collides(p, CheckpointCorePreimage(Zeroed(x)), CheckpointCorePreimage(Zeroed(y)))
  {
    if !Distinguishes(Standard(p), cores) {
      var x, y :| x in cores && y in cores && Zeroed(x) != Zeroed(y)
                  && CheckpointCoreHash(Standard(p), x) == CheckpointCoreHash(Standard(p), y);
      CheckpointHashCommits(p, x, y);
    }
  }

  /** Equal display-id hashes mean equal display ids, or a collision. */
  lemma DisplayIdHashCommits(p: Primitives, a: bytes, b: bytes)
    requires Standard(p).displayIdHash(a) == Standard(p).displayIdHash(b)
    ensures a == b || Collides(p, a, b)
  {
    hide TransferPreimage, TransferSigningInput, ParseDisplayId, StandardAddress, StandardMetadata,
      CheckpointCorePreimage, StandardSegmentHash, ConflictPreimage;
  }

  // ------------------------------------------------------------------ segments

  function Unhashed(a: ArchiveSegment): ArchiveSegment {
    a.(segmentHash := ZERO_HASH)
  }

  /** Equal segment hashes mean segments equal in every other field, or a collision. */
  lemma SegmentHashCommits(p: Primitives, a: ArchiveSegment, b: ArchiveSegment)
    requires SegmentHash(Standard(p), a) == SegmentHash(Standard(p), b) != None
    ensures Unhashed(a) == Unhashed(b) || Collides(p, SegmentPreimage(Unhashed(a)), SegmentPreimage(Unhashed(b)))
  {
    var ua, ub := Unhashed(a), Unhashed(b);
    if SegmentPreimage(ua) == SegmentPreimage(ub) {
      ObjectPreimageInjective(ARCHIVE_SEGMENT_TYPE, EncodeSegment(ua), ARCHIVE_SEGMENT_TYPE, EncodeSegment(ub));
      SegmentReadsBack(p, ua, []);
      SegmentReadsBack(p, ub, []);
      assert EncodeSegment(ua) + [] == EncodeSegment(ua);
    }
  }

  // ----------------------------------------------------------- conflict proofs

  /** Equal proof hashes mean proofs equal in every field, or a collision. */
  lemma ConflictHashCommits(p: Primitives, a: ConflictProof, b: ConflictProof)
    requires Standard(p).conflictHash(a) == Standard(p).conflictHash(b) != None
    ensures a == b || Collides(p, ConflictPreimage(a), ConflictPreimage(b))
  {
    if ConflictPreimage(a) == ConflictPreimage(b) {
      ConflictEncodingIsSmall(a);
      ConflictEncodingIsSmall(b);
      ObjectPreimageInjective(CONFLICT_PROOF_TYPE, Envelope(CONFLICT_PROOF_MAGIC, a.networkId, ConflictFields(a)),
                              CONFLICT_PROOF_TYPE, Envelope(CONFLICT_PROOF_MAGIC, b.networkId, ConflictFields(b)));
      EnvelopeInjective(CONFLICT_PROOF_MAGIC, a.networkId, b.networkId, ConflictFields(a), ConflictFields(b));
      JoinInjective(CONFLICT_LAYOUT, ConflictFields(a), ConflictFields(b), [], []);
      SameConflictFields(a, b);
    }
  }

  lemma ConflictEncodingIsSmall(proof: ConflictProof)
    requires ConflictFits(proof)
    ensures |Envelope(CONFLICT_PROOF_MAGIC, proof.networkId, ConflictFields(proof))| <= MAX_BOUNDED_BYTES
  {
    hide TotalWeight, ConflictFields, Envelope;
    EnvelopeWeighs(CONFLICT_PROOF_MAGIC, proof.networkId, ConflictFields(proof), CONFLICT_LAYOUT);
    TotalWeightSplits(CONFLICT_HEAD_LAYOUT, TRANSFER_LAYOUT + (TRANSFER_LAYOUT + CONFLICT_TAIL_LAYOUT));
    TotalWeightSplits(TRANSFER_LAYOUT, TRANSFER_LAYOUT + CONFLICT_TAIL_LAYOUT);
    TotalWeightSplits(TRANSFER_LAYOUT, CONFLICT_TAIL_LAYOUT);
    LightLayout(CONFLICT_HEAD_LAYOUT);
    LightLayout(TRANSFER_LAYOUT);
    LightLayout(CONFLICT_TAIL_LAYOUT);
  }

  lemma SameConflictFields(a: ConflictProof, b: ConflictProof)
    requires ConflictFields(a) == ConflictFields(b) && a.networkId == b.networkId
    requires a.transferA.networkId == b.transferA.networkId && a.transferB.networkId == b.transferB.networkId
    ensures a == b
  {
    ConcatCancels(ConflictHeadFields(a),
                  TransferFields(a.transferA) + (TransferFields(a.transferB) + ConflictTailFields(a)),
                  ConflictHeadFields(b),
                  TransferFields(b.transferA) + (TransferFields(b.transferB) + ConflictTailFields(b)));
    ConcatCancels(TransferFields(a.transferA), TransferFields(a.transferB) + ConflictTailFields(a),
                  TransferFields(b.transferA), TransferFields(b.transferB) + ConflictTailFields(b));
    ConcatCancels(TransferFields(a.transferB), ConflictTailFields(a), TransferFields(b.transferB),
                  ConflictTailFields(b));
    SameTransferFields(a.transferA, b.transferA);
    SameTransferFields(a.transferB, b.transferB);
    SameConflictEnds(a, b);
  }

  lemma ConcatCancels<T>(a: seq<T>, b: seq<T>, c: seq<T>, d: seq<T>)
    requires a + b == c + d && |a| == |c|
    ensures a == c && b == d
  {
    assert a == (a + b)[..|a|] && c == (c + d)[..|a|];
    assert b == (a + b)[|a|..] && d == (c + d)[|a|..];
  }

  lemma SameConflictEnds(a: ConflictProof, b: ConflictProof)
    requires ConflictHeadFields(a) == ConflictHeadFields(b) && ConflictTailFields(a) == ConflictTailFields(b)
    ensures a.spent == b.spent && a.spendKey == b.spendKey && a.transferHashA == b.transferHashA
         && a.transferHashB == b.transferHashB && a.detectedAt == b.detectedAt && a.proofHash == b.proofHash
  {
    var fs, gs := ConflictHeadFields(a), ConflictTailFields(a);
    assert fs[0] == Digest(a.spent.tokenId) && fs[1] == Digest(a.spent.previousHash);
    assert fs[2] == Number(a.spent.sequence);
    assert fs[3] == Text(a.spent.senderAddress) && fs[4] == Digest(a.spendKey);
    assert fs[5] == Digest(a.transferHashA) && fs[6] == Digest(a.transferHashB);
    assert gs[0] == Number(a.detectedAt) && gs[1] == Digest(a.proofHash);
  }

  /** Hashes of different object types never share a preimage. */
  lemma DomainsSeparate(p: bytes, q: bytes, d: bytes, e: bytes)
    requires d != e
    requires d in {TRANSFER_TYPE, CHECKPOINT_CORE_TYPE, ARCHIVE_SEGMENT_TYPE, CONFLICT_PROOF_TYPE}
    requires e in {TRANSFER_TYPE, CHECKPOINT_CORE_TYPE, ARCHIVE_SEGMENT_TYPE, CONFLICT_PROOF_TYPE}
    requires |p| <= MAX_BOUNDED_BYTES && |q| <= MAX_BOUNDED_BYTES
    ensures ObjectPreimage(d, p) != ObjectPreimage(e, q)
  {
    if ObjectPreimage(d, p) == ObjectPreimage(e, q) {
      ObjectPreimageInjective(d, p, e, q);
    }
  }
}
