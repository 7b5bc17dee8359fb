/** Where each field stands: the bytes of every object, part by part. */
module Layouts {
  import opened Binary
  import opened Fields
  import opened Objects
  import opened Codec
  import opened Commitments

  /** Parts in a row. */
  function Cat(parts: seq<bytes>): bytes {
    if parts == [] then [] else parts[0] + Cat(parts[1..])
  }

  lemma {:induction false} CatJoins(a: seq<bytes>, b: seq<bytes>)
    ensures Cat(a + b) == Cat(a) + Cat(b)
    decreases |a|
  {
    if a == [] {
      assert a + b == b;
    } else {
      assert (a + b)[0] == a[0] && (a + b)[1..] == a[1..] + b;
      CatJoins(a[1..], b);
    }
  }

  lemma {:induction false} FieldsAreParts(fs: seq<Field>, parts: seq<bytes>)
    requires |fs| == |parts| && forall i :: 0 <= i < |fs| ==> FieldBytes(fs[i]) == parts[i]
    ensures Join(fs, []) == Cat(parts)
    decreases |fs|
  {
    hide FieldBytes;
    if fs != [] {
      FieldsAreParts(fs[1..], parts[1..]);
    }
  }

  function GenesisRefParts(g: GenesisRef): seq<bytes> {
    [g.genesisHash, NullableHash(g.manifestHash), NullableHash(g.issuerKeyId), Uvarint(g.issueIndex),
     Uvarint(g.issuedAt)]
  }

  function StateParts(s: State): seq<bytes> {
    [Uvarint(s.sequence), BoundedBytes(s.ownerAddress), s.lastTransferHash, Uvarint(s.lastTransferTimestamp),
     Uvarint(s.lastTransferDay), Uvarint(s.transfersInLastDay), BoundedBytes(s.displayId), Uvarint(s.value)]
  }

  function CheckpointParts(c: CheckpointCore): seq<bytes> {
    [c.tokenId, c.genesisHash, Uvarint(c.sequence), BoundedBytes(c.ownerAddress), Uvarint(c.value),
     BoundedBytes(c.displayId), c.displayIdHash, c.lastTransferHash, Uvarint(c.lastTransferTimestamp),
     Uvarint(c.lastTransferDay), Uvarint(c.transfersInLastDay), NullableHash(c.previousCheckpointHash),
     c.checkpointHash]
  }

  function BundleRefParts(r: ProofBundleRef): seq<bytes> {
    [BoundedBytes(r.logId), r.signedRootHash, Uvarint(r.treeSize), Uvarint(r.algorithm), r.bundleHash]
  }

  function UnsignedParts(t: Transfer): seq<bytes> {
    [t.tokenId, Uvarint(t.sequence), t.previousHash, BoundedBytes(t.senderAddress), t.senderPublicKey,
     BoundedBytes(t.recipientAddress), Uvarint(t.timestamp), BoundedBytes(t.metadata), Uvarint(t.signatureAlgorithm)]
  }

  function TransfersParts(ts: seq<Transfer>): seq<bytes> {
    if ts == [] then [] else UnsignedParts(ts[0]) + [ts[0].signature] + TransfersParts(ts[1..])
  }

  function Head(magic: bytes, networkId: nat): seq<bytes> {
    [magic, [3], Uvarint(networkId)]
  }

  lemma {:induction false} PartsOfTransfers(ts: seq<Transfer>)
    ensures Join(TransfersFields(ts), []) == Cat(TransfersParts(ts))
    decreases |ts|
  {
    hide Join, Cat, TransferFields, UnsignedParts;
    if ts == [] {
      FieldsAreParts([], []);
    } else {
      PartsOfTransfers(ts[1..]);
      PartsOfTransfer(ts[0]);
      JoinsApart(TransferFields(ts[0]), TransfersFields(ts[1..]));
      CatJoins(UnsignedParts(ts[0]) + [ts[0].signature], TransfersParts(ts[1..]));
    }
  }

  lemma PartsOfTransfer(t: Transfer)
    ensures Join(TransferFields(t), []) == Cat(UnsignedParts(t) + [t.signature])
  {
    hide Join, Cat;
    FieldsAreParts(TransferFields(t), UnsignedParts(t) + [t.signature]);
  }

  lemma JoinsApart(fs: seq<Field>, gs: seq<Field>)
    ensures Join(fs + gs, []) == Join(fs, []) + Join(gs, [])
  {
    JoinConcat(fs, gs, []);
    JoinAppends(fs, Join(gs, []));
  }

  lemma PartsOfEnvelope(magic: bytes, networkId: nat, body: seq<Field>, parts: seq<bytes>)
    requires Join(body, []) == Cat(parts)
    ensures Envelope(magic, networkId, body) == Cat(Head(magic, networkId) + parts)
  {
    hide Join, Cat;
    var fs := EnvelopeFields(magic, networkId);
    assert Uvarint(3) == [3];
    FieldsAreParts(fs, Head(magic, networkId));
    JoinAppends(fs, Join(body, []));
    CatJoins(Head(magic, networkId), parts);
  }

  /** An archive segment: envelope, labels, genesis, base, links, transfers with their count, own hash. */
  lemma SegmentLayout(a: ArchiveSegment)
    ensures EncodeSegment(a) ==
      Cat(Head(Ascii("IND3ARCH"), a.networkId)
          + ([a.tokenId, Uvarint(a.value), BoundedBytes(a.displayId)]
             + (GenesisRefParts(a.genesisRef) + (StateParts(a.baseState)
             + ([Uvarint(a.startSequence), Uvarint(a.endSequence), NullableHash(a.previousSegmentHash),
                 NullableHash(a.previousCheckpointHash), a.checkpointHash, Uvarint(|a.transfers|)]
             + (TransfersParts(a.transfers) + [a.segmentHash]))))))
  {
    hide Join, Cat, GenesisRefFields, StateFields, TransfersFields, GenesisRefParts, StateParts, TransfersParts;
    var head := [a.tokenId, Uvarint(a.value), BoundedBytes(a.displayId)];
    var links := [Uvarint(a.startSequence), Uvarint(a.endSequence), NullableHash(a.previousSegmentHash),
                  NullableHash(a.previousCheckpointHash), a.checkpointHash, Uvarint(|a.transfers|)];
    FieldsAreParts(SegmentHeadFields(a), head);
    FieldsAreParts(SegmentLinkFields(a), links);
    FieldsAreParts([Digest(a.segmentHash)], [a.segmentHash]);
    PartsOfRef(a.genesisRef);
    PartsOfState(a.baseState);
    PartsOfTransfers(a.transfers);
    var f5, p5 := TransfersFields(a.transfers) + [Digest(a.segmentHash)], TransfersParts(a.transfers) + [a.segmentHash];
    var f4, p4 := SegmentLinkFields(a) + f5, links + p5;
    var f3, p3 := StateFields(a.baseState) + f4, StateParts(a.baseState) + p4;
    var f2, p2 := GenesisRefFields(a.genesisRef) + f3, GenesisRefParts(a.genesisRef) + p3;
    PartsJoin(TransfersFields(a.transfers), TransfersParts(a.transfers), [Digest(a.segmentHash)], [a.segmentHash]);
    PartsJoin(SegmentLinkFields(a), links, f5, p5);
    PartsJoin(StateFields(a.baseState), StateParts(a.baseState), f4, p4);
    PartsJoin(GenesisRefFields(a.genesisRef), GenesisRefParts(a.genesisRef), f3, p3);
    PartsJoin(SegmentHeadFields(a), head, f2, p2);
    PartsOfEnvelope(ARCHIVE_SEGMENT_MAGIC, a.networkId, SegmentFields(a), head + p2);
  }

  /** A bill: envelope, token and value, genesis, checkpoint, bundle reference, transfers after their count. */
  lemma BillLayout(b: Bill)
    ensures EncodeBill(b) ==
      Cat(Head(Ascii("IND3BILL"), b.networkId)
          + ([b.tokenId, Uvarint(b.value)]
             + (GenesisRefParts(b.genesisRef) + (CheckpointParts(b.checkpointCore)
             + (BundleRefParts(b.proofBundleRef)
             + ([Uvarint(|b.recentTransfers|)] + TransfersParts(b.recentTransfers)))))))
  {
    hide Join, Cat, GenesisRefFields, CheckpointCoreFields, BundleRefFields, TransfersFields, GenesisRefParts,
      CheckpointParts, BundleRefParts, TransfersParts;
    var count, n := [Number(|b.recentTransfers|)], [Uvarint(|b.recentTransfers|)];
    FieldsAreParts(BillHeadFields(b), [b.tokenId, Uvarint(b.value)]);
    FieldsAreParts(count, n);
    PartsOfRef(b.genesisRef);
    PartsOfCheckpoint(b.checkpointCore);
    PartsOfBundleRef(b.proofBundleRef);
    PartsOfTransfers(b.recentTransfers);
    var f4, p4 := count + TransfersFields(b.recentTransfers), n + TransfersParts(b.recentTransfers);
    var f3, p3 := BundleRefFields(b.proofBundleRef) + f4, BundleRefParts(b.proofBundleRef) + p4;
    var f2, p2 := CheckpointCoreFields(b.checkpointCore) + f3, CheckpointParts(b.checkpointCore) + p3;
    var f1, p1 := GenesisRefFields(b.genesisRef) + f2, GenesisRefParts(b.genesisRef) + p2;
    PartsJoin(count, n, TransfersFields(b.recentTransfers), TransfersParts(b.recentTransfers));
    PartsJoin(BundleRefFields(b.proofBundleRef), BundleRefParts(b.proofBundleRef), f4, p4);
    PartsJoin(CheckpointCoreFields(b.checkpointCore), CheckpointParts(b.checkpointCore), f3, p3);
    PartsJoin(GenesisRefFields(b.genesisRef), GenesisRefParts(b.genesisRef), f2, p2);
    PartsJoin(BillHeadFields(b), [b.tokenId, Uvarint(b.value)], f1, p1);
    PartsOfEnvelope(BILL_MAGIC, b.networkId, BillFields(b), [b.tokenId, Uvarint(b.value)] + p1);
  }

  lemma PartsJoin(fs: seq<Field>, ps: seq<bytes>, gs: seq<Field>, qs: seq<bytes>)
    requires Join(fs, []) == Cat(ps) && Join(gs, []) == Cat(qs)
    ensures Join(fs + gs, []) == Cat(ps + qs)
  {
    JoinsApart(fs, gs);
    CatJoins(ps, qs);
  }

  lemma PartsOfRef(g: GenesisRef)
    ensures Join(GenesisRefFields(g), []) == Cat(GenesisRefParts(g))
  {
    hide Join, Cat;
    FieldsAreParts(GenesisRefFields(g), GenesisRefParts(g));
  }

  lemma PartsOfState(s: State)
    ensures Join(StateFields(s), []) == Cat(StateParts(s))
  {
    hide Join, Cat;
    FieldsAreParts(StateFields(s), StateParts(s));
  }

  lemma PartsOfCheckpoint(c: CheckpointCore)
    ensures Join(CheckpointCoreFields(c), []) == Cat(CheckpointParts(c))
  {
    hide Join, Cat;
    FieldsAreParts(CheckpointCoreFields(c), CheckpointParts(c));
  }

  lemma PartsOfBundleRef(r: ProofBundleRef)
    ensures Join(BundleRefFields(r), []) == Cat(BundleRefParts(r))
  {
    hide Join, Cat;
    FieldsAreParts(BundleRefFields(r), BundleRefParts(r));
  }

  /** What is hashed and signed for a transfer: typed, and signed for one network under one algorithm. */
  lemma TransferPreimages(t: Transfer)
    ensures TransferPreimage(t) ==
      BoundedBytes(Ascii("ind.transfer.v3"))
      + BoundedBytes(Cat(Head(Ascii("IND3XFER"), t.networkId) + (UnsignedParts(t) + [t.signature])))
    ensures TransferSigningInput(t).Preimage() ==
      Ascii("IND-SIGNATURE-V3") + [0]
      + (Uvarint(t.networkId) + (BoundedBytes(Ascii("ind.transfer.v3")) + ([3] + ([1]
      + (BoundedBytes(Ascii("ind.transfer.v3"))
      + BoundedBytes(Cat(Head(Ascii("IND3XFER"), t.networkId) + UnsignedParts(t))))))))
  {
    hide Join, Cat, BoundedBytes, UnsignedParts, TransferFields, UnsignedTransferFields, Head, Envelope;
    PartsOfTransfer(t);
    PartsOfUnsigned(t);
    assert Uvarint(3) == [3] && Uvarint(1) == [1];
    PartsOfEnvelope(TRANSFER_MAGIC, t.networkId, TransferFields(t), UnsignedParts(t) + [t.signature]);
    PartsOfEnvelope(TRANSFER_MAGIC, t.networkId, UnsignedTransferFields(t), UnsignedParts(t));
  }

  lemma PartsOfUnsigned(t: Transfer)
    ensures Join(UnsignedTransferFields(t), []) == Cat(UnsignedParts(t))
  {
    hide Join, Cat;
    FieldsAreParts(UnsignedTransferFields(t), UnsignedParts(t));
  }

  /** What is hashed for a checkpoint, a segment and a conflict proof. */
  lemma ObjectPreimages(c: CheckpointCore, a: ArchiveSegment, x: ConflictProof)
    ensures CheckpointCorePreimage(c) ==
      BoundedBytes(Ascii("ind.checkpoint_core.v3"))
      + BoundedBytes(Cat(Head(Ascii("IND3CPNT"), c.networkId) + CheckpointParts(c)))
    ensures SegmentPreimage(a) == BoundedBytes(Ascii("ind.archive_segment.v3")) + BoundedBytes(EncodeSegment(a))
    ensures ConflictPreimage(x) ==
      BoundedBytes(Ascii("ind.conflict_proof.v3"))
      + BoundedBytes(Cat(Head(Ascii("IND3CFLP"), x.networkId) + ConflictParts(x)))
  {
    hide Join, Cat, BoundedBytes, CheckpointParts, CheckpointCoreFields, ConflictFields, ConflictParts, Head, Envelope,
      EncodeSegment;
    PartsOfCheckpoint(c);
    PartsOfConflict(x);
    PartsOfEnvelope(CHECKPOINT_CORE_MAGIC, c.networkId, CheckpointCoreFields(c), CheckpointParts(c));
    PartsOfEnvelope(CONFLICT_PROOF_MAGIC, x.networkId, ConflictFields(x), ConflictParts(x));
  }

  function ConflictParts(x: ConflictProof): seq<bytes> {
    [x.spent.tokenId, x.spent.previousHash, Uvarint(x.spent.sequence), BoundedBytes(x.spent.senderAddress), x.spendKey,
     x.transferHashA, x.transferHashB]
    + ((UnsignedParts(x.transferA) + [x.transferA.signature])
       + ((UnsignedParts(x.transferB) + [x.transferB.signature]) + [Uvarint(x.detectedAt), x.proofHash]))
  }

  lemma PartsOfConflict(x: ConflictProof)
    ensures Join(ConflictFields(x), []) == Cat(ConflictParts(x))
  {
    hide Join, Cat, TransferFields, UnsignedParts;
    var head := [x.spent.tokenId, x.spent.previousHash, Uvarint(x.spent.sequence), BoundedBytes(x.spent.senderAddress),
                 x.spendKey, x.transferHashA, x.transferHashB];
    var tail := [Uvarint(x.detectedAt), x.proofHash];
    var a := UnsignedParts(x.transferA) + [x.transferA.signature];
    var b := UnsignedParts(x.transferB) + [x.transferB.signature];
    FieldsAreParts(ConflictHeadFields(x), head);
    FieldsAreParts(ConflictTailFields(x), tail);
    PartsOfTransfer(x.transferA);
    PartsOfTransfer(x.transferB);
    PartsJoin(TransferFields(x.transferB), b, ConflictTailFields(x), tail);
    PartsJoin(TransferFields(x.transferA), a, TransferFields(x.transferB) + ConflictTailFields(x), b + tail);
    PartsJoin(ConflictHeadFields(x), head, TransferFields(x.transferA)
              + (TransferFields(x.transferB) + ConflictTailFields(x)), a + (b + tail));
  }
}
