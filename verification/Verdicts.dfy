/** What each verdict on bills, orders, conflicts and manifests means, declared in plain terms. */
module Verdicts {
  import opened Wrappers
  import opened Binary
  import opened Objects
  import opened DisplayId
  import opened Codec
  import opened Commitments
  import opened Replay
  import opened Segments
  import opened Bundles
  import opened Bills
  import opened Conflicts
  import opened Meaning

  /** A bill's labels agree with each other and with its checkpoint. */
  ghost predicate IsLabelled(w: Terms, bill: Bill) {
    var core := bill.checkpointCore;
    && bill.networkId == w.networkId && IsCheckpoint(w, core) && bill.value == core.value
    && FitsRef(w.p, w.networkId, bill.genesisRef, core.displayId, bill.value)
    && bill.tokenId == core.tokenId && bill.genesisRef.genesisHash == core.genesisHash
  }

  lemma CheckBillExact(p: Primitives, ctx: Context, bill: Bill)
    requires ctx.suite == Standard(p)
    ensures CheckBill(ctx, bill).Ok? && bill.tokenId == bill.checkpointCore.tokenId
            && bill.genesisRef.genesisHash == bill.checkpointCore.genesisHash
       <==> IsLabelled(Here(p, ctx), bill)
  {
    CheckpointExact(p, ctx, bill.checkpointCore);
    RefExact(p, ctx, bill.genesisRef, bill.checkpointCore.displayId, bill.value);
    PositiveValue(bill.checkpointCore.displayId, bill.value, bill.genesisRef.issueIndex);
    hide Standard, ValidCheckpointCore, IsCheckpoint, ValidGenesisRef, IssueIndexMatches, FitsRef;
  }

  /** The bundle is the one the bill refers to, and ends a path of proven checkpoints in the bill's own. */
  ghost predicate IsAnchoredBy(ctx: Context, e: Evidence, bill: Bill, b: ProofBundle) {
    var ref := bill.proofBundleRef;
    && BundleHash(e.log, b) == Some(b.bundleHash) && b.logId == b.signedRoot.logId
    && ref == ProofBundleRef(ctx.networkId, b.logId, e.log.rootId(b.signedRoot), b.signedRoot.treeSize, 1, b.bundleHash)
    && b.checkpointHash == bill.checkpointCore.checkpointHash && SourceCore(ctx, e, b.source) == Ok(bill.checkpointCore)
    && ProvenPath(ctx, e, BundlePath(e, b, {})) && NamesBelow(BundlePath(e, b, {}))
  }

  /** An anchor is good exactly if the bill is labelled as it should be and the chosen bundle anchors it. */
  lemma AnchorExact(p: Primitives, ctx: Context, e: Evidence, bill: Bill, given: Option<ProofBundle>)
    requires ctx.suite == Standard(p)
    ensures CheckAnchor(ctx, e, bill, given).Ok? <==>
      && IsLabelled(Here(p, ctx), bill)
      && ChosenBundle(e, bill, given).Some? && IsAnchoredBy(ctx, e, bill, ChosenBundle(e, bill, given).value)
  {
    CheckBillExact(p, ctx, bill);
    if IsLabelled(Here(p, ctx), bill) {
      LabelledNetwork(Here(p, ctx), bill);
    }
    if ChosenBundle(e, bill, given).Some? {
      var b := ChosenBundle(e, bill, given).value;
      ReferenceIsExact(ctx, e.log, bill.proofBundleRef, b);
      BundleAcceptedExactly(ctx, e, b, Some(bill.checkpointCore.checkpointHash), {});
      if VerifyBundle(ctx, e, b, Some(bill.checkpointCore.checkpointHash), {}).Ok? {
        BundleFacts(ctx, e, b, Some(bill.checkpointCore.checkpointHash), {});
        ProvenNetwork(ctx, e, b);
      }
    }
    hide CheckBill, IsLabelled, VerifyBundle, CheckBundleRef, ChosenBundle, ProvenPath, NamesBelow, BundlePath,
      SourceCore, Proven, Standard;
  }

  lemma LabelledNetwork(w: Terms, bill: Bill)
    requires IsLabelled(w, bill)
    ensures bill.checkpointCore.networkId == w.networkId
  {
  }

  lemma ProvenNetwork(ctx: Context, e: Evidence, b: ProofBundle)
    requires Proven(ctx, e, b)
    ensures SourceCore(ctx, e, b.source).Ok? && SourceCore(ctx, e, b.source).value.networkId == ctx.networkId
  {
    hide CheckBody, CheckHeader, VerifySegment, CheckSpendProof;
    SourceSelfHashed(ctx, e, b.source);
    BodyCheckpoint(ctx, SourceSegment(e, b.source).value);
  }

  /** Verifying a bill accepts exactly the anchored bills whose recent transfers continue their checkpoint,
      and returns the state where those end. */
  lemma BillExact(p: Primitives, ctx: Context, e: Evidence, bill: Bill, given: Option<ProofBundle>)
    requires ctx.suite == Standard(p)
    ensures var verdict := VerifyBillState(ctx, e, bill, given);
      && (verdict.Ok? <==>
            && IsLabelled(Here(p, ctx), bill)
            && ChosenBundle(e, bill, given).Some? && IsAnchoredBy(ctx, e, bill, ChosenBundle(e, bill, given).value)
            && IsHistory(Here(p, ctx), bill.tokenId, bill.checkpointCore.Tip(), bill.recentTransfers))
      && (verdict.Ok? ==> verdict == Ok(EndOf(p, bill.checkpointCore.Tip(), bill.recentTransfers)))
  {
    AnchorExact(p, ctx, e, bill, given);
    ReplayExact(p, Verifier(ctx, bill.tokenId), bill.checkpointCore.Tip(), bill.recentTransfers);
    if IsLabelled(Here(p, ctx), bill) {
      LabelledBase(Here(p, ctx), bill);
    }
    hide CheckAnchor, IsLabelled, IsAnchoredBy, ChosenBundle, IsHistory, EndOf, Replayer.Replay, Spells, IsAddress,
      Standard;
  }

  lemma LabelledBase(w: Terms, bill: Bill)
    requires IsLabelled(w, bill)
    ensures var tip := bill.checkpointCore.Tip();
      IsAddress(w.p, tip.ownerAddress) && exists serial: nat :: Spells(tip.displayId, tip.value, serial)
  {
    hide Spells, IsAddress;
  }

  /** The cached path accepts exactly the labelled bills whose recent transfers continue their checkpoint,
      signatures aside. */
  lemma CachedExact(p: Primitives, ctx: Context, bill: Bill)
    requires ctx.suite == Standard(p)
    ensures var verdict := CachedBillState(ctx, bill);
      && (verdict.Ok? <==>
            && IsLabelled(Here(p, ctx), bill)
            && IsHistory(Here(p, ctx).(signed := false), bill.tokenId, bill.checkpointCore.Tip(), bill.recentTransfers))
      && (verdict.Ok? ==> verdict == Ok(EndOf(p, bill.checkpointCore.Tip(), bill.recentTransfers)))
  {
    CheckBillExact(p, ctx, bill);
    ReplayExact(p, Replayer(ctx, bill.tokenId, false), bill.checkpointCore.Tip(), bill.recentTransfers);
    if IsLabelled(Here(p, ctx), bill) {
      LabelledBase(Here(p, ctx), bill);
    }
    hide CheckBill, IsLabelled, IsHistory, EndOf, Replayer.Replay, Spells, IsAddress, Standard;
  }

  /** The transfer an order asks for, before it is signed. */
  function Ordered(p: Primitives, networkId: nat, tokenId: Hash, s: State, o: Order): Transfer {
    Transfer(networkId, 1, tokenId, s.sequence + 1, s.lastTransferHash, p.addressOf(o.publicKey), o.publicKey,
             o.recipient, if o.timestamp > s.lastTransferTimestamp then o.timestamp else s.lastTransferTimestamp + 1,
             o.metadata, [])
  }

  /** An order is carried out exactly if its holder owns the valid state and the transfer it asks for is well
      formed, dated not too far ahead, and signed; the daily limit is not looked at yet. */
  lemma OrderExact(p: Primitives, ctx: Context, tokenId: Hash, s: State, o: Order, verify: bool)
    requires ctx.suite == Standard(p)
    ensures var made := CreateTransferFromState(ctx, tokenId, s, o, verify);
      var draft := Ordered(p, ctx.networkId, tokenId, s, o);
      var t := draft.(signature := o.sign(draft));
      && (made.Ok? <==>
            && IsAddress(p, s.ownerAddress) && (exists serial: nat :: Spells(s.displayId, s.value, serial))
            && p.addressOf(o.publicKey) == s.ownerAddress && IsSigned(Here(p, ctx).(signed := verify), t))
      && (made.Ok? ==> made.value == t)
  {
    var draft := Ordered(p, ctx.networkId, tokenId, s, o);
    var t := draft.(signature := o.sign(draft));
    AddressExact(p, s.ownerAddress);
    DisplayIdSpells(p, s.displayId, s.value);
    SignedExact(p, Replayer(ctx, tokenId, verify), t);
    SameShape(ctx, draft, t);
    SameAddressOf(p);
    DraftOrdered(p, ctx, tokenId, s, o);
    hide Standard, IsSigned, Spells, IsAddress, DisplayIdHasValue, DraftTransfer, Ordered;
  }

  lemma DraftOrdered(p: Primitives, ctx: Context, tokenId: Hash, s: State, o: Order)
    requires ctx.suite == Standard(p)
    ensures DraftTransfer(ctx, tokenId, s, o) == Ordered(p, ctx.networkId, tokenId, s, o)
  {
    SameAddressOf(p);
    hide Standard;
  }

  /** The signature does not enter the shape, nor the range. */
  lemma SameShape(ctx: Context, draft: Transfer, t: Transfer)
    requires t == draft.(signature := t.signature)
    ensures ValidShape(ctx, t) == ValidShape(ctx, draft) && InRange(t) == InRange(draft)
  {
  }

  // --------------------------------------------------------------------- conflicts

  predicate SpendsState(t: Transfer, tokenId: Hash, previousHash: Hash, sequence: nat, sender: bytes) {
    t.tokenId == tokenId && t.previousHash == previousHash && t.sequence == sequence && t.senderAddress == sender
  }

  /** Both transfers of a proof spend the state it names, under its key. */
  predicate ClaimsOneSpend(p: Primitives, proof: ConflictProof) {
    var s := proof.spent;
    && SpendsState(proof.transferA, s.tokenId, s.previousHash, s.sequence, s.senderAddress)
    && SpendsState(proof.transferB, s.tokenId, s.previousHash, s.sequence, s.senderAddress)
    && proof.spendKey == p.spendDigest(s)
  }

  /** A conflict proof is accepted exactly if it shows two signed transfers of one state, listed in the order
      of their hashes, under its own hash. */
  lemma ProofExact(p: Primitives, ctx: Context, proof: ConflictProof)
    requires ctx.suite == Standard(p)
    ensures var hashA, hashB := p.sha3(TransferPreimage(proof.transferA)), p.sha3(TransferPreimage(proof.transferB));
      VerifyProof(ctx, proof).Ok? <==>
        && proof.networkId == ctx.networkId
        && IsSigned(Here(p, ctx), proof.transferA) && IsSigned(Here(p, ctx), proof.transferB)
        && ClaimsOneSpend(p, proof) && proof.transferHashA == hashA && proof.transferHashB == hashB
        && Before(hashA, hashB) && proof.detectedAt <= MAX_UVARINT
        && proof.proofHash == p.sha3(ConflictPreimage(proof.(proofHash := ZERO_HASH)))
  {
    var a, b := proof.transferA, proof.transferB;
    var bare := proof.(proofHash := ZERO_HASH);
    ProofAcceptedExactly(ctx, proof);
    SignedExact(p, Verifier(ctx, ZERO_HASH), a);
    SignedExact(p, Verifier(ctx, ZERO_HASH), b);
    TransferHashIs(p, a);
    TransferHashIs(p, b);
    ConflictHashes(p, proof);
    BeforeIsTotal(p.sha3(TransferPreimage(a)), p.sha3(TransferPreimage(b)));
    if Encodable(ctx, a) && Encodable(ctx, b) {
      EncodableFits(p, ctx, a);
      EncodableFits(p, ctx, b);
      OwnNetwork(ctx, a);
      OwnNetwork(ctx, b);
      if proof.networkId == ctx.networkId && proof.spent == a.Spends() {
        ConflictFitsIff(bare);
      }
    }
    hide Standard, IsSigned, Encodable, ValidSignature, TransferPreimage, ConflictPreimage, ConflictFits, TransferFits,
      Before, VerifyProof, Here;
    assert ProofHash(ctx.suite, proof) == ctx.suite.conflictHash(bare);
  }

  /** The cheap filter passes exactly the proofs so shaped, with no key or signature looked at, on whatever
      network they name; and what it passes has the key of its conflict. */
  lemma CheapExact(p: Primitives, ctx: Context, proof: ConflictProof)
    requires ctx.suite == Standard(p)
    ensures var w := Terms(p, proof.networkId, ctx.now, false);
      var hashA, hashB := p.sha3(TransferPreimage(proof.transferA)), p.sha3(TransferPreimage(proof.transferB));
      CheapCheck(ctx, proof).Ok? <==>
        && IsShaped(w, proof.transferA) && IsShaped(w, proof.transferB) && ClaimsOneSpend(p, proof)
        && Before(proof.transferHashA, proof.transferHashB)
        && multiset{proof.transferHashA, proof.transferHashB} == multiset{hashA, hashB}
    ensures CheapCheck(ctx, proof).Ok? ==> CheapCheck(ctx, proof) == Ok(ConflictKey(ctx.suite, proof))
  {
    var a, b := proof.transferA, proof.transferB;
    var own := ctx.(networkId := proof.networkId);
    ShapeExact(p, own, a);
    ShapeExact(p, own, b);
    TransferHashIs(p, a);
    TransferHashIs(p, b);
    ConflictHashes(p, proof);
    ConflictHashes(p, proof.(transferA := b));
    BeforeIsTotal(p.sha3(TransferPreimage(a)), p.sha3(TransferPreimage(b)));
    BeforeIsTotal(proof.transferHashA, proof.transferHashB);
    if multiset{proof.transferHashA, proof.transferHashB}
         == multiset{p.sha3(TransferPreimage(a)), p.sha3(TransferPreimage(b))} {
      SameTwo(proof.transferHashA, proof.transferHashB, p.sha3(TransferPreimage(a)), p.sha3(TransferPreimage(b)));
    }
    ShapeIgnoresSignatures(p, own, a);
    ShapeIgnoresSignatures(p, own, b);
    if IsShaped(Terms(p, proof.networkId, ctx.now, false), a) {
      OneSequence(Terms(p, proof.networkId, ctx.now, false), a);
    }
    hide Standard, IsShaped, TransferPreimage, Before, ConflictKey, ValidShape, SignatureShape, InRange;
    EncodableParts(own, a);
    EncodableParts(own, b);
  }

  lemma EncodableParts(ctx: Context, t: Transfer)
    ensures Encodable(ctx, t) <==> ValidShape(ctx, t) && SignatureShape(t) && InRange(t)
  {
    hide ValidShape, InRange;
  }

  lemma ShapeIgnoresSignatures(p: Primitives, ctx: Context, t: Transfer)
    ensures IsShaped(Here(p, ctx), t) == IsShaped(Terms(p, ctx.networkId, ctx.now, false), t)
  {
  }

  lemma OneSequence(w: Terms, t: Transfer)
    requires IsShaped(w, t)
    ensures t.sequence >= 1
  {
  }

  lemma OwnNetwork(ctx: Context, t: Transfer)
    requires Encodable(ctx, t)
    ensures t.networkId == ctx.networkId
  {
  }

  lemma ConflictHashes(p: Primitives, proof: ConflictProof)
    ensures Standard(p).spendKey(proof.transferA.Spends()) == p.spendDigest(proof.transferA.Spends())
    ensures var bare := proof.(proofHash := ZERO_HASH);
      Standard(p).conflictHash(bare) == if ConflictFits(bare) then Some(p.sha3(ConflictPreimage(bare))) else None
  {
    hide TransferPreimage, TransferSigningInput, ParseDisplayId, StandardAddress, StandardMetadata, ConflictFits,
      ConflictPreimage;
  }

  lemma SameAddressOf(p: Primitives)
    ensures Standard(p).addressOf == p.addressOf
  {
  }
}
