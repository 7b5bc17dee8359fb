/** The portable proof that a signer spent one state twice. */
module Conflicts {
  import opened Wrappers
  import opened Binary
  import opened Fields
  import opened Objects
  import opened Codec
  import opened Commitments

  // ------------------------------------------------------------------ the order of hashes

  /** The order of hashes' hexadecimal spellings, which is that of their bytes. */
  predicate Before(a: bytes, b: bytes)
    decreases |a|
  {
    if b == [] then false
    else if a == [] then true
    else a[0] < b[0] || (a[0] == b[0] && Before(a[1..], b[1..]))
  }

  lemma {:induction false} BeforeIsTotal(a: bytes, b: bytes)
    ensures Before(a, b) || Before(b, a) <==> a != b
    ensures !(Before(a, b) && Before(b, a))
    decreases |a|
  {
    if a != [] && b != [] {
      BeforeIsTotal(a[1..], b[1..]);
      assert a == [a[0]] + a[1..] && b == [b[0]] + b[1..];
    }
  }

  // ------------------------------------------------------------------- conflict proofs

  datatype Pair = Pair(first: Transfer, second: Transfer)

  /** Two valid, signed, different transfers of one state, in the order of their hashes. */
  function SortedPair(ctx: Context, a: Transfer, b: Transfer): Result<Pair> {
    if !(ValidShape(ctx, a) && SignatureShape(a) && ValidShape(ctx, b) && SignatureShape(b)) then Err(Malformed) else
    var _ :- CheckAuthority(ctx.suite, a, true);
    var _ :- CheckAuthority(ctx.suite, b, true);
    :- Require(a.tokenId == b.tokenId && a.sequence == b.sequence && a.previousHash == b.previousHash
               && a.senderAddress == b.senderAddress, NotAConflict);
    :- Require(ctx.suite.spendKey(a.Spends()) == ctx.suite.spendKey(b.Spends()), NotAConflict);
    :- Require(ctx.suite.transferHash(a) != ctx.suite.transferHash(b), NotAConflict);
    if Before(ctx.suite.transferHash(b), ctx.suite.transferHash(a)) then Ok(Pair(b, a)) else Ok(Pair(a, b))
  }

  function ProofHash(c: Suite, proof: ConflictProof): Option<Hash> {
    c.conflictHash(proof.(proofHash := ZERO_HASH))
  }

  /** The proof a sorted pair makes, before its own hash is filled in. */
  function ProofOf(ctx: Context, pair: Pair, detectedAt: nat): ConflictProof {
    ConflictProof(ctx.networkId, pair.first.Spends(), ctx.suite.spendKey(pair.first.Spends()),
                  ctx.suite.transferHash(pair.first), ctx.suite.transferHash(pair.second), pair.first, pair.second,
                  detectedAt, ZERO_HASH)
  }

  function CreateProof(ctx: Context, a: Transfer, b: Transfer, detectedAt: nat): Result<ConflictProof> {
    if a.networkId != ctx.networkId then Err(WrongNetwork) else
    var pair :- SortedPair(ctx, a, b);
    var proof := ProofOf(ctx, pair, detectedAt);
    var hash := ProofHash(ctx.suite, proof);
    :- Require(hash.Some?, NotEncodable);
    Ok(proof.(proofHash := hash.value))
  }

  /** The verifier rebuilds the fields from the two transfers and compares. */
  function VerifyProof(ctx: Context, proof: ConflictProof): Result<()> {
    if proof.networkId != ctx.networkId then Err(WrongNetwork) else
    :- Require(proof.spent.sequence >= 1 && ctx.suite.validAddress(proof.spent.senderAddress), Malformed);
    var pair :- SortedPair(ctx, proof.transferA, proof.transferB);
    var expected := ProofOf(ctx, pair, proof.detectedAt);
    :- Require(proof.(proofHash := ZERO_HASH) == expected, NotAConflict);
    :- Require(ProofHash(ctx.suite, proof) == Some(proof.proofHash), HashMismatch);
    Ok(())
  }

  function ConflictKey(c: Suite, proof: ConflictProof): Hash {
    var (a, b) := if Before(proof.transferHashB, proof.transferHashA) then (proof.transferHashB, proof.transferHashA)
                  else (proof.transferHashA, proof.transferHashB);
    c.conflictKey(ConflictIdentity(proof.networkId, proof.spent, a, b))
  }

  /** Two different signed transfers of one state. */
  predicate Conflicting(ctx: Context, a: Transfer, b: Transfer) {
    && Encodable(ctx, a) && Encodable(ctx, b)
    && ValidSignature(ctx.suite, a) && ValidSignature(ctx.suite, b)
    && a.Spends() == b.Spends() && ctx.suite.transferHash(a) != ctx.suite.transferHash(b)
  }

  /** A pair sorts exactly when it conflicts; sorting forgets the order it was given in. */
  lemma SortedIffConflicting(ctx: Context, a: Transfer, b: Transfer)
    ensures SortedPair(ctx, a, b).Ok? <==> Conflicting(ctx, a, b)
    ensures Conflicting(ctx, a, b) ==>
      && SortedPair(ctx, a, b) == SortedPair(ctx, b, a)
      && var pair := SortedPair(ctx, a, b).value;
         && (pair == Pair(a, b) || pair == Pair(b, a)) && pair.first.Spends() == pair.second.Spends()
         && Before(ctx.suite.transferHash(pair.first), ctx.suite.transferHash(pair.second))
         && SortedPair(ctx, pair.first, pair.second) == Ok(pair)
  {
    hide ValidShape, SignatureShape, InRange;
    BeforeIsTotal(ctx.suite.transferHash(a), ctx.suite.transferHash(b));
    assert a.Spends() == b.Spends() <==> (
             a.tokenId == b.tokenId && a.sequence == b.sequence && a.previousHash == b.previousHash
             && a.senderAddress == b.senderAddress);
  }

  /** Verifying is checking that the proof is the one its own transfers and detection time make: nothing
      else is accepted, and everything created is. */
  lemma VerifiesIffCreated(ctx: Context, proof: ConflictProof)
    ensures VerifyProof(ctx, proof).Ok? <==>
              CreateProof(ctx, proof.transferA, proof.transferB, proof.detectedAt) == Ok(proof)
  {
    hide ValidShape, SignatureShape, ValidSignature;
    SortedIffConflicting(ctx, proof.transferA, proof.transferB);
    var created := CreateProof(ctx, proof.transferA, proof.transferB, proof.detectedAt);
    if created == Ok(proof) {
      assert proof.(proofHash := ZERO_HASH).(proofHash := ZERO_HASH) == proof.(proofHash := ZERO_HASH);
      ShapesCarry(ctx, proof.transferA, proof.transferB);
    }
    if VerifyProof(ctx, proof).Ok? {
      ShapesCarry(ctx, proof.transferA, proof.transferB);
      assert proof.(proofHash := ZERO_HASH).(proofHash := proof.proofHash) == proof;
    }
  }

  lemma ShapesCarry(ctx: Context, a: Transfer, b: Transfer)
    requires SortedPair(ctx, a, b).Ok?
    ensures a.networkId == ctx.networkId && b.networkId == ctx.networkId
    ensures a.sequence >= 1 && ctx.suite.validAddress(a.senderAddress) && b.sequence >= 1
    ensures ctx.suite.validAddress(b.senderAddress)
  {
  }

  /** What an accepted proof is, field by field. */
  lemma ProofAcceptedExactly(ctx: Context, proof: ConflictProof)
    ensures var a, b := proof.transferA, proof.transferB;
      VerifyProof(ctx, proof).Ok? <==>
        && proof.networkId == ctx.networkId && Conflicting(ctx, a, b)
        && Before(ctx.suite.transferHash(a), ctx.suite.transferHash(b))
        && proof.spent == a.Spends() && proof.spendKey == ctx.suite.spendKey(a.Spends())
        && proof.transferHashA == ctx.suite.transferHash(a) && proof.transferHashB == ctx.suite.transferHash(b)
        && ProofHash(ctx.suite, proof) == Some(proof.proofHash)
  {
    hide ValidShape, SignatureShape, InRange, ValidSignature, ProofHash;
    var a, b := proof.transferA, proof.transferB;
    SortedIffConflicting(ctx, a, b);
    BeforeIsTotal(ctx.suite.transferHash(a), ctx.suite.transferHash(b));
    if SortedPair(ctx, a, b).Ok? {
      ShapesCarry(ctx, a, b);
    }
    assert ProofOf(ctx, Pair(a, b), proof.detectedAt) == proof.(proofHash := ZERO_HASH) <==>
             && proof.networkId == ctx.networkId && proof.spent == a.Spends()
             && proof.spendKey == ctx.suite.spendKey(a.Spends())
             && proof.transferHashA == ctx.suite.transferHash(a) && proof.transferHashB == ctx.suite.transferHash(b);
  }

  /** The order is that of the first differing byte. */
  lemma {:induction false} BeforeExact(a: bytes, b: bytes)
    ensures Before(a, b) <==>
              exists k: nat :: k <= |a| && k < |b| && a[..k] == b[..k] && (k == |a| || a[k] < b[k])
    decreases |a|
  {
    if a == [] && b != [] {
      assert a[..0] == b[..0];
    } else if a != [] && b != [] {
      BeforeExact(a[1..], b[1..]);
      if a[0] < b[0] {
        assert a[..0] == b[..0];
      } else if Before(a, b) {
        var k: nat :| k <= |a[1..]| && k < |b[1..]| && a[1..][..k] == b[1..][..k]
                      && (k == |a[1..]| || a[1..][k] < b[1..][k]);
        assert a[..k + 1] == [a[0]] + a[1..][..k] && b[..k + 1] == [b[0]] + b[1..][..k];
      }
      if exists k: nat :: k <= |a| && k < |b| && a[..k] == b[..k] && (k == |a| || a[k] < b[k]) {
        var k: nat :| k <= |a| && k < |b| && a[..k] == b[..k] && (k == |a| || a[k] < b[k]);
        if k > 0 {
          assert a[0] == a[..k][0] == b[..k][0] == b[0];
          assert a[1..][..k - 1] == a[..k][1..] && b[1..][..k - 1] == b[..k][1..];
        }
      }
    }
  }

  /** Completeness and symmetry: any two conflicting transfers make a proof, the same whichever is named
      first, and it verifies; the encoder's range is the only thing that can stand in the way. */
  lemma ConflictsAreProvable(ctx: Context, a: Transfer, b: Transfer, detectedAt: nat)
    requires Conflicting(ctx, a, b)
    ensures CreateProof(ctx, a, b, detectedAt) == CreateProof(ctx, b, a, detectedAt)
    ensures match CreateProof(ctx, a, b, detectedAt)
            case Ok(proof) =>
              && VerifyProof(ctx, proof) == Ok(()) && proof.detectedAt == detectedAt && proof.spent == a.Spends()
              && {proof.transferA, proof.transferB} == {a, b}
            case Err(e) =>
              && e == NotEncodable
              && ProofHash(ctx.suite, ProofOf(ctx, SortedPair(ctx, a, b).value, detectedAt)).None?
  {
    hide ValidSignature;
    SortedIffConflicting(ctx, a, b);
    ShapesCarry(ctx, a, b);
    var pair := SortedPair(ctx, a, b).value;
    var made := CreateProof(ctx, a, b, detectedAt);
    if made.Ok? {
      assert CreateProof(ctx, pair.first, pair.second, detectedAt) == made;
      VerifiesIffCreated(ctx, made.value);
    }
  }

  /** In the standard suite only the detection time can be out of range. */
  lemma ProofEncodes(p: Primitives, ctx: Context, a: Transfer, b: Transfer, detectedAt: nat)
    requires ctx.suite == Standard(p) && Conflicting(ctx, a, b)
    ensures CreateProof(ctx, a, b, detectedAt).Ok? <==> detectedAt <= MAX_UVARINT
  {
    SortedIffConflicting(ctx, a, b);
    var pair := SortedPair(ctx, a, b).value;
    var proof := ProofOf(ctx, pair, detectedAt);
    EncodableFits(p, ctx, pair.first);
    EncodableFits(p, ctx, pair.second);
    ConflictFitsIff(proof);
    ShapesCarry(ctx, a, b);
    hide Conflicting, ValidShape, ConflictFits, ValidSignature;
    assert proof.(proofHash := ZERO_HASH) == proof;
    assert ProofHash(ctx.suite, proof).Some? <==> ConflictFits(proof);
  }

  lemma ConflictFitsIff(proof: ConflictProof)
    requires TransferFits(proof.transferA) && TransferFits(proof.transferB)
    requires proof.transferA.networkId == proof.networkId == proof.transferB.networkId
    requires proof.spent == proof.transferA.Spends()
    ensures ConflictFits(proof) <==> proof.detectedAt <= MAX_UVARINT
  {
    var head, a, b, tail := ConflictHeadFields(proof), TransferFields(proof.transferA),
                            TransferFields(proof.transferB), ConflictTailFields(proof);
    HeadFits(proof);
    FitConcat(b, TRANSFER_LAYOUT, tail, CONFLICT_TAIL_LAYOUT);
    FitConcat(a, TRANSFER_LAYOUT, b + tail, TRANSFER_LAYOUT + CONFLICT_TAIL_LAYOUT);
    FitConcat(head, CONFLICT_HEAD_LAYOUT, a + (b + tail), TRANSFER_LAYOUT + (TRANSFER_LAYOUT + CONFLICT_TAIL_LAYOUT));
    assert FieldFits(tail[0], CONFLICT_TAIL_LAYOUT[0]) <==> proof.detectedAt <= MAX_UVARINT;
  }

  lemma HeadFits(proof: ConflictProof)
    requires TransferFits(proof.transferA) && proof.spent == proof.transferA.Spends()
    ensures Fit(ConflictHeadFields(proof), CONFLICT_HEAD_LAYOUT)
  {
    var fs := TransferFields(proof.transferA);
    assert FieldFits(fs[1], TRANSFER_LAYOUT[1]) && FieldFits(fs[3], TRANSFER_LAYOUT[3]);
  }

  lemma FitConcat(fs: seq<Field>, ks: seq<Kind>, gs: seq<Field>, js: seq<Kind>)
    requires |fs| == |ks|
    ensures Fit(fs + gs, ks + js) <==> Fit(fs, ks) && Fit(gs, js)
  {
    if Fit(fs + gs, ks + js) {
      forall i | 0 <= i < |fs|
        ensures FieldFits(fs[i], ks[i])
      {
        assert FieldFits((fs + gs)[i], (ks + js)[i]);
      }
      forall i | 0 <= i < |gs|
        ensures FieldFits(gs[i], js[i])
      {
        assert FieldFits((fs + gs)[|fs| + i], (ks + js)[|ks| + i]);
      }
    }
  }

  /** The key of a conflict ignores the order of its transfers and when it was noticed. */
  lemma KeyIsStable(ctx: Context, a: Transfer, b: Transfer, sooner: nat, later: nat)
    requires CreateProof(ctx, a, b, sooner).Ok? && CreateProof(ctx, b, a, later).Ok?
    ensures ConflictKey(ctx.suite, CreateProof(ctx, a, b, sooner).value)
         == ConflictKey(ctx.suite, CreateProof(ctx, b, a, later).value)
  {
    hide ValidShape, ValidSignature;
    SortedIffConflicting(ctx, a, b);
    ShapesCarry(ctx, a, b);
  }

  /** Nor does it see which of the two hashes a message lists first. */
  lemma KeyIgnoresHashOrder(c: Suite, proof: ConflictProof)
    ensures ConflictKey(c, proof.(transferHashA := proof.transferHashB, transferHashB := proof.transferHashA))
         == ConflictKey(c, proof)
  {
    BeforeIsTotal(proof.transferHashA, proof.transferHashB);
  }

  /** One conflict: the same state on the same network, spent by the same two transfers. */
  predicate SameConflict(x: ConflictProof, y: ConflictProof) {
    && x.networkId == y.networkId && x.spent == y.spent
    && multiset{x.transferHashA, x.transferHashB} == multiset{y.transferHashA, y.transferHashB}
  }

  predicate Names(identity: ConflictIdentity, x: ConflictProof) {
    && identity.networkId == x.networkId && identity.spent == x.spent
    && multiset{identity.transferHashA, identity.transferHashB} == multiset{x.transferHashA, x.transferHashB}
  }

  /** The key is a conflict's own: two proofs have one key exactly if they are of one conflict, short of two
      identities that collide. */
  lemma KeyIsExact(c: Suite, x: ConflictProof, y: ConflictProof)
    ensures SameConflict(x, y) ==> ConflictKey(c, x) == ConflictKey(c, y)
    ensures ConflictKey(c, x) == ConflictKey(c, y) ==>
              || SameConflict(x, y)
              || exists u, v :: Names(u, x) && Names(v, y) && u != v && c.conflictKey(u) == c.conflictKey(v)
  {
    var u, v := IdentityOf(x), IdentityOf(y);
    SortedTwo(x.transferHashA, x.transferHashB);
    SortedTwo(y.transferHashA, y.transferHashB);
    hide Before;
    assert Names(u, x) && Names(v, y) && c.conflictKey(u) == ConflictKey(c, x) && c.conflictKey(v) == ConflictKey(c, y);
    if SameConflict(x, y) {
      SameTwo(x.transferHashA, x.transferHashB, y.transferHashA, y.transferHashB);
    }
  }

  function IdentityOf(x: ConflictProof): ConflictIdentity {
    if Before(x.transferHashB, x.transferHashA)
    then ConflictIdentity(x.networkId, x.spent, x.transferHashB, x.transferHashA)
    else ConflictIdentity(x.networkId, x.spent, x.transferHashA, x.transferHashB)
  }

  lemma SortedTwo(a: Hash, b: Hash)
    ensures !(Before(a, b) && Before(b, a)) && (Before(a, b) || Before(b, a) <==> a != b)
  {
    BeforeIsTotal(a, b);
  }

  lemma SameTwo(a: Hash, b: Hash, c: Hash, d: Hash)
    requires multiset{a, b} == multiset{c, d}
    ensures (a == c && b == d) || (a == d && b == c)
  {
    assert a in multiset{c, d} && b in multiset{c, d} && c in multiset{a, b} && d in multiset{a, b};
  }

  /** In the standard suite the key is the digest of the conflict's identity. */
  lemma ConflictKeyCommits(p: Primitives, x: ConflictProof, y: ConflictProof)
    requires ConflictKey(Standard(p), x) == ConflictKey(Standard(p), y)
    ensures || SameConflict(x, y)
            || exists u, v :: Names(u, x) && Names(v, y) && u != v && p.conflictDigest(u) == p.conflictDigest(v)
  {
    KeyIsExact(Standard(p), x, y);
    hide ConflictKey, SameConflict, Names, Before;
    assert Standard(p).conflictKey == p.conflictDigest;
  }

  // -------------------------------------------------------------------------- soundness

  /** Whatever else a key signs, the transfers whose signatures verify under it are those emitted. */
  ghost predicate SignsTransfersOnly(p: Primitives, key: Hash, emitted: set<Transfer>) {
    forall t :: TransferFits(t) && p.verify(key, t.signature, TransferSigningInput(t).Preimage()) ==>
      exists x :: x in emitted && SameSignedBytes(x, t)
  }

  predicate SameSignedBytes(x: Transfer, t: Transfer) {
    TransferSigningInput(x).Preimage() == TransferSigningInput(t).Preimage() && x.signature == t.signature
  }

  /** A holder who never signs two transfers of one state. */
  predicate SpendsOnce(emitted: set<Transfer>) {
    forall a, b :: a in emitted && b in emitted && a.Spends() == b.Spends() ==> a == b
  }

  /** A signed transfer under such a key was emitted, as it stands: the signing preimage fixes everything
      but the signature. */
  lemma SignedWasEmitted(p: Primitives, t: Transfer, emitted: set<Transfer>)
    requires SignsTransfersOnly(p, t.senderPublicKey, emitted) && Standard(p).transferSigned(t)
    requires TransferFits(t) && forall x :: x in emitted ==> TransferFits(x)
    ensures t in emitted
  {
    hide TransferFits;
    assert p.verify(t.senderPublicKey, t.signature, TransferSigningInput(t).Preimage());
    var x :| x in emitted && SameSignedBytes(x, t);
    SigningCommits(x, t);
    assert x.(signature := t.signature) == x;
  }

  /** A signer who emits at most one transfer per state is never convicted, by anyone's evidence. The
      signer holds every key of the address, and may sign any other message with it. */
  lemma HonestNeverConvicted(p: Primitives, ctx: Context, proof: ConflictProof, emitted: set<Transfer>)
    requires ctx.suite == Standard(p)
    requires forall key: Hash :: p.addressOf(key) == proof.spent.senderAddress ==> SignsTransfersOnly(p, key, emitted)
    requires SpendsOnce(emitted) && forall x :: x in emitted ==> TransferFits(x)
    ensures VerifyProof(ctx, proof).Err?
  {
    hide SignsTransfersOnly, TransferFits, Standard, VerifyProof;
    if VerifyProof(ctx, proof).Ok? {
      ConvictedSignedBoth(ctx, proof);
      SignedByHolder(p, ctx, proof.transferA);
      SignedByHolder(p, ctx, proof.transferB);
      SignedWasEmitted(p, proof.transferA, emitted);
      SignedWasEmitted(p, proof.transferB, emitted);
      assert false;
    }
  }

  /** What an accepted proof shows: two different transfers of the named state, both validly signed. */
  lemma ConvictedSignedBoth(ctx: Context, proof: ConflictProof)
    requires VerifyProof(ctx, proof).Ok?
    ensures Conflicting(ctx, proof.transferA, proof.transferB) && proof.transferA != proof.transferB
    ensures proof.transferA.Spends() == proof.spent == proof.transferB.Spends()
  {
    hide ValidShape, SignatureShape, InRange, ValidSignature;
    SortedIffConflicting(ctx, proof.transferA, proof.transferB);
  }

  lemma SignedByHolder(p: Primitives, ctx: Context, t: Transfer)
    requires ctx.suite == Standard(p) && Encodable(ctx, t) && ValidSignature(ctx.suite, t)
    ensures p.addressOf(t.senderPublicKey) == t.senderAddress && TransferFits(t) && Standard(p).transferSigned(t)
  {
    EncodableFits(p, ctx, t);
  }

  // ------------------------------------------------------------------ the cheap pre-filter

  /** The checks made before a message costs any signature work; the result is the dedupe key. */
  function CheapCheck(ctx: Context, proof: ConflictProof): Result<Hash> {
    var own := ctx.(networkId := proof.networkId);
    var a, b := proof.transferA, proof.transferB;
    if proof.spent.sequence < 1 then Err(Malformed) else
    :- Require(ValidShape(own, a) && SignatureShape(a) && ValidShape(own, b) && SignatureShape(b), Malformed);
    :- Require(a.Spends() == proof.spent && b.Spends() == proof.spent, NotAConflict);
    :- Require(ctx.suite.spendKey(a.Spends()) == ctx.suite.spendKey(b.Spends()) == proof.spendKey, NotAConflict);
    :- Require(InRange(a) && InRange(b), NotEncodable);
    var hashA, hashB := ctx.suite.transferHash(a), ctx.suite.transferHash(b);
    :- Require(hashA != hashB, NotAConflict);
    var (low, high) := if Before(hashB, hashA) then (hashB, hashA) else (hashA, hashB);
    :- Require(proof.transferHashA == low && proof.transferHashB == high, HashMismatch);
    Ok(ConflictKey(ctx.suite, proof))
  }

  /** The full verdict, taken apart: a proof verifies exactly when the cheap filter passes it, it is for
      this network, its transfers come in hash order, both signatures hold and its own hash matches. So
      the filter never drops a genuine proof, and what it leaves unchecked is exactly the rest. */
  lemma CheapFilterDecomposes(ctx: Context, proof: ConflictProof)
    ensures VerifyProof(ctx, proof).Ok? <==>
      && CheapCheck(ctx, proof).Ok? && proof.networkId == ctx.networkId
      && Before(ctx.suite.transferHash(proof.transferA), ctx.suite.transferHash(proof.transferB))
      && ValidSignature(ctx.suite, proof.transferA) && ValidSignature(ctx.suite, proof.transferB)
      && ProofHash(ctx.suite, proof) == Some(proof.proofHash)
    ensures VerifyProof(ctx, proof).Ok? ==> CheapCheck(ctx, proof) == Ok(ConflictKey(ctx.suite, proof))
  {
    hide SignatureShape, InRange, ValidSignature;
    SortedIffConflicting(ctx, proof.transferA, proof.transferB);
    BeforeIsTotal(ctx.suite.transferHash(proof.transferA), ctx.suite.transferHash(proof.transferB));
    assert proof.networkId == ctx.networkId ==> ctx.(networkId := proof.networkId) == ctx;
  }
}
