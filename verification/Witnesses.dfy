/** Concrete runs: the conditions the theorems turn on do come about. */
module Witnesses {
  import opened Wrappers
  import opened Binary
  import opened DisplayId
  import opened Objects
  import opened Codec
  import opened Commitments
  import opened Replay
  import opened Segments
  import opened Limits
  import opened Bundles
  import opened Bills
  import opened Conflicts
  import opened Forks
  import opened Gossip

  const TOKEN_A: Hash := ZERO_HASH
  const TOKEN_B: Hash := [
    1, 1, 1, 1, 1, 1, 1, 1, 1, 1, 1, 1, 1, 1, 1, 1, 1, 1, 1, 1, 1, 1, 1, 1, 1, 1, 1, 1, 1, 1, 1, 1]
  const ADDRESS: bytes := ZERO_HASH + [0]

  /** Primitives that say yes to everything, over some hash function. */
  function Yes(sha3: bytes -> Hash): Primitives {
    Primitives(
      sha3 := sha3,
      verify := (key: Hash, signature: bytes, message: bytes) => true,
      addressOf := (key: Hash) => ADDRESS,
      addressChecks := (address: bytes) => true,
      jsonText := (text: bytes) => Some(text),
      jsonIsObject := (text: bytes) => true,
      spendDigest := (spent: SpendState) => ZERO_HASH,
      conflictDigest := (identity: ConflictIdentity) => ZERO_HASH,
      genesisTrusted := (manifest: Option<Hash>) => true)
  }

  /** Everything hashes alike. */
  function Alike(): bytes -> Hash {
    (x: bytes) => ZERO_HASH
  }

  function Here(sha3: bytes -> Hash, now: nat): Context {
    Context(Standard(Yes(sha3)), 1, now)
  }

  function Origin(genesisHash: Hash): GenesisRef {
    GenesisRef(1, genesisHash, None, None, 1, 0)
  }

  function Start(): State {
    State(0, ADDRESS, ZERO_HASH, 0, 0, 0, CanonicalDisplayId(1, 1), 1)
  }

  function Signed(tokenId: Hash, s: State, timestamp: nat): Transfer {
    Transfer(1, SIGNATURE_ALGORITHM_ID, tokenId, s.sequence + 1, s.lastTransferHash, ADDRESS, ZERO_HASH, ADDRESS,
             timestamp, [], ZERO_HASH + ZERO_HASH)
  }

  function Then(sha3: bytes -> Hash, tokenId: Hash, s: State, timestamp: nat): State {
    State(s.sequence + 1, ADDRESS, sha3(TransferPreimage(Signed(tokenId, s, timestamp))), timestamp, DayOf(timestamp),
          if DayOf(timestamp) == s.lastTransferDay then s.transfersInLastDay + 1 else 1, s.displayId, 1)
  }

  /** The holder can still transfer at this time. */
  predicate CanStep(s: State, timestamp: nat, now: nat) {
    && s.ownerAddress == ADDRESS && s.displayId == CanonicalDisplayId(1, 1) && s.value == 1
    && s.lastTransferTimestamp < timestamp <= now <= MAX_UVARINT && s.sequence < MAX_UVARINT
    && (DayOf(timestamp) == s.lastTransferDay ==> s.transfersInLastDay < MAX_TRANSFERS_PER_BILL_PER_DAY)
  }

  lemma StepsOn(sha3: bytes -> Hash, now: nat, tokenId: Hash, s: State, timestamp: nat)
    requires CanStep(s, timestamp, now)
    ensures ValidState(Here(sha3, now).suite, s)
    ensures var t := Signed(tokenId, s, timestamp);
      && Verifier(Here(sha3, now), tokenId).Step(s, t) == Ok(Then(sha3, tokenId, s, timestamp))
      && Encodable(Here(sha3, now), t) && ValidSignature(Here(sha3, now).suite, t)
  {
    var t := Signed(tokenId, s, timestamp);
    DisplayIdExact(CanonicalDisplayId(1, 1), 1, 1);
    hide CanonicalDisplayId, ParseDisplayId, TransferPreimage, TransferSigningInput, DayOf;
    assert ValidState(Here(sha3, now).suite, s);
    assert ValidShape(Here(sha3, now), t);
    assert CheckAuthority(Here(sha3, now).suite, t, true) == Ok(());
  }

  lemma ReplaysOne(sha3: bytes -> Hash, now: nat, tokenId: Hash, s: State, timestamp: nat)
    requires CanStep(s, timestamp, now)
    ensures Verifier(Here(sha3, now), tokenId).Replay(s, [Signed(tokenId, s, timestamp)])
         == Ok(Then(sha3, tokenId, s, timestamp))
  {
    hide Replayer.Step, Then, CanStep, Standard;
    StepsOn(sha3, now, tokenId, s, timestamp);
    var t := Signed(tokenId, s, timestamp);
    SingleFold(Verifier(Here(sha3, now), tokenId), s, t);
  }

  lemma IsReady(sha3: bytes -> Hash, now: nat, tokenId: Hash, g: GenesisRef, s: State, ts: seq<Transfer>)
    requires g == Origin(g.genesisHash) && s.displayId == CanonicalDisplayId(1, 1) && s.value == 1 && ts != []
    requires Verifier(Here(sha3, now), tokenId).Replay(s, ts).Ok?
    ensures Ready(Yes(sha3), Archiver(Here(sha3, now), tokenId, g), s, ts)
  {
    DisplayIdExact(CanonicalDisplayId(1, 1), 1, 1);
    hide CanonicalDisplayId, ParseDisplayId, TransferPreimage, TransferSigningInput, Replayer.Replay;
  }

  /** One transfer from a state that can step archives on anything. */
  lemma ArchivesOne(sha3: bytes -> Hash, tokenId: Hash, g: GenesisRef, s: State, timestamp: nat,
                    below: Option<ArchiveSegment>)
    requires CanStep(s, timestamp, 100) && g == Origin(g.genesisHash)
    requires s.lastTransferDay <= MAX_UVARINT && s.transfersInLastDay <= MAX_UVARINT
    ensures var ar := Archiver(Here(sha3, 100), tokenId, g);
      var ts := [Signed(tokenId, s, timestamp)];
      ar.Make(s, ts, below).Ok? && ar.Tip(s, ts) == Ok(Then(sha3, tokenId, s, timestamp))
  {
    var ar, ts := Archiver(Here(sha3, 100), tokenId, g), [Signed(tokenId, s, timestamp)];
    ReplaysOne(sha3, 100, tokenId, s, timestamp);
    IsReady(sha3, 100, tokenId, g, s, ts);
    hide Ready, MakeSegment, Replayer.Replay, Standard, CanonicalDisplayId;
    BlockSizeLimits(Yes(sha3), ar, s, ts, below);
  }

  // -------------------------------------------------------------- mixed archives

  /** An archive of two segments that may disagree on token and genesis. */
  lemma TwoSegments(tokenB: Hash, genesisB: Hash) returns (a: ArchiveSegment, b: ArchiveSegment, store: SegmentStore)
    ensures VerifySegment(Here(Alike(), 100), b, None, Some(store), None, 2) == CheckBody(Here(Alike(), 100), b)
    ensures CheckBody(Here(Alike(), 100), b).Ok? && Ancestry(b, None, Some(store), 2) == [a, b]
    ensures a.tokenId == TOKEN_A && b.tokenId == tokenB && a.baseState == Start()
    ensures b.genesisRef.genesisHash == genesisB
  {
    hide Standard, MakeSegment, VerifySegment, CanonicalDisplayId, Then, CheckBody, Replayer.Replay;
    var first := Archiver(Here(Alike(), 100), TOKEN_A, Origin(ZERO_HASH));
    var second := Archiver(Here(Alike(), 100), tokenB, Origin(genesisB));
    var ta := Signed(TOKEN_A, Start(), 1);
    ArchivesOne(Alike(), TOKEN_A, Origin(ZERO_HASH), Start(), 1, None);
    var mid := AfterFirst();
    var tb := Signed(tokenB, mid, 2);
    a := first.Make(Start(), [ta], None).value;
    ArchivesOne(Alike(), tokenB, Origin(genesisB), mid, 2, Some(a));
    b := second.Make(mid, [tb], Some(a)).value;
    store := map[a.segmentHash := a];
    MadeChecks(first, Start(), [ta], None);
    MadeChecks(second, mid, [tb], Some(a));
    OneOnAnother(first, second, Start(), a, b, store);
  }

  lemma AfterFirst() returns (mid: State)
    ensures mid == Then(Alike(), TOKEN_A, Start(), 1) && CanStep(mid, 2, 100)
    ensures mid.sequence == 1 && mid.transfersInLastDay == 1 && mid.lastTransferDay == 0
  {
    hide CanonicalDisplayId, TransferPreimage;
    mid := Then(Alike(), TOKEN_A, Start(), 1);
  }

  /** An accepted archive whose two segments name two tokens, in the code's own suite. */
  lemma TwoTokenArchive() returns (a: ArchiveSegment, b: ArchiveSegment, store: SegmentStore)
    ensures VerifySegment(Here(Alike(), 100), b, None, Some(store), None, 2).Ok?
    ensures var chain := Ancestry(b, None, Some(store), 2); chain == [a, b] && !SameToken(chain, b.tokenId)
  {
    hide VerifySegment, CheckBody, Standard;
    a, b, store := TwoSegments(TOKEN_B, ZERO_HASH);
    assert TOKEN_A[0] != TOKEN_B[0];
    assert a in [a, b];
  }

  /** An accepted archive of one token that starts on one genesis hash and ends in a checkpoint which names
      another. */
  lemma TwoGenesisArchive() returns (a: ArchiveSegment, b: ArchiveSegment, store: SegmentStore)
    ensures var verdict := VerifySegment(Here(Alike(), 100), b, None, Some(store), None, 2);
      verdict.Ok? && verdict.value.genesisHash != a.baseState.lastTransferHash
    ensures var chain := Ancestry(b, None, Some(store), 2); chain == [a, b] && SameToken(chain, b.tokenId)
  {
    hide VerifySegment, CheckBody, Standard;
    a, b, store := TwoSegments(TOKEN_A, TOKEN_B);
    BodyCheckpoint(Here(Alike(), 100), b);
    assert ZERO_HASH[0] != TOKEN_B[0];
  }

  lemma AllHashZero(core: CheckpointCore)
    ensures CheckpointCoreHash(Here(Alike(), 100).suite, core) == ZERO_HASH
  {
  }

  /** An accepted segment that rests on a resolved checkpoint whose hash does not recompute. */
  lemma ForgedCheckpoint() returns (a: ArchiveSegment, h: Hash, x: CheckpointStore)
    ensures VerifySegment(Here(Alike(), 100), a, None, None, Some(x), 1).Ok?
    ensures a.previousCheckpointHash == Some(h) && h in x && !SelfHashed(Here(Alike(), 100).suite, x[h])
  {
    hide MakeSegment, VerifySegment, CanonicalDisplayId, Then, CheckBody, Replayer.Replay, Standard, CanStep;
    var ctx, g := Here(Alike(), 100), Origin(ZERO_HASH);
    var mid := AfterFirst();
    var claim := CheckpointCore(1, TOKEN_A, ZERO_HASH, 1, ADDRESS, 1, [], ZERO_HASH, ZERO_HASH, 1, 0, 1, None, TOKEN_B);
    var below := ArchiveSegment(1, TOKEN_A, 1, [], g, Start(), 1, 1, None, None, TOKEN_B, [], ZERO_HASH);
    ArchivesOne(Alike(), TOKEN_A, g, mid, 2, Some(below));
    AnyStateUnderAnyHash(ctx, TOKEN_A, g, claim, mid, [Signed(TOKEN_A, mid, 2)], ZERO_HASH);
    a := MakeSegment(ctx, TOKEN_A, g, mid, [Signed(TOKEN_A, mid, 2)], Some(ZERO_HASH), Some(TOKEN_B)).value;
    h, x := TOKEN_B, map[TOKEN_B := Claiming(ctx.suite, claim, mid)];
    AllHashZero(x[h]);
    assert ZERO_HASH[0] != TOKEN_B[0];
  }

  // ----------------------------------------------------------------- long blocks

  /** One transfer a day, `n` of them. */
  function Daily(s: State, n: nat): seq<Transfer>
    decreases n
  {
    if n == 0 then []
    else
      var timestamp := (s.sequence + 1) * SECONDS_PER_DAY;
      [Signed(TOKEN_A, s, timestamp)] + Daily(Then(Alike(), TOKEN_A, s, timestamp), n - 1)
  }

  predicate OnceADay(s: State) {
    && s.ownerAddress == ADDRESS && s.displayId == CanonicalDisplayId(1, 1) && s.value == 1
    && s.lastTransferTimestamp == s.sequence * SECONDS_PER_DAY && s.lastTransferDay == s.sequence
  }

  lemma {:induction false} DailyIsAccepted(s: State, n: nat, now: nat)
    requires OnceADay(s) && (s.sequence + n) * SECONDS_PER_DAY <= now <= MAX_UVARINT
    ensures Verifier(Here(Alike(), now), TOKEN_A).Fold(s, Daily(s, n)).Ok? && |Daily(s, n)| == n
    decreases n
  {
    hide CanonicalDisplayId, Standard, Replayer.Step, TransferPreimage;
    if n > 0 {
      var timestamp := (s.sequence + 1) * SECONDS_PER_DAY;
      StepsOn(Alike(), now, TOKEN_A, s, timestamp);
      DailyIsAccepted(Then(Alike(), TOKEN_A, s, timestamp), n - 1, now);
    }
  }

  lemma ThreeBlocks(ts: seq<Transfer>)
    requires |ts| == 283
    ensures Flatten([ts[..100], ts[100..200], ts[200..]]) == ts
  {
    assert [ts[..100], ts[100..200], ts[200..]][1..] == [ts[100..200], ts[200..]];
    assert [ts[100..200], ts[200..]][1..] == [ts[200..]] && [ts[200..]][1..] == [];
    assert Flatten([ts[200..]]) == ts[200..];
    assert Flatten([ts[100..200], ts[200..]]) == ts[100..];
  }

  /** A bill transferred once a day for 283 days has an accepted history that no one segment holds, and
      that archives in three. */
  lemma LongBlock() returns (ar: Archiver, ts: seq<Transfer>)
    ensures ar.Tip(Start(), ts).Ok? && |ts| == 283 && ar.Make(Start(), ts, None).Err?
    ensures ar.BuildChain(Start(), [ts[..100], ts[100..200], ts[200..]], None).Ok?
  {
    var now := 283 * SECONDS_PER_DAY;
    ar, ts := Archiver(Here(Alike(), now), TOKEN_A, Origin(ZERO_HASH)), Daily(Start(), 283);
    DailyIsReady(now);
    hide Ready, Daily, Here, Yes, CanonicalDisplayId;
    ThreeSegments(Yes(Alike()), ar, Start(), ts);
  }

  lemma ThreeSegments(p: Primitives, ar: Archiver, s: State, ts: seq<Transfer>)
    requires Ready(p, ar, s, ts) && NumbersFit(s, ar.genesisRef) && |ts| == 283
    ensures ar.Tip(s, ts).Ok? && ar.Make(s, ts, None).Err?
    ensures ar.BuildChain(s, [ts[..100], ts[100..200], ts[200..]], None).Ok?
  {
    hide MakeSegment, Standard, Replayer.Replay, Archiver.BuildChain, Flatten;
    ThreeBlocks(ts);
    BlockSizeLimits(p, ar, s, ts, None);
    SmallCutsArchive(p, ar, s, [ts[..100], ts[100..200], ts[200..]], None);
  }

  lemma DailyIsReady(now: nat)
    requires now == 283 * SECONDS_PER_DAY
    ensures Ready(Yes(Alike()), Archiver(Here(Alike(), now), TOKEN_A, Origin(ZERO_HASH)), Start(), Daily(Start(), 283))
    ensures |Daily(Start(), 283)| == 283
  {
    hide CanonicalDisplayId, Daily, Standard, Replayer.Fold, Ready, Then;
    StepsOn(Alike(), now, TOKEN_A, Start(), 1);
    DailyIsAccepted(Start(), 283, now);
    IsReady(Alike(), now, TOKEN_A, Origin(ZERO_HASH), Start(), Daily(Start(), 283));
  }

  // ------------------------------------------------------------- compacted forks

  /** Two transfers of one state, which hash apart. */
  function Left(): Transfer {
    Signed(TOKEN_A, Start(), 1)
  }

  function Right(): Transfer {
    Signed(TOKEN_A, Start(), 2)
  }

  function Apart(): bytes -> Hash {
    (x: bytes) => if x == TransferPreimage(Right()) then TOKEN_B else ZERO_HASH
  }

  /** A log that vouches for everything; which of the two spends it claims is up to the proof. */
  function Lenient(): Log {
    Log(
      operatorKey := (root: SignedRoot) => Some([]),
      included := (hash: Hash, proof: bytes, root: SignedRoot, key: bytes) => true,
      mirrored := (root: SignedRoot, proof: bytes) => true,
      claims := (proof: bytes, root: SignedRoot, networkId: nat) =>
                  Some([ClaimOf(if proof == [] then Left() else Right())]),
      rootId := (root: SignedRoot) => ZERO_HASH,
      bundleHash := (b: ProofBundle) => Some(ZERO_HASH))
  }

  function ClaimOf(t: Transfer): Claim {
    Claim(Apart()(TransferPreimage(t)), TOKEN_A, 1, ZERO_HASH, Some(t))
  }

  function BundleOf(a: ArchiveSegment, spendProof: bytes): ProofBundle {
    ProofBundle(1, PROOF_BUNDLE_ALGORITHM, [], a.checkpointHash, SignedRoot([], 1, []), [], spendProof,
                Source(1, ARCHIVE_SEGMENT_SOURCE, a.segmentHash, a.checkpointHash, None, Some(a)), 0, ZERO_HASH)
  }

  /** How the suite hashes. */
  lemma HashesOf(t: Transfer, spent: SpendState)
    ensures Here(Apart(), 100).suite.transferHash(t) == Apart()(TransferPreimage(t))
    ensures Here(Apart(), 100).suite.spendKey(spent) == ZERO_HASH
  {
    hide TransferPreimage, TransferSigningInput, Apart, StandardMetadata, StandardAddress;
  }

  /** A claim settles a checkpoint that its transfer led to. */
  lemma ClaimSettles(core: CheckpointCore, t: Transfer)
    requires Encodable(Here(Apart(), 100), t) && ValidSignature(Here(Apart(), 100).suite, t)
    requires t.recipientAddress == core.ownerAddress && t.timestamp == core.lastTransferTimestamp
    requires core.lastTransferHash == Apart()(TransferPreimage(t)) && core.sequence == 1 && core.tokenId == TOKEN_A
    ensures Settles(Here(Apart(), 100), core, ClaimOf(t))
  {
    HashesOf(t, t.Spends());
    hide Apart, Here, Encodable, ValidSignature, TransferPreimage;
  }

  lemma StartSettles(core: CheckpointCore, timestamp: nat)
    requires 1 <= timestamp <= 2
    requires core.Tip() == Then(Apart(), TOKEN_A, Start(), timestamp) && core.tokenId == TOKEN_A
    ensures Settles(Here(Apart(), 100), core, ClaimOf(Signed(TOKEN_A, Start(), timestamp)))
    ensures core.lastTransferHash == Apart()(TransferPreimage(Signed(TOKEN_A, Start(), timestamp)))
  {
    StartCanStep(timestamp);
    StepsOn(Apart(), 100, TOKEN_A, Start(), timestamp);
    hide Apart, Here, Encodable, ValidSignature, TransferPreimage, Settles, Replayer.Step, ClaimOf, ValidState, DayOf;
    assert core.Tip().lastTransferHash == core.lastTransferHash;
    ClaimSettles(core, Signed(TOKEN_A, Start(), timestamp));
  }

  lemma ClaimIsProven(ctx: Context, core: CheckpointCore, t: Transfer, bundle: ProofBundle)
    requires t == (if bundle.spendProof == [] then Left() else Right())
    requires Settles(ctx, core, ClaimOf(t)) && core.lastTransferHash == Apart()(TransferPreimage(t))
    ensures CheckSpendProof(ctx, Lenient(), core, bundle)
  {
    hide TransferPreimage, Settles, Left, Right, Apart;
    var claims := Lenient().claims(bundle.spendProof, bundle.signedRoot, core.networkId).value;
    assert claims == [ClaimOf(t)];
  }

  lemma StartCanStep(timestamp: nat)
    requires 1 <= timestamp <= 2
    ensures CanStep(Start(), timestamp, 100)
  {
  }

  /** A segment of one transfer from the start. */
  lemma ArchivedStart(timestamp: nat) returns (a: ArchiveSegment)
    requires 1 <= timestamp <= 2
    ensures var ctx := Here(Apart(), 100);
      && CheckHeader(ctx, a).Ok? && CheckBody(ctx, a).Ok? && a.tokenId == TOKEN_A
      && a.transfers == [Signed(TOKEN_A, Start(), timestamp)] && a.previousCheckpointHash.None?
      && CheckBody(ctx, a).value.Tip() == Then(Apart(), TOKEN_A, Start(), timestamp)
      && VerifySegment(ctx, a, None, None, None, 1) == CheckBody(ctx, a)
  {
    hide CheckBody, CheckHeader, MakeSegment, Standard, Then, CanonicalDisplayId, CanStep, Apart, Replayer.Replay;
    StartCanStep(timestamp);
    var ar, t := Archiver(Here(Apart(), 100), TOKEN_A, Origin(ZERO_HASH)), Signed(TOKEN_A, Start(), timestamp);
    ArchivesOne(Apart(), TOKEN_A, Origin(ZERO_HASH), Start(), timestamp, None);
    a := ar.Make(Start(), [t], None).value;
    MadeChecks(ar, Start(), [t], None);
  }

  /** The bundle that proves it. */
  lemma ProvenStart(timestamp: nat, spendProof: bytes) returns (a: ArchiveSegment, bundle: ProofBundle)
    requires timestamp == if spendProof == [] then 1 else 2
    ensures var ctx, e := Here(Apart(), 100), Evidence(Lenient(), None, None, 1);
      && CheckHeader(ctx, a).Ok? && CheckBody(ctx, a).Ok? && a.tokenId == TOKEN_A
      && a.transfers == [Signed(TOKEN_A, Start(), timestamp)] && a.previousCheckpointHash.None?
      && SourceSegment(e, bundle.source) == Some(a)
      && VerifyBundle(ctx, e, bundle, Some(CheckBody(ctx, a).value.checkpointHash), {}) == CheckBody(ctx, a)
  {
    hide CheckBody, CheckHeader, CheckSpendProof, VerifySegment, VerifyBundle, Then, CanStep, Settles, Apart,
      TransferPreimage, Standard;
    var ctx, e := Here(Apart(), 100), Evidence(Lenient(), None, None, 1);
    a := ArchivedStart(timestamp);
    var core := CheckBody(ctx, a).value;
    bundle := BundleOf(a, spendProof);
    BodyCheckpoint(ctx, a);
    StartSettles(core, timestamp);
    ClaimIsProven(ctx, core, Signed(TOKEN_A, Start(), timestamp), bundle);
    BundleVouches(ctx, a, core, bundle, spendProof);
    VouchedStep(ctx, e, bundle, a, None, {});
  }

  lemma BundleVouches(ctx: Context, a: ArchiveSegment, core: CheckpointCore, bundle: ProofBundle, spendProof: bytes)
    requires ctx.networkId == 1 && bundle == BundleOf(a, spendProof) && core.checkpointHash == a.checkpointHash
    requires CheckSpendProof(ctx, Lenient(), core, bundle)
    ensures Vouches(ctx, Evidence(Lenient(), None, None, 1), bundle, a, core, None)
  {
    hide CheckSpendProof, Apart, Left, Right;
  }

  lemma NothingSince(ctx: Context, e: Evidence, bill: Bill, given: Option<ProofBundle>)
    requires CheckAnchor(ctx, e, bill, given).Ok? && bill.recentTransfers == []
    ensures VerifyBillState(ctx, e, bill, given) == Ok(bill.checkpointCore.Tip())
  {
    hide VerifyBundle, CheckBundleRef;
  }

  /** A bill that archived one transfer from the start, with the bundle that anchors it. */
  lemma Compacted(timestamp: nat, spendProof: bytes) returns (bill: Bill, bundle: ProofBundle)
    requires timestamp == if spendProof == [] then 1 else 2
    ensures var e := Evidence(Lenient(), None, None, 1);
      && VerifyBillState(Here(Apart(), 100), e, bill, Some(bundle)).Ok? && bill.tokenId == TOKEN_A
      && bill.recentTransfers == [] && FullHistory(e, bill, Some(bundle)) == [Signed(TOKEN_A, Start(), timestamp)]
  {
    hide CheckBody, CheckHeader, VerifyBundle, CreateBill, CheckAnchor, Here, Lenient, Signed, Apart, Connected;
    var ctx, e := Here(Apart(), 100), Evidence(Lenient(), None, None, 1);
    var a;
    a, bundle := ProvenStart(timestamp, spendProof);
    ProvenSegmentMakesBill(ctx, e, a, bundle, []);
    bill := CreateBill(ctx, e, a.genesisRef, CheckBody(ctx, a).value, bundle, []).value;
    AnchorRestsOnArchive(ctx, e, bill, Some(bundle));
    assert ArchiveOf(e, bill, Some(bundle)) == [a];
    assert History([a]) == History([]) + a.transfers;
    NothingSince(ctx, e, bill, Some(bundle));
  }

  lemma HashApart()
    requires TransferFits(Left()) && TransferFits(Right())
    ensures Apart()(TransferPreimage(Left())) != Apart()(TransferPreimage(Right()))
  {
    hide TransferPreimage, TransferFits;
    if TransferPreimage(Left()) == TransferPreimage(Right()) {
      TransferPreimageInjective(Left(), Right());
    }
    assert ZERO_HASH[0] != TOKEN_B[0];
  }

  lemma LeftOrRight()
    ensures Conflicting(Here(Apart(), 100), Left(), Right())
  {
    hide TransferPreimage, Encodable, ValidSignature, Apart, Then, Here, CanStep, Start, TransferFits;
    StartCanStep(1);
    StartCanStep(2);
    StepsOn(Apart(), 100, TOKEN_A, Start(), 1);
    StepsOn(Apart(), 100, TOKEN_A, Start(), 2);
    SuiteOf();
    EncodableFits(Yes(Apart()), Here(Apart(), 100), Left());
    EncodableFits(Yes(Apart()), Here(Apart(), 100), Right());
    HashApart();
    HashesOf(Left(), Left().Spends());
    HashesOf(Right(), Right().Spends());
  }

  lemma SuiteOf()
    ensures Here(Apart(), 100).suite == Standard(Yes(Apart()))
  {
  }

  /** Two accepted bills whose histories are one double spend, provable from its two transfers, but
      compacted away: a search of the bills finds nothing. */
  lemma CompactedForkIsMissed() returns (a: Bill, b: Bill, givenA: ProofBundle, givenB: ProofBundle)
    ensures var ctx, e := Here(Apart(), 100), Evidence(Lenient(), None, None, 1);
      && FullHistory(e, a, Some(givenA)) == [Left()] && FullHistory(e, b, Some(givenB)) == [Right()]
      && Conflicting(ctx, Left(), Right())
      && CreateProofFromBills(ctx, e, a, b, Some(givenA), Some(givenB), 0) == Err(NotAConflict)
  {
    hide VerifyBillState, Conflicting, FullHistory, CreateProof, Here, Lenient;
    a, givenA := Compacted(1, []);
    b, givenB := Compacted(2, [0]);
    LeftOrRight();
  }

  // ------------------------------------------------------------------- seen keys

  /** A key added, discarded and added again in a set of one place is dropped by its own second add. */
  lemma AddedAndGone(v: string)
    ensures var s := ApplyAll(Seen({}, []), 1, [Add(v), Discard(v)]);
      && s.Valid(1) && v !in s.items && v !in s.Added(1, v).items
  {
    var ops := [Add(v), Discard(v)];
    assert ops[..1] == [Add(v)] && [Add(v)][..0] == [];
    assert ApplyAll(Seen({}, []), 1, [Add(v)]) == Seen({v}, [v]);
    assert ApplyAll(Seen({}, []), 1, ops) == Seen({}, [v]);
  }
}
