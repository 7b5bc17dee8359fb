/** Bills: a checkpoint, the proof bundle that anchors it, and the transfers made since. */
module Bills {
  import opened Wrappers
  import opened Binary
  import opened Objects
  import opened Commitments
  import opened Replay
  import opened Segments
  import opened Bundles

  /** The reference a bill carries points at this bundle, its log and its root. */
  function CheckBundleRef(ctx: Context, log: Log, ref: ProofBundleRef, b: ProofBundle): Result<()> {
    if ref.networkId != ctx.networkId then Err(WrongNetwork) else
    :- Require(ref.bundleHash == b.bundleHash && BundleHash(log, b) == Some(ref.bundleHash), HashMismatch);
    :- Require(ref.logId == b.logId == b.signedRoot.logId, BadRoot);
    :- Require(ref.signedRootHash == log.rootId(b.signedRoot) && ref.treeSize == b.signedRoot.treeSize, BadRoot);
    :- Require(ref.algorithm == PROOF_BUNDLE_ALGORITHM, Malformed);
    Ok(())
  }

  /** What is checked about a bill without looking at any proof. */
  function CheckBill(ctx: Context, bill: Bill): Result<()> {
    if bill.networkId != ctx.networkId then Err(WrongNetwork) else
    :- Require(ValidGenesisRef(ctx, bill.genesisRef), Malformed);
    :- Require(ValidCheckpointCore(ctx.suite, ctx.networkId, bill.checkpointCore), Malformed);
    :- Require(bill.value >= 1 && bill.value == bill.checkpointCore.value, ValueMismatch);
    :- Require(IssueIndexMatches(ctx.suite, bill.checkpointCore.displayId, bill.value, bill.genesisRef.issueIndex),
               DisplayIdMismatch);
    Ok(())
  }

  /** The bundle handed over with the bill, or else the one resolved by its hash. */
  function ChosenBundle(e: Evidence, bill: Bill, given: Option<ProofBundle>): Option<ProofBundle> {
    if given.Some? then given
    else if e.bundles.Some? && bill.proofBundleRef.bundleHash in e.bundles.value
    then Some(e.bundles.value[bill.proofBundleRef.bundleHash])
    else None
  }

  /** Everything short of the recent transfers: the bill's checkpoint is the one its bundle proves. */
  function CheckAnchor(ctx: Context, e: Evidence, bill: Bill, given: Option<ProofBundle>): Result<()> {
    var core := bill.checkpointCore;
    var _ :- CheckBill(ctx, bill);
    var bundle := ChosenBundle(e, bill, given);
    :- Require(bundle.Some?, MissingPrevious);
    var _ :- CheckBundleRef(ctx, e.log, bill.proofBundleRef, bundle.value);
    var proven :- VerifyBundle(ctx, e, bundle.value, Some(core.checkpointHash), {});
    :- Require(proven.(networkId := core.networkId) == core, CheckpointMismatch);
    :- Require(bill.tokenId == proven.tokenId, WrongToken);
    :- Require(bill.genesisRef.genesisHash == proven.genesisHash, CheckpointMismatch);
    Ok(())
  }

  /** The full verification: anchor the checkpoint, then replay what came after it. */
  function VerifyBillState(ctx: Context, e: Evidence, bill: Bill, given: Option<ProofBundle>): Result<State> {
    var _ :- CheckAnchor(ctx, e, bill, given);
    Verifier(ctx, bill.tokenId).Replay(bill.checkpointCore.Tip(), bill.recentTransfers)
  }

  /** What accepting a bill tells its holder: a state of the face value the bill shows, whose display id
      names that value and the issue index, after as many transfers as it counts. */
  lemma AcceptedBillShows(ctx: Context, e: Evidence, bill: Bill, given: Option<ProofBundle>)
    requires VerifyBillState(ctx, e, bill, given).Ok?
    ensures var s := VerifyBillState(ctx, e, bill, given).value;
      && s.value == bill.value >= 1
      && ctx.suite.displayIdParts(s.displayId) == Some((bill.value, bill.genesisRef.issueIndex))
      && s.sequence == bill.checkpointCore.sequence + |bill.recentTransfers| >= 1
      && (forall t :: t in bill.recentTransfers ==> t.tokenId == bill.tokenId && t.networkId == bill.networkId)
      && bill.genesisRef.genesisHash == bill.checkpointCore.genesisHash && bill.tokenId == bill.checkpointCore.tokenId
      && bill.networkId == ctx.networkId == bill.checkpointCore.networkId
      && ctx.suite.genesisTrusted(bill.genesisRef.manifestHash)
  {
    hide VerifyBundle, CheckBundleRef, Link;
    var r := Verifier(ctx, bill.tokenId);
    AcceptedEnd(r, bill.checkpointCore.Tip(), bill.recentTransfers);
    forall t | t in bill.recentTransfers
      ensures t.tokenId == bill.tokenId && t.networkId == ctx.networkId
    {
      var i :| 0 <= i < |bill.recentTransfers| && bill.recentTransfers[i] == t;
      AcceptedAt(r, bill.checkpointCore.Tip(), bill.recentTransfers, i);
    }
  }

  // --------------------------------------------------- compact bills and full histories

  /** The archived chain an anchored bill rests on. */
  function ArchiveOf(e: Evidence, bill: Bill, given: Option<ProofBundle>): seq<ArchiveSegment> {
    var bundle := ChosenBundle(e, bill, given);
    if bundle.None? || SourceSegment(e, bundle.value.source).None? then []
    else Ancestry(SourceSegment(e, bundle.value.source).value, None, e.segments, e.depth)
  }

  /** The state a bill's archive starts from. */
  function FirstState(e: Evidence, bill: Bill, given: Option<ProofBundle>): Option<State> {
    if ArchiveOf(e, bill, given) == [] then None else Some(ArchiveOf(e, bill, given)[0].baseState)
  }

  /** The bundles behind a bill, oldest first. */
  function ProofsOf(e: Evidence, bill: Bill, given: Option<ProofBundle>): seq<ProofBundle> {
    var bundle := ChosenBundle(e, bill, given);
    if bundle.None? then [] else BundlePath(e, bundle.value, {})
  }

  /** An anchored bill rests on a connected chain whose last checkpoint is the bill's own. */
  lemma AnchorRestsOnArchive(ctx: Context, e: Evidence, bill: Bill, given: Option<ProofBundle>)
    requires CheckAnchor(ctx, e, bill, given).Ok?
    ensures var chain := ArchiveOf(e, bill, given);
      && Connected(ctx, chain) && CheckBody(ctx, Last(chain)) == Ok(bill.checkpointCore)
      && Last(chain).tokenId == bill.tokenId && Last(chain).genesisRef.genesisHash == bill.genesisRef.genesisHash
  {
    hide CheckBody, VerifyBundle, SourceCore, CheckBundleRef;
    var bundle := ChosenBundle(e, bill, given).value;
    BundleFacts(ctx, e, bundle, Some(bill.checkpointCore.checkpointHash), {});
    SourceSelfHashed(ctx, e, bundle.source);
    SourceHasSegment(ctx, e, bundle.source);
    BodyCheckpoint(ctx, SourceSegment(e, bundle.source).value);
  }

  lemma SourceHasSegment(ctx: Context, e: Evidence, s: Source)
    requires SourceCore(ctx, e, s).Ok?
    ensures SourceSegment(e, s).Some?
  {
    hide VerifySegment;
  }

  /** Verifying a compact bill is replaying its whole history. Once the checkpoint is anchored, the
      archive starts at sequence zero on the genesis hash its first segment names and tiles every sequence
      up to the checkpoint; and if its segments name the bill's token, the verdict on the bill is the verdict,
      failures included, on all archived transfers followed by the recent ones. */
  lemma CompactIsFull(ctx: Context, e: Evidence, bill: Bill, given: Option<ProofBundle>)
    requires CheckAnchor(ctx, e, bill, given).Ok?
    ensures var chain := ArchiveOf(e, bill, given);
      && Connected(ctx, chain) && StartsAtGenesis(chain[0]) && Tiles(chain)
      && |History(chain)| == bill.checkpointCore.sequence
      && (SameToken(chain, bill.tokenId) ==>
            VerifyBillState(ctx, e, bill, given)
              == Verifier(ctx, bill.tokenId).Replay(chain[0].baseState, History(chain) + bill.recentTransfers))
  {
    hide CheckBody, CheckAnchor;
    var chain := ArchiveOf(e, bill, given);
    AnchorRestsOnArchive(ctx, e, bill, given);
    ConnectedTiles(ctx, chain);
    ConnectedLength(ctx, chain);
    if SameToken(chain, bill.tokenId) {
      LinkedReplays(ctx, chain);
      ReplayComposes(Verifier(ctx, bill.tokenId), chain[0].baseState, History(chain), bill.recentTransfers);
    }
  }

  /** No check compares the genesis a bill names with the one its archive starts on: they are the same
      exactly when the first archived segment names the bill's genesis. */
  lemma StartsOnBillsGenesisIff(ctx: Context, e: Evidence, bill: Bill, given: Option<ProofBundle>)
    requires CheckAnchor(ctx, e, bill, given).Ok?
    ensures var chain := ArchiveOf(e, bill, given);
      && chain != [] && History(chain) != []
      && (History(chain)[0].previousHash == bill.genesisRef.genesisHash
          <==> chain[0].genesisRef.genesisHash == bill.genesisRef.genesisHash)
  {
    hide CheckBody, CheckAnchor, Linked;
    var chain := ArchiveOf(e, bill, given);
    AnchorRestsOnArchive(ctx, e, bill, given);
    StartsOnNamedGenesisIff(ctx, chain);
    BodyCheckpoint(ctx, Last(chain));
  }

  /** Over the whole history of an accepted bill, archived and recent, at most ten transfers fall on any
      UTC day and timestamps strictly increase, whatever tokens the archive names. */
  lemma BillDailyBound(ctx: Context, e: Evidence, bill: Bill, given: Option<ProofBundle>)
    requires VerifyBillState(ctx, e, bill, given).Ok?
    ensures var history := History(ArchiveOf(e, bill, given)) + bill.recentTransfers;
      && Chronological(history)
      && forall day :: CountOnDay(history, day) <= MAX_TRANSFERS_PER_BILL_PER_DAY
  {
    hide CheckBody, CheckAnchor, Link, Linked;
    var chain := ArchiveOf(e, bill, given);
    AnchorRestsOnArchive(ctx, e, bill, given);
    LinkedChronicle(ctx, chain);
    FoldKeepsChronicle(Verifier(ctx, bill.tokenId), bill.checkpointCore.Tip(), History(chain), bill.recentTransfers);
  }

  /** Every checkpoint behind an anchored bill is proven: one bundle for each archived segment, whose
      checkpoint it shows logged, mirrored and settled by the only transfer claimed for its spend, unless
      two of the checkpoints involved share a hash. */
  lemma ArchiveIsProven(ctx: Context, e: Evidence, bill: Bill, given: Option<ProofBundle>)
    requires CheckAnchor(ctx, e, bill, given).Ok?
    requires Distinguishes(ctx.suite, CoresInvolved(ctx, e, ProofsOf(e, bill, given), ArchiveOf(e, bill, given)))
    ensures var path, chain := ProofsOf(e, bill, given), ArchiveOf(e, bill, given);
      |path| == |chain| && forall i :: 0 <= i < |chain| ==> ProvesSegment(ctx, e, path[i], chain[i])
  {
    hide CheckBody, SourceCore, Proven, ProvenPath, Linked, Distinguishes, VerifyBundle, CheckBundleRef, CoresInvolved;
    AnchorRestsOnArchive(ctx, e, bill, given);
    var bundle := ChosenBundle(e, bill, given).value;
    BundleFacts(ctx, e, bundle, Some(bill.checkpointCore.checkpointHash), {});
    AncestorsProven(ctx, e, bundle, Some(bill.checkpointCore.checkpointHash), {});
    AnchorDerivesCore(ctx, e, bill, given);
    PathProvesChain(ctx, e, ProofsOf(e, bill, given), ArchiveOf(e, bill, given));
  }

  /** No spend behind an anchored bill is contested: each archived segment's last transfer is the only one
      that the log holds a claim for under that spend, unless two of the checkpoints share a hash. */
  lemma ArchiveIsUncontested(ctx: Context, e: Evidence, bill: Bill, given: Option<ProofBundle>, i: nat)
    requires CheckAnchor(ctx, e, bill, given).Ok? && i < |ProofsOf(e, bill, given)|
    requires Distinguishes(ctx.suite, CoresInvolved(ctx, e, ProofsOf(e, bill, given), ArchiveOf(e, bill, given)))
    ensures var path, chain := ProofsOf(e, bill, given), ArchiveOf(e, bill, given);
      && |path| == |chain| && chain[i].transfers != [] && Claims(ctx, e, path[i]).Some?
      && Claims(ctx, e, path[i]).value != []
      && forall x :: x in Claims(ctx, e, path[i]).value ==>
           x.transferHash == ctx.suite.transferHash(Last(chain[i].transfers))
  {
    hide CheckBody, CheckHeader, CheckAnchor, SourceCore, Linked, Distinguishes, CoresInvolved, LedTo, Link;
    var path, chain := ProofsOf(e, bill, given), ArchiveOf(e, bill, given);
    ArchiveIsProven(ctx, e, bill, given);
    AnchorRestsOnArchive(ctx, e, bill, given);
    assert ProvesSegment(ctx, e, path[i], chain[i]);
    ProvenUncontested(ctx, e, path[i]);
    LinkedTokens(ctx, chain, i);
    SegmentEnds(ctx, chain[i]);
  }

  /** A segment's checkpoint names its last transfer. */
  lemma SegmentEnds(ctx: Context, a: ArchiveSegment)
    requires CheckBody(ctx, a).Ok? && a.transfers != []
    ensures CheckBody(ctx, a).value.lastTransferHash == ctx.suite.transferHash(Last(a.transfers))
  {
    hide CheckBody;
    BodyReplays(ctx, a);
    AcceptedEnd(Verifier(ctx, a.tokenId), a.baseState, a.transfers);
  }

  lemma AnchorDerivesCore(ctx: Context, e: Evidence, bill: Bill, given: Option<ProofBundle>)
    requires CheckAnchor(ctx, e, bill, given).Ok?
    ensures ChosenBundle(e, bill, given).Some?
    ensures SourceCore(ctx, e, ChosenBundle(e, bill, given).value.source) == Ok(bill.checkpointCore)
  {
    hide CheckBody, VerifyBundle, SourceCore, CheckBundleRef;
    var bundle := ChosenBundle(e, bill, given).value;
    BundleFacts(ctx, e, bundle, Some(bill.checkpointCore.checkpointHash), {});
    SourceSelfHashed(ctx, e, bundle.source);
    SourceHasSegment(ctx, e, bundle.source);
    BodyCheckpoint(ctx, SourceSegment(e, bundle.source).value);
  }

  /** In the standard suite that is a SHA3 collision between two of those checkpoints. */
  lemma ArchiveIsProvenOrCollides(p: Primitives, ctx: Context, e: Evidence, bill: Bill, given: Option<ProofBundle>)
    requires ctx.suite == Standard(p) && CheckAnchor(ctx, e, bill, given).Ok?
    ensures var path, chain := ProofsOf(e, bill, given), ArchiveOf(e, bill, given);
      || (|path| == |chain| && forall i :: 0 <= i < |chain| ==> ProvesSegment(ctx, e, path[i], chain[i]))
      || (exists x, y :: x in CoresInvolved(ctx, e, path, chain) && y in CoresInvolved(ctx, e, path, chain)
                      && Collides(p, CheckpointCorePreimage(Zeroed(x)), CheckpointCorePreimage(Zeroed(y))))
  {
    hide Standard, CheckAnchor, ProvesSegment, Distinguishes, CoresInvolved, CoreEncodable;
    var path, chain := ProofsOf(e, bill, given), ArchiveOf(e, bill, given);
    var cores := CoresInvolved(ctx, e, path, chain);
    InvolvedEncode(ctx, e, path, chain);
    forall x | x in cores
      ensures CoreFits(x)
    {
      EncodableCoreFits(p, x);
    }
    CoresDistinguished(p, cores);
    if Distinguishes(ctx.suite, cores) {
      ArchiveIsProven(ctx, e, bill, given);
    }
  }

  /** For a bill that is accepted, sharing one token is exactly what the whole replay needs. */
  lemma CompactIsFullIffOneToken(ctx: Context, e: Evidence, bill: Bill, given: Option<ProofBundle>)
    requires VerifyBillState(ctx, e, bill, given).Ok?
    ensures var chain := ArchiveOf(e, bill, given);
      && Connected(ctx, chain)
      && (SameToken(chain, bill.tokenId) <==>
            Verifier(ctx, bill.tokenId).Replay(chain[0].baseState, History(chain) + bill.recentTransfers)
              == VerifyBillState(ctx, e, bill, given))
  {
    hide CheckBody, CheckAnchor, Link;
    var chain := ArchiveOf(e, bill, given);
    AnchorRestsOnArchive(ctx, e, bill, given);
    CompactIsFull(ctx, e, bill, given);
    ReplayComposes(Verifier(ctx, bill.tokenId), chain[0].baseState, History(chain), bill.recentTransfers);
    if Verifier(ctx, bill.tokenId).Replay(chain[0].baseState, History(chain)).Ok? {
      ReplayedChainKeepsToken(ctx, bill.tokenId, chain);
    }
  }

  /** Where a history is cut between archive and bill does not matter: two anchored bills whose
      histories from one base are the same list get the same verdict. */
  lemma CompactionInvariant(ctx: Context, e1: Evidence, b1: Bill, g1: Option<ProofBundle>,
                            e2: Evidence, b2: Bill, g2: Option<ProofBundle>)
    requires CheckAnchor(ctx, e1, b1, g1).Ok? && CheckAnchor(ctx, e2, b2, g2).Ok? && b1.tokenId == b2.tokenId
    requires SameToken(ArchiveOf(e1, b1, g1), b1.tokenId) && SameToken(ArchiveOf(e2, b2, g2), b2.tokenId)
    requires FirstState(e1, b1, g1) == FirstState(e2, b2, g2)
    requires History(ArchiveOf(e1, b1, g1)) + b1.recentTransfers == History(ArchiveOf(e2, b2, g2)) + b2.recentTransfers
    ensures VerifyBillState(ctx, e1, b1, g1) == VerifyBillState(ctx, e2, b2, g2)
  {
    hide CheckAnchor, VerifyBillState, Link;
    CompactIsFull(ctx, e1, b1, g1);
    CompactIsFull(ctx, e2, b2, g2);
  }

  /** The other way round: archive any history block by block, put the last checkpoint and anything
      after it in a bill, and once anchored the bill means what the uncut history means. */
  lemma CompactedBillReplays(ar: Archiver, e: Evidence, bill: Bill, given: Option<ProofBundle>,
                             base: State, blocks: seq<seq<Transfer>>, chain: seq<ArchiveSegment>)
    requires blocks != [] && ar.BuildChain(base, blocks, None) == Ok(chain) && chain != []
    requires bill.tokenId == ar.tokenId
    requires CheckBody(ar.ctx, Last(chain)) == Ok(bill.checkpointCore)
    requires CheckAnchor(ar.ctx, e, bill, given).Ok?
    ensures VerifyBillState(ar.ctx, e, bill, given)
         == Verifier(ar.ctx, ar.tokenId).Replay(base, Flatten(blocks) + bill.recentTransfers)
  {
    hide CheckBody, CheckAnchor, MakeSegment, Link;
    CutTips(ar, base, blocks, None, |blocks| - 1);
    assert blocks[..|blocks|] == blocks;
    ReplayComposes(Verifier(ar.ctx, ar.tokenId), base, Flatten(blocks), bill.recentTransfers);
  }

  /** The reference a bundle's holder puts in a bill. */
  function BundleRef(log: Log, b: ProofBundle): ProofBundleRef {
    ProofBundleRef(b.networkId, b.logId, log.rootId(b.signedRoot), b.signedRoot.treeSize, b.algorithm, b.bundleHash)
  }

  /** A bill made from a checkpoint its bundle proves. */
  function CreateBill(ctx: Context, e: Evidence, genesisRef: GenesisRef, core: CheckpointCore, b: ProofBundle,
                      recent: seq<Transfer>): Result<Bill> {
    if !(ValidGenesisRef(ctx, genesisRef) && ValidCheckpointCore(ctx.suite, ctx.networkId, core))
    then Err(Malformed) else
    :- Require(IssueIndexMatches(ctx.suite, core.displayId, core.value, genesisRef.issueIndex), DisplayIdMismatch);
    :- Require(genesisRef.genesisHash == core.genesisHash, CheckpointMismatch);
    var proven :- VerifyBundle(ctx, e, b, Some(core.checkpointHash), {});
    :- Require(proven.(networkId := core.networkId) == core, CheckpointMismatch);
    Ok(Bill(ctx.networkId, core.tokenId, core.value, genesisRef, core, BundleRef(e.log, b), recent))
  }

  /** A reference is accepted for a bundle exactly when the bundle is consistent in itself and the
      reference is the one made from it, for this network and algorithm. */
  lemma ReferenceIsExact(ctx: Context, log: Log, ref: ProofBundleRef, b: ProofBundle)
    ensures CheckBundleRef(ctx, log, ref, b).Ok? <==>
      && b.logId == b.signedRoot.logId && BundleHash(log, b) == Some(b.bundleHash)
      && ref == BundleRef(log, b).(networkId := ctx.networkId, algorithm := PROOF_BUNDLE_ALGORITHM)
  {
  }

  /** A bundle anchors exactly the bills that are created with it. */
  lemma AnchoredIffCreated(ctx: Context, e: Evidence, bill: Bill, b: ProofBundle)
    ensures CheckAnchor(ctx, e, bill, Some(b)).Ok? <==>
              CreateBill(ctx, e, bill.genesisRef, bill.checkpointCore, b, bill.recentTransfers) == Ok(bill)
  {
    hide SourceCore, CheckSpendProof, VerifySource, CheckBundleRef, VerifyBundle;
    if VerifyBundle(ctx, e, b, Some(bill.checkpointCore.checkpointHash), {}).Ok? {
      BundleFacts(ctx, e, b, Some(bill.checkpointCore.checkpointHash), {});
      ReferenceIsExact(ctx, e.log, bill.proofBundleRef, b);
    }
  }

  /** End to end, with honest evidence: a history accepted from genesis, cut anywhere, archived, logged
      and compacted into a bill is accepted exactly when the whole history is, and means the same. */
  lemma HonestBillIsFull(ar: Archiver, e: Evidence, base: State, blocks: seq<seq<Transfer>>, chain: seq<ArchiveSegment>,
                         bundles: seq<ProofBundle>, recent: seq<Transfer>)
    requires ar.BuildChain(base, blocks, None) == Ok(chain) && e.segments.Some?
    requires Attaches(ar, base, None, e.segments.value, 0) && Holds(e.segments.value, chain)
    requires Vouched(ar.ctx, e, bundles, chain) && 0 < |blocks| == |chain| <= e.depth
    ensures CheckBody(ar.ctx, Last(chain)).Ok?
    ensures var core := CheckBody(ar.ctx, Last(chain)).value;
      var bill := CreateBill(ar.ctx, e, ar.genesisRef, core, Last(bundles), recent);
      && bill.Ok?
      && VerifyBillState(ar.ctx, e, bill.value, Some(Last(bundles)))
           == Verifier(ar.ctx, ar.tokenId).Replay(base, Flatten(blocks) + recent)
  {
    hide CheckBody, CheckHeader, CheckAnchor, VerifyBundle, VerifySegment, Vouched, Holds, CreateBill, VerifyBillState,
      Archiver.BuildChain, Flatten, Attaches;
    var n := |blocks| - 1;
    forall i | 0 <= i < |chain|
      ensures ArchivedAt(ar.ctx, e, chain, i)
    {
      BuiltIsArchived(ar, e, base, blocks, chain, i);
    }
    BuiltIsArchived(ar, e, base, blocks, chain, n);
    LastVouchedVerifies(ar.ctx, e, chain, bundles);
    ProvenSegmentMakesBill(ar.ctx, e, chain[n], Last(bundles), recent);
    var bill := CreateBill(ar.ctx, e, ar.genesisRef, CheckBody(ar.ctx, chain[n]).value, Last(bundles), recent).value;
    CompactedBillReplays(ar, e, bill, Some(Last(bundles)), base, blocks, chain);
  }

  lemma LastVouchedVerifies(ctx: Context, e: Evidence, chain: seq<ArchiveSegment>, bundles: seq<ProofBundle>)
    requires chain != [] && Vouched(ctx, e, bundles, chain)
    requires forall i :: 0 <= i < |chain| ==> ArchivedAt(ctx, e, chain, i)
    ensures bundles != [] && ArchivedAt(ctx, e, chain, |chain| - 1)
    ensures VerifyBundle(ctx, e, Last(bundles), Some(CheckBody(ctx, Last(chain)).value.checkpointHash), {})
         == CheckBody(ctx, Last(chain))
  {
    hide CheckBody, VerifyBundle, VouchedAt;
    VouchedChainVerifies(ctx, e, chain, bundles, {}, |chain| - 1);
  }

  /** A bundle that proves a segment's checkpoint makes a bill for it, anchored by that bundle. */
  lemma ProvenSegmentMakesBill(ctx: Context, e: Evidence, a: ArchiveSegment, b: ProofBundle, recent: seq<Transfer>)
    requires CheckHeader(ctx, a).Ok? && CheckBody(ctx, a).Ok?
    requires VerifyBundle(ctx, e, b, Some(CheckBody(ctx, a).value.checkpointHash), {}) == CheckBody(ctx, a)
    ensures var core := CheckBody(ctx, a).value;
      var bill := CreateBill(ctx, e, a.genesisRef, core, b, recent);
      && bill.Ok? && bill.value.tokenId == a.tokenId && bill.value.checkpointCore == core
      && bill.value.recentTransfers == recent && CheckAnchor(ctx, e, bill.value, Some(b)).Ok?
  {
    hide CheckBody, CheckHeader, VerifyBundle, CheckAnchor;
    BodyCheckpoint(ctx, a);
    HeaderMatchesCore(ctx, a);
    AnchoredIffCreated(ctx, e, CreateBill(ctx, e, a.genesisRef, CheckBody(ctx, a).value, b, recent).value, b);
  }

  /** The header's display id and value are the checkpoint's, and its genesis reference is valid. */
  lemma HeaderMatchesCore(ctx: Context, a: ArchiveSegment)
    requires CheckHeader(ctx, a).Ok? && CheckBody(ctx, a).Ok?
    ensures ValidGenesisRef(ctx, a.genesisRef)
    ensures var core := CheckBody(ctx, a).value;
      IssueIndexMatches(ctx.suite, core.displayId, core.value, a.genesisRef.issueIndex)
  {
  }

  // ------------------------------------------------------------------ the cached path

  /** The state of a locally cached bill, with neither proofs nor signatures checked again. */
  function CachedBillState(ctx: Context, bill: Bill): Result<State> {
    if CheckBill(ctx, bill).Err? then Err(CheckBill(ctx, bill).error) else
    :- Require(bill.tokenId == bill.checkpointCore.tokenId, WrongToken);
    :- Require(bill.genesisRef.genesisHash == bill.checkpointCore.genesisHash, CheckpointMismatch);
    Replayer(ctx, bill.tokenId, false).Replay(bill.checkpointCore.Tip(), bill.recentTransfers)
  }

  /** The cached path accepts every bill the full path accepts, with the same state; what it skips is
      exactly the anchor and the signatures. */
  lemma CachedAgrees(ctx: Context, e: Evidence, bill: Bill, given: Option<ProofBundle>)
    ensures VerifyBillState(ctx, e, bill, given).Ok? <==>
              && CachedBillState(ctx, bill).Ok? && CheckAnchor(ctx, e, bill, given).Ok?
              && forall t :: t in bill.recentTransfers ==> ValidSignature(ctx.suite, t)
    ensures VerifyBillState(ctx, e, bill, given).Ok? ==>
              CachedBillState(ctx, bill) == VerifyBillState(ctx, e, bill, given)
  {
    hide VerifyBundle, CheckBundleRef, Link;
    UnsignedFoldAgrees(Verifier(ctx, bill.tokenId), bill.checkpointCore.Tip(), bill.recentTransfers);
  }

  // ---------------------------------------------------------------- making transfers

  /** What a holder decides, with the key's signing function. */
  datatype Order = Order(
    publicKey: Hash,
    recipient: bytes,
    metadata: bytes,
    timestamp: nat,
    sign: Transfer -> bytes)

  function Max(a: nat, b: nat): nat {
    if a < b then b else a
  }

  function DraftTransfer(ctx: Context, tokenId: Hash, s: State, o: Order): Transfer {
    Transfer(ctx.networkId, SIGNATURE_ALGORITHM_ID, tokenId, s.sequence + 1, s.lastTransferHash,
             ctx.suite.addressOf(o.publicKey), o.publicKey, o.recipient,
             Max(o.timestamp, s.lastTransferTimestamp + 1), o.metadata, [])
  }

  /** One signed transfer extending a state; the timestamp is pushed past the last one. */
  function CreateTransferFromState(ctx: Context, tokenId: Hash, s: State, o: Order,
                                   verifySignature: bool): Result<Transfer> {
    if !(ValidState(ctx.suite, s)) then Err(Malformed) else
    :- Require(ctx.suite.addressOf(o.publicKey) == s.ownerAddress, NotTheOwner);
    var draft := DraftTransfer(ctx, tokenId, s, o);
    :- Require(ValidShape(ctx, draft), Malformed);
    :- Require(InRange(draft), NotEncodable);
    var signed := draft.(signature := o.sign(draft));
    :- Require(if verifySignature then ValidSignature(ctx.suite, signed) else SignatureShape(signed), BadSignature);
    :- Require(SignatureShape(signed), BadSignature);
    Ok(signed)
  }

  predicate DayHasRoom(s: State, timestamp: nat) {
    DayOf(timestamp) == s.lastTransferDay ==> s.transfersInLastDay < MAX_TRANSFERS_PER_BILL_PER_DAY
  }

  /** A transfer made from a state extends that state: the only thing that can still refuse it is the
      daily limit. */
  lemma CreatedExtends(ctx: Context, tokenId: Hash, s: State, o: Order, verifySignature: bool)
    requires CreateTransferFromState(ctx, tokenId, s, o, verifySignature).Ok?
    ensures var t := CreateTransferFromState(ctx, tokenId, s, o, verifySignature).value;
      var step := Replayer(ctx, tokenId, verifySignature).Step(s, t);
      if DayHasRoom(s, t.timestamp)
      then
        && step.Ok? && step.value.ownerAddress == o.recipient
        && step.value.lastTransferHash == ctx.suite.transferHash(t)
      else step == Err(DailyLimit)
  {
  }

  /** What the holder ordered is what is made: the recipient, the metadata, and the date, pushed past the last
      transfer if it is not later. */
  lemma CreatedAsOrdered(ctx: Context, tokenId: Hash, s: State, o: Order, verifySignature: bool)
    requires CreateTransferFromState(ctx, tokenId, s, o, verifySignature).Ok?
    ensures var t := CreateTransferFromState(ctx, tokenId, s, o, verifySignature).value;
      && t.recipientAddress == o.recipient && t.metadata == o.metadata && t.senderPublicKey == o.publicKey
      && t.senderAddress == s.ownerAddress == ctx.suite.addressOf(o.publicKey)
      && t.tokenId == tokenId && t.networkId == ctx.networkId && t.sequence == s.sequence + 1
      && t.previousHash == s.lastTransferHash && t.signature == o.sign(t.(signature := []))
      && t.timestamp == if o.timestamp > s.lastTransferTimestamp then o.timestamp else s.lastTransferTimestamp + 1
  {
    var draft := DraftTransfer(ctx, tokenId, s, o);
    assert draft.(signature := o.sign(draft)).(signature := []) == draft;
  }

  /** An order dated on a later day than the last transfer is never stopped by the daily limit. */
  lemma FreshDayHasRoom(ctx: Context, tokenId: Hash, s: State, o: Order, verifySignature: bool)
    requires CreateTransferFromState(ctx, tokenId, s, o, verifySignature).Ok?
    requires o.timestamp > s.lastTransferTimestamp && DayOf(o.timestamp) != s.lastTransferDay
    ensures var t := CreateTransferFromState(ctx, tokenId, s, o, verifySignature).value;
      && t.timestamp == o.timestamp
      && Replayer(ctx, tokenId, verifySignature).Step(s, t).Ok?
      && Replayer(ctx, tokenId, verifySignature).Step(s, t).value.transfersInLastDay == 1
  {
    CreatedAsOrdered(ctx, tokenId, s, o, verifySignature);
    CreatedExtends(ctx, tokenId, s, o, verifySignature);
  }

  function Append(bill: Bill, t: Transfer): Bill {
    bill.(recentTransfers := bill.recentTransfers + [t])
  }

  /** The full path: verify the bill, make the transfer, verify the new bill. */
  function CreateTransfer(ctx: Context, e: Evidence, bill: Bill, given: Option<ProofBundle>, o: Order): Result<Bill> {
    var state :- VerifyBillState(ctx, e, bill, given);
    var t :- CreateTransferFromState(ctx, bill.tokenId, state, o, true);
    var _ :- VerifyBillState(ctx, e, Append(bill, t), given);
    Ok(Append(bill, t))
  }

  /** The cached path: one transfer replayed on a state the caller may already hold. */
  function CreateTransferFromCachedBill(ctx: Context, bill: Bill, o: Order,
                                        cached: Option<State>): Result<(Bill, State)> {
    var state :- if cached.Some? then Ok(cached.value) else CachedBillState(ctx, bill);
    var t :- CreateTransferFromState(ctx, bill.tokenId, state, o, false);
    var after :- Replayer(ctx, bill.tokenId, false).Replay(state, [t]);
    Ok((Append(bill, t), after))
  }

  /** Appending to a bill changes nothing but the replay. */
  lemma AppendedState(ctx: Context, bill: Bill, t: Transfer)
    ensures CachedBillState(ctx, Append(bill, t)) == match CachedBillState(ctx, bill)
                                                     case Ok(s) => Replayer(ctx, bill.tokenId, false).Step(s, t)
                                                     case Err(err) => Err(err)
  {
    hide Link;
    var r := Replayer(ctx, bill.tokenId, false);
    var tip := bill.checkpointCore.Tip();
    FoldComposes(r, tip, bill.recentTransfers, [t]);
    if r.Fold(tip, bill.recentTransfers).Ok? {
      SingleFold(r, r.Fold(tip, bill.recentTransfers).value, t);
    }
  }

  lemma SingleFold(r: Replayer, s: State, t: Transfer)
    ensures r.Fold(s, [t]) == r.Step(s, t)
  {
    hide Link;
    assert [t][1..] == [];
  }

  /** Replaying one transfer on the right cached state gives what a full cached replay of the new bill
      gives, whether or not the caller supplied that state. */
  lemma CachedCreationAgrees(ctx: Context, bill: Bill, o: Order, cached: Option<State>)
    requires cached.Some? ==> CachedBillState(ctx, bill) == Ok(cached.value)
    ensures CreateTransferFromCachedBill(ctx, bill, o, cached) == CreateTransferFromCachedBill(ctx, bill, o, None)
    ensures var made := CreateTransferFromCachedBill(ctx, bill, o, cached);
      made.Ok? ==> CachedBillState(ctx, made.value.0) == Ok(made.value.1)
    ensures CachedBillState(ctx, bill).Ok?
            && CreateTransferFromState(ctx, bill.tokenId, CachedBillState(ctx, bill).value, o, false).Ok? ==>
              var t := CreateTransferFromState(ctx, bill.tokenId, CachedBillState(ctx, bill).value, o, false).value;
              match CreateTransferFromCachedBill(ctx, bill, o, cached)
              case Ok(made) => made.0 == Append(bill, t)
              case Err(err) => err == DailyLimit && CachedBillState(ctx, Append(bill, t)) == Err(DailyLimit)
  {
    hide Link, CheckBill;
    if CachedBillState(ctx, bill).Ok? {
      var s := CachedBillState(ctx, bill).value;
      var made := CreateTransferFromState(ctx, bill.tokenId, s, o, false);
      if made.Ok? {
        CreatedExtends(ctx, bill.tokenId, s, o, false);
        AppendedState(ctx, bill, made.value);
        SingleFold(Replayer(ctx, bill.tokenId, false), s, made.value);
      }
    }
  }

  /** The full path and the cached path make the same bill, in the same state; after the first
      verification only the daily limit can stop the full one. */
  lemma FullCreationAgrees(ctx: Context, e: Evidence, bill: Bill, given: Option<ProofBundle>, o: Order)
    ensures var made := CreateTransfer(ctx, e, bill, given, o);
      made.Ok? ==>
        && CreateTransferFromCachedBill(ctx, bill, o, None).Ok?
        && CreateTransferFromCachedBill(ctx, bill, o, None).value.0 == made.value
        && VerifyBillState(ctx, e, made.value, given) == Ok(CreateTransferFromCachedBill(ctx, bill, o, None).value.1)
    ensures VerifyBillState(ctx, e, bill, given).Ok?
            && CreateTransferFromState(ctx, bill.tokenId, VerifyBillState(ctx, e, bill, given).value, o, true).Ok? ==>
              var s := VerifyBillState(ctx, e, bill, given).value;
              var t := CreateTransferFromState(ctx, bill.tokenId, s, o, true).value;
              CreateTransfer(ctx, e, bill, given, o)
                == if DayHasRoom(s, t.timestamp) then Ok(Append(bill, t)) else Err(DailyLimit)
  {
    hide CheckBill, VerifyBundle, CheckBundleRef, Link;
    if VerifyBillState(ctx, e, bill, given).Ok? {
      var s := VerifyBillState(ctx, e, bill, given).value;
      var made := CreateTransferFromState(ctx, bill.tokenId, s, o, true);
      CachedAgrees(ctx, e, bill, given);
      if made.Ok? {
        AppendedFullState(ctx, e, bill, given, made.value);
        CachedAgrees(ctx, e, Append(bill, made.value), given);
        CreatedExtends(ctx, bill.tokenId, s, o, true);
        CachedCreationAgrees(ctx, bill, o, None);
      }
    }
  }

  lemma AppendedFullState(ctx: Context, e: Evidence, bill: Bill, given: Option<ProofBundle>, t: Transfer)
    requires VerifyBillState(ctx, e, bill, given).Ok?
    ensures VerifyBillState(ctx, e, Append(bill, t), given)
         == Verifier(ctx, bill.tokenId).Step(VerifyBillState(ctx, e, bill, given).value, t)
  {
    hide VerifyBundle, CheckBundleRef, Link;
    var r := Verifier(ctx, bill.tokenId);
    assert CheckAnchor(ctx, e, Append(bill, t), given) == CheckAnchor(ctx, e, bill, given);
    FoldComposes(r, bill.checkpointCore.Tip(), bill.recentTransfers, [t]);
    SingleFold(r, VerifyBillState(ctx, e, bill, given).value, t);
  }
}
