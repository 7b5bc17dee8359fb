/** Proof bundles: a checkpoint is included under a signed root, its spend is unconflicted, and it
    derives from an archive segment whose own predecessor is proven the same way. */
module Bundles {
  import opened Wrappers
  import opened Binary
  import opened Objects
  import opened Replay
  import opened Segments

  const PROOF_BUNDLE_ALGORITHM: nat := 1
  const ARCHIVE_SEGMENT_SOURCE: bytes := Ascii("ind.archive_segment.v3")

  datatype SignedRoot = SignedRoot(logId: bytes, treeSize: nat, content: bytes)

  datatype Source = Source(
    networkId: nat,
    format: bytes,
    archiveSegmentHash: Hash,
    checkpointHash: Hash,
    previousBundleHash: Option<Hash>,
    embedded: Option<ArchiveSegment>)

  datatype ProofBundle = ProofBundle(
    networkId: nat,
    algorithm: nat,
    logId: bytes,
    checkpointHash: Hash,
    signedRoot: SignedRoot,
    inclusionProof: bytes,
    spendProof: bytes,
    source: Source,
    createdAt: nat,
    bundleHash: Hash)

  /** What a transparency log records about one spend. */
  datatype Claim = Claim(transferHash: Hash, tokenId: Hash, sequence: nat, spendKey: Hash, transfer: Option<Transfer>)

  /** The transparency log, left abstract: which operator key vouches for a root, what is included
      under it, whether it was mirrored, and the claims a spend-map proof opens. */
  datatype Log = Log(
    operatorKey: SignedRoot -> Option<bytes>,
    included: (Hash, bytes, SignedRoot, bytes) -> bool,
    mirrored: (SignedRoot, bytes) -> bool,
    claims: (bytes, SignedRoot, nat) -> Option<seq<Claim>>,
    rootId: SignedRoot -> Hash,
    bundleHash: ProofBundle -> Option<Hash>)

  type BundleStore = map<Hash, ProofBundle>

  datatype Evidence = Evidence(
    log: Log, segments: Option<SegmentStore>, bundles: Option<BundleStore>, depth: nat)

  function BundleHash(log: Log, b: ProofBundle): Option<Hash> {
    log.bundleHash(b.(bundleHash := ZERO_HASH))
  }

  /** The first claim for a transfer hash. */
  function FindClaim(claims: seq<Claim>, transferHash: Hash): Option<Claim> {
    if claims == [] then None
    else if claims[0].transferHash == transferHash then Some(claims[0])
    else FindClaim(claims[1..], transferHash)
  }

  /** The transfer a claim carries is the one that led to the checkpoint. */
  predicate Settles(ctx: Context, core: CheckpointCore, claim: Claim) {
    && claim.tokenId == core.tokenId && claim.sequence == core.sequence
    && claim.transfer.Some?
    && var t := claim.transfer.value;
       && Encodable(ctx, t) && ValidSignature(ctx.suite, t)
       && ctx.suite.transferHash(t) == core.lastTransferHash
       && claim.spendKey == ctx.suite.spendKey(t.Spends())
       && t.recipientAddress == core.ownerAddress
       && t.timestamp == core.lastTransferTimestamp
  }

  predicate CheckSpendProof(ctx: Context, log: Log, core: CheckpointCore, b: ProofBundle) {
    var claims := log.claims(b.spendProof, b.signedRoot, core.networkId);
    && claims.Some?
    && var claim := FindClaim(claims.value, core.lastTransferHash);
       && claim.Some? && Settles(ctx, core, claim.value)
       && forall c :: c in claims.value ==> c.transferHash == core.lastTransferHash
  }

  /** The checks a bundle passes before its source is opened. */
  function CheckBundle(ctx: Context, e: Evidence, b: ProofBundle, expected: Option<Hash>, seen: set<Hash>): Result<()> {
    if b.networkId != ctx.networkId then Err(WrongNetwork) else
    :- Require(b.algorithm == PROOF_BUNDLE_ALGORITHM, Malformed);
    :- Require(BundleHash(e.log, b) == Some(b.bundleHash), HashMismatch);
    :- Require(b.bundleHash !in seen, RecursionCycle);
    :- Require(expected.None? || b.checkpointHash == expected.value, CheckpointMismatch);
    :- Require(b.logId == b.signedRoot.logId, BadRoot);
    var key := e.log.operatorKey(b.signedRoot);
    :- Require(key.Some?, BadRoot);
    :- Require(e.log.included(b.checkpointHash, b.inclusionProof, b.signedRoot, key.value), BadInclusion);
    :- Require(e.log.mirrored(b.signedRoot, b.inclusionProof), BadRoot);
    Ok(())
  }

  /** The segment a bundle rests on: embedded, or resolved by its hash. */
  function SourceSegment(e: Evidence, s: Source): Option<ArchiveSegment> {
    if s.embedded.Some? then s.embedded
    else if e.segments.Some? && s.archiveSegmentHash in e.segments.value
    then Some(e.segments.value[s.archiveSegmentHash])
    else None
  }

  /** The checkpoint a bundle's segment chain derives. */
  function SourceCore(ctx: Context, e: Evidence, s: Source): Result<CheckpointCore> {
    if s.networkId != ctx.networkId || s.format != ARCHIVE_SEGMENT_SOURCE then Err(Malformed) else
    var segment := SourceSegment(e, s);
    :- Require(segment.Some?, MissingPrevious);
    :- Require(SegmentHash(ctx.suite, segment.value) == Some(s.archiveSegmentHash), HashMismatch);
    var core :- VerifySegment(ctx, segment.value, None, e.segments, None, e.depth);
    :- Require(s.checkpointHash == core.checkpointHash, CheckpointMismatch);
    Ok(core)
  }

  function Known(e: Evidence): set<Hash> {
    match e.bundles
    case None => {}
    case Some(bundles) => bundles.Keys
  }

  /** Verifies a bundle and, through it, every bundle behind it. The hashes already visited bound the
      recursion by the resolver's domain, so it ends over any resolver, cyclic or dishonest. */
  function VerifyBundle(ctx: Context, e: Evidence, b: ProofBundle, expected: Option<Hash>,
                        seen: set<Hash>): Result<CheckpointCore>
    decreases |Known(e) - (seen + {b.bundleHash})|, 1
  {
    var _ :- CheckBundle(ctx, e, b, expected, seen);
    var core :- VerifySource(ctx, e, b.source, seen + {b.bundleHash});
    :- Require(core.checkpointHash == b.checkpointHash, CheckpointMismatch);
    :- Require(CheckSpendProof(ctx, e.log, core, b), BadSpendProof);
    Ok(core)
  }

  function VerifySource(ctx: Context, e: Evidence, s: Source, seen: set<Hash>): Result<CheckpointCore>
    decreases |Known(e) - seen|, 0
  {
    var core :- SourceCore(ctx, e, s);
    if core.previousCheckpointHash.None? then
      :- Require(s.previousBundleHash.None?, MissingPrevious);
      Ok(core)
    else
      :- Require(s.previousBundleHash.Some? && e.bundles.Some?, MissingPrevious);
      var previousHash := s.previousBundleHash.value;
      :- Require(previousHash !in seen, RecursionCycle);
      :- Require(previousHash in e.bundles.value, MissingPrevious);
      var previous := e.bundles.value[previousHash];
      :- Require(previous.bundleHash == previousHash, HashMismatch);
      Shrinks(Known(e), seen, previousHash);
      var _ :- VerifyBundle(ctx, e, previous, core.previousCheckpointHash, seen);
      Ok(core)
  }

  lemma Shrinks(known: set<Hash>, seen: set<Hash>, h: Hash)
    requires h in known && h !in seen
    ensures |known - (seen + {h})| < |known - seen|
  {
    assert known - seen == (known - (seen + {h})) + {h};
  }

  // ------------------------------------------------------------ proven ancestries

  /** The bundle one step back along an accepted ancestry. */
  function PreviousBundle(e: Evidence, b: ProofBundle, seen: set<Hash>): Option<ProofBundle> {
    if b.source.previousBundleHash.None? || e.bundles.None? || b.source.previousBundleHash.value !in e.bundles.value
    then None
    else
      var previous := e.bundles.value[b.source.previousBundleHash.value];
      if previous.bundleHash == b.source.previousBundleHash.value && previous.bundleHash !in seen + {b.bundleHash}
      then Some(previous) else None
  }

  /** The bundles a verification visits, oldest first. */
  function BundlePath(e: Evidence, b: ProofBundle, seen: set<Hash>): seq<ProofBundle>
    decreases |Known(e) - (seen + {b.bundleHash})|
  {
    var previous := PreviousBundle(e, b, seen);
    if previous.None? then [b]
    else
      Shrinks(Known(e), seen + {b.bundleHash}, previous.value.bundleHash);
      BundlePath(e, previous.value, seen + {b.bundleHash}) + [b]
  }

  /** What one bundle proves about the checkpoint its source derives: it is included under a root an
      accepted operator signed, and the transfer it settled is the only one claimed for its spend. */
  predicate Proven(ctx: Context, e: Evidence, b: ProofBundle) {
    var core := SourceCore(ctx, e, b.source);
    var key := e.log.operatorKey(b.signedRoot);
    && core.Ok? && core.value.checkpointHash == b.checkpointHash
    && b.networkId == ctx.networkId && b.algorithm == PROOF_BUNDLE_ALGORITHM && b.logId == b.signedRoot.logId
    && BundleHash(e.log, b) == Some(b.bundleHash)
    && key.Some? && e.log.included(b.checkpointHash, b.inclusionProof, b.signedRoot, key.value)
    && e.log.mirrored(b.signedRoot, b.inclusionProof)
    && CheckSpendProof(ctx, e.log, core.value, b)
  }

  /** Every bundle on a path proves its checkpoint, each checkpoint names the one proven before it,
      and the first names none. */
  predicate ProvenPath(ctx: Context, e: Evidence, path: seq<ProofBundle>)
    decreases |path|
  {
    && path != [] && Proven(ctx, e, Last(path))
    && var core := SourceCore(ctx, e, Last(path).source).value;
       if |path| == 1 then core.previousCheckpointHash.None?
       else ProvenPath(ctx, e, Init(path)) && core.previousCheckpointHash == Some(Last(Init(path)).checkpointHash)
  }

  /** What acceptance says about one bundle and the step below it. */
  lemma BundleFacts(ctx: Context, e: Evidence, b: ProofBundle, expected: Option<Hash>, seen: set<Hash>)
    requires VerifyBundle(ctx, e, b, expected, seen).Ok?
    ensures SourceCore(ctx, e, b.source) == VerifyBundle(ctx, e, b, expected, seen) && Proven(ctx, e, b)
    ensures b.bundleHash !in seen && (expected.Some? ==> b.checkpointHash == expected.value)
    ensures var core := SourceCore(ctx, e, b.source).value;
            match PreviousBundle(e, b, seen)
            case None => core.previousCheckpointHash.None?
            case Some(previous) =>
              core.previousCheckpointHash.Some?
              && VerifyBundle(ctx, e, previous, core.previousCheckpointHash, seen + {b.bundleHash}).Ok?
  {
    hide SourceCore, CheckSpendProof;
  }

  /** The claims that a bundle's spend proof opens to. */
  function Claims(ctx: Context, e: Evidence, b: ProofBundle): Option<seq<Claim>> {
    e.log.claims(b.spendProof, b.signedRoot, ctx.networkId)
  }

  /** The claim names the checkpoint's token and number, and carries the transfer that led to it. */
  predicate LedTo(ctx: Context, core: CheckpointCore, claim: Claim) {
    && claim.tokenId == core.tokenId && claim.sequence == core.sequence && claim.transfer.Some?
    && var t := claim.transfer.value;
       && Encodable(ctx, t) && ValidSignature(ctx.suite, t) && ctx.suite.transferHash(t) == core.lastTransferHash
       && ctx.suite.spendKey(t.Spends()) == claim.spendKey
       && t.recipientAddress == core.ownerAddress && t.timestamp == core.lastTransferTimestamp
  }

  /** A spend proof is good exactly if it opens to claims that are all of the checkpoint's last transfer, and
      the first of them carries that transfer. */
  lemma SpendProofExact(ctx: Context, e: Evidence, core: CheckpointCore, b: ProofBundle)
    requires core.networkId == ctx.networkId
    ensures CheckSpendProof(ctx, e.log, core, b) <==>
      && Claims(ctx, e, b).Some? && Claims(ctx, e, b).value != []
      && (forall x :: x in Claims(ctx, e, b).value ==> x.transferHash == core.lastTransferHash)
      && LedTo(ctx, core, Claims(ctx, e, b).value[0])
  {
    hide Encodable, ValidSignature;
    if Claims(ctx, e, b).Some? && Claims(ctx, e, b).value != [] {
      var claims := Claims(ctx, e, b).value;
      assert claims[0] in claims;
      if claims[0].transferHash == core.lastTransferHash {
        assert FindClaim(claims, core.lastTransferHash) == Some(claims[0]);
      }
    }
  }

  /** A contested spend is refused: one claim of another transfer is enough. */
  lemma ContestedIsRefused(ctx: Context, e: Evidence, b: ProofBundle, expected: Option<Hash>, seen: set<Hash>, x: Claim)
    requires SourceCore(ctx, e, b.source).Ok? && Claims(ctx, e, b).Some? && x in Claims(ctx, e, b).value
    requires x.transferHash != SourceCore(ctx, e, b.source).value.lastTransferHash
    ensures VerifyBundle(ctx, e, b, expected, seen).Err?
  {
    hide SourceCore, CheckSpendProof, VerifyBundle, LedTo, FindClaim;
    if VerifyBundle(ctx, e, b, expected, seen).Ok? {
      BundleFacts(ctx, e, b, expected, seen);
      ProvenUncontested(ctx, e, b);
    }
  }

  /** A proven bundle's spend is claimed by one transfer only, the one that led to its checkpoint. */
  lemma ProvenUncontested(ctx: Context, e: Evidence, b: ProofBundle)
    requires Proven(ctx, e, b)
    ensures var core := SourceCore(ctx, e, b.source).value;
      && Claims(ctx, e, b).Some? && Claims(ctx, e, b).value != []
      && (forall x :: x in Claims(ctx, e, b).value ==> x.transferHash == core.lastTransferHash)
      && LedTo(ctx, core, Claims(ctx, e, b).value[0])
  {
    hide CheckSpendProof, LedTo, FindClaim, CheckBody, CheckHeader, VerifySegment;
    SourceSelfHashed(ctx, e, b.source);
    BodyCheckpoint(ctx, SourceSegment(e, b.source).value);
    SpendProofExact(ctx, e, SourceCore(ctx, e, b.source).value, b);
  }

  /** Accepting a bundle means every bundle behind it proves its own checkpoint, back to one that
      names no predecessor. */
  lemma {:induction false} AncestorsProven(ctx: Context, e: Evidence, b: ProofBundle, expected: Option<Hash>,
                                           seen: set<Hash>)
    requires VerifyBundle(ctx, e, b, expected, seen).Ok?
    ensures ProvenPath(ctx, e, BundlePath(e, b, seen)) && Last(BundlePath(e, b, seen)) == b
    decreases |Known(e) - (seen + {b.bundleHash})|
  {
    hide SourceCore, CheckSpendProof, VerifyBundle, Proven;
    BundleFacts(ctx, e, b, expected, seen);
    var previous := PreviousBundle(e, b, seen);
    if previous.Some? {
      var seen' := seen + {b.bundleHash};
      var core := SourceCore(ctx, e, b.source).value;
      Shrinks(Known(e), seen', previous.value.bundleHash);
      BundleFacts(ctx, e, previous.value, core.previousCheckpointHash, seen');
      AncestorsProven(ctx, e, previous.value, core.previousCheckpointHash, seen');
      assert Init(BundlePath(e, b, seen)) == BundlePath(e, previous.value, seen');
    }
  }

  /** The bundle names the one before it on the path, or none if it is the first. */
  predicate NamesAt(path: seq<ProofBundle>, i: nat)
    requires i < |path|
  {
    path[i].source.previousBundleHash == (if i == 0 then None else Some(path[i - 1].bundleHash))
  }

  predicate NamesBelow(path: seq<ProofBundle>) {
    forall i :: 0 <= i < |path| ==> NamesAt(path, i)
  }

  lemma NamesGrow(path: seq<ProofBundle>)
    requires |path| > 1
    ensures NamesBelow(path) <==>
              NamesBelow(Init(path)) && Last(path).source.previousBundleHash == Some(Last(Init(path)).bundleHash)
  {
    var init := Init(path);
    forall i | 0 <= i < |init|
      ensures NamesAt(init, i) <==> NamesAt(path, i)
    {
    }
    assert NamesAt(path, |init|) <==> Last(path).source.previousBundleHash == Some(Last(init).bundleHash);
  }

  /** And that is all it means: a bundle is accepted exactly if it was not visited, proves the checkpoint
      expected of it, and ends a path of bundles that each prove their checkpoint and name the one below. */
  lemma {:induction false} BundleAcceptedExactly(ctx: Context, e: Evidence, b: ProofBundle, expected: Option<Hash>,
                                                 seen: set<Hash>)
    ensures VerifyBundle(ctx, e, b, expected, seen).Ok? <==>
      && b.bundleHash !in seen && (expected.Some? ==> b.checkpointHash == expected.value)
      && ProvenPath(ctx, e, BundlePath(e, b, seen)) && NamesBelow(BundlePath(e, b, seen))
    decreases |Known(e) - (seen + {b.bundleHash})|
  {
    hide SourceCore, CheckSpendProof, VerifyBundle, Proven, BundlePath, NamesBelow, ProvenPath, PreviousBundle;
    var previous, seen' := PreviousBundle(e, b, seen), seen + {b.bundleHash};
    BundleStep(ctx, e, b, expected, seen);
    if previous.Some? {
      Visited(e, b, seen);
      Shrinks(Known(e), seen', previous.value.bundleHash);
      PathStep(ctx, e, b, seen);
      var below := BundlePath(e, previous.value, seen');
      var expectedBelow := if SourceCore(ctx, e, b.source).Ok?
                           then SourceCore(ctx, e, b.source).value.previousCheckpointHash else None;
      BundleAcceptedExactly(ctx, e, previous.value, expectedBelow, seen');
      if Proven(ctx, e, b) {
        ProvenDerives(ctx, e, b);
      }
    } else {
      PathStart(ctx, e, b, seen);
    }
  }

  lemma ProvenDerives(ctx: Context, e: Evidence, b: ProofBundle)
    requires Proven(ctx, e, b)
    ensures SourceCore(ctx, e, b.source).Ok?
  {
  }

  lemma Visited(e: Evidence, b: ProofBundle, seen: set<Hash>)
    requires PreviousBundle(e, b, seen).Some?
    ensures var previous := PreviousBundle(e, b, seen).value;
      && previous.bundleHash in Known(e) && previous.bundleHash !in seen + {b.bundleHash}
      && b.source.previousBundleHash == Some(previous.bundleHash)
  {
  }

  /** One bundle's own checks, and the step below it. */
  lemma BundleStep(ctx: Context, e: Evidence, b: ProofBundle, expected: Option<Hash>, seen: set<Hash>)
    ensures VerifyBundle(ctx, e, b, expected, seen).Ok? <==>
      && b.bundleHash !in seen && (expected.Some? ==> b.checkpointHash == expected.value) && Proven(ctx, e, b)
      && var core := SourceCore(ctx, e, b.source).value;
         match PreviousBundle(e, b, seen)
         case None => core.previousCheckpointHash.None? && b.source.previousBundleHash.None?
         case Some(previous) =>
           && core.previousCheckpointHash.Some?
           && VerifyBundle(ctx, e, previous, core.previousCheckpointHash, seen + {b.bundleHash}).Ok?
  {
    hide SourceCore, CheckSpendProof;
  }

  lemma PathStep(ctx: Context, e: Evidence, b: ProofBundle, seen: set<Hash>)
    requires PreviousBundle(e, b, seen).Some?
    ensures var previous := PreviousBundle(e, b, seen).value;
      var path, below := BundlePath(e, b, seen), BundlePath(e, previous, seen + {b.bundleHash});
      && (ProvenPath(ctx, e, path) <==>
            && ProvenPath(ctx, e, below) && Proven(ctx, e, b)
            && SourceCore(ctx, e, b.source).value.previousCheckpointHash == Some(previous.checkpointHash))
      && (NamesBelow(path) <==> NamesBelow(below))
  {
    hide SourceCore, CheckSpendProof, Proven, NamesBelow;
    Visited(e, b, seen);
    var previous := PreviousBundle(e, b, seen).value;
    Shrinks(Known(e), seen + {b.bundleHash}, previous.bundleHash);
    var path, below := BundlePath(e, b, seen), BundlePath(e, previous, seen + {b.bundleHash});
    assert below != [] && Last(below) == previous;
    assert path == below + [b] && Init(path) == below && Last(path) == b;
    NamesGrow(path);
  }

  lemma PathStart(ctx: Context, e: Evidence, b: ProofBundle, seen: set<Hash>)
    requires PreviousBundle(e, b, seen).None?
    ensures BundlePath(e, b, seen) == [b]
    ensures ProvenPath(ctx, e, [b]) <==>
              Proven(ctx, e, b) && SourceCore(ctx, e, b.source).value.previousCheckpointHash.None?
    ensures NamesBelow([b]) <==> b.source.previousBundleHash.None?
  {
    hide SourceCore, CheckSpendProof, Proven;
    assert Last([b]) == b;
    assert NamesAt([b], 0) <==> b.source.previousBundleHash.None?;
  }

  /** A source derives a checkpoint exactly if it names, by hash, a segment at hand that ends a connected
      chain within the stack, and the checkpoint of that segment. */
  lemma SourceExact(ctx: Context, e: Evidence, s: Source)
    ensures SourceCore(ctx, e, s).Ok? <==>
      && s.networkId == ctx.networkId && s.format == Ascii("ind.archive_segment.v3") && SourceSegment(e, s).Some?
      && var a := SourceSegment(e, s).value;
         var chain := Ancestry(a, None, e.segments, e.depth);
         && |chain| <= e.depth && Connected(ctx, chain)
         && s.archiveSegmentHash == a.segmentHash && s.checkpointHash == a.checkpointHash
    ensures SourceCore(ctx, e, s).Ok? ==> SourceCore(ctx, e, s) == CheckBody(ctx, SourceSegment(e, s).value)
  {
    hide CheckBody, CheckHeader, SegmentHash, VerifySegment, Linked, SourceSegment;
    if SourceSegment(e, s).Some? {
      var a := SourceSegment(e, s).value;
      var chain := Ancestry(a, None, e.segments, e.depth);
      AcceptedExactly(ctx, a, None, e.segments, None, e.depth);
      AncestryEnds(a, None, e.segments, e.depth);
      if VerifySegment(ctx, a, None, e.segments, None, e.depth).Ok? {
        LinkFacts(ctx, a, None, e.segments, None, e.depth);
        HeaderHash(ctx, a);
        BodyCheckpoint(ctx, a);
      }
    }
  }

  /** An ancestry never visits a bundle twice. */
  lemma {:induction false} PathNeverRepeats(e: Evidence, b: ProofBundle, seen: set<Hash>)
    requires b.bundleHash !in seen
    ensures forall i :: 0 <= i < |BundlePath(e, b, seen)| ==> BundlePath(e, b, seen)[i].bundleHash !in seen
    ensures forall i, j :: 0 <= i < j < |BundlePath(e, b, seen)| ==>
              BundlePath(e, b, seen)[i].bundleHash != BundlePath(e, b, seen)[j].bundleHash
    decreases |Known(e) - (seen + {b.bundleHash})|
  {
    var previous := PreviousBundle(e, b, seen);
    if previous.Some? {
      Shrinks(Known(e), seen + {b.bundleHash}, previous.value.bundleHash);
      PathNeverRepeats(e, previous.value, seen + {b.bundleHash});
    }
  }

  // -------------------------------------------------------------- honest evidence

  /** A bundle whose parts are what an honest log and holder produce for a segment and its checkpoint. */
  predicate Vouches(ctx: Context, e: Evidence, b: ProofBundle, a: ArchiveSegment, core: CheckpointCore,
                    below: Option<ProofBundle>) {
    var key := e.log.operatorKey(b.signedRoot);
    && b.networkId == ctx.networkId && b.algorithm == PROOF_BUNDLE_ALGORITHM && b.checkpointHash == core.checkpointHash
    && BundleHash(e.log, b) == Some(b.bundleHash) && b.logId == b.signedRoot.logId
    && key.Some? && e.log.included(b.checkpointHash, b.inclusionProof, b.signedRoot, key.value)
    && e.log.mirrored(b.signedRoot, b.inclusionProof) && CheckSpendProof(ctx, e.log, core, b)
    && b.source.networkId == ctx.networkId && b.source.format == ARCHIVE_SEGMENT_SOURCE
    && b.source.archiveSegmentHash == a.segmentHash && SourceSegment(e, b.source) == Some(a)
    && b.source.checkpointHash == core.checkpointHash
    && b.source.previousBundleHash == match below case None => None case Some(p) => Some(p.bundleHash)
  }

  predicate VouchedAt(ctx: Context, e: Evidence, bundles: seq<ProofBundle>, chain: seq<ArchiveSegment>, i: nat)
    requires i < |bundles| == |chain|
  {
    && CheckBody(ctx, chain[i]).Ok?
    && e.bundles.Some? && bundles[i].bundleHash in e.bundles.value
    && e.bundles.value[bundles[i].bundleHash] == bundles[i]
    && Vouches(ctx, e, bundles[i], chain[i], CheckBody(ctx, chain[i]).value, Below(bundles, i))
  }

  /** One bundle for each segment of a chain, each resolvable and naming the one before it. */
  predicate Vouched(ctx: Context, e: Evidence, bundles: seq<ProofBundle>, chain: seq<ArchiveSegment>) {
    && |bundles| == |chain|
    && (forall i :: 0 <= i < |bundles| ==> VouchedAt(ctx, e, bundles, chain, i))
    && forall i, j :: 0 <= i < j < |bundles| ==> bundles[i].bundleHash != bundles[j].bundleHash
  }

  function Below(bundles: seq<ProofBundle>, i: nat): Option<ProofBundle>
    requires i < |bundles|
  {
    if i == 0 then None else Some(bundles[i - 1])
  }

  /** A vouched segment that its store accepts is a source that derives its checkpoint. */
  lemma VouchedSource(ctx: Context, e: Evidence, b: ProofBundle, a: ArchiveSegment, below: Option<ProofBundle>)
    requires CheckBody(ctx, a).Ok? && Vouches(ctx, e, b, a, CheckBody(ctx, a).value, below)
    requires CheckHeader(ctx, a).Ok? && VerifySegment(ctx, a, None, e.segments, None, e.depth) == CheckBody(ctx, a)
    ensures SourceCore(ctx, e, b.source) == CheckBody(ctx, a)
    ensures forall seen :: b.bundleHash !in seen ==>
              CheckBundle(ctx, e, b, Some(CheckBody(ctx, a).value.checkpointHash), seen) == Ok(())
  {
    hide CheckBody, VerifySegment, CheckSpendProof;
  }

  /** The step: a vouched bundle verifies once the bundle below it does. */
  lemma VouchedStep(ctx: Context, e: Evidence, b: ProofBundle, a: ArchiveSegment, below: Option<ProofBundle>,
                    seen: set<Hash>)
    requires CheckBody(ctx, a).Ok? && Vouches(ctx, e, b, a, CheckBody(ctx, a).value, below) && b.bundleHash !in seen
    requires CheckHeader(ctx, a).Ok? && VerifySegment(ctx, a, None, e.segments, None, e.depth) == CheckBody(ctx, a)
    requires match below
             case None => a.previousCheckpointHash.None?
             case Some(p) =>
               && a.previousCheckpointHash.Some? && e.bundles.Some? && p.bundleHash in e.bundles.value
               && e.bundles.value[p.bundleHash] == p && p.bundleHash !in seen + {b.bundleHash}
               && VerifyBundle(ctx, e, p, a.previousCheckpointHash, seen + {b.bundleHash}).Ok?
    ensures VerifyBundle(ctx, e, b, Some(CheckBody(ctx, a).value.checkpointHash), seen) == CheckBody(ctx, a)
  {
    hide CheckBody, VerifySegment, CheckSpendProof, CheckBundle, SourceCore;
    VouchedSource(ctx, e, b, a, below);
    BodyCheckpoint(ctx, a);
    assert VerifySource(ctx, e, b.source, seen + {b.bundleHash}) == CheckBody(ctx, a);
  }

  /** A segment verifies from the store at hand, on the checkpoint of the one before it. */
  predicate ArchivedAt(ctx: Context, e: Evidence, chain: seq<ArchiveSegment>, i: nat)
    requires i < |chain|
  {
    && CheckHeader(ctx, chain[i]).Ok? && CheckBody(ctx, chain[i]).Ok?
    && VerifySegment(ctx, chain[i], None, e.segments, None, e.depth) == CheckBody(ctx, chain[i])
    && chain[i].previousCheckpointHash == if i == 0 then None else Some(chain[i - 1].checkpointHash)
  }

  /** Archiving an accepted history leaves every segment verifiable from a store that holds them. */
  lemma BuiltIsArchived(ar: Archiver, e: Evidence, base: State, blocks: seq<seq<Transfer>>,
                        chain: seq<ArchiveSegment>, i: nat)
    requires ar.BuildChain(base, blocks, None) == Ok(chain) && e.segments.Some?
    requires Attaches(ar, base, None, e.segments.value, 0) && Holds(e.segments.value, chain)
    requires i < |chain| == |blocks| <= e.depth
    ensures ArchivedAt(ar.ctx, e, chain, i)
    ensures chain[i].tokenId == ar.tokenId && chain[i].genesisRef == ar.genesisRef
  {
    hide CheckBody, CheckHeader, VerifySegment, Archiver.BuildChain, Attaches, Holds;
    CutAccepted(ar, base, blocks, None, e.segments.value, 0, i);
    ChecksAreNotDeep(ar.ctx, chain[i]);
    DeeperAgrees(ar.ctx, chain[i], None, e.segments, None, i + 1, e.depth);
    CutLinks(ar, base, blocks, None, i);
  }

  /** Honest evidence is enough: once each checkpoint of an archived chain is logged and bundled, every
      bundle verifies back to genesis. */
  lemma {:induction false} VouchedChainVerifies(ctx: Context, e: Evidence, chain: seq<ArchiveSegment>,
                                                bundles: seq<ProofBundle>, seen: set<Hash>, i: nat)
    requires Vouched(ctx, e, bundles, chain)
    requires forall j :: 0 <= j < |chain| ==> ArchivedAt(ctx, e, chain, j)
    requires i < |chain| && forall j :: 0 <= j <= i ==> bundles[j].bundleHash !in seen
    ensures ArchivedAt(ctx, e, chain, i)
    ensures VerifyBundle(ctx, e, bundles[i], Some(CheckBody(ctx, chain[i]).value.checkpointHash), seen)
         == CheckBody(ctx, chain[i])
    decreases i
  {
    hide CheckBody, CheckHeader, VerifySegment, VerifyBundle, Vouches;
    assert ArchivedAt(ctx, e, chain, i) && VouchedAt(ctx, e, bundles, chain, i);
    if i > 0 {
      assert VouchedAt(ctx, e, bundles, chain, i - 1);
      BodyCheckpoint(ctx, chain[i - 1]);
      VouchedChainVerifies(ctx, e, chain, bundles, seen + {bundles[i].bundleHash}, i - 1);
    }
    VouchedStep(ctx, e, bundles[i], chain[i], Below(bundles, i), seen);
  }

  // -------------------------------------------- bundles against the archive itself

  function PathCores(ctx: Context, e: Evidence, path: seq<ProofBundle>): seq<CheckpointCore>
    requires ProvenPath(ctx, e, path)
    decreases |path|
  {
    var core := SourceCore(ctx, e, Last(path).source).value;
    if |path| == 1 then [core] else PathCores(ctx, e, Init(path)) + [core]
  }

  function ChainCores(ctx: Context, chain: seq<ArchiveSegment>): seq<CheckpointCore>
    requires Connected(ctx, chain)
    decreases |chain|
  {
    var core := CheckBody(ctx, Last(chain)).value;
    if |chain| == 1 then [core] else ChainCores(ctx, Init(chain)) + [core]
  }

  lemma SourceSelfHashed(ctx: Context, e: Evidence, s: Source)
    requires SourceCore(ctx, e, s).Ok?
    ensures SelfHashed(ctx.suite, SourceCore(ctx, e, s).value)
    ensures var a := SourceSegment(e, s).value;
      Connected(ctx, Ancestry(a, None, e.segments, e.depth)) && CheckBody(ctx, a) == SourceCore(ctx, e, s)
      && Last(Ancestry(a, None, e.segments, e.depth)) == a
  {
    hide CheckBody, CheckHeader;
    var a := SourceSegment(e, s).value;
    AcceptedIsConnected(ctx, a, None, e.segments, e.depth);
    BodyCheckpoint(ctx, a);
  }

  /** The transfer a proven spend settles is the last one archived, unless those two share a hash. */
  lemma SettledIsArchived(ctx: Context, e: Evidence, b: ProofBundle)
    requires Proven(ctx, e, b)
    ensures var core := SourceCore(ctx, e, b.source).value;
      var archived := SourceSegment(e, b.source).value.transfers;
      var claims := e.log.claims(b.spendProof, b.signedRoot, core.networkId).value;
      var claim := FindClaim(claims, core.lastTransferHash).value;
      && archived != [] && claim.transfer.Some?
      && ctx.suite.transferHash(claim.transfer.value) == ctx.suite.transferHash(Last(archived)) == core.lastTransferHash
  {
    hide CheckBody, CheckHeader, VerifySegment, Encodable, ValidSignature;
    var a := SourceSegment(e, b.source).value;
    SourceSelfHashed(ctx, e, b.source);
    HeaderHasTransfers(ctx, e, b.source);
    BodyReplays(ctx, a);
    AcceptedEnd(Verifier(ctx, a.tokenId), a.baseState, a.transfers);
  }

  lemma HeaderHasTransfers(ctx: Context, e: Evidence, s: Source)
    requires SourceCore(ctx, e, s).Ok?
    ensures SourceSegment(e, s).Some? && SourceSegment(e, s).value.transfers != []
  {
    hide CheckBody;
  }

  /** Step by step, the checkpoints the bundles prove are the checkpoints of the segment chain: unless
      two of them collide, the proven ancestry and the archived one are the same list. */
  lemma {:induction false} PathMatchesChain(ctx: Context, e: Evidence, path: seq<ProofBundle>,
                                            chain: seq<ArchiveSegment>,
                                            cores: set<CheckpointCore>)
    requires ProvenPath(ctx, e, path) && Connected(ctx, chain)
    requires SourceCore(ctx, e, Last(path).source) == CheckBody(ctx, Last(chain))
    requires Distinguishes(ctx.suite, cores)
    requires forall x :: x in PathCores(ctx, e, path) || x in ChainCores(ctx, chain) ==> x in cores
    ensures PathCores(ctx, e, path) == ChainCores(ctx, chain) && |path| == |chain|
    decreases |path|
  {
    hide CheckBody, SourceCore, CheckSpendProof;
    BodyCheckpoint(ctx, Last(chain));
    if |path| > 1 && |chain| > 1 {
      assert Linked(ctx, Init(chain));
      var p, q := SourceCore(ctx, e, Last(Init(path)).source).value, CheckBody(ctx, Last(Init(chain))).value;
      SourceSelfHashed(ctx, e, Last(Init(path)).source);
      BodyCheckpoint(ctx, Last(Init(chain)));
      assert Last(PathCores(ctx, e, Init(path))) == p && Last(ChainCores(ctx, Init(chain))) == q;
      assert p in cores && q in cores;
      assert Zeroed(p).(checkpointHash := p.checkpointHash) == p && Zeroed(q).(checkpointHash := q.checkpointHash) == q;
      PathMatchesChain(ctx, e, Init(path), Init(chain), cores);
    }
  }

  lemma {:induction false} PathElement(ctx: Context, e: Evidence, path: seq<ProofBundle>, i: nat)
    requires ProvenPath(ctx, e, path) && i < |path|
    ensures Proven(ctx, e, path[i]) && |PathCores(ctx, e, path)| == |path|
    ensures SourceCore(ctx, e, path[i].source) == Ok(PathCores(ctx, e, path)[i])
    decreases |path|
  {
    hide SourceCore, CheckSpendProof;
    if |path| > 1 {
      PathElement(ctx, e, Init(path), if i < |path| - 1 then i else 0);
    }
  }

  lemma {:induction false} ChainElement(ctx: Context, chain: seq<ArchiveSegment>, i: nat)
    requires Connected(ctx, chain) && i < |chain|
    ensures |ChainCores(ctx, chain)| == |chain| && CheckBody(ctx, chain[i]) == Ok(ChainCores(ctx, chain)[i])
    decreases |chain|
  {
    hide CheckBody, CheckHeader;
    if |chain| > 1 {
      assert Connected(ctx, Init(chain));
      ChainElement(ctx, Init(chain), if i < |chain| - 1 then i else 0);
    }
  }

  /** Every checkpoint a proof path and an archive derive. */
  function CoresInvolved(ctx: Context, e: Evidence, path: seq<ProofBundle>,
                         chain: seq<ArchiveSegment>): set<CheckpointCore> {
    (set b | b in path && SourceCore(ctx, e, b.source).Ok? :: SourceCore(ctx, e, b.source).value)
    + (set a | a in chain && CheckBody(ctx, a).Ok? :: CheckBody(ctx, a).value)
  }

  /** The bundle proves the checkpoint of the segment: logged, mirrored and settled. */
  predicate ProvesSegment(ctx: Context, e: Evidence, b: ProofBundle, a: ArchiveSegment) {
    Proven(ctx, e, b) && SourceCore(ctx, e, b.source) == CheckBody(ctx, a)
  }

  /** Two ancestries that end in one checkpoint agree segment by segment, if no two checkpoints collide. */
  lemma PathProvesChain(ctx: Context, e: Evidence, path: seq<ProofBundle>, chain: seq<ArchiveSegment>)
    requires ProvenPath(ctx, e, path) && Connected(ctx, chain)
    requires SourceCore(ctx, e, Last(path).source) == CheckBody(ctx, Last(chain))
    requires Distinguishes(ctx.suite, CoresInvolved(ctx, e, path, chain))
    ensures |path| == |chain| && forall i :: 0 <= i < |chain| ==> ProvesSegment(ctx, e, path[i], chain[i])
  {
    assert path != [] && chain != [];
    hide CheckBody, SourceCore, Proven, ProvenPath, Connected, Distinguishes;
    var cores := CoresInvolved(ctx, e, path, chain);
    forall x | x in PathCores(ctx, e, path)
      ensures x in cores
    {
      PathElement(ctx, e, path, 0);
      var i :| 0 <= i < |PathCores(ctx, e, path)| && PathCores(ctx, e, path)[i] == x;
      PathElement(ctx, e, path, i);
    }
    forall x | x in ChainCores(ctx, chain)
      ensures x in cores
    {
      ChainElement(ctx, chain, 0);
      var i :| 0 <= i < |ChainCores(ctx, chain)| && ChainCores(ctx, chain)[i] == x;
      ChainElement(ctx, chain, i);
    }
    PathMatchesChain(ctx, e, path, chain, cores);
    forall i | 0 <= i < |chain|
      ensures ProvesSegment(ctx, e, path[i], chain[i])
    {
      PathElement(ctx, e, path, i);
      ChainElement(ctx, chain, i);
    }
  }

  /** Every checkpoint involved was derived, so it encodes and carries its own hash. */
  lemma InvolvedEncode(ctx: Context, e: Evidence, path: seq<ProofBundle>, chain: seq<ArchiveSegment>)
    ensures forall x :: x in CoresInvolved(ctx, e, path, chain) ==> CoreEncodable(ctx.suite, x)
  {
    hide CheckBody, SourceCore, CoreEncodable;
    forall x | x in CoresInvolved(ctx, e, path, chain)
      ensures CoreEncodable(ctx.suite, x)
    {
      if b :| b in path && SourceCore(ctx, e, b.source) == Ok(x) {
        HeaderHasTransfers(ctx, e, b.source);
        SourceSelfHashed(ctx, e, b.source);
        BodyCheckpoint(ctx, SourceSegment(e, b.source).value);
      } else {
        var a :| a in chain && CheckBody(ctx, a) == Ok(x);
        BodyCheckpoint(ctx, a);
      }
    }
  }
}
