/** How much one hash pins down, whatever the stores answer: a whole archive, a whole history. */
module Pins {
  import opened Wrappers
  import opened Objects
  import opened Codec
  import opened Commitments
  import opened Replay
  import opened Segments
  import opened Bundles
  import opened Bills
  import opened Forks

  // ------------------------------------------------------------------ one segment

  /** Two of these segments differ but hash alike. */
  predicate SegmentsCollide(p: Primitives, x: seq<ArchiveSegment>, y: seq<ArchiveSegment>) {
    exists a, b :: a in x && b in y && Collides(p, SegmentPreimage(Unhashed(a)), SegmentPreimage(Unhashed(b)))
  }

  lemma SegmentPins(p: Primitives, ctx: Context, a: ArchiveSegment, b: ArchiveSegment)
    requires ctx.suite == Standard(p) && CheckHeader(ctx, a).Ok? && CheckHeader(ctx, b).Ok?
    requires a.segmentHash == b.segmentHash
    ensures a == b || Collides(p, SegmentPreimage(Unhashed(a)), SegmentPreimage(Unhashed(b)))
  {
    hide Standard, CheckHeader, SegmentPreimage;
    HeaderHash(ctx, a);
    HeaderHash(ctx, b);
    SegmentHashCommits(p, a, b);
    assert a == Unhashed(a).(segmentHash := a.segmentHash) && b == Unhashed(b).(segmentHash := b.segmentHash);
  }

  /** One segment hash fixes the whole chain behind it, or a collision can be named. */
  lemma {:induction false} SegmentPinsChain(p: Primitives, ctx: Context, x: seq<ArchiveSegment>,
                                            y: seq<ArchiveSegment>)
    requires ctx.suite == Standard(p) && Connected(ctx, x) && Connected(ctx, y)
    requires Last(x).segmentHash == Last(y).segmentHash
    ensures x == y || SegmentsCollide(p, x, y)
    decreases |x|
  {
    hide Standard, CheckHeader, CheckBody, SegmentPreimage;
    SegmentPins(p, ctx, Last(x), Last(y));
    assert Last(x) in x && Last(y) in y && (x != [] && y != []);
    if Last(x) == Last(y) {
      if |x| > 1 && |y| > 1 {
        SegmentPinsChain(p, ctx, Init(x), Init(y));
        assert x == Init(x) + [Last(x)] && y == Init(y) + [Last(y)];
      }
    }
  }

  /** So two verifications of segments under one hash, over any two stores, rest on one archive. */
  lemma AcceptedArchivesAgree(p: Primitives, ctx: Context, a: ArchiveSegment, givenA: Option<ArchiveSegment>,
                              storeA: Option<SegmentStore>, depthA: nat, b: ArchiveSegment,
                              givenB: Option<ArchiveSegment>, storeB: Option<SegmentStore>, depthB: nat)
    requires ctx.suite == Standard(p) && a.segmentHash == b.segmentHash
    requires VerifySegment(ctx, a, givenA, storeA, None, depthA).Ok?
    requires VerifySegment(ctx, b, givenB, storeB, None, depthB).Ok?
    ensures var x, y := Ancestry(a, givenA, storeA, depthA), Ancestry(b, givenB, storeB, depthB);
      x == y || SegmentsCollide(p, x, y)
  {
    hide Standard, VerifySegment, Connected, CheckBody;
    AcceptedIsConnected(ctx, a, givenA, storeA, depthA);
    AcceptedIsConnected(ctx, b, givenB, storeB, depthB);
    assert Connected(ctx, Ancestry(a, givenA, storeA, depthA)) && Connected(ctx, Ancestry(b, givenB, storeB, depthB));
    SegmentPinsChain(p, ctx, Ancestry(a, givenA, storeA, depthA), Ancestry(b, givenB, storeB, depthB));
  }

  // --------------------------------------------------------------- one checkpoint

  /** Two of these transfers differ but hash alike. */
  predicate TransfersCollide(p: Primitives, xs: seq<Transfer>, ys: seq<Transfer>) {
    exists a, b :: a in xs && b in ys && Collides(p, TransferPreimage(a), TransferPreimage(b))
  }

  predicate AllFit(ts: seq<Transfer>) {
    forall t :: t in ts ==> TransferFits(t)
  }

  /** Two threads of one length that end in one hash are one thread, from one hash on. */
  lemma {:induction false} SameEndSamePast(p: Primitives, s: State, xs: seq<Transfer>, t: State, ys: seq<Transfer>)
    requires Threaded(Standard(p), s, xs) && Threaded(Standard(p), t, ys) && |xs| == |ys| > 0
    requires AllFit(xs) && AllFit(ys)
    requires Standard(p).transferHash(Last(xs)) == Standard(p).transferHash(Last(ys))
    ensures (xs == ys && SameOrigin(s, t)) || TransfersCollide(p, xs, ys)
    decreases |xs|
  {
    hide Standard, TransferPreimage, TransferFits;
    var n := |xs| - 1;
    assert Last(xs) in xs && Last(ys) in ys;
    assert ThreadAt(Standard(p), s, xs, n) && ThreadAt(Standard(p), t, ys, n);
    TransferHashCommits(p, Last(xs), Last(ys));
    if Last(xs) == Last(ys) {
      assert xs == Init(xs) + [Last(xs)] && ys == Init(ys) + [Last(ys)];
      if n > 0 {
        InitThreads(Standard(p), s, xs);
        InitThreads(Standard(p), t, ys);
        SameEndSamePast(p, s, Init(xs), t, Init(ys));
      }
    }
  }

  lemma InitThreads(c: Suite, s: State, ts: seq<Transfer>)
    requires Threaded(c, s, ts) && ts != []
    ensures Threaded(c, s, Init(ts))
  {
    forall i | 0 <= i < |ts| - 1
      ensures ThreadAt(c, s, Init(ts), i)
    {
      assert ThreadAt(c, s, ts, i);
    }
  }

  /** Every archived transfer is within the encoder's limits. */
  lemma {:induction false} ArchivedFit(p: Primitives, ctx: Context, chain: seq<ArchiveSegment>)
    requires ctx.suite == Standard(p) && Linked(ctx, chain)
    ensures AllFit(History(chain))
    decreases |chain|
  {
    hide Standard, CheckBody, CheckHeader, TransferFits, Encodable;
    var a := Last(chain);
    BodyReplays(ctx, a);
    if |chain| > 1 {
      ArchivedFit(p, ctx, Init(chain));
    }
    forall t | t in a.transfers
      ensures TransferFits(t)
    {
      var i :| 0 <= i < |a.transfers| && a.transfers[i] == t;
      AcceptedAt(Verifier(ctx, a.tokenId), a.baseState, a.transfers, i);
      EncodableFits(p, ctx, t);
    }
  }

  /** Two archives whose checkpoints agree on the length and the last transfer hash hold one history, from
      one genesis hash and first owner, whatever segments they are cut into. */
  lemma TipPinsHistory(p: Primitives, ctx: Context, x: seq<ArchiveSegment>, y: seq<ArchiveSegment>)
    requires ctx.suite == Standard(p) && Connected(ctx, x) && Connected(ctx, y)
    requires var a, b := CheckBody(ctx, Last(x)).value, CheckBody(ctx, Last(y)).value;
      a.sequence == b.sequence && a.lastTransferHash == b.lastTransferHash
    ensures (History(x) == History(y) && SameOrigin(x[0].baseState, y[0].baseState))
         || TransfersCollide(p, History(x), History(y))
  {
    assert x != [] && y != [];
    hide Standard, CheckBody, CheckHeader, Linked, Threaded, SameOrigin;
    LinkedThreads(ctx, x);
    LinkedThreads(ctx, y);
    ConnectedLength(ctx, x);
    ConnectedLength(ctx, y);
    LinkedTokens(ctx, x, |x| - 1);
    assert History(x) != [] && History(y) != [];
    ArchivedFit(p, ctx, x);
    ArchivedFit(p, ctx, y);
    SameEndSamePast(p, x[0].baseState, History(x), y[0].baseState, History(y));
  }

  /** One checkpoint hash fixes the whole history behind it. Two anchored bills under one checkpoint hash,
      verified against any evidence, have one checkpoint and one archived history from one origin, or a
      collision can be named. */
  lemma CheckpointPinsHistory(p: Primitives, ctx: Context, e1: Evidence, b1: Bill, g1: Option<ProofBundle>,
                              e2: Evidence, b2: Bill, g2: Option<ProofBundle>)
    requires ctx.suite == Standard(p) && CheckAnchor(ctx, e1, b1, g1).Ok? && CheckAnchor(ctx, e2, b2, g2).Ok?
    requires b1.checkpointCore.checkpointHash == b2.checkpointCore.checkpointHash
    ensures var h1, h2 := History(ArchiveOf(e1, b1, g1)), History(ArchiveOf(e2, b2, g2));
      || (b1.checkpointCore == b2.checkpointCore && h1 == h2
          && ArchiveOf(e1, b1, g1) != [] && ArchiveOf(e2, b2, g2) != []
          && SameOrigin(ArchiveOf(e1, b1, g1)[0].baseState, ArchiveOf(e2, b2, g2)[0].baseState))
      || TransfersCollide(p, h1, h2)
      || Collides(p, CheckpointCorePreimage(Zeroed(b1.checkpointCore)),
                  CheckpointCorePreimage(Zeroed(b2.checkpointCore)))
  {
    hide Standard, CheckAnchor, CheckBody, CheckHeader, SameOrigin, CoreFits, CheckpointCorePreimage;
    var x, y := ArchiveOf(e1, b1, g1), ArchiveOf(e2, b2, g2);
    var a, b := b1.checkpointCore, b2.checkpointCore;
    AnchorRestsOnArchive(ctx, e1, b1, g1);
    AnchorRestsOnArchive(ctx, e2, b2, g2);
    BodyCheckpoint(ctx, Last(x));
    BodyCheckpoint(ctx, Last(y));
    EncodableCoreFits(p, a);
    EncodableCoreFits(p, b);
    CheckpointHashCommits(p, a, b);
    if Zeroed(a) == Zeroed(b) {
      assert Zeroed(a).(checkpointHash := a.checkpointHash) == a && Zeroed(b).(checkpointHash := b.checkpointHash) == b;
      TipPinsHistory(p, ctx, x, y);
    }
  }

  // ----------------------------------------------------------- the settled transfer

  /** The transfer that a proven spend settles is the last one archived, or those two collide. */
  lemma SettledIsLastArchived(p: Primitives, ctx: Context, e: Evidence, b: ProofBundle)
    requires ctx.suite == Standard(p) && Proven(ctx, e, b)
    ensures var core := SourceCore(ctx, e, b.source).value;
      var claims := e.log.claims(b.spendProof, b.signedRoot, core.networkId).value;
      var settled := FindClaim(claims, core.lastTransferHash).value.transfer;
      var archived := SourceSegment(e, b.source).value.transfers;
      && archived != [] && settled.Some?
      && (settled.value == Last(archived)
          || Collides(p, TransferPreimage(settled.value), TransferPreimage(Last(archived))))
  {
    hide Standard, CheckBody, CheckHeader, TransferPreimage, TransferFits, Encodable, ValidSignature, SourceCore;
    SettledIsArchived(ctx, e, b);
    HeaderHasTransfers(ctx, e, b.source);
    var a := SourceSegment(e, b.source).value;
    var core := SourceCore(ctx, e, b.source).value;
    var claims := e.log.claims(b.spendProof, b.signedRoot, core.networkId).value;
    var settled := FindClaim(claims, core.lastTransferHash).value.transfer.value;
    SourceSelfHashed(ctx, e, b.source);
    BodyReplays(ctx, a);
    AcceptedAt(Verifier(ctx, a.tokenId), a.baseState, a.transfers, |a.transfers| - 1);
    EncodableFits(p, ctx, Last(a.transfers));
    EncodableFits(p, ctx, settled);
    TransferHashCommits(p, settled, Last(a.transfers));
  }
}
