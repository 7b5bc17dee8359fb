/** Archive segments: cutting a history into linked, content-addressed pieces and verifying the chain. */
module Segments {
  import opened Wrappers
  import opened Binary
  import opened Objects
  import opened Replay

  type SegmentStore = map<Hash, ArchiveSegment>
  type CheckpointStore = map<Hash, CheckpointCore>

  function Verifier(ctx: Context, tokenId: Hash): Replayer {
    Replayer(ctx, tokenId, true)
  }

  /** The checkpoint a state derives, with its self-hash filled in. */
  function CheckpointFromState(ctx: Context, tokenId: Hash, genesisHash: Hash, s: State,
                               previousCheckpointHash: Option<Hash>): Result<CheckpointCore> {
    if !(ValidState(ctx.suite, s)) then Err(Malformed) else
    var core := CheckpointCore(ctx.networkId, tokenId, genesisHash, s.sequence, s.ownerAddress, s.value, s.displayId,
                               ctx.suite.displayIdHash(s.displayId), s.lastTransferHash, s.lastTransferTimestamp,
                               s.lastTransferDay, s.transfersInLastDay, previousCheckpointHash, ZERO_HASH);
    :- Require(CoreEncodable(ctx.suite, core), NotEncodable);
    Ok(core.(checkpointHash := CheckpointCoreHash(ctx.suite, core)))
  }

  /** Builds one segment from transfers that extend `base`. */
  function MakeSegment(ctx: Context, tokenId: Hash, genesisRef: GenesisRef, base: State, transfers: seq<Transfer>,
                       previousSegmentHash: Option<Hash>,
                       previousCheckpointHash: Option<Hash>): Result<ArchiveSegment> {
    if !(transfers != []) then Err(EmptySegment) else
    :- Require(previousSegmentHash.None? <==> previousCheckpointHash.None?, MissingPrevious);
    :- Require(ValidGenesisRef(ctx, genesisRef), Malformed);
    var last :- Verifier(ctx, tokenId).Replay(base, transfers);
    :- Require(IssueIndexMatches(ctx.suite, last.displayId, last.value, genesisRef.issueIndex), DisplayIdMismatch);
    var core :- CheckpointFromState(ctx, tokenId, genesisRef.genesisHash, last, previousCheckpointHash);
    var segment := ArchiveSegment(ctx.networkId, tokenId, last.value, last.displayId, genesisRef, base,
                                  base.sequence + 1, last.sequence, previousSegmentHash, previousCheckpointHash,
                                  core.checkpointHash, transfers, ZERO_HASH);
    var hash := SegmentHash(ctx.suite, segment);
    :- Require(hash.Some?, NotEncodable);
    Ok(segment.(segmentHash := hash.value))
  }

  /** The checks made before the previous segment is looked at. */
  function CheckHeader(ctx: Context, a: ArchiveSegment): Result<()> {
    if !(a.networkId == ctx.networkId) then Err(WrongNetwork) else
    :- Require(a.value >= 1 && 1 <= a.startSequence <= a.endSequence && a.transfers != [], Malformed);
    :- Require(SegmentHash(ctx.suite, a) == Some(a.segmentHash), HashMismatch);
    :- Require(ValidGenesisRef(ctx, a.genesisRef), Malformed);
    :- Require(IssueIndexMatches(ctx.suite, a.displayId, a.value, a.genesisRef.issueIndex), DisplayIdMismatch);
    Ok(())
  }

  /** The checks made once the base state is known to be connected. */
  function CheckBody(ctx: Context, a: ArchiveSegment): Result<CheckpointCore> {
    if !(a.startSequence == a.baseState.sequence + 1) then Err(RangeMismatch) else
    var last :- Verifier(ctx, a.tokenId).Replay(a.baseState, a.transfers);
    :- Require(last.sequence == a.endSequence, RangeMismatch);
    :- Require(last.value == a.value && last.displayId == a.displayId, ValueMismatch);
    var core :- CheckpointFromState(ctx, a.tokenId, a.genesisRef.genesisHash, last, a.previousCheckpointHash);
    :- Require(core.checkpointHash == a.checkpointHash, CheckpointMismatch);
    Ok(core)
  }

  /** The segment a verifier recurses into: the one it was handed, or else the one its store resolves. */
  function Previous(a: ArchiveSegment, given: Option<ArchiveSegment>,
                    store: Option<SegmentStore>): Option<ArchiveSegment> {
    if a.previousSegmentHash.None? then None
    else if given.Some? then given
    else if store.Some? && a.previousSegmentHash.value in store.value
    then Some(store.value[a.previousSegmentHash.value])
    else None
  }

  /** Verifies a segment and everything it links back to, and returns the checkpoint it derives.
      The recursion precedes the comparison of hashes, so it is bounded by a stack `depth`. */
  function VerifySegment(ctx: Context, a: ArchiveSegment, given: Option<ArchiveSegment>, store: Option<SegmentStore>,
                         checkpoints: Option<CheckpointStore>, depth: nat): Result<CheckpointCore>
    decreases depth
  {
    if depth == 0 then Err(RecursionLimit) else
    var _ :- CheckHeader(ctx, a);
    var previous := Previous(a, given, store);
    if a.previousSegmentHash.None? then
      :- Require(a.previousCheckpointHash.None?, MissingPrevious);
      :- Require(a.baseState.sequence == 0 && a.baseState.lastTransferHash == a.genesisRef.genesisHash, NotAtGenesis);
      CheckBody(ctx, a)
    else if previous.Some? then
      var core :- VerifySegment(ctx, previous.value, None, store, checkpoints, depth - 1);
      :- Require(SegmentHash(ctx.suite, previous.value) == Some(a.previousSegmentHash.value), HashMismatch);
      :- Require(a.previousCheckpointHash == Some(core.checkpointHash), CheckpointMismatch);
      :- Require(a.baseState == core.Tip(), NotConnected);
      CheckBody(ctx, a)
    else
      :- Require(checkpoints.Some? && a.previousCheckpointHash.Some?
                 && a.previousCheckpointHash.value in checkpoints.value, MissingPrevious);
      var core := checkpoints.value[a.previousCheckpointHash.value];
      :- Require(ValidCheckpointCore(ctx.suite, ctx.networkId, core), Malformed);
      :- Require(a.previousCheckpointHash == Some(core.checkpointHash), CheckpointMismatch);
      :- Require(a.baseState == core.Tip(), NotConnected);
      CheckBody(ctx, a)
  }

  // ----------------------------------------------------- chains of verified segments

  function Init<T>(s: seq<T>): seq<T>
    requires s != []
  {
    s[..|s| - 1]
  }

  function Last<T>(s: seq<T>): T
    requires s != []
  {
    s[|s| - 1]
  }

  /** The segments a verification visits, oldest first. */
  function Ancestry(a: ArchiveSegment, given: Option<ArchiveSegment>, store: Option<SegmentStore>,
                    depth: nat): seq<ArchiveSegment>
    decreases depth
  {
    var previous := Previous(a, given, store);
    if depth == 0 || previous.None? then [a] else Ancestry(previous.value, None, store, depth - 1) + [a]
  }

  /** All archived transfers of a chain, in order. */
  function History(chain: seq<ArchiveSegment>): seq<Transfer> {
    if chain == [] then [] else History(Init(chain)) + Last(chain).transfers
  }

  predicate StartsAtGenesis(a: ArchiveSegment) {
    && a.previousSegmentHash.None? && a.previousCheckpointHash.None?
    && a.baseState.sequence == 0 && a.baseState.lastTransferHash == a.genesisRef.genesisHash
  }

  /** The segment continues a checkpoint that was resolved instead of a segment. */
  predicate RestsOn(ctx: Context, a: ArchiveSegment, checkpoints: Option<CheckpointStore>) {
    && a.previousSegmentHash.Some? && a.previousCheckpointHash.Some?
    && checkpoints.Some? && a.previousCheckpointHash.value in checkpoints.value
    && var core := checkpoints.value[a.previousCheckpointHash.value];
       && ValidCheckpointCore(ctx.suite, ctx.networkId, core)
       && a.previousCheckpointHash == Some(core.checkpointHash) && a.baseState == core.Tip()
  }

  /** Each segment passes its checks, names the hash of the segment below, and starts from the state and
      checkpoint which that one derives. */
  predicate Linked(ctx: Context, chain: seq<ArchiveSegment>)
    decreases |chain|
  {
    && chain != [] && CheckHeader(ctx, Last(chain)).Ok? && CheckBody(ctx, Last(chain)).Ok?
    && (|chain| > 1 ==>
          && Linked(ctx, Init(chain))
          && Last(chain).previousSegmentHash == Some(Last(Init(chain)).segmentHash)
          && var below := CheckBody(ctx, Last(Init(chain))).value;
             Last(chain).baseState == below.Tip() && Last(chain).previousCheckpointHash == Some(below.checkpointHash))
  }

  /** A linked chain down to genesis. */
  predicate Connected(ctx: Context, chain: seq<ArchiveSegment>) {
    Linked(ctx, chain) && StartsAtGenesis(chain[0])
  }

  predicate TileAt(chain: seq<ArchiveSegment>, i: nat)
    requires i < |chain|
  {
    && chain[i].startSequence == (if i == 0 then 1 else chain[i - 1].endSequence + 1)
    && chain[i].endSequence == chain[i].startSequence + |chain[i].transfers| - 1
  }

  /** Sequence ranges start at one and follow each other without a gap; each holds its transfers. */
  predicate Tiles(chain: seq<ArchiveSegment>) {
    forall i :: 0 <= i < |chain| ==> TileAt(chain, i)
  }

  predicate SameToken(chain: seq<ArchiveSegment>, tokenId: Hash) {
    forall a :: a in chain ==> a.tokenId == tokenId
  }

  /** A derived checkpoint commits to the state it came from. */
  lemma CheckpointKeepsState(ctx: Context, tokenId: Hash, genesisHash: Hash, s: State, previous: Option<Hash>)
    requires CheckpointFromState(ctx, tokenId, genesisHash, s, previous).Ok?
    ensures var core := CheckpointFromState(ctx, tokenId, genesisHash, s, previous).value;
      && core.Tip() == s && core.tokenId == tokenId && core.genesisHash == genesisHash
      && core.previousCheckpointHash == previous && core.networkId == ctx.networkId
      && CoreEncodable(ctx.suite, core) && core.checkpointHash == CheckpointCoreHash(ctx.suite, core)
  {
  }

  /** The sequence range of a segment, against its base, its transfers and its checkpoint. */
  lemma BodyRange(ctx: Context, a: ArchiveSegment)
    requires CheckBody(ctx, a).Ok?
    ensures a.startSequence == a.baseState.sequence + 1
    ensures a.endSequence == CheckBody(ctx, a).value.sequence == a.baseState.sequence + |a.transfers|
  {
    AcceptedEnd(Verifier(ctx, a.tokenId), a.baseState, a.transfers);
  }

  /** The transfers of a segment carry its base to its checkpoint, and all name its token. */
  lemma BodyReplays(ctx: Context, a: ArchiveSegment)
    requires CheckBody(ctx, a).Ok?
    ensures Verifier(ctx, a.tokenId).Replay(a.baseState, a.transfers) == Ok(CheckBody(ctx, a).value.Tip())
    ensures forall t :: t in a.transfers ==> t.tokenId == a.tokenId
  {
    var r := Verifier(ctx, a.tokenId);
    var last := r.Replay(a.baseState, a.transfers).value;
    CheckpointKeepsState(ctx, a.tokenId, a.genesisRef.genesisHash, last, a.previousCheckpointHash);
    forall t | t in a.transfers
      ensures t.tokenId == a.tokenId
    {
      var i :| 0 <= i < |a.transfers| && a.transfers[i] == t;
      AcceptedAt(r, a.baseState, a.transfers, i);
    }
  }

  /** The checkpoint of a segment names its token, genesis and predecessor, under its own hash. */
  lemma BodyCheckpoint(ctx: Context, a: ArchiveSegment)
    requires CheckBody(ctx, a).Ok?
    ensures var core := CheckBody(ctx, a).value;
      && core.tokenId == a.tokenId && core.genesisHash == a.genesisRef.genesisHash
      && core.previousCheckpointHash == a.previousCheckpointHash && core.checkpointHash == a.checkpointHash
      && core.networkId == ctx.networkId
      && CoreEncodable(ctx.suite, core) && core.checkpointHash == CheckpointCoreHash(ctx.suite, core)
  {
    var last := Verifier(ctx, a.tokenId).Replay(a.baseState, a.transfers).value;
    CheckpointKeepsState(ctx, a.tokenId, a.genesisRef.genesisHash, last, a.previousCheckpointHash);
  }

  /** What acceptance says about a segment and the link below it. */
  lemma LinkFacts(ctx: Context, a: ArchiveSegment, given: Option<ArchiveSegment>, store: Option<SegmentStore>,
                  checkpoints: Option<CheckpointStore>, depth: nat)
    requires VerifySegment(ctx, a, given, store, checkpoints, depth).Ok?
    ensures depth > 0 && CheckHeader(ctx, a).Ok?
    ensures CheckBody(ctx, a) == VerifySegment(ctx, a, given, store, checkpoints, depth)
    ensures match Previous(a, given, store)
            case None => StartsAtGenesis(a) || RestsOn(ctx, a, checkpoints)
            case Some(p) =>
              var below := VerifySegment(ctx, p, None, store, checkpoints, depth - 1);
              && below.Ok? && a.baseState == below.value.Tip()
              && a.previousSegmentHash.Some? && SegmentHash(ctx.suite, p) == Some(a.previousSegmentHash.value)
              && a.previousCheckpointHash == Some(below.value.checkpointHash)
  {
  }

  lemma HeaderHash(ctx: Context, a: ArchiveSegment)
    requires CheckHeader(ctx, a).Ok?
    ensures SegmentHash(ctx.suite, a) == Some(a.segmentHash)
  {
  }

  /** Acceptance means a linked chain down to genesis or to a resolved checkpoint, whatever the
      resolvers returned along the way. */
  lemma {:induction false} AcceptedIsLinked(ctx: Context, a: ArchiveSegment, given: Option<ArchiveSegment>,
                                            store: Option<SegmentStore>, checkpoints: Option<CheckpointStore>,
                                            depth: nat)
    requires VerifySegment(ctx, a, given, store, checkpoints, depth).Ok?
    ensures var chain := Ancestry(a, given, store, depth);
      && Linked(ctx, chain) && Last(chain) == a
      && CheckBody(ctx, a) == VerifySegment(ctx, a, given, store, checkpoints, depth)
      && (StartsAtGenesis(chain[0]) || RestsOn(ctx, chain[0], checkpoints))
    decreases depth
  {
    hide CheckBody, CheckHeader, VerifySegment, StartsAtGenesis, RestsOn;
    LinkFacts(ctx, a, given, store, checkpoints, depth);
    var previous := Previous(a, given, store);
    if previous.Some? {
      LinkFacts(ctx, previous.value, None, store, checkpoints, depth - 1);
      HeaderHash(ctx, previous.value);
      AcceptedIsLinked(ctx, previous.value, None, store, checkpoints, depth - 1);
      assert Init(Ancestry(a, given, store, depth)) == Ancestry(previous.value, None, store, depth - 1);
    }
  }

  /** Nor is more than that asked, but that the chain fits the stack. */
  lemma {:induction false} AcceptedExactly(ctx: Context, a: ArchiveSegment, given: Option<ArchiveSegment>,
                                           store: Option<SegmentStore>, checkpoints: Option<CheckpointStore>,
                                           depth: nat)
    ensures var chain := Ancestry(a, given, store, depth);
      VerifySegment(ctx, a, given, store, checkpoints, depth).Ok? <==>
        && |chain| <= depth && Linked(ctx, chain)
        && (StartsAtGenesis(chain[0]) || RestsOn(ctx, chain[0], checkpoints))
    decreases depth
  {
    hide CheckBody, CheckHeader, VerifySegment, Linked, SegmentHash, StartsAtGenesis, RestsOn, Previous, Ancestry;
    var previous := Previous(a, given, store);
    if depth > 0 && previous.Some? {
      var p := previous.value;
      AcceptedExactly(ctx, p, None, store, checkpoints, depth - 1);
      StepAccepted(ctx, a, given, store, checkpoints, depth);
      AncestrySteps(a, given, store, depth);
      LinkedStep(ctx, Ancestry(a, given, store, depth));
      if VerifySegment(ctx, p, None, store, checkpoints, depth - 1).Ok? {
        AcceptedIsLinked(ctx, p, None, store, checkpoints, depth - 1);
        LinkFacts(ctx, p, None, store, checkpoints, depth - 1);
      }
      if CheckHeader(ctx, p).Ok? {
        HeaderHash(ctx, p);
      }
    } else {
      GroundAccepted(ctx, a, given, store, checkpoints, depth);
    }
  }

  lemma GroundAccepted(ctx: Context, a: ArchiveSegment, given: Option<ArchiveSegment>, store: Option<SegmentStore>,
                       checkpoints: Option<CheckpointStore>, depth: nat)
    requires depth == 0 || Previous(a, given, store).None?
    ensures Ancestry(a, given, store, depth) == [a]
    ensures VerifySegment(ctx, a, given, store, checkpoints, depth).Ok? <==>
              1 <= depth && Linked(ctx, [a]) && (StartsAtGenesis(a) || RestsOn(ctx, a, checkpoints))
  {
    hide CheckBody, CheckHeader, ValidCheckpointCore;
    assert Last([a]) == a;
  }

  lemma AncestryEnds(a: ArchiveSegment, given: Option<ArchiveSegment>, store: Option<SegmentStore>, depth: nat)
    ensures Last(Ancestry(a, given, store, depth)) == a
  {
  }

  lemma AncestrySteps(a: ArchiveSegment, given: Option<ArchiveSegment>, store: Option<SegmentStore>, depth: nat)
    requires depth > 0 && Previous(a, given, store).Some?
    ensures var p := Previous(a, given, store).value;
      var chain, below := Ancestry(a, given, store, depth), Ancestry(p, None, store, depth - 1);
      && below != [] && |chain| == |below| + 1 > 1 && Last(chain) == a && Init(chain) == below && chain[0] == below[0]
      && Last(below) == p
  {
    var p := Previous(a, given, store).value;
    var chain, below := Ancestry(a, given, store, depth), Ancestry(p, None, store, depth - 1);
    assert chain == below + [a];
    AncestryEnds(p, None, store, depth - 1);
  }

  lemma StepAccepted(ctx: Context, a: ArchiveSegment, given: Option<ArchiveSegment>, store: Option<SegmentStore>,
                     checkpoints: Option<CheckpointStore>, depth: nat)
    requires depth > 0 && Previous(a, given, store).Some?
    ensures var p := Previous(a, given, store).value;
      var below := VerifySegment(ctx, p, None, store, checkpoints, depth - 1);
      VerifySegment(ctx, a, given, store, checkpoints, depth).Ok? <==>
        && CheckHeader(ctx, a).Ok? && below.Ok? && SegmentHash(ctx.suite, p) == a.previousSegmentHash
        && a.previousCheckpointHash == Some(below.value.checkpointHash) && a.baseState == below.value.Tip()
        && CheckBody(ctx, a).Ok?
  {
    hide CheckBody, CheckHeader, SegmentHash, ValidCheckpointCore;
  }

  lemma LinkedStep(ctx: Context, chain: seq<ArchiveSegment>)
    requires |chain| > 1
    ensures Linked(ctx, chain) <==>
      && CheckHeader(ctx, Last(chain)).Ok? && CheckBody(ctx, Last(chain)).Ok? && Linked(ctx, Init(chain))
      && Last(chain).previousSegmentHash == Some(Last(Init(chain)).segmentHash)
      && var below := CheckBody(ctx, Last(Init(chain))).value;
         Last(chain).baseState == below.Tip() && Last(chain).previousCheckpointHash == Some(below.checkpointHash)
  {
    hide CheckBody, CheckHeader;
  }

  /** Without a checkpoint resolver the chain reaches genesis. */
  lemma AcceptedIsConnected(ctx: Context, a: ArchiveSegment, given: Option<ArchiveSegment>,
                            store: Option<SegmentStore>, depth: nat)
    requires VerifySegment(ctx, a, given, store, None, depth).Ok?
    ensures var chain := Ancestry(a, given, store, depth);
      && Connected(ctx, chain) && Last(chain) == a
      && CheckBody(ctx, a) == VerifySegment(ctx, a, given, store, None, depth)
  {
    hide CheckBody, VerifySegment, Linked;
    AcceptedIsLinked(ctx, a, given, store, None, depth);
  }

  /** With one, the chain may end on a resolved checkpoint; under one token its transfers then carry the
      state of that checkpoint to the one derived. */
  lemma AcceptedReplaysFromGround(ctx: Context, a: ArchiveSegment, given: Option<ArchiveSegment>,
                                  store: Option<SegmentStore>, checkpoints: Option<CheckpointStore>, depth: nat)
    requires VerifySegment(ctx, a, given, store, checkpoints, depth).Ok?
    requires SameToken(Ancestry(a, given, store, depth), a.tokenId)
    ensures var chain := Ancestry(a, given, store, depth);
      && (StartsAtGenesis(chain[0]) || RestsOn(ctx, chain[0], checkpoints))
      && Verifier(ctx, a.tokenId).Replay(chain[0].baseState, History(chain))
           == Ok(VerifySegment(ctx, a, given, store, checkpoints, depth).value.Tip())
  {
    hide CheckBody, VerifySegment, Linked;
    AcceptedIsLinked(ctx, a, given, store, checkpoints, depth);
    LinkedReplays(ctx, Ancestry(a, given, store, depth));
  }

  /** Two checkpoint stores that show a verifier the same hash fields, states and validity. */
  predicate ShowAlike(ctx: Context, x: CheckpointStore, y: CheckpointStore) {
    && x.Keys == y.Keys
    && forall h :: h in x ==>
         && x[h].checkpointHash == y[h].checkpointHash && x[h].Tip() == y[h].Tip()
         && ValidCheckpointCore(ctx.suite, ctx.networkId, x[h]) == ValidCheckpointCore(ctx.suite, ctx.networkId, y[h])
  }

  /** The hash of a resolved checkpoint is trusted, not recomputed: cores that differ in token, genesis or
      predecessor, which the hash is meant to fix, get the same verdict. */
  lemma {:induction false} ResolvedHashIsTrusted(ctx: Context, a: ArchiveSegment, given: Option<ArchiveSegment>,
                                                 store: Option<SegmentStore>, x: CheckpointStore, y: CheckpointStore,
                                                 depth: nat)
    requires ShowAlike(ctx, x, y)
    ensures VerifySegment(ctx, a, given, store, Some(x), depth) == VerifySegment(ctx, a, given, store, Some(y), depth)
    decreases depth
  {
    hide CheckBody, CheckHeader, ValidCheckpointCore, SegmentHash;
    var previous := Previous(a, given, store);
    if depth > 0 && previous.Some? {
      ResolvedHashIsTrusted(ctx, previous.value, None, store, x, y, depth - 1);
    }
  }

  /** A checkpoint under the hash of `q` that claims another state. */
  function Claiming(c: Suite, q: CheckpointCore, s: State): CheckpointCore {
    q.(sequence := s.sequence, ownerAddress := s.ownerAddress, value := s.value, displayId := s.displayId,
       displayIdHash := c.displayIdHash(s.displayId), lastTransferHash := s.lastTransferHash,
       lastTransferTimestamp := s.lastTransferTimestamp, lastTransferDay := s.lastTransferDay,
       transfersInLastDay := s.transfersInLastDay)
  }

  /** So any state passes under the hash of any checkpoint: what is built on a state is accepted from a
      resolver that answers the hash with a checkpoint claiming that state. */
  lemma AnyStateUnderAnyHash(ctx: Context, tokenId: Hash, g: GenesisRef, q: CheckpointCore, s: State,
                             ts: seq<Transfer>, previousSegmentHash: Hash)
    requires q.networkId == ctx.networkId && s.sequence >= 1 && s.transfersInLastDay >= 1
    requires MakeSegment(ctx, tokenId, g, s, ts, Some(previousSegmentHash), Some(q.checkpointHash)).Ok?
    ensures var a := MakeSegment(ctx, tokenId, g, s, ts, Some(previousSegmentHash), Some(q.checkpointHash)).value;
      && VerifySegment(ctx, a, None, None, Some(map[q.checkpointHash := Claiming(ctx.suite, q, s)]), 1)
           == CheckBody(ctx, a)
      && CheckBody(ctx, a).Ok? && a.baseState == s && a.previousCheckpointHash == Some(q.checkpointHash)
  {
    var a := MakeSegment(ctx, tokenId, g, s, ts, Some(previousSegmentHash), Some(q.checkpointHash)).value;
    MadeAlone(ctx, tokenId, g, s, ts, Some(previousSegmentHash), Some(q.checkpointHash));
    hide CheckBody, CheckHeader, MakeSegment;
    assert Claiming(ctx.suite, q, s).Tip() == s;
  }

  /** Exactly when a resolved checkpoint is the one that was named. Let an accepted chain rest on the
      resolver's answer to a hash, and let `q` be a checkpoint under that hash, told apart from the
      answer. The answer is `q` if and only if its hash recomputes, and then the chain starts from the
      state of `q`. Verification accepts either way. */
  lemma ResolvedIsNamedIffSelfHashed(ctx: Context, a: ArchiveSegment, given: Option<ArchiveSegment>,
                                     store: Option<SegmentStore>, x: CheckpointStore, depth: nat, q: CheckpointCore)
    requires VerifySegment(ctx, a, given, store, Some(x), depth).Ok?
    requires Ancestry(a, given, store, depth)[0].previousCheckpointHash == Some(q.checkpointHash)
    requires SelfHashed(ctx.suite, q)
    requires q.checkpointHash in x ==> Distinguishes(ctx.suite, {q, x[q.checkpointHash]})
    ensures q.checkpointHash in x
    ensures x[q.checkpointHash] == q <==> SelfHashed(ctx.suite, x[q.checkpointHash])
    ensures SelfHashed(ctx.suite, x[q.checkpointHash]) ==> Ancestry(a, given, store, depth)[0].baseState == q.Tip()
  {
    hide CheckBody, CheckHeader, VerifySegment, Linked, ValidCheckpointCore;
    AcceptedIsLinked(ctx, a, given, store, Some(x), depth);
    var core := x[q.checkpointHash];
    if SelfHashed(ctx.suite, core) {
      assert core in {q, core} && q in {q, core} && Zeroed(q) == Zeroed(core);
      assert core == Zeroed(core).(checkpointHash := core.checkpointHash);
      assert q == Zeroed(q).(checkpointHash := q.checkpointHash);
    }
  }

  /** What the log server answers from its table: an entry only if its hash recomputes. */
  function Recomputed(c: Suite, x: CheckpointStore): CheckpointStore {
    map h | h in x && CheckpointCoreHash(c, x[h]) == h :: x[h]
  }

  /** Over a resolver that recomputes, no accepted chain rests on anything but the checkpoint it names,
      whatever the table behind the resolver holds. */
  lemma RecomputingResolverIsSound(ctx: Context, a: ArchiveSegment, given: Option<ArchiveSegment>,
                                   store: Option<SegmentStore>, x: CheckpointStore, depth: nat, q: CheckpointCore)
    requires VerifySegment(ctx, a, given, store, Some(Recomputed(ctx.suite, x)), depth).Ok?
    requires Ancestry(a, given, store, depth)[0].previousCheckpointHash == Some(q.checkpointHash)
    requires SelfHashed(ctx.suite, q)
    requires q.checkpointHash in x ==> Distinguishes(ctx.suite, {q, x[q.checkpointHash]})
    ensures q.checkpointHash in x && x[q.checkpointHash] == q
    ensures Ancestry(a, given, store, depth)[0].baseState == q.Tip()
  {
    hide CheckBody, CheckHeader, VerifySegment, Linked, ValidCheckpointCore;
    AcceptedIsLinked(ctx, a, given, store, Some(Recomputed(ctx.suite, x)), depth);
    ResolvedIsNamedIffSelfHashed(ctx, a, given, store, Recomputed(ctx.suite, x), depth, q);
  }

  lemma {:induction false} ConnectedLength(ctx: Context, chain: seq<ArchiveSegment>)
    requires Connected(ctx, chain)
    ensures Last(chain).endSequence == |History(chain)| == CheckBody(ctx, Last(chain)).value.sequence
    decreases |chain|
  {
    hide CheckBody, CheckHeader;
    BodyRange(ctx, Last(chain));
    if |chain| > 1 {
      ConnectedLength(ctx, Init(chain));
    }
  }

  /** The ranges of a connected chain tile 1 .. n. */
  lemma {:induction false} ConnectedTiles(ctx: Context, chain: seq<ArchiveSegment>)
    requires Connected(ctx, chain)
    ensures Tiles(chain)
    decreases |chain|
  {
    hide CheckBody, CheckHeader;
    var a := Last(chain);
    BodyRange(ctx, a);
    if |chain| > 1 {
      var init := Init(chain);
      assert Linked(ctx, init);
      BodyRange(ctx, Last(init));
      ConnectedTiles(ctx, init);
      forall i | 0 <= i < |chain|
        ensures TileAt(chain, i)
      {
        if i < |init| {
          assert TileAt(init, i);
        }
      }
    }
  }

  /** The archive is the history: when every segment of a linked chain names one token, replaying all
      archived transfers from the chain's base gives exactly the state of the derived checkpoint. */
  lemma {:induction false} LinkedReplays(ctx: Context, chain: seq<ArchiveSegment>)
    requires Linked(ctx, chain) && SameToken(chain, Last(chain).tokenId)
    ensures Verifier(ctx, Last(chain).tokenId).Replay(chain[0].baseState, History(chain))
         == Ok(CheckBody(ctx, Last(chain)).value.Tip())
    decreases |chain|
  {
    hide CheckBody, CheckHeader, Link;
    var a := Last(chain);
    BodyReplays(ctx, a);
    if |chain| == 1 {
      assert History(Init(chain)) == [] && [] + a.transfers == a.transfers;
    } else {
      assert Last(Init(chain)) in chain && forall s :: s in Init(chain) ==> s in chain;
      LinkedReplays(ctx, Init(chain));
      ReplayComposes(Verifier(ctx, a.tokenId), chain[0].baseState, History(Init(chain)), a.transfers);
    }
  }

  /** Every segment archives at least one transfer, and all its transfers name its token. */
  lemma {:induction false} LinkedTokens(ctx: Context, chain: seq<ArchiveSegment>, i: nat)
    requires Linked(ctx, chain) && i < |chain|
    ensures chain[i].transfers != []
    ensures forall t :: t in chain[i].transfers ==> t.tokenId == chain[i].tokenId && t in History(chain)
    decreases |chain|
  {
    BodyReplays(ctx, Last(chain));
    hide CheckBody;
    if i < |chain| - 1 {
      LinkedTokens(ctx, Init(chain), i);
    }
  }

  /** A history that replays under a token is archived in segments that all name it. */
  lemma ReplayedChainKeepsToken(ctx: Context, tokenId: Hash, chain: seq<ArchiveSegment>)
    requires Linked(ctx, chain)
    requires Verifier(ctx, tokenId).Replay(chain[0].baseState, History(chain)).Ok?
    ensures SameToken(chain, tokenId)
  {
    hide CheckBody, Linked, Link;
    var r := Verifier(ctx, tokenId);
    forall a | a in chain
      ensures a.tokenId == tokenId
    {
      var k :| 0 <= k < |chain| && chain[k] == a;
      LinkedTokens(ctx, chain, k);
      assert a.transfers[0] in History(chain);
      var i :| 0 <= i < |History(chain)| && History(chain)[i] == a.transfers[0];
      AcceptedAt(r, chain[0].baseState, History(chain), i);
    }
  }

  /** The links compare states, not token ids, so one shared token id is a real condition: the whole
      archive replays under the checkpoint's token exactly when all segments name that token. */
  lemma ArchiveReplaysIffOneToken(ctx: Context, chain: seq<ArchiveSegment>)
    requires Linked(ctx, chain)
    ensures Verifier(ctx, Last(chain).tokenId).Replay(chain[0].baseState, History(chain))
              == Ok(CheckBody(ctx, Last(chain)).value.Tip())
       <==> SameToken(chain, Last(chain).tokenId)
  {
    hide Link, CheckBody, CheckHeader;
    var r := Verifier(ctx, Last(chain).tokenId);
    if SameToken(chain, Last(chain).tokenId) {
      LinkedReplays(ctx, chain);
    } else if r.Replay(chain[0].baseState, History(chain)).Ok? {
      ReplayedChainKeepsToken(ctx, Last(chain).tokenId, chain);
    }
  }

  /** The links carry the day and the counter, so they stay true to the whole history behind them,
      whatever tokens the segments name. */
  lemma {:induction false} LinkedChronicle(ctx: Context, chain: seq<ArchiveSegment>)
    requires Linked(ctx, chain)
    ensures Chronicled(CheckBody(ctx, Last(chain)).value.Tip(), History(chain))
    decreases |chain|
  {
    hide CheckBody, CheckHeader, Link, Chronicled;
    var a := Last(chain);
    BodyReplays(ctx, a);
    if |chain| == 1 {
      NothingChronicled(a.baseState);
      assert History(Init(chain)) == [];
    } else {
      LinkedChronicle(ctx, Init(chain));
    }
    FoldKeepsChronicle(Verifier(ctx, a.tokenId), a.baseState, History(Init(chain)), a.transfers);
  }

  lemma NothingChronicled(s: State)
    ensures Chronicled(s, [])
  {
  }

  /** Nor do the links lose the thread: numbers, hashes and owners carry on across segments. */
  lemma {:induction false} LinkedThreads(ctx: Context, chain: seq<ArchiveSegment>)
    requires Linked(ctx, chain)
    ensures Threaded(ctx.suite, chain[0].baseState, History(chain))
    ensures EndsAt(ctx.suite, chain[0].baseState, History(chain), CheckBody(ctx, Last(chain)).value.Tip())
    decreases |chain|
  {
    hide CheckBody, CheckHeader, Link, Threaded, EndsAt;
    var a := Last(chain);
    var tip := CheckBody(ctx, a).value.Tip();
    BodyReplays(ctx, a);
    FoldThreads(Verifier(ctx, a.tokenId), a.baseState, a.transfers);
    if |chain| == 1 {
      assert History(Init(chain)) == [] && [] + a.transfers == a.transfers;
    } else {
      LinkedThreads(ctx, Init(chain));
      ThreadsJoin(ctx.suite, chain[0].baseState, History(Init(chain)), a.baseState, a.transfers, tip);
    }
  }

  /** Over every accepted chain, at most ten transfers fall on any UTC day and timestamps strictly
      increase, across segment boundaries, whatever the cuts and the tokens. */
  lemma ChainDailyBound(ctx: Context, chain: seq<ArchiveSegment>)
    requires Linked(ctx, chain)
    ensures forall day :: CountOnDay(History(chain), day) <= MAX_TRANSFERS_PER_BILL_PER_DAY
    ensures Chronological(History(chain))
  {
    hide Linked, CheckBody;
    LinkedChronicle(ctx, chain);
  }

  // --------------------------------------------------------------- cut invariance

  function Flatten(blocks: seq<seq<Transfer>>): seq<Transfer> {
    if blocks == [] then [] else blocks[0] + Flatten(blocks[1..])
  }

  function HashOf(below: Option<ArchiveSegment>): Option<Hash> {
    match below
    case None => None
    case Some(b) => Some(b.segmentHash)
  }

  function CheckpointOf(below: Option<ArchiveSegment>): Option<Hash> {
    match below
    case None => None
    case Some(b) => Some(b.checkpointHash)
  }

  /** Whose history is archived. */
  datatype Archiver = Archiver(ctx: Context, tokenId: Hash, genesisRef: GenesisRef) {

    function Make(base: State, transfers: seq<Transfer>, below: Option<ArchiveSegment>): Result<ArchiveSegment> {
      MakeSegment(ctx, tokenId, genesisRef, base, transfers, HashOf(below), CheckpointOf(below))
    }

    function Tip(base: State, transfers: seq<Transfer>): Result<State> {
      Verifier(ctx, tokenId).Replay(base, transfers)
    }

    /** Archives a history block by block, each segment linked to the one before it. */
    function BuildChain(base: State, blocks: seq<seq<Transfer>>,
                        below: Option<ArchiveSegment>): Result<seq<ArchiveSegment>>
      decreases |blocks|
    {
      if blocks == [] then Ok([])
      else
        var segment :- Make(base, blocks[0], below);
        var tip :- Tip(base, blocks[0]);
        var rest :- BuildChain(tip, blocks[1..], Some(segment));
        Ok([segment] + rest)
    }
  }

  predicate Holds(store: SegmentStore, chain: seq<ArchiveSegment>) {
    forall a :: a in chain ==> a.segmentHash in store && store[a.segmentHash] == a
  }

  /** A segment that was just built passes its own checks, whatever it says it is built on. */
  lemma MadeAlone(ctx: Context, tokenId: Hash, g: GenesisRef, base: State, ts: seq<Transfer>,
                  previousSegmentHash: Option<Hash>, previousCheckpointHash: Option<Hash>)
    requires MakeSegment(ctx, tokenId, g, base, ts, previousSegmentHash, previousCheckpointHash).Ok?
    ensures var a := MakeSegment(ctx, tokenId, g, base, ts, previousSegmentHash, previousCheckpointHash).value;
      && CheckHeader(ctx, a).Ok? && CheckBody(ctx, a).Ok?
      && Verifier(ctx, tokenId).Replay(base, ts) == Ok(CheckBody(ctx, a).value.Tip())
      && CheckBody(ctx, a).value.checkpointHash == a.checkpointHash && a.baseState == base && a.genesisRef == g
      && a.tokenId == tokenId && a.transfers == ts && a.previousSegmentHash == previousSegmentHash
      && a.previousCheckpointHash == previousCheckpointHash && SegmentHash(ctx.suite, a) == Some(a.segmentHash)
      && ValidState(ctx.suite, base)
  {
    var a := MakeSegment(ctx, tokenId, g, base, ts, previousSegmentHash, previousCheckpointHash).value;
    AcceptedEnd(Verifier(ctx, tokenId), base, ts);
    assert a.(segmentHash := ZERO_HASH).(segmentHash := ZERO_HASH) == a.(segmentHash := ZERO_HASH);
  }

  /** A segment that was just built passes its own header and body checks, and derives the tip of
      the transfers it was built from. */
  lemma MadeChecks(ar: Archiver, base: State, transfers: seq<Transfer>, below: Option<ArchiveSegment>)
    requires ar.Make(base, transfers, below).Ok?
    ensures var a := ar.Make(base, transfers, below).value;
      && CheckHeader(ar.ctx, a).Ok? && CheckBody(ar.ctx, a).Ok?
      && ar.Tip(base, transfers) == Ok(CheckBody(ar.ctx, a).value.Tip())
      && CheckBody(ar.ctx, a).value.checkpointHash == a.checkpointHash
      && a.baseState == base && a.genesisRef == ar.genesisRef && a.tokenId == ar.tokenId && a.transfers == transfers
      && a.previousSegmentHash == HashOf(below) && a.previousCheckpointHash == CheckpointOf(below)
      && SegmentHash(ar.ctx.suite, a) == Some(a.segmentHash)
  {
    MadeAlone(ar.ctx, ar.tokenId, ar.genesisRef, base, transfers, HashOf(below), CheckpointOf(below));
  }

  /** Where the next block of a history being archived attaches: at genesis, or on a verified segment. */
  predicate Attaches(ar: Archiver, base: State, below: Option<ArchiveSegment>, store: SegmentStore, depth: nat) {
    match below
    case None => base.sequence == 0 && base.lastTransferHash == ar.genesisRef.genesisHash
    case Some(b) =>
      var verified := VerifySegment(ar.ctx, b, None, Some(store), None, depth);
      && verified.Ok? && verified.value.Tip() == base && verified.value.checkpointHash == b.checkpointHash
      && SegmentHash(ar.ctx.suite, b) == Some(b.segmentHash)
      && b.segmentHash in store && store[b.segmentHash] == b
  }

  lemma MadeVerifies(ar: Archiver, base: State, transfers: seq<Transfer>, below: Option<ArchiveSegment>,
                     store: SegmentStore, depth: nat)
    requires Attaches(ar, base, below, store, depth)
    requires ar.Make(base, transfers, below).Ok?
    ensures var a := ar.Make(base, transfers, below).value;
      VerifySegment(ar.ctx, a, None, Some(store), None, depth + 1) == CheckBody(ar.ctx, a)
  {
    hide CheckBody, CheckHeader, MakeSegment;
    MadeChecks(ar, base, transfers, below);
  }

  /** Any accepted history from a genesis base, cut into any blocks and archived: every segment is
      accepted from a store that holds the chain. */
  lemma {:induction false} CutAccepted(ar: Archiver, base: State, blocks: seq<seq<Transfer>>,
                                       below: Option<ArchiveSegment>,
                                       store: SegmentStore, depth: nat, i: nat)
    requires Attaches(ar, base, below, store, depth)
    requires ar.BuildChain(base, blocks, below).Ok? && Holds(store, ar.BuildChain(base, blocks, below).value)
    requires i < |blocks|
    ensures var chain := ar.BuildChain(base, blocks, below).value;
      && |chain| == |blocks| && CheckBody(ar.ctx, chain[i]).Ok?
      && VerifySegment(ar.ctx, chain[i], None, Some(store), None, depth + i + 1) == CheckBody(ar.ctx, chain[i])
    decreases |blocks|
  {
    hide CheckBody, CheckHeader, MakeSegment, VerifySegment, Link;
    var chain := ar.BuildChain(base, blocks, below).value;
    MadeChecks(ar, base, blocks[0], below);
    MadeVerifies(ar, base, blocks[0], below, store, depth);
    assert chain[0] in chain && forall a :: a in chain[1..] ==> a in chain;
    if |blocks| > 1 {
      CutAccepted(ar, ar.Tip(base, blocks[0]).value, blocks[1..], Some(chain[0]), store, depth + 1,
                  if i == 0 then 0 else i - 1);
    }
  }

  /** How the segments of a chain just built refer to each other. */
  lemma {:induction false} CutLinks(ar: Archiver, base: State, blocks: seq<seq<Transfer>>,
                                    below: Option<ArchiveSegment>, i: nat)
    requires ar.BuildChain(base, blocks, below).Ok? && i < |blocks|
    ensures var chain := ar.BuildChain(base, blocks, below).value;
      && |chain| == |blocks| && CheckHeader(ar.ctx, chain[i]).Ok?
      && chain[i].tokenId == ar.tokenId && chain[i].genesisRef == ar.genesisRef && chain[i].transfers == blocks[i]
      && chain[i].previousCheckpointHash == CheckpointOf(if i == 0 then below else Some(chain[i - 1]))
      && chain[i].previousSegmentHash == HashOf(if i == 0 then below else Some(chain[i - 1]))
    decreases |blocks|
  {
    hide CheckBody, CheckHeader, MakeSegment, Link;
    MadeChecks(ar, base, blocks[0], below);
    var chain := ar.BuildChain(base, blocks, below).value;
    if |blocks| > 1 {
      CutLinks(ar, ar.Tip(base, blocks[0]).value, blocks[1..], Some(chain[0]), if i == 0 then 0 else i - 1);
    }
  }

  /** Two archivers who do not agree on token or genesis can archive one after the other: what the second
      builds on the first's segment is accepted, as one chain. */
  lemma {:induction false} OneOnAnother(first: Archiver, second: Archiver, base: State, a: ArchiveSegment,
                                        b: ArchiveSegment, store: SegmentStore)
    requires first.ctx == second.ctx
    requires Attaches(first, base, None, store, 0) && first.Make(base, a.transfers, None) == Ok(a)
    requires first.Tip(base, a.transfers).Ok?
    requires second.Make(first.Tip(base, a.transfers).value, b.transfers, Some(a)) == Ok(b)
    requires a.segmentHash in store && store[a.segmentHash] == a
    ensures VerifySegment(first.ctx, b, None, Some(store), None, 2) == CheckBody(first.ctx, b)
    ensures CheckBody(first.ctx, b).Ok? && Ancestry(b, None, Some(store), 2) == [a, b]
    ensures a.tokenId == first.tokenId && b.tokenId == second.tokenId && a.baseState == base
    ensures a.genesisRef == first.genesisRef && b.genesisRef == second.genesisRef
  {
    hide CheckBody, CheckHeader, MakeSegment, VerifySegment, Link, Replayer.Replay;
    var tip := first.Tip(base, a.transfers).value;
    MadeChecks(first, base, a.transfers, None);
    MadeVerifies(first, base, a.transfers, None, store, 0);
    MadeChecks(second, tip, b.transfers, Some(a));
    MadeVerifies(second, tip, b.transfers, Some(a), store, 1);
    assert Ancestry(a, None, Some(store), 1) == [a];
  }

  /** So an accepted chain can name two tokens. */
  lemma {:induction false} MixedTokensAreAccepted(first: Archiver, second: Archiver, base: State, a: ArchiveSegment,
                                                  b: ArchiveSegment, store: SegmentStore)
    requires first.ctx == second.ctx && first.tokenId != second.tokenId
    requires Attaches(first, base, None, store, 0) && first.Make(base, a.transfers, None) == Ok(a)
    requires first.Tip(base, a.transfers).Ok?
    requires second.Make(first.Tip(base, a.transfers).value, b.transfers, Some(a)) == Ok(b)
    requires a.segmentHash in store && store[a.segmentHash] == a
    ensures VerifySegment(first.ctx, b, None, Some(store), None, 2).Ok?
    ensures var chain := Ancestry(b, None, Some(store), 2);
      chain == [a, b] && !SameToken(chain, b.tokenId)
  {
    hide CheckBody, MakeSegment, VerifySegment, Link, Replayer.Replay;
    OneOnAnother(first, second, base, a, b, store);
    assert a in [a, b];
  }

  /** And with one token it can name two geneses: the chain starts on one genesis hash, and the checkpoint
      it derives names another. */
  lemma {:induction false} MixedGenesesAreAccepted(first: Archiver, second: Archiver, base: State, a: ArchiveSegment,
                                                   b: ArchiveSegment, store: SegmentStore)
    requires first.ctx == second.ctx && first.tokenId == second.tokenId
    requires first.genesisRef.genesisHash != second.genesisRef.genesisHash
    requires Attaches(first, base, None, store, 0) && first.Make(base, a.transfers, None) == Ok(a)
    requires first.Tip(base, a.transfers).Ok?
    requires second.Make(first.Tip(base, a.transfers).value, b.transfers, Some(a)) == Ok(b)
    requires a.segmentHash in store && store[a.segmentHash] == a
    ensures var verdict := VerifySegment(first.ctx, b, None, Some(store), None, 2);
      verdict.Ok? && verdict.value.genesisHash != Ancestry(b, None, Some(store), 2)[0].baseState.lastTransferHash
    ensures var chain := Ancestry(b, None, Some(store), 2);
      chain == [a, b] && SameToken(chain, b.tokenId)
  {
    hide CheckBody, MakeSegment, VerifySegment, Link, Replayer.Replay;
    OneOnAnother(first, second, base, a, b, store);
    BodyCheckpoint(first.ctx, b);
  }

  /** The history behind a checkpoint starts on the genesis hash the checkpoint names exactly when the
      first archived segment names it too. */
  lemma StartsOnNamedGenesisIff(ctx: Context, chain: seq<ArchiveSegment>)
    requires Connected(ctx, chain)
    ensures CheckBody(ctx, Last(chain)).Ok? && History(chain) != []
    ensures History(chain)[0].previousHash == CheckBody(ctx, Last(chain)).value.genesisHash
       <==> chain[0].genesisRef.genesisHash == Last(chain).genesisRef.genesisHash
  {
    hide CheckBody, CheckHeader, Threaded, EndsAt;
    LinkedTokens(ctx, chain, |chain| - 1);
    LinkedThreads(ctx, chain);
    BodyCheckpoint(ctx, Last(chain));
    FirstOfThread(ctx.suite, chain[0].baseState, History(chain));
  }

  lemma FirstOfThread(c: Suite, s: State, ts: seq<Transfer>)
    requires Threaded(c, s, ts) && ts != []
    ensures ts[0].previousHash == s.lastTransferHash
  {
    assert ThreadAt(c, s, ts, 0);
  }

  /** What each segment of such a chain derives: the state of the history up to its cut. */
  lemma {:induction false} CutTips(ar: Archiver, base: State, blocks: seq<seq<Transfer>>,
                                   below: Option<ArchiveSegment>, i: nat)
    requires ar.BuildChain(base, blocks, below).Ok? && i < |blocks|
    ensures var chain := ar.BuildChain(base, blocks, below).value;
      && |chain| == |blocks| && CheckBody(ar.ctx, chain[i]).Ok?
      && ar.Tip(base, Flatten(blocks[..i + 1])) == Ok(CheckBody(ar.ctx, chain[i]).value.Tip())
    decreases |blocks|
  {
    hide CheckBody, CheckHeader, MakeSegment, Link;
    MadeChecks(ar, base, blocks[0], below);
    var first := ar.Make(base, blocks[0], below).value;
    var tip := ar.Tip(base, blocks[0]).value;
    if |blocks| > 1 {
      CutTips(ar, tip, blocks[1..], Some(first), if i == 0 then 0 else i - 1);
    }
    assert blocks[..i + 1][1..] == blocks[1..][..i] && blocks[..i + 1][0] == blocks[0];
    ReplayComposes(Verifier(ar.ctx, ar.tokenId), base, blocks[0], Flatten(blocks[1..][..i]));
    if i == 0 {
      assert blocks[0] + [] == blocks[0];
    }
  }

  /** Where a history is cut does not show in the state its last checkpoint commits to. */
  lemma CutsAgree(ar: Archiver, base: State, cutA: seq<seq<Transfer>>, cutB: seq<seq<Transfer>>)
    requires cutA != [] && cutB != [] && Flatten(cutA) == Flatten(cutB)
    requires ar.BuildChain(base, cutA, None).Ok? && ar.BuildChain(base, cutB, None).Ok?
    ensures var lastA, lastB := ar.BuildChain(base, cutA, None).value, ar.BuildChain(base, cutB, None).value;
      && |lastA| == |cutA| && |lastB| == |cutB|
      && CheckBody(ar.ctx, Last(lastA)).Ok? && CheckBody(ar.ctx, Last(lastB)).Ok?
      && CheckBody(ar.ctx, Last(lastA)).value.Tip() == CheckBody(ar.ctx, Last(lastB)).value.Tip()
  {
    hide CheckBody, MakeSegment, Link;
    CutTips(ar, base, cutA, None, |cutA| - 1);
    CutTips(ar, base, cutB, None, |cutB| - 1);
    assert cutA[..|cutA|] == cutA && cutB[..|cutB|] == cutB;
  }

  /** Archiving an accepted history fails only at the encoder's limits: a segment or checkpoint that
      has no hash because a number or the payload is too large. */
  lemma {:induction false} OnlyLimitsStopArchiving(ar: Archiver, base: State, blocks: seq<seq<Transfer>>,
                                                   below: Option<ArchiveSegment>)
    requires ValidGenesisRef(ar.ctx, ar.genesisRef)
    requires IssueIndexMatches(ar.ctx.suite, base.displayId, base.value, ar.genesisRef.issueIndex)
    requires forall b :: b in blocks ==> b != []
    requires ar.Tip(base, Flatten(blocks)).Ok?
    ensures ar.BuildChain(base, blocks, below).Ok? || ar.BuildChain(base, blocks, below) == Err(NotEncodable)
    decreases |blocks|
  {
    if blocks != [] {
      var r := Verifier(ar.ctx, ar.tokenId);
      assert blocks[0] in blocks && forall b :: b in blocks[1..] ==> b in blocks;
      ReplayComposes(r, base, blocks[0], Flatten(blocks[1..]));
      FoldKeepsValid(r, base, blocks[0]);
      AcceptedEnd(r, base, blocks[0]);
      var made := ar.Make(base, blocks[0], below);
      assert made.Ok? || made == Err(NotEncodable);
      hide MakeSegment, Link;
      if made.Ok? {
        OnlyLimitsStopArchiving(ar, ar.Tip(base, blocks[0]).value, blocks[1..], Some(made.value));
      }
    }
  }

  // ------------------------------------------------------- the recursion and its end

  /** A verdict other than "too deep" does not depend on how much stack there was. */
  lemma {:induction false} DeeperAgrees(ctx: Context, a: ArchiveSegment, given: Option<ArchiveSegment>,
                                        store: Option<SegmentStore>, checkpoints: Option<CheckpointStore>, depth: nat,
                                        more: nat)
    requires depth <= more && VerifySegment(ctx, a, given, store, checkpoints, depth) != Err(RecursionLimit)
    ensures VerifySegment(ctx, a, given, store, checkpoints, more)
         == VerifySegment(ctx, a, given, store, checkpoints, depth)
    decreases depth
  {
    hide CheckBody, CheckHeader, SegmentHash, ValidCheckpointCore;
    var previous := Previous(a, given, store);
    if depth > 0 && previous.Some? && CheckHeader(ctx, a).Ok? {
      DeeperAgrees(ctx, previous.value, None, store, checkpoints, depth - 1, more - 1);
    }
  }

  /** Verification walks `n` links from `a`: every header on the way passes and every link resolves. */
  predicate Followed(ctx: Context, a: ArchiveSegment, store: SegmentStore, n: nat)
    decreases n
  {
    n == 0
    || (CheckHeader(ctx, a).Ok? && a.previousSegmentHash.Some? && a.previousSegmentHash.value in store
        && Followed(ctx, store[a.previousSegmentHash.value], store, n - 1))
  }

  /** The segment `n` links down. */
  function Down(a: ArchiveSegment, store: SegmentStore, n: nat): ArchiveSegment
    decreases n
  {
    if n == 0 || a.previousSegmentHash.None? || a.previousSegmentHash.value !in store then a
    else Down(store[a.previousSegmentHash.value], store, n - 1)
  }

  /** The walk passes every header up to link `j`, and that link was already followed at `i`. */
  predicate ComesBack(ctx: Context, a: ArchiveSegment, store: SegmentStore, i: nat, j: nat) {
    i < j && Followed(ctx, a, store, j + 1)
    && Down(a, store, i).previousSegmentHash == Down(a, store, j).previousSegmentHash
  }

  lemma {:induction false} ReplayIsNotDeep(r: Replayer, s: State, ts: seq<Transfer>)
    ensures r.Fold(s, ts) != Err(RecursionLimit)
    decreases |ts|
  {
    if ts != [] && r.Step(s, ts[0]).Ok? {
      ReplayIsNotDeep(r, r.Step(s, ts[0]).value, ts[1..]);
    }
  }

  lemma ChecksAreNotDeep(ctx: Context, a: ArchiveSegment)
    ensures CheckHeader(ctx, a) != Err(RecursionLimit) && CheckBody(ctx, a) != Err(RecursionLimit)
  {
    ReplayIsNotDeep(Verifier(ctx, a.tokenId), a.baseState, a.transfers);
  }

  /** A stack of `depth` is too shallow exactly when verification can walk `depth` links. */
  lemma {:induction false} TooDeepIffFollowed(ctx: Context, a: ArchiveSegment, store: SegmentStore,
                                              checkpoints: Option<CheckpointStore>, depth: nat)
    ensures VerifySegment(ctx, a, None, Some(store), checkpoints, depth) == Err(RecursionLimit)
       <==> Followed(ctx, a, store, depth)
    decreases depth
  {
    hide CheckBody, CheckHeader, SegmentHash, ValidCheckpointCore;
    ChecksAreNotDeep(ctx, a);
    if depth > 0 && a.previousSegmentHash.Some? && a.previousSegmentHash.value in store {
      TooDeepIffFollowed(ctx, store[a.previousSegmentHash.value], store, checkpoints, depth - 1);
    }
  }

  lemma {:induction false} FollowedInParts(ctx: Context, a: ArchiveSegment, store: SegmentStore, m: nat, n: nat)
    ensures Followed(ctx, a, store, m + n) <==> Followed(ctx, a, store, m) && Followed(ctx, Down(a, store, m), store, n)
    ensures Followed(ctx, a, store, m) ==> Down(a, store, m + n) == Down(Down(a, store, m), store, n)
    decreases m
  {
    hide CheckHeader;
    if m > 0 && a.previousSegmentHash.Some? && a.previousSegmentHash.value in store {
      FollowedInParts(ctx, store[a.previousSegmentHash.value], store, m - 1, n);
    }
  }

  /** A walk that returns to where it started never ends. */
  lemma {:induction false} CycleNeverEnds(ctx: Context, a: ArchiveSegment, store: SegmentStore, period: nat, n: nat)
    requires period > 0 && Followed(ctx, a, store, period) && Down(a, store, period) == a
    ensures Followed(ctx, a, store, n)
    decreases n
  {
    hide Followed, Down;
    if n <= period {
      FollowedInParts(ctx, a, store, n, period - n);
    } else {
      CycleNeverEnds(ctx, a, store, period, n - period);
      FollowedInParts(ctx, a, store, period, n - period);
    }
  }

  /** The step under a walk that is followed one link further. */
  lemma OneDown(ctx: Context, a: ArchiveSegment, store: SegmentStore, i: nat)
    requires Followed(ctx, a, store, i + 1)
    ensures var s := Down(a, store, i);
      && s.previousSegmentHash.Some? && s.previousSegmentHash.value in store
      && Down(a, store, i + 1) == store[s.previousSegmentHash.value]
  {
    hide CheckHeader;
    FollowedInParts(ctx, a, store, i, 1);
    assert Followed(ctx, Down(a, store, i), store, 1);
    assert Down(Down(a, store, i), store, 1) == Down(store[Down(a, store, i).previousSegmentHash.value], store, 0);
  }

  lemma ComingBackNeverEnds(ctx: Context, a: ArchiveSegment, store: SegmentStore, i: nat, j: nat, n: nat)
    requires ComesBack(ctx, a, store, i, j)
    ensures Followed(ctx, a, store, n)
  {
    hide Followed, Down;
    var s := Down(a, store, i + 1);
    FollowedInParts(ctx, a, store, i + 1, j - i);
    OneDown(ctx, a, store, j);
    OneDown(ctx, a, store, i);
    if n <= j + 1 {
      FollowedInParts(ctx, a, store, n, j + 1 - n);
    } else {
      CycleNeverEnds(ctx, s, store, j - i, n - (i + 1));
      FollowedInParts(ctx, a, store, i + 1, n - (i + 1));
    }
  }

  lemma {:induction false} DistinctFit<T>(s: seq<T>, pool: set<T>)
    requires forall x :: x in s ==> x in pool
    requires forall i, j :: 0 <= i < j < |s| ==> s[i] != s[j]
    ensures |s| <= |pool|
    decreases |s|
  {
    if s != [] {
      DistinctFit(s[1..], pool - {s[0]});
    }
  }

  /** Walking more links than the store holds means following one of them twice. */
  lemma LongWalkComesBack(ctx: Context, a: ArchiveSegment, store: SegmentStore)
    requires Followed(ctx, a, store, |store| + 1)
    ensures exists i: nat, j: nat :: i < j <= |store| && ComesBack(ctx, a, store, i, j)
  {
    hide Followed, Down;
    var n := |store| + 1;
    forall i: nat | i < n
      ensures HashDown(a, store, i) in store.Keys
    {
      FollowedInParts(ctx, a, store, i + 1, n - (i + 1));
      OneDown(ctx, a, store, i);
    }
    var hashes := seq(n, (i: nat) => HashDown(a, store, i));
    if forall i, j :: 0 <= i < j < n ==> hashes[i] != hashes[j] {
      DistinctFit(hashes, store.Keys);
      assert false;
    } else {
      var i: nat, j: nat :| i < j < n && hashes[i] == hashes[j];
      FollowedInParts(ctx, a, store, j + 1, n - (j + 1));
      OneDown(ctx, a, store, j);
      FollowedInParts(ctx, a, store, i + 1, j - i);
      OneDown(ctx, a, store, i);
      assert ComesBack(ctx, a, store, i, j);
    }
  }

  /** The hash of the link `i` steps down. */
  function HashDown(a: ArchiveSegment, store: SegmentStore, i: nat): Hash {
    var s := Down(a, store, i);
    if s.previousSegmentHash.Some? then s.previousSegmentHash.value else ZERO_HASH
  }

  /** Exactly when verification ends. Over any finite store, honest or not, a stack deeper than the store
      is too shallow if and only if the walk comes back to a link it already followed, with every header
      on the way passing; and then no stack is deep enough. */
  lemma EndsUnlessItComesBack(ctx: Context, a: ArchiveSegment, store: SegmentStore,
                              checkpoints: Option<CheckpointStore>, depth: nat)
    requires depth > |store|
    ensures VerifySegment(ctx, a, None, Some(store), checkpoints, depth) == Err(RecursionLimit)
       <==> exists i: nat, j: nat :: i < j <= |store| && ComesBack(ctx, a, store, i, j)
    ensures VerifySegment(ctx, a, None, Some(store), checkpoints, depth) == Err(RecursionLimit)
       <==> forall d :: VerifySegment(ctx, a, None, Some(store), checkpoints, d) == Err(RecursionLimit)
  {
    hide VerifySegment, Followed, ComesBack;
    TooDeepIffFollowed(ctx, a, store, checkpoints, depth);
    if Followed(ctx, a, store, depth) {
      FollowedInParts(ctx, a, store, |store| + 1, depth - (|store| + 1));
      LongWalkComesBack(ctx, a, store);
    }
    if exists i: nat, j: nat :: i < j <= |store| && ComesBack(ctx, a, store, i, j) {
      var i: nat, j: nat :| i < j <= |store| && ComesBack(ctx, a, store, i, j);
      forall d: nat
        ensures VerifySegment(ctx, a, None, Some(store), checkpoints, d) == Err(RecursionLimit)
      {
        ComingBackNeverEnds(ctx, a, store, i, j, d);
        TooDeepIffFollowed(ctx, a, store, checkpoints, d);
      }
      ComingBackNeverEnds(ctx, a, store, i, j, depth);
    }
  }

  /** Because the recursion precedes the comparison of hashes, a resolver that answers with the very
      segment being verified is followed until the stack runs out, however deep it is. */
  lemma {:induction false} SelfLinkExhaustsStack(ctx: Context, a: ArchiveSegment, store: SegmentStore, depth: nat)
    requires CheckHeader(ctx, a).Ok? && a.previousSegmentHash.Some?
    requires a.previousSegmentHash.value in store && store[a.previousSegmentHash.value] == a
    ensures VerifySegment(ctx, a, None, Some(store), None, depth) == Err(RecursionLimit)
    decreases depth
  {
    hide CheckBody, CheckHeader;
    if depth > 0 {
      SelfLinkExhaustsStack(ctx, a, store, depth - 1);
    }
  }
}
