/** Finding where two histories of one bill part ways. */
module Forks {
  import opened Wrappers
  import opened Binary
  import opened Objects
  import opened Codec
  import opened Commitments
  import opened Replay
  import opened Segments
  import opened Bundles
  import opened Bills
  import opened Conflicts

  /** The transfers of a list that spend a given key. */
  function WithKey(c: Suite, ts: seq<Transfer>, key: Hash): seq<Transfer> {
    if ts == [] then []
    else (if c.spendKey(ts[0].Spends()) == key then [ts[0]] else []) + WithKey(c, ts[1..], key)
  }

  /** The first candidate that is another transfer than `b`. */
  function FirstOther(c: Suite, candidates: seq<Transfer>, b: Transfer): Option<Transfer> {
    if candidates == [] then None
    else if c.transferHash(candidates[0]) != c.transferHash(b) then Some(candidates[0])
    else FirstOther(c, candidates[1..], b)
  }

  /** The first transfer of `ys` for which `xs` spends the same key differently. */
  function FindPair(c: Suite, xs: seq<Transfer>, ys: seq<Transfer>): Option<Pair> {
    if ys == [] then None
    else
      match FirstOther(c, WithKey(c, xs, c.spendKey(ys[0].Spends())), ys[0])
      case Some(a) => Some(Pair(a, ys[0]))
      case None => FindPair(c, xs, ys[1..])
  }

  lemma {:induction false} WithKeyAppends(c: Suite, ts: seq<Transfer>, t: Transfer, key: Hash)
    ensures WithKey(c, ts + [t], key) == WithKey(c, ts, key) + if c.spendKey(t.Spends()) == key then [t] else []
    decreases |ts|
  {
    if ts == [] {
      assert [t][1..] == [];
    } else {
      assert (ts + [t])[1..] == ts[1..] + [t];
      WithKeyAppends(c, ts[1..], t, key);
    }
  }

  function Lookup(index: map<Hash, seq<Transfer>>, key: Hash): seq<Transfer> {
    if key in index then index[key] else []
  }

  /** The index holds, under every key, the transfers that spend it, in order. */
  ghost predicate Indexes(c: Suite, index: map<Hash, seq<Transfer>>, ts: seq<Transfer>) {
    forall key: Hash :: Lookup(index, key) == WithKey(c, ts, key)
  }

  lemma IndexGrows(c: Suite, index: map<Hash, seq<Transfer>>, ts: seq<Transfer>, t: Transfer)
    requires Indexes(c, index, ts)
    ensures var key := c.spendKey(t.Spends()); Indexes(c, index[key := Lookup(index, key) + [t]], ts + [t])
  {
    hide WithKey;
    forall k: Hash {
      WithKeyAppends(c, ts, t, k);
    }
  }

  /** The first candidate that differs from `b`. */
  method FindOther(c: Suite, candidates: seq<Transfer>, b: Transfer) returns (r: Option<Transfer>)
    ensures r == FirstOther(c, candidates, b)
  {
    var k := 0;
    assert candidates[0..] == candidates;
    while k < |candidates|
      invariant 0 <= k <= |candidates|
      invariant FirstOther(c, candidates, b) == FirstOther(c, candidates[k..], b)
    {
      assert candidates[k..][0] == candidates[k] && candidates[k..][1..] == candidates[k + 1..];
      if c.transferHash(candidates[k]) != c.transferHash(b) {
        return Some(candidates[k]);
      }
      k := k + 1;
    }
    return None;
  }

  /** Indexes one list by spend key, then walks the other. */
  method FindConflictingPair(c: Suite, xs: seq<Transfer>, ys: seq<Transfer>) returns (r: Option<Pair>)
    ensures r == FindPair(c, xs, ys)
  {
    var index: map<Hash, seq<Transfer>> := map[];
    var i := 0;
    while i < |xs|
      invariant 0 <= i <= |xs|
      invariant Indexes(c, index, xs[..i])
    {
      var key := c.spendKey(xs[i].Spends());
      IndexGrows(c, index, xs[..i], xs[i]);
      assert xs[..i + 1] == xs[..i] + [xs[i]];
      index := index[key := Lookup(index, key) + [xs[i]]];
      i := i + 1;
    }
    assert xs[..i] == xs && ys[0..] == ys;
    var j := 0;
    while j < |ys|
      invariant 0 <= j <= |ys|
      invariant FindPair(c, xs, ys) == FindPair(c, xs, ys[j..])
    {
      assert ys[j..][0] == ys[j] && ys[j..][1..] == ys[j + 1..];
      var other := FindOther(c, Lookup(index, c.spendKey(ys[j].Spends())), ys[j]);
      if other.Some? {
        return Some(Pair(other.value, ys[j]));
      }
      j := j + 1;
    }
    return None;
  }

  // ---------------------------------------------------------------- what a search finds

  /** The two transfers spend one key and are not the same transfer. */
  predicate Clashes(c: Suite, a: Transfer, b: Transfer) {
    c.spendKey(a.Spends()) == c.spendKey(b.Spends()) && c.transferHash(a) != c.transferHash(b)
  }

  lemma {:induction false} WithKeyHolds(c: Suite, ts: seq<Transfer>, key: Hash, t: Transfer)
    ensures t in WithKey(c, ts, key) <==> t in ts && c.spendKey(t.Spends()) == key
    decreases |ts|
  {
    if ts != [] {
      WithKeyHolds(c, ts[1..], key, t);
      assert ts == [ts[0]] + ts[1..];
    }
  }

  lemma {:induction false} FirstOtherFinds(c: Suite, candidates: seq<Transfer>, b: Transfer)
    ensures match FirstOther(c, candidates, b)
            case Some(a) => a in candidates && c.transferHash(a) != c.transferHash(b)
            case None => forall a :: a in candidates ==> c.transferHash(a) == c.transferHash(b)
    decreases |candidates|
  {
    if candidates != [] {
      assert candidates == [candidates[0]] + candidates[1..];
      FirstOtherFinds(c, candidates[1..], b);
    }
  }

  /** The search returns a clash exactly when there is one. */
  lemma {:induction false} SearchIsExact(c: Suite, xs: seq<Transfer>, ys: seq<Transfer>)
    ensures match FindPair(c, xs, ys)
            case Some(pair) => pair.first in xs && pair.second in ys && Clashes(c, pair.first, pair.second)
            case None => forall a, b :: a in xs && b in ys ==> !Clashes(c, a, b)
    decreases |ys|
  {
    if ys != [] {
      var key := c.spendKey(ys[0].Spends());
      FirstOtherFinds(c, WithKey(c, xs, key), ys[0]);
      forall a
        ensures a in WithKey(c, xs, key) <==> a in xs && c.spendKey(a.Spends()) == key
      {
        WithKeyHolds(c, xs, key, a);
      }
      SearchIsExact(c, xs, ys[1..]);
      assert ys == [ys[0]] + ys[1..];
    }
  }

  // ------------------------------------------------------------------------ forks

  /** Among these transfers, hashes and spend keys are not shared by accident. */
  predicate TellsApart(c: Suite, ts: set<Transfer>) {
    forall a, b :: a in ts && b in ts ==>
      && (c.transferHash(a) == c.transferHash(b) ==> a == b)
      && (c.spendKey(a.Spends()) == c.spendKey(b.Spends()) ==> a.Spends() == b.Spends())
  }

  function All(xs: seq<Transfer>, ys: seq<Transfer>): set<Transfer> {
    (set t | t in xs) + (set t | t in ys)
  }

  /** One list continues the other. */
  predicate SamePath(xs: seq<Transfer>, ys: seq<Transfer>) {
    xs <= ys || ys <= xs
  }

  /** How far two lists agree. */
  function Fork(xs: seq<Transfer>, ys: seq<Transfer>): (k: nat)
    ensures k <= |xs| && k <= |ys|
  {
    if xs == [] || ys == [] || xs[0] != ys[0] then 0 else 1 + Fork(xs[1..], ys[1..])
  }

  /** The fork is the first point of divergence, and there is one unless one list continues the other. */
  lemma {:induction false} ForkIsFirst(xs: seq<Transfer>, ys: seq<Transfer>)
    ensures var k := Fork(xs, ys);
      && xs[..k] == ys[..k] && (SamePath(xs, ys) <==> k == |xs| || k == |ys|)
      && (k < |xs| && k < |ys| ==> xs[k] != ys[k])
    decreases |xs|
  {
    if xs != [] && ys != [] && xs[0] == ys[0] {
      ForkIsFirst(xs[1..], ys[1..]);
      assert xs == [xs[0]] + xs[1..] && ys == [ys[0]] + ys[1..];
      var k := Fork(xs, ys);
      assert xs[..k] == [xs[0]] + xs[1..][..k - 1] && ys[..k] == [ys[0]] + ys[1..][..k - 1];
    }
  }

  lemma {:induction false} ForkIsOnly(xs: seq<Transfer>, ys: seq<Transfer>, i: nat)
    requires i < |xs| && i < |ys| && xs[..i] == ys[..i] && xs[i] != ys[i]
    ensures i == Fork(xs, ys)
    decreases i
  {
    if i > 0 {
      assert xs[0] == xs[..i][0] == ys[..i][0] == ys[0];
      assert xs[1..][..i - 1] == xs[..i][1..] && ys[1..][..i - 1] == ys[..i][1..];
      ForkIsOnly(xs[1..], ys[1..], i - 1);
    }
  }

  /** First transfers out of these states are linked to one hash and sent by one owner. */
  predicate SameOrigin(s: State, t: State) {
    s.lastTransferHash == t.lastTransferHash && s.ownerAddress == t.ownerAddress
  }

  /** Two threads that spend one key at positions `i` and `j` do so at the same position, with everything
      before it in common, down to their origin. */
  lemma {:induction false} SharedSpendSharesPast(c: Suite, s: State, xs: seq<Transfer>, t: State, ys: seq<Transfer>,
                                                 i: nat, j: nat)
    requires Threaded(c, s, xs) && Threaded(c, t, ys) && s.sequence == t.sequence && TellsApart(c, All(xs, ys))
    requires i < |xs| && j < |ys| && xs[i].Spends() == ys[j].Spends()
    ensures i == j && xs[..i] == ys[..i] && SameOrigin(s, t)
    decreases i
  {
    assert ThreadAt(c, s, xs, i) && ThreadAt(c, t, ys, j);
    if i > 0 {
      assert xs[i - 1] in All(xs, ys) && ys[i - 1] in All(xs, ys);
      assert xs[i - 1] == ys[i - 1];
      assert ThreadAt(c, s, xs, i - 1) && ThreadAt(c, t, ys, i - 1);
      SharedSpendSharesPast(c, s, xs, t, ys, i - 1, i - 1);
      assert xs[..i] == xs[..i - 1] + [xs[i - 1]] && ys[..i] == ys[..i - 1] + [ys[i - 1]];
    }
  }

  /** Where two threads of one origin part, they clash if they still name one token; threads clash nowhere
      else. */
  lemma ClashesOnlyAtFork(c: Suite, s: State, xs: seq<Transfer>, t: State, ys: seq<Transfer>, i: nat, j: nat)
    requires Threaded(c, s, xs) && Threaded(c, t, ys) && s.sequence == t.sequence && TellsApart(c, All(xs, ys))
    requires i < |xs| && j < |ys|
    ensures Clashes(c, xs[i], ys[j]) <==>
              SameOrigin(s, t) && i == j == Fork(xs, ys) && xs[i].tokenId == ys[j].tokenId
  {
    hide Fork, Threaded;
    assert xs[i] in All(xs, ys) && ys[j] in All(xs, ys);
    if Clashes(c, xs[i], ys[j]) {
      SharedSpendSharesPast(c, s, xs, t, ys, i, j);
      ForkIsOnly(xs, ys, i);
    }
    if SameOrigin(s, t) && i == j == Fork(xs, ys) && xs[i].tokenId == ys[j].tokenId {
      ForkIsFirst(xs, ys);
      ForkSharesSpend(c, s, xs, t, ys, i);
    }
  }

  lemma ForkSharesSpend(c: Suite, s: State, xs: seq<Transfer>, t: State, ys: seq<Transfer>, k: nat)
    requires Threaded(c, s, xs) && Threaded(c, t, ys) && k < |xs| && k < |ys| && xs[..k] == ys[..k]
    requires s.sequence == t.sequence && SameOrigin(s, t) && xs[k].tokenId == ys[k].tokenId
    ensures xs[k].Spends() == ys[k].Spends()
  {
    assert ThreadAt(c, s, xs, k) && ThreadAt(c, t, ys, k);
    if k > 0 {
      assert xs[k - 1] == xs[..k][k - 1] == ys[..k][k - 1] == ys[k - 1];
    }
  }

  predicate AllName(ts: seq<Transfer>, tokenId: Hash) {
    forall t :: t in ts ==> t.tokenId == tokenId
  }

  lemma AcceptedName(r: Replayer, s: State, ts: seq<Transfer>)
    requires r.Fold(s, ts).Ok?
    ensures AllName(ts, r.tokenId)
  {
    hide Replayer.Fold;
    forall t | t in ts
      ensures t.tokenId == r.tokenId
    {
      var i :| 0 <= i < |ts| && ts[i] == t;
      AcceptedAt(r, s, ts, i);
    }
  }

  /** A search sees only what was not compacted away. With `pa` and `pb` behind two checkpoints, it finds
      the fork of the full histories exactly when they have one origin and that fork lies at or beyond both
      checkpoints and before both ends, and finds nothing otherwise. */
  lemma SearchSeesAboveCheckpoints(c: Suite, tokenId: Hash, s: State, pa: seq<Transfer>, xs: seq<Transfer>,
                                   t: State, pb: seq<Transfer>, ys: seq<Transfer>)
    requires Threaded(c, s, pa + xs) && Threaded(c, t, pb + ys) && TellsApart(c, All(pa + xs, pb + ys))
    requires s.sequence == t.sequence
    requires AllName(xs, tokenId) && AllName(ys, tokenId)
    ensures var ha, hb := pa + xs, pb + ys;
      var k := Fork(ha, hb);
      FindPair(c, xs, ys) ==
        (if SameOrigin(s, t) && |pa| <= k < |ha| && |pb| <= k < |hb| then Some(Pair(ha[k], hb[k])) else None)
  {
    hide Threaded, TellsApart, All, Fork, Clashes, FindPair;
    var ha, hb := pa + xs, pb + ys;
    var k := Fork(ha, hb);
    SearchIsExact(c, xs, ys);
    if SameOrigin(s, t) && |pa| <= k < |ha| && |pb| <= k < |hb| {
      assert ha[k] == xs[k - |pa|] && hb[k] == ys[k - |pb|];
      ClashesOnlyAtFork(c, s, ha, t, hb, k, k);
    }
    var found := FindPair(c, xs, ys);
    if found.Some? {
      var i :| 0 <= i < |xs| && xs[i] == found.value.first;
      var j :| 0 <= j < |ys| && ys[j] == found.value.second;
      assert ha[|pa| + i] == xs[i] && hb[|pb| + j] == ys[j];
      ClashesOnlyAtFork(c, s, ha, t, hb, |pa| + i, |pb| + j);
    }
  }

  /** Fork detection is exact. For two accepted lists from one state, the search comes back empty
      exactly when one list continues the other, and otherwise with the transfers at the first point of
      divergence. */
  lemma ForkIsFound(r: Replayer, s: State, xs: seq<Transfer>, ys: seq<Transfer>)
    requires r.Fold(s, xs).Ok? && r.Fold(s, ys).Ok? && TellsApart(r.ctx.suite, All(xs, ys))
    ensures var k := Fork(xs, ys);
      if SamePath(xs, ys) then FindPair(r.ctx.suite, xs, ys) == None
      else k < |xs| && k < |ys| && FindPair(r.ctx.suite, xs, ys) == Some(Pair(xs[k], ys[k]))
  {
    hide Replayer.Fold, TellsApart, All, Fork, FindPair, Threaded, AllName;
    FoldThreads(r, s, xs);
    FoldThreads(r, s, ys);
    AcceptedName(r, s, xs);
    AcceptedName(r, s, ys);
    ForkIsFirst(xs, ys);
    assert [] + xs == xs && [] + ys == ys;
    SearchSeesAboveCheckpoints(r.ctx.suite, r.tokenId, s, [], xs, s, [], ys);
  }

  /** Any finite set of encodable transfers is told apart, short of a collision inside it. */
  lemma TransfersToldApart(p: Primitives, ts: set<Transfer>)
    requires forall t :: t in ts ==> TransferFits(t)
    requires forall a, b :: a in ts && b in ts && p.spendDigest(a.Spends()) == p.spendDigest(b.Spends()) ==>
               a.Spends() == b.Spends()
    ensures TellsApart(Standard(p), ts)
         || exists a, b :: a in ts && b in ts && Collides(p, TransferPreimage(a), TransferPreimage(b))
  {
    if !TellsApart(Standard(p), ts) {
      var a, b :| a in ts && b in ts && a != b && Standard(p).transferHash(a) == Standard(p).transferHash(b);
      TransferHashCommits(p, a, b);
    }
  }

  // ------------------------------------------------------------- proofs from two bills

  /** Verifies two branches of one bill and turns their fork into a proof. */
  function CreateProofFromBills(ctx: Context, e: Evidence, a: Bill, b: Bill, givenA: Option<ProofBundle>,
                                givenB: Option<ProofBundle>, detectedAt: nat): Result<ConflictProof> {
    if VerifyBillState(ctx, e, a, givenA).Err? then Err(VerifyBillState(ctx, e, a, givenA).error) else
    var _ :- VerifyBillState(ctx, e, b, givenB);
    :- Require(a.tokenId == b.tokenId, WrongToken);
    var pair := FindPair(ctx.suite, a.recentTransfers, b.recentTransfers);
    :- Require(pair.Some?, NotAConflict);
    CreateProof(ctx, pair.value.first, pair.value.second, detectedAt)
  }

  /** Two verified branches of one checkpoint: either one continues the other, or their fork makes a
      proof that verifies and names the state they parted from. */
  lemma ForkedBillsConvict(p: Primitives, ctx: Context, e: Evidence, a: Bill, b: Bill,
                           givenA: Option<ProofBundle>, givenB: Option<ProofBundle>, detectedAt: nat)
    requires ctx.suite == Standard(p) && detectedAt <= MAX_UVARINT
    requires VerifyBillState(ctx, e, a, givenA).Ok? && VerifyBillState(ctx, e, b, givenB).Ok?
    requires a.tokenId == b.tokenId && a.checkpointCore == b.checkpointCore
    requires TellsApart(ctx.suite, All(a.recentTransfers, b.recentTransfers))
    ensures match CreateProofFromBills(ctx, e, a, b, givenA, givenB, detectedAt)
            case Err(err) => err == NotAConflict && SamePath(a.recentTransfers, b.recentTransfers)
            case Ok(proof) =>
              && !SamePath(a.recentTransfers, b.recentTransfers) && VerifyProof(ctx, proof) == Ok(())
              && var k := Fork(a.recentTransfers, b.recentTransfers);
                 k < |a.recentTransfers| && proof.spent == a.recentTransfers[k].Spends()
  {
    hide CheckAnchor, Link, Standard, Replayer.Fold, TellsApart, All, Fork, SamePath, FindPair, CreateProof,
      VerifyProof, Conflicting;
    var r := Verifier(ctx, a.tokenId);
    var s := a.checkpointCore.Tip();
    var xs, ys := a.recentTransfers, b.recentTransfers;
    assert r.Fold(s, xs).Ok? && r.Fold(s, ys).Ok?;
    ForkIsFound(r, s, xs, ys);
    if !SamePath(xs, ys) {
      var k := Fork(xs, ys);
      ForkConflicts(r, s, xs, ys);
      ProofEncodes(p, ctx, xs[k], ys[k], detectedAt);
      ConflictsAreProvable(ctx, xs[k], ys[k], detectedAt);
    }
  }

  /** The whole history of a bill, archived and recent. */
  function FullHistory(e: Evidence, bill: Bill, given: Option<ProofBundle>): seq<Transfer> {
    History(ArchiveOf(e, bill, given)) + bill.recentTransfers
  }

  lemma AcceptedFullHistory(ctx: Context, e: Evidence, bill: Bill, given: Option<ProofBundle>)
    requires VerifyBillState(ctx, e, bill, given).Ok?
    ensures FirstState(e, bill, given).Some? && FirstState(e, bill, given).value.sequence == 0
    ensures Threaded(ctx.suite, FirstState(e, bill, given).value, FullHistory(e, bill, given))
    ensures |History(ArchiveOf(e, bill, given))| == bill.checkpointCore.sequence
    ensures AllName(bill.recentTransfers, bill.tokenId)
    ensures Verifier(ctx, bill.tokenId).Fold(bill.checkpointCore.Tip(), bill.recentTransfers).Ok?
  {
    hide CheckAnchor, CheckBody, CheckHeader, Link, Threaded, EndsAt, AllName;
    var r, chain, tip := Verifier(ctx, bill.tokenId), ArchiveOf(e, bill, given), bill.checkpointCore.Tip();
    AnchorRestsOnArchive(ctx, e, bill, given);
    CompactIsFull(ctx, e, bill, given);
    LinkedThreads(ctx, chain);
    FoldThreads(r, tip, bill.recentTransfers);
    AcceptedName(r, tip, bill.recentTransfers);
    ThreadsJoin(ctx.suite, chain[0].baseState, History(chain), tip, bill.recentTransfers,
                VerifyBillState(ctx, e, bill, given).value);
  }

  /** The archives of two bills start from one origin. */
  predicate OneOrigin(e: Evidence, a: Bill, givenA: Option<ProofBundle>, b: Bill, givenB: Option<ProofBundle>) {
    && FirstState(e, a, givenA).Some? && FirstState(e, b, givenB).Some?
    && SameOrigin(FirstState(e, a, givenA).value, FirstState(e, b, givenB).value)
  }

  /** Two verified bills, resting on any checkpoints: a fork under one token and of one origin, at or beyond both
      checkpoints, makes a proof that verifies and names the state where the histories part; a fork
      compacted below either checkpoint, like no fork at all, makes none. */
  lemma ForkedHistoriesConvict(p: Primitives, ctx: Context, e: Evidence, a: Bill, b: Bill,
                               givenA: Option<ProofBundle>, givenB: Option<ProofBundle>, detectedAt: nat)
    requires ctx.suite == Standard(p) && detectedAt <= MAX_UVARINT
    requires VerifyBillState(ctx, e, a, givenA).Ok? && VerifyBillState(ctx, e, b, givenB).Ok?
    requires TellsApart(ctx.suite, All(FullHistory(e, a, givenA), FullHistory(e, b, givenB)))
    ensures var ha, hb := FullHistory(e, a, givenA), FullHistory(e, b, givenB);
      var k := Fork(ha, hb);
      match CreateProofFromBills(ctx, e, a, b, givenA, givenB, detectedAt)
      case Ok(proof) =>
        && a.tokenId == b.tokenId && OneOrigin(e, a, givenA, b, givenB)
        && a.checkpointCore.sequence <= k < |ha| && b.checkpointCore.sequence <= k < |hb|
        && VerifyProof(ctx, proof) == Ok(()) && proof.spent == ha[k].Spends() == hb[k].Spends()
      case Err(err) =>
        && err == (if a.tokenId == b.tokenId then NotAConflict else WrongToken)
        && !(a.tokenId == b.tokenId && OneOrigin(e, a, givenA, b, givenB)
             && a.checkpointCore.sequence <= k < |ha| && b.checkpointCore.sequence <= k < |hb|)
  {
    hide VerifyBillState, ArchiveOf, FirstState, Standard, Replayer.Fold, TellsApart, All, Fork, SamePath, FindPair,
      CreateProof, VerifyProof, Conflicting, Threaded, AllName;
    AcceptedFullHistory(ctx, e, a, givenA);
    AcceptedFullHistory(ctx, e, b, givenB);
    if a.tokenId != b.tokenId {
      return;
    }
    var s, t := FirstState(e, a, givenA).value, FirstState(e, b, givenB).value;
    var pa, pb := History(ArchiveOf(e, a, givenA)), History(ArchiveOf(e, b, givenB));
    var ha, hb := FullHistory(e, a, givenA), FullHistory(e, b, givenB);
    SearchSeesAboveCheckpoints(ctx.suite, a.tokenId, s, pa, a.recentTransfers, t, pb, b.recentTransfers);
    var k := Fork(ha, hb);
    if SameOrigin(s, t) && |pa| <= k < |ha| && |pb| <= k < |hb| {
      assert ha[k] == a.recentTransfers[k - |pa|] && hb[k] == b.recentTransfers[k - |pb|];
      RecentIsSigned(ctx, a, k - |pa|);
      RecentIsSigned(ctx, b, k - |pb|);
      ForkIsFirst(ha, hb);
      ForkSharesSpend(ctx.suite, s, ha, t, hb, k);
      DifferentHash(ctx.suite, ha, hb, k);
      PairConflicts(ctx, ha[k], hb[k]);
      PairConvicts(p, ctx, ha[k], hb[k], detectedAt);
    }
  }

  lemma PairConvicts(p: Primitives, ctx: Context, a: Transfer, b: Transfer, detectedAt: nat)
    requires ctx.suite == Standard(p) && detectedAt <= MAX_UVARINT && Conflicting(ctx, a, b)
    ensures CreateProof(ctx, a, b, detectedAt).Ok?
    ensures var proof := CreateProof(ctx, a, b, detectedAt).value;
      VerifyProof(ctx, proof) == Ok(()) && proof.spent == a.Spends()
  {
    hide Standard, Conflicting, CreateProof, VerifyProof;
    ProofEncodes(p, ctx, a, b, detectedAt);
    ConflictsAreProvable(ctx, a, b, detectedAt);
  }

  lemma RecentIsSigned(ctx: Context, bill: Bill, i: nat)
    requires Verifier(ctx, bill.tokenId).Fold(bill.checkpointCore.Tip(), bill.recentTransfers).Ok?
    requires i < |bill.recentTransfers|
    ensures var t := bill.recentTransfers[i];
      Encodable(ctx, t) && ValidSignature(ctx.suite, t) && t.tokenId == bill.tokenId
  {
    hide Replayer.Fold;
    AcceptedAt(Verifier(ctx, bill.tokenId), bill.checkpointCore.Tip(), bill.recentTransfers, i);
  }

  lemma DifferentHash(c: Suite, xs: seq<Transfer>, ys: seq<Transfer>, k: nat)
    requires TellsApart(c, All(xs, ys)) && k < |xs| && k < |ys| && xs[k] != ys[k]
    ensures c.transferHash(xs[k]) != c.transferHash(ys[k])
  {
    assert xs[k] in All(xs, ys) && ys[k] in All(xs, ys);
  }

  lemma PairConflicts(ctx: Context, a: Transfer, b: Transfer)
    requires Encodable(ctx, a) && Encodable(ctx, b) && ValidSignature(ctx.suite, a) && ValidSignature(ctx.suite, b)
    requires a.Spends() == b.Spends() && ctx.suite.transferHash(a) != ctx.suite.transferHash(b)
    ensures Conflicting(ctx, a, b)
  {
  }

  lemma ForkConflicts(r: Replayer, s: State, xs: seq<Transfer>, ys: seq<Transfer>)
    requires r.verifySignatures && r.Fold(s, xs).Ok? && r.Fold(s, ys).Ok?
    requires TellsApart(r.ctx.suite, All(xs, ys)) && !SamePath(xs, ys)
    ensures var k := Fork(xs, ys); k < |xs| && k < |ys| && Conflicting(r.ctx, xs[k], ys[k])
  {
    hide Replayer.Fold, Fork, Threaded;
    ForkIsFirst(xs, ys);
    var k := Fork(xs, ys);
    AcceptedAt(r, s, xs, k);
    AcceptedAt(r, s, ys, k);
    FoldThreads(r, s, xs);
    FoldThreads(r, s, ys);
    ForkSharesSpend(r.ctx.suite, s, xs, s, ys, k);
    DifferentHash(r.ctx.suite, xs, ys, k);
  }
}
