/** Deciding on a settlement candidate from the answers of configured peers. */
module Settlement {
  import opened Wrappers

  datatype Response = Response(
    tokenId: string,
    conflict: bool,
    matchesQuery: bool,
    localTransferHash: Option<string>,
    status: string)

  /** A peer's answer: a query that failed, or a response. */
  datatype PeerResult = Failed(peer: string) | Answered(peer: string, response: Response)

  datatype Complaint = QueryFailed | OtherToken | UnprovedConflict | NoMatchingState

  datatype Verdict =
    | Disabled
    | NoPeers
    | ConflictProved
    | ConflictStored
    | Divergent(peers: seq<string>)
    | QuorumReached(confirmations: nat)
    | AwaitingAll(confirmations: nat, failures: seq<(string, Complaint)>)
    | AwaitingQuorum(confirmations: nat, failures: seq<(string, Complaint)>)

  datatype Decision = Settle | Await | Conflict

  function DecisionOf(v: Verdict): Decision {
    match v
    case Disabled => Settle
    case QuorumReached(_) => Settle
    case ConflictProved => Conflict
    case ConflictStored => Conflict
    case _ => Await
  }

  /** The candidate's token, and the local policy. */
  datatype Candidate = Candidate(tokenId: string, minConfirmations: nat, requireAll: bool) {

    /** A response that is looked at: it answers for this token. */
    predicate Relevant(p: PeerResult) {
      p.Answered? && p.response.tokenId == tokenId
    }

    predicate Confirms(p: PeerResult) {
      Relevant(p) && !p.response.conflict && p.response.matchesQuery
    }

    predicate Diverges(p: PeerResult) {
      Relevant(p) && !p.response.conflict && !p.response.matchesQuery && p.response.localTransferHash.Some?
    }

    function Vote(p: PeerResult): nat {
      if Confirms(p) then 1 else 0
    }

    function Share(p: PeerResult): multiset<Response> {
      if Relevant(p) then multiset{p.response} else multiset{}
    }

    function Confirmations(ps: seq<PeerResult>): nat {
      if ps == [] then 0 else Confirmations(ps[..|ps| - 1]) + Vote(ps[|ps| - 1])
    }

    /** The responses whose messages are ingested, as a multiset: arrival order left out. */
    function Ingested(ps: seq<PeerResult>): multiset<Response> {
      if ps == [] then multiset{} else Ingested(ps[..|ps| - 1]) + Share(ps[|ps| - 1])
    }

    function Divergers(ps: seq<PeerResult>): seq<string> {
      if ps == [] then [] else Divergers(ps[..|ps| - 1]) + Diverger(ps[|ps| - 1])
    }

    function Diverger(p: PeerResult): seq<string> {
      if Diverges(p) then [p.peer] else []
    }

    function ComplaintAbout(p: PeerResult): Option<Complaint> {
      if p.Failed? then Some(QueryFailed)
      else if p.response.tokenId != tokenId then Some(OtherToken)
      else if p.response.conflict then Some(UnprovedConflict)
      else if p.response.matchesQuery || p.response.localTransferHash.Some? then None
      else Some(NoMatchingState)
    }

    function Complaints(ps: seq<PeerResult>): seq<(string, Complaint)> {
      if ps == [] then [] else Complaints(ps[..|ps| - 1]) + ComplaintOf(ps[|ps| - 1])
    }

    function ComplaintOf(p: PeerResult): seq<(string, Complaint)> {
      match ComplaintAbout(p)
      case None => []
      case Some(complaint) => [(p.peer, complaint)]
    }

    predicate AnyDiverges(ps: seq<PeerResult>) {
      exists p :: p in ps && Diverges(p)
    }

    /** The result is an answer for this token that reports no conflict. */
    predicate Speaks(p: PeerResult) {
      p.Answered? && p.response.tokenId == tokenId && !p.response.conflict
    }

    /** Which results confirm: those that report no conflict and match. */
    ghost function Confirmers(ps: seq<PeerResult>): set<int> {
      set i | 0 <= i < |ps| && Speaks(ps[i]) && ps[i].response.matchesQuery
    }

    /** The result names another transfer for the same spend. */
    predicate Contradicts(p: PeerResult) {
      Speaks(p) && !p.response.matchesQuery && p.response.localTransferHash.Some?
    }

    /** The whole verdict, in the order the conditions are looked at. A conflict found before any message
        was ingested was stored already; any other was proven by a peer. */
    function Weigh(enabled: bool, peers: seq<string>, conflicts: multiset<Response> -> bool,
                   ps: seq<PeerResult>): Verdict {
      if !enabled then Disabled
      else if minConfirmations > 0 && peers == [] then NoPeers
      else if conflicts(Ingested(ps)) then if Ingested(ps) != multiset{} then ConflictProved else ConflictStored
      else if Divergers(ps) != [] then Divergent(Divergers(ps))
      else if Confirmations(ps) >= minConfirmations then QuorumReached(Confirmations(ps))
      else if requireAll && Confirmations(ps) < |peers| then AwaitingAll(Confirmations(ps), Complaints(ps))
      else AwaitingQuorum(Confirmations(ps), Complaints(ps))
    }
  }

  /** Ingesting more messages never withdraws a proven conflict. */
  ghost predicate Monotone(conflicts: multiset<Response> -> bool) {
    forall a, b :: a <= b && conflicts(a) ==> conflicts(b)
  }

  /** What the loop over results has gathered. */
  datatype Tally = Tally(confirmations: nat, failures: seq<(string, Complaint)>, divergent: seq<string>) {
    function Noting(c: Candidate, p: PeerResult): Tally {
      Tally(confirmations + c.Vote(p), failures + c.ComplaintOf(p), divergent + c.Diverger(p))
    }
  }

  function TallyOf(c: Candidate, ps: seq<PeerResult>): Tally {
    Tally(c.Confirmations(ps), c.Complaints(ps), c.Divergers(ps))
  }

  /** One result that was not stopped by a conflict. */
  method Note(c: Candidate, result: PeerResult, t: Tally) returns (r: Tally)
    ensures r == t.Noting(c, result)
  {
    if result.Failed? {
      return t.(failures := t.failures + [(result.peer, QueryFailed)]);
    }
    var response := result.response;
    if response.tokenId != c.tokenId {
      return t.(failures := t.failures + [(result.peer, OtherToken)]);
    }
    if response.conflict {
      return t.(failures := t.failures + [(result.peer, UnprovedConflict)]);
    }
    if response.matchesQuery {
      return t.(confirmations := t.confirmations + 1);
    }
    if response.localTransferHash.Some? {
      return t.(divergent := t.divergent + [result.peer]);
    }
    return t.(failures := t.failures + [(result.peer, NoMatchingState)]);
  }

  /** The loop over results, in the order they came in; it stops at the first proven conflict.
      `conflicts` is the local conflict status after a set of responses has been ingested. */
  method Gather(c: Candidate, conflicts: multiset<Response> -> bool, results: seq<PeerResult>)
    returns (proved: bool, t: Tally)
    requires Monotone(conflicts)
    ensures proved <==> !Unproved(c, conflicts, results)
    ensures !proved ==> t == TallyOf(c, results)
  {
    t := Tally(0, [], []);
    for i := 0 to |results|
      invariant t == TallyOf(c, results[..i]) && Unproved(c, conflicts, results[..i])
    {
      hide TallyOf, Unproved, Tally.Noting, Monotone, Candidate.Ingested;
      if results[i].Answered? && results[i].response.tokenId == c.tokenId && conflicts(c.Ingested(results[..i + 1])) {
        StopsProven(c, conflicts, results, i);
        return true, t;
      }
      StaysUnproved(c, conflicts, results, i);
      t := Note(c, results[i], t);
    }
    assert results[..|results|] == results;
    return false, t;
  }

  lemma StaysUnproved(c: Candidate, conflicts: multiset<Response> -> bool, ps: seq<PeerResult>, i: nat)
    requires i < |ps| && Unproved(c, conflicts, ps[..i])
    requires !(c.Relevant(ps[i]) && conflicts(c.Ingested(ps[..i + 1])))
    ensures Unproved(c, conflicts, ps[..i + 1])
    ensures TallyOf(c, ps[..i + 1]) == TallyOf(c, ps[..i]).Noting(c, ps[i])
  {
    hide Candidate.Ingested, Candidate.Confirmations, Candidate.Complaints, Candidate.Divergers, Candidate.Vote,
      Candidate.ComplaintOf, Candidate.Diverger;
    OneMore(c, ps, i);
    if !c.Relevant(ps[i]) {
      assert c.Ingested(ps[..i + 1]) == c.Ingested(ps[..i]);
    }
  }

  /** No message ingested so far has proven a conflict. */
  predicate Unproved(c: Candidate, conflicts: multiset<Response> -> bool, ps: seq<PeerResult>) {
    c.Ingested(ps) == multiset{} || !conflicts(c.Ingested(ps))
  }

  lemma StopsProven(c: Candidate, conflicts: multiset<Response> -> bool, ps: seq<PeerResult>, i: nat)
    requires Monotone(conflicts) && i < |ps| && c.Relevant(ps[i]) && conflicts(c.Ingested(ps[..i + 1]))
    ensures !Unproved(c, conflicts, ps)
  {
    hide Candidate.Ingested;
    OneMore(c, ps, i);
    PrefixIngestsLess(c, ps, i + 1);
    assert ps[i].response in c.Ingested(ps[..i + 1]);
  }

  /** Weighs a candidate against the answers of the configured peers. With the quorum enabled it settles
      exactly when the minimum can be met at all, no conflict is proven, no peer reports a different spend
      and enough peers confirm. */
  method Reconcile(enabled: bool, peers: seq<string>, c: Candidate, conflicts: multiset<Response> -> bool,
                   results: seq<PeerResult>) returns (v: Verdict)
    requires Monotone(conflicts)
    requires |results| == |peers|
    ensures v == c.Weigh(enabled, peers, conflicts, results)
    ensures enabled ==>
      (DecisionOf(v) == Settle <==>
         && !conflicts(c.Ingested(results)) && (forall p :: p in results ==> !c.Contradicts(p))
         && |c.Confirmers(results)| >= c.minConfirmations)
  {
    SettlesIff(enabled, peers, c, conflicts, results);
    if !enabled {
      return Disabled;
    }
    if c.minConfirmations > 0 && peers == [] {
      return NoPeers;
    }
    var proved, t := Gather(c, conflicts, results);
    hide Candidate.Ingested, Candidate.Confirmations, Candidate.Complaints, Candidate.Divergers, Candidate.Confirmers,
      Candidate.Diverges, Candidate.Contradicts, Monotone;
    if proved {
      return ConflictProved;
    }
    if conflicts(c.Ingested(results)) {
      return ConflictStored;
    }
    if t.divergent != [] {
      return Divergent(t.divergent);
    }
    if t.confirmations >= c.minConfirmations {
      return QuorumReached(t.confirmations);
    }
    if c.requireAll && t.confirmations < |peers| {
      return AwaitingAll(t.confirmations, t.failures);
    }
    return AwaitingQuorum(t.confirmations, t.failures);
  }

  /** The verdict settles exactly on these counts, though it looks at lists and tallies. */
  lemma SettlesIff(enabled: bool, peers: seq<string>, c: Candidate, conflicts: multiset<Response> -> bool,
                   ps: seq<PeerResult>)
    requires enabled ==> |ps| == |peers|
    ensures DecisionOf(c.Weigh(enabled, peers, conflicts, ps)) == Settle <==>
      !enabled || (!conflicts(c.Ingested(ps)) && (forall p :: p in ps ==> !c.Contradicts(p))
                   && |c.Confirmers(ps)| >= c.minConfirmations)
  {
    hide Candidate.Ingested, Candidate.Divergers, Candidate.Confirmers;
    DivergersListed(c, ps);
    ConfirmersCounted(c, ps);
    assert forall p :: c.Diverges(p) <==> c.Contradicts(p);
  }

  lemma {:induction false} ConfirmersCounted(c: Candidate, ps: seq<PeerResult>)
    ensures c.Confirmations(ps) == |c.Confirmers(ps)|
    decreases |ps|
  {
    if ps != [] {
      ConfirmersCounted(c, ps[..|ps| - 1]);
      OneMoreConfirmer(c, ps);
      hide Candidate.Confirmers;
    }
  }

  lemma OneMoreConfirmer(c: Candidate, ps: seq<PeerResult>)
    requires ps != []
    ensures var n := |ps| - 1;
      |c.Confirmers(ps)| == |c.Confirmers(ps[..n])| + c.Vote(ps[n])
  {
    var n := |ps| - 1;
    var front := ps[..n];
    assert forall i :: 0 <= i < n ==> front[i] == ps[i];
    assert c.Confirmers(ps) == c.Confirmers(front) + if c.Confirms(ps[n]) then {n} else {};
  }

  /** A response that reports a conflict neither confirms nor contradicts: all it adds is a complaint. */
  lemma ReportedConflictOnlyComplains(c: Candidate, ps: seq<PeerResult>, p: PeerResult)
    requires p.Answered? && p.response.conflict
    ensures c.Confirmations(ps + [p]) == c.Confirmations(ps) && c.Divergers(ps + [p]) == c.Divergers(ps)
    ensures |c.Complaints(ps + [p])| == |c.Complaints(ps)| + 1
  {
    assert (ps + [p])[..|ps|] == ps;
  }

  /** What the next result adds to each tally. */
  lemma OneMore(c: Candidate, ps: seq<PeerResult>, i: nat)
    requires i < |ps|
    ensures c.Ingested(ps[..i + 1]) == c.Ingested(ps[..i]) + c.Share(ps[i])
    ensures c.Confirmations(ps[..i + 1]) == c.Confirmations(ps[..i]) + c.Vote(ps[i])
    ensures c.Complaints(ps[..i + 1]) == c.Complaints(ps[..i]) + c.ComplaintOf(ps[i])
    ensures c.Divergers(ps[..i + 1]) == c.Divergers(ps[..i]) + c.Diverger(ps[i])
  {
    hide Candidate.Share, Candidate.Vote, Candidate.ComplaintOf, Candidate.Diverger;
    assert ps[..i + 1][..i] == ps[..i];
  }

  lemma {:induction false} DivergersListed(c: Candidate, ps: seq<PeerResult>)
    ensures c.Divergers(ps) != [] <==> c.AnyDiverges(ps)
    decreases |ps|
  {
    if ps != [] {
      var front := ps[..|ps| - 1];
      DivergersListed(c, front);
      hide Candidate.Diverges;
      assert ps == front + [ps[|ps| - 1]];
    }
  }

  lemma {:induction false} PrefixIngestsLess(c: Candidate, ps: seq<PeerResult>, i: nat)
    requires i <= |ps|
    ensures c.Ingested(ps[..i]) <= c.Ingested(ps)
    decreases |ps|
  {
    if i == |ps| {
      assert ps[..i] == ps;
    } else {
      PrefixIngestsLess(c, ps[..|ps| - 1], i);
      assert ps[..|ps| - 1][..i] == ps[..i];
    }
  }

  // ------------------------------------------------------------------------ order

  lemma {:induction false} CountsJoin(c: Candidate, a: seq<PeerResult>, b: seq<PeerResult>)
    ensures c.Ingested(a + b) == c.Ingested(a) + c.Ingested(b)
    ensures c.Confirmations(a + b) == c.Confirmations(a) + c.Confirmations(b)
    decreases |b|
  {
    hide Candidate.Share, Candidate.Vote;
    if b == [] {
      assert a + b == a;
    } else {
      assert (a + b)[..|a + b| - 1] == a + b[..|b| - 1];
      CountsJoin(c, a, b[..|b| - 1]);
    }
  }

  function Without<T>(s: seq<T>, k: nat): seq<T>
    requires k < |s|
  {
    s[..k] + s[k + 1..]
  }

  lemma WithoutOne<T>(s: seq<T>, k: nat)
    requires k < |s|
    ensures multiset(Without(s, k)) == multiset(s) - multiset{s[k]}
  {
    assert s == s[..k] + [s[k]] + s[k + 1..];
  }

  /** The last of one list is somewhere in a permutation of it, and the rest are permutations again. */
  lemma LastIsSomewhere<T>(ps: seq<T>, qs: seq<T>) returns (k: nat)
    requires ps != [] && multiset(ps) == multiset(qs)
    ensures k < |qs| && qs[k] == ps[|ps| - 1] && multiset(ps[..|ps| - 1]) == multiset(Without(qs, k))
  {
    var n := |ps| - 1;
    assert ps[n] in multiset(qs);
    k :| 0 <= k < |qs| && qs[k] == ps[n];
    WithoutOne(qs, k);
    WithoutOne(ps, n);
    assert Without(ps, n) == ps[..n];
  }

  lemma CountsWithout(c: Candidate, qs: seq<PeerResult>, k: nat)
    requires k < |qs|
    ensures c.Ingested(qs) == c.Ingested(Without(qs, k)) + c.Share(qs[k])
    ensures c.Confirmations(qs) == c.Confirmations(Without(qs, k)) + c.Vote(qs[k])
  {
    var a, x, b := qs[..k], qs[k], qs[k + 1..];
    assert qs == (a + [x]) + b;
    CountsJoin(c, a + [x], b);
    CountsJoin(c, a, b);
    hide Candidate.Share, Candidate.Vote;
    assert (a + [x])[..|a|] == a;
  }

  lemma {:induction false} CountsIgnoreOrder(c: Candidate, ps: seq<PeerResult>, qs: seq<PeerResult>)
    requires multiset(ps) == multiset(qs)
    ensures c.Ingested(ps) == c.Ingested(qs) && c.Confirmations(ps) == c.Confirmations(qs)
    decreases |ps|
  {
    hide Candidate.Share, Candidate.Vote, Without;
    if ps == [] {
      assert |multiset(qs)| == |qs| == 0;
    } else {
      var k := LastIsSomewhere(ps, qs);
      CountsIgnoreOrder(c, ps[..|ps| - 1], Without(qs, k));
      CountsWithout(c, qs, k);
    }
  }

  lemma SameMembers(ps: seq<PeerResult>, qs: seq<PeerResult>)
    requires multiset(ps) == multiset(qs)
    ensures forall x :: x in ps <==> x in qs
  {
    forall x
      ensures x in ps <==> x in qs
    {
      assert x in ps <==> x in multiset(ps);
      assert x in qs <==> x in multiset(qs);
    }
  }

  /** The decision does not depend on the order peers answer in. */
  lemma OrderDoesNotDecide(enabled: bool, peers: seq<string>, c: Candidate, conflicts: multiset<Response> -> bool,
                           ps: seq<PeerResult>, qs: seq<PeerResult>)
    requires multiset(ps) == multiset(qs)
    ensures DecisionOf(c.Weigh(enabled, peers, conflicts, ps)) == DecisionOf(c.Weigh(enabled, peers, conflicts, qs))
  {
    hide Candidate.Ingested, Candidate.Confirmations, Candidate.Complaints, Candidate.Divergers, Candidate.Diverges;
    SameMembers(ps, qs);
    DivergersListed(c, ps);
    DivergersListed(c, qs);
    CountsIgnoreOrder(c, ps, qs);
  }

  /** Requiring every peer changes only the reason for waiting, never the decision: the two verdicts are
      the same, or both wait for confirmations. */
  lemma RequireAllOnlyExplains(enabled: bool, peers: seq<string>, c: Candidate, conflicts: multiset<Response> -> bool,
                               ps: seq<PeerResult>)
    ensures var all := c.(requireAll := true).Weigh(enabled, peers, conflicts, ps);
      var some := c.(requireAll := false).Weigh(enabled, peers, conflicts, ps);
      && DecisionOf(all) == DecisionOf(some)
      && (all == some || (all.AwaitingAll? && some.AwaitingQuorum? && all.confirmations == some.confirmations))
  {
    hide Candidate.Ingested, Candidate.Confirmations, Candidate.Complaints, Candidate.Divergers;
    SameCounts(c.(requireAll := true), c.(requireAll := false), ps);
  }

  lemma {:induction false} SameCounts(c: Candidate, d: Candidate, ps: seq<PeerResult>)
    requires c.tokenId == d.tokenId
    ensures c.Ingested(ps) == d.Ingested(ps) && c.Confirmations(ps) == d.Confirmations(ps)
    ensures c.Divergers(ps) == d.Divergers(ps) && c.Complaints(ps) == d.Complaints(ps)
    decreases |ps|
  {
    if ps != [] {
      SameCounts(c, d, ps[..|ps| - 1]);
    }
  }
}
