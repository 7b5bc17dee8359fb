/** The fixed supply: which serials a manifest issues, to whom, and the first state of each bill. */
module Genesis {
  import opened Wrappers
  import opened Binary
  import opened DisplayId
  import opened Objects
  import opened Commitments
  import opened Replay
  import opened Segments
  import opened Limits

  const DENOMINATIONS: seq<nat> := [1, 2, 5, 10, 20, 50, 100, 200, 500, 1000, 2000, 5000, 10000, 20000, 50000, 100000]
  const MAX_PROTOCOL_TIMESTAMP: nat := MAX_UVARINT

  datatype Range = Range(value: nat, start: nat, count: nat, owner: bytes, seed: Hash) {
    function End(): int {
      start + count - 1
    }

    predicate Covers(v: nat, serial: nat) {
      value == v && start <= serial <= End()
    }

    predicate Valid(validAddress: bytes -> bool) {
      count >= 1 && ValidSerial(value, start) && ValidSerial(value, End()) && validAddress(owner)
    }

    /** The order ranges are sorted in. */
    predicate AtMost(other: Range) {
      value < other.value || (value == other.value && start <= other.start)
    }

    /** Overlap as the sorted scan sees it: `next` starts before this one ends. */
    predicate RunsInto(next: Range) {
      value == next.value && next.start <= End()
    }
  }

  datatype Validated = Validated(ranges: seq<Range>, totalCount: nat, totalValue: nat)

  // ------------------------------------------------------------------------ sorting

  /** Stable insertion: after everything that is not larger. */
  function Insert(x: Range, s: seq<Range>): seq<Range> {
    if s == [] || !s[0].AtMost(x) then [x] + s else [s[0]] + Insert(x, s[1..])
  }

  function Sort(s: seq<Range>): seq<Range> {
    if s == [] then [] else Insert(s[|s| - 1], Sort(s[..|s| - 1]))
  }

  predicate Sorted(s: seq<Range>) {
    forall i :: 0 < i < |s| ==> InOrder(s, i)
  }

  predicate InOrder(s: seq<Range>, i: nat)
    requires 0 < i < |s|
  {
    s[i - 1].AtMost(s[i])
  }

  /** No range runs into the next one. */
  predicate NoneRunsInto(s: seq<Range>) {
    forall i :: 0 < i < |s| ==> Apart(s, i)
  }

  predicate Apart(s: seq<Range>, i: nat)
    requires 0 < i < |s|
  {
    !s[i - 1].RunsInto(s[i])
  }

  lemma {:induction false} InsertSorts(x: Range, s: seq<Range>)
    requires Sorted(s)
    ensures Sorted(Insert(x, s)) && Insert(x, s) != []
    ensures Insert(x, s)[0] == x || (s != [] && Insert(x, s)[0] == s[0])
    decreases |s|
  {
    var r := Insert(x, s);
    if s != [] && s[0].AtMost(x) {
      TailSorted(s);
      InsertSorts(x, s[1..]);
      if |s| > 1 {
        assert InOrder(s, 1);
      }
      SortedCons(s[0], Insert(x, s[1..]));
    } else {
      SortedCons(x, s);
    }
  }

  lemma TailSorted(s: seq<Range>)
    requires Sorted(s) && s != []
    ensures Sorted(s[1..])
  {
    forall i | 0 < i < |s[1..]|
      ensures InOrder(s[1..], i)
    {
      assert InOrder(s, i + 1);
    }
  }

  lemma SortedCons(x: Range, s: seq<Range>)
    requires Sorted(s) && (s != [] ==> x.AtMost(s[0]))
    ensures Sorted([x] + s)
  {
    forall i | 0 < i < |[x] + s|
      ensures InOrder([x] + s, i)
    {
      if i > 1 {
        assert InOrder(s, i - 1);
      }
    }
  }

  lemma {:induction false} InsertPermutes(x: Range, s: seq<Range>)
    ensures multiset(Insert(x, s)) == multiset(s) + multiset{x}
    decreases |s|
  {
    if s != [] && s[0].AtMost(x) {
      InsertPermutes(x, s[1..]);
      assert s == [s[0]] + s[1..];
    }
  }

  /** Sorting orders the ranges and keeps every one of them. */
  lemma {:induction false} SortSorts(s: seq<Range>)
    ensures Sorted(Sort(s)) && multiset(Sort(s)) == multiset(s)
    decreases |s|
  {
    if s != [] {
      var x, front := s[|s| - 1], s[..|s| - 1];
      SortSorts(front);
      InsertSorts(x, Sort(front));
      InsertPermutes(x, Sort(front));
      assert s == front + [x];
    }
  }

  /** A list already in order is left as it is, ties included. */
  lemma {:induction false} SortKeepsSorted(s: seq<Range>)
    requires Sorted(s)
    ensures Sort(s) == s
    decreases |s|
  {
    if s != [] {
      var x, front := s[|s| - 1], s[..|s| - 1];
      forall i | 0 < i < |front|
        ensures InOrder(front, i)
      {
        assert InOrder(s, i);
      }
      SortKeepsSorted(front);
      InsertLast(x, front, s);
      assert s == front + [x];
    }
  }

  lemma {:induction false} InsertLast(x: Range, front: seq<Range>, s: seq<Range>)
    requires s == front + [x] && Sorted(s)
    ensures Insert(x, front) == front + [x]
    decreases |front|
  {
    if front != [] {
      FirstIsLeast(s, |front|);
      TailSorted(s);
      assert s[1..] == front[1..] + [x];
      InsertLast(x, front[1..], s[1..]);
    }
  }

  lemma {:induction false} FirstIsLeast(s: seq<Range>, i: nat)
    requires Sorted(s) && 0 < i < |s|
    ensures s[0].AtMost(s[i])
    decreases i
  {
    assert InOrder(s, i);
    if i > 1 {
      FirstIsLeast(s, i - 1);
    }
  }

  // -------------------------------------------------------------------- validation

  /** What a unit of a denomination counts for: a bill, or its face value. */
  function Unit(v: nat, byValue: bool): nat {
    if byValue then v else 1
  }

  function Total(s: seq<Range>, byValue: bool): nat {
    if s == [] then 0 else Total(s[..|s| - 1], byValue) + s[|s| - 1].count * Unit(s[|s| - 1].value, byValue)
  }

  predicate AllValid(validAddress: bytes -> bool, s: seq<Range>) {
    forall i :: 0 <= i < |s| ==> s[i].Valid(validAddress)
  }

  function Validation(validAddress: bytes -> bool, ranges: seq<Range>): Result<Validated> {
    if ranges == [] || !AllValid(validAddress, ranges) then Err(Malformed) else
    var sorted := Sort(ranges);
    :- Require(NoneRunsInto(sorted), RangeOverlap);
    :- Require(Total(ranges, false) <= TOTAL_SUPPLY, SupplyExceeded);
    Ok(Validated(sorted, Total(ranges, false), Total(ranges, true)))
  }

  /** The loops: validate and total each range, sort, compare neighbours. */
  method ValidateRanges(validAddress: bytes -> bool, ranges: seq<Range>) returns (r: Result<Validated>)
    ensures r == Validation(validAddress, ranges)
  {
    if ranges == [] {
      return Err(Malformed);
    }
    var normalized: seq<Range> := [];
    var totalCount, totalValue := 0, 0;
    var i := 0;
    while i < |ranges|
      invariant 0 <= i <= |ranges| && normalized == ranges[..i]
      invariant AllValid(validAddress, ranges[..i])
      invariant totalCount == Total(ranges[..i], false) && totalValue == Total(ranges[..i], true)
    {
      var item := ranges[i];
      if !item.Valid(validAddress) {
        return Err(Malformed);
      }
      assert ranges[..i + 1] == ranges[..i] + [item] && ranges[..i + 1][..i] == ranges[..i];
      normalized := normalized + [item];
      totalCount := totalCount + item.count;
      totalValue := totalValue + item.count * item.value;
      i := i + 1;
    }
    assert ranges[..i] == ranges;
    normalized := Sort(normalized);
    var k := 1;
    while k < |normalized|
      invariant 1 <= k && forall j :: 0 < j < k && j < |normalized| ==> Apart(normalized, j)
    {
      if normalized[k - 1].RunsInto(normalized[k]) {
        assert !Apart(normalized, k);
        return Err(RangeOverlap);
      }
      k := k + 1;
    }
    if totalCount > TOTAL_SUPPLY {
      return Err(SupplyExceeded);
    }
    return Ok(Validated(normalized, totalCount, totalValue));
  }

  // ---------------------------------------------------------------------- coverage

  /** How many ranges issue a serial. */
  function Cover(s: seq<Range>, v: nat, serial: nat): nat {
    if s == [] then 0 else (if s[0].Covers(v, serial) then 1 else 0) + Cover(s[1..], v, serial)
  }

  /** No serial is issued twice. */
  ghost predicate IssuedOnce(s: seq<Range>) {
    forall v, serial :: Cover(s, v, serial) <= 1
  }

  lemma {:induction false} CoverAppends(s: seq<Range>, t: seq<Range>, v: nat, serial: nat)
    ensures Cover(s + t, v, serial) == Cover(s, v, serial) + Cover(t, v, serial)
    decreases |s|
  {
    if s == [] {
      assert s + t == t;
    } else {
      assert (s + t)[1..] == s[1..] + t;
      CoverAppends(s[1..], t, v, serial);
    }
  }

  lemma {:induction false} InsertCovers(x: Range, s: seq<Range>, v: nat, serial: nat)
    ensures Cover(Insert(x, s), v, serial) == Cover([x], v, serial) + Cover(s, v, serial)
    decreases |s|
  {
    if s != [] && s[0].AtMost(x) {
      InsertCovers(x, s[1..], v, serial);
      assert ([s[0]] + Insert(x, s[1..]))[1..] == Insert(x, s[1..]);
    } else {
      CoverAppends([x], s, v, serial);
    }
  }

  lemma {:induction false} SortCovers(s: seq<Range>, v: nat, serial: nat)
    ensures Cover(Sort(s), v, serial) == Cover(s, v, serial)
    decreases |s|
  {
    if s != [] {
      var x, front := s[|s| - 1], s[..|s| - 1];
      SortCovers(front, v, serial);
      InsertCovers(x, Sort(front), v, serial);
      CoverAppends(front, [x], v, serial);
      assert s == front + [x];
    }
  }

  lemma {:induction false} NothingBelow(s: seq<Range>, v: nat, serial: nat)
    requires Sorted(s) && s != [] && (v < s[0].value || (v == s[0].value && serial < s[0].start))
    ensures Cover(s, v, serial) == 0
    decreases |s|
  {
    if |s| > 1 {
      TailSorted(s);
      assert InOrder(s, 1);
      NothingBelow(s[1..], v, serial);
    }
  }

  /** In a sorted list, comparing neighbours is enough: if none runs into the next, no serial is
      issued twice. */
  lemma {:induction false} NeighboursSuffice(s: seq<Range>, v: nat, serial: nat)
    requires Sorted(s) && NoneRunsInto(s)
    ensures Cover(s, v, serial) <= 1
    decreases |s|
  {
    if s != [] {
      TailSorted(s);
      TailApart(s);
      NeighboursSuffice(s[1..], v, serial);
      if |s| > 1 && s[0].Covers(v, serial) {
        assert InOrder(s, 1) && Apart(s, 1);
        NothingBelow(s[1..], v, serial);
      }
    }
  }

  lemma TailApart(s: seq<Range>)
    requires NoneRunsInto(s) && s != []
    ensures NoneRunsInto(s[1..])
  {
    forall i | 0 < i < |s[1..]|
      ensures Apart(s[1..], i)
    {
      assert Apart(s, i + 1);
    }
  }

  lemma {:induction false} CoverAt(s: seq<Range>, i: nat, v: nat, serial: nat)
    requires i < |s| && s[i].Covers(v, serial)
    ensures Cover(s, v, serial) >= 1
    ensures 0 < i && s[i - 1].Covers(v, serial) ==> Cover(s, v, serial) >= 2
    decreases i
  {
    if i > 0 {
      CoverAt(s[1..], i - 1, v, serial);
    }
  }

  /** Validation is exact: a list of ranges is accepted if and only if it is not empty, every range is
      valid and no serial is issued twice. The check on the total supply never decides. */
  lemma ValidationExact(validAddress: bytes -> bool, ranges: seq<Range>)
    ensures Validation(validAddress, ranges).Ok? <==>
              ranges != [] && AllValid(validAddress, ranges) && IssuedOnce(ranges)
    ensures Validation(validAddress, ranges) != Err(SupplyExceeded)
  {
    if ranges != [] && AllValid(validAddress, ranges) {
      var sorted := Sort(ranges);
      SortSorts(ranges);
      forall v, serial
        ensures Cover(sorted, v, serial) == Cover(ranges, v, serial)
      {
        SortCovers(ranges, v, serial);
      }
      if NoneRunsInto(sorted) {
        forall v, serial
          ensures Cover(ranges, v, serial) <= 1
        {
          NeighboursSuffice(sorted, v, serial);
        }
        SupplyIsEnough(validAddress, ranges);
      } else {
        var i :| 0 < i < |sorted| && !Apart(sorted, i);
        assert sorted[i] in multiset(sorted);
        assert InOrder(sorted, i) && sorted[i] in ranges;
        CoverAt(sorted, i, sorted[i].value, sorted[i].start);
        assert !IssuedOnce(ranges);
      }
    }
  }

  // ---------------------------------------------------------------------- counting

  /** The serials 1 .. n of a denomination, counted as often as they are issued. */
  function Issued(s: seq<Range>, v: nat, n: nat): nat {
    if n == 0 then 0 else Issued(s, v, n - 1) + Cover(s, v, n)
  }

  function Cap(v: nat): nat {
    if ValidValue(v) then DENOMINATION_SERIAL_CAPS[v] else 0
  }

  /** Everything issued over a list of denominations. */
  function Supply(vs: seq<nat>, s: seq<Range>, byValue: bool): nat {
    if vs == [] then 0 else Issued(s, vs[0], Cap(vs[0])) * Unit(vs[0], byValue) + Supply(vs[1..], s, byValue)
  }

  function Caps(vs: seq<nat>, byValue: bool): nat {
    if vs == [] then 0 else Cap(vs[0]) * Unit(vs[0], byValue) + Caps(vs[1..], byValue)
  }

  lemma {:induction false} IssuedAppends(s: seq<Range>, t: seq<Range>, v: nat, n: nat)
    ensures Issued(s + t, v, n) == Issued(s, v, n) + Issued(t, v, n)
    decreases n
  {
    if n > 0 {
      IssuedAppends(s, t, v, n - 1);
      CoverAppends(s, t, v, n);
    }
  }

  lemma CoverOfOne(x: Range, v: nat, serial: nat)
    ensures Cover([x], v, serial) == if x.Covers(v, serial) then 1 else 0
  {
    assert [x][1..] == [];
  }

  /** One range issues what it spans, up to `n`. */
  lemma {:induction false} IssuedByOne(x: Range, v: nat, n: nat)
    requires x.count >= 1 && x.start >= 1
    ensures Issued([x], v, n)
         == if v != x.value || n < x.start then 0 else if n <= x.End() then n - x.start + 1 else x.count
    decreases n
  {
    if n > 0 {
      IssuedByOne(x, v, n - 1);
      CoverOfOne(x, v, n);
    }
  }

  lemma {:induction false} SupplyAppends(vs: seq<nat>, s: seq<Range>, t: seq<Range>, byValue: bool)
    ensures Supply(vs, s + t, byValue) == Supply(vs, s, byValue) + Supply(vs, t, byValue)
    decreases |vs|
  {
    if vs != [] {
      IssuedAppends(s, t, vs[0], Cap(vs[0]));
      SupplyAppends(vs[1..], s, t, byValue);
      Distributes(Issued(s, vs[0], Cap(vs[0])), Issued(t, vs[0], Cap(vs[0])), Unit(vs[0], byValue));
    }
  }

  lemma Distributes(a: nat, b: nat, c: nat)
    ensures (a + b) * c == a * c + b * c
  {
  }

  predicate Distinct(vs: seq<nat>) {
    forall i, j :: 0 <= i < j < |vs| ==> vs[i] != vs[j]
  }

  lemma {:induction false} SupplyOfOne(vs: seq<nat>, x: Range, byValue: bool)
    requires Distinct(vs) && x.count >= 1 && ValidSerial(x.value, x.start) && ValidSerial(x.value, x.End())
    ensures Supply(vs, [x], byValue) == if x.value in vs then x.count * Unit(x.value, byValue) else 0
    decreases |vs|
  {
    if vs != [] {
      IssuedByOne(x, vs[0], Cap(vs[0]));
      SupplyOfOne(vs[1..], x, byValue);
      assert vs == [vs[0]] + vs[1..];
    }
  }

  lemma {:induction false} SupplyOfNone(vs: seq<nat>, byValue: bool)
    ensures Supply(vs, [], byValue) == 0
    decreases |vs|
  {
    if vs != [] {
      IssuedOfNone(vs[0], Cap(vs[0]));
      SupplyOfNone(vs[1..], byValue);
    }
  }

  lemma {:induction false} IssuedOfNone(v: nat, n: nat)
    ensures Issued([], v, n) == 0
    decreases n
  {
    if n > 0 {
      IssuedOfNone(v, n - 1);
    }
  }

  lemma DenominationsListed()
    ensures Distinct(DENOMINATIONS) && forall v :: ValidValue(v) <==> v in DENOMINATIONS
  {
  }

  /** The running total of range counts is the number of serials issued, with multiplicity. */
  lemma {:induction false} TotalIsSupply(validAddress: bytes -> bool, s: seq<Range>, byValue: bool)
    requires AllValid(validAddress, s)
    ensures Total(s, byValue) == Supply(DENOMINATIONS, s, byValue)
    decreases |s|
  {
    if s == [] {
      SupplyOfNone(DENOMINATIONS, byValue);
    } else {
      var x, front := s[|s| - 1], s[..|s| - 1];
      TotalIsSupply(validAddress, front, byValue);
      DenominationsListed();
      SupplyOfOne(DENOMINATIONS, x, byValue);
      SupplyAppends(DENOMINATIONS, front, [x], byValue);
      assert s == front + [x];
    }
  }

  /** Every serial 1 .. n of a denomination is issued exactly once. */
  predicate Full(s: seq<Range>, v: nat, n: nat) {
    forall serial :: 1 <= serial <= n ==> Cover(s, v, serial) == 1
  }

  lemma {:induction false} IssuedWithinCap(s: seq<Range>, v: nat, n: nat)
    requires IssuedOnce(s)
    ensures Issued(s, v, n) <= n && (Issued(s, v, n) == n <==> Full(s, v, n))
    decreases n
  {
    if n > 0 {
      IssuedWithinCap(s, v, n - 1);
      assert Cover(s, v, n) <= 1;
      assert Full(s, v, n) <==> Full(s, v, n - 1) && Cover(s, v, n) == 1;
    }
  }

  /** Every serial of these denominations is issued exactly once. */
  predicate Complete(vs: seq<nat>, s: seq<Range>) {
    forall v :: v in vs ==> Full(s, v, Cap(v))
  }

  lemma {:induction false} SupplyWithinCaps(vs: seq<nat>, s: seq<Range>)
    requires IssuedOnce(s)
    ensures Supply(vs, s, false) <= Caps(vs, false)
    ensures Supply(vs, s, false) == Caps(vs, false) <==> Complete(vs, s)
    decreases |vs|
  {
    hide Issued, IssuedOnce, Full, Cap;
    if vs != [] {
      IssuedWithinCap(s, vs[0], Cap(vs[0]));
      SupplyWithinCaps(vs[1..], s);
      assert vs == [vs[0]] + vs[1..];
      assert Complete(vs, s) <==> Full(s, vs[0], Cap(vs[0])) && Complete(vs[1..], s);
    }
  }

  lemma {:induction false} CompleteIsWorth(vs: seq<nat>, s: seq<Range>, byValue: bool)
    requires IssuedOnce(s) && Complete(vs, s)
    ensures Supply(vs, s, byValue) == Caps(vs, byValue)
    decreases |vs|
  {
    if vs != [] {
      assert vs == [vs[0]] + vs[1..];
      IssuedWithinCap(s, vs[0], Cap(vs[0]));
      CompleteIsWorth(vs[1..], s, byValue);
    }
  }

  const FULL_FACE_VALUE: nat := 31_917_000_000_000

  lemma CapsAt(vs: seq<nat>, i: nat, v: nat, cap: nat)
    requires i < |vs| && vs[i] == v && Cap(v) == cap
    ensures Caps(vs[i..], false) == cap + Caps(vs[i + 1..], false)
    ensures Caps(vs[i..], true) == cap * v + Caps(vs[i + 1..], true)
  {
    assert vs[i..][1..] == vs[i + 1..];
  }

  /** The caps add up to the fixed supply, and the whole supply to a fixed face value. */
  lemma CapsAddUp()
    ensures Caps(DENOMINATIONS, false) == TOTAL_SUPPLY && Caps(DENOMINATIONS, true) == FULL_FACE_VALUE
  {
    hide Caps;
    assert DENOMINATIONS[0..] == DENOMINATIONS;
    CapsAt(DENOMINATIONS, 0, 1, 6_000_000_000);
    CapsAt(DENOMINATIONS, 1, 2, 5_500_000_000);
    CapsAt(DENOMINATIONS, 2, 5, 5_000_000_000);
    CapsAt(DENOMINATIONS, 3, 10, 4_500_000_000);
    CapsAt(DENOMINATIONS, 4, 20, 4_000_000_000);
    CapsAt(DENOMINATIONS, 5, 50, 2_000_000_000);
    CapsAt(DENOMINATIONS, 6, 100, 1_500_000_000);
    CapsAt(DENOMINATIONS, 7, 200, 1_000_000_000);
    CapsAt(DENOMINATIONS, 8, 500, 800_000_000);
    CapsAt(DENOMINATIONS, 9, 1000, 700_000_000);
    CapsAt(DENOMINATIONS, 10, 2000, 600_000_000);
    CapsAt(DENOMINATIONS, 11, 5000, 500_000_000);
    CapsAt(DENOMINATIONS, 12, 10000, 400_000_000);
    CapsAt(DENOMINATIONS, 13, 20000, 250_000_000);
    CapsAt(DENOMINATIONS, 14, 50000, 150_000_000);
    CapsAt(DENOMINATIONS, 15, 100000, 100_000_000);
    NoCaps(DENOMINATIONS[16..]);
  }

  lemma NoCaps(vs: seq<nat>)
    requires vs == []
    ensures Caps(vs, false) == 0 == Caps(vs, true)
  {
  }

  lemma SupplyIsEnough(validAddress: bytes -> bool, s: seq<Range>)
    requires AllValid(validAddress, s) && IssuedOnce(s)
    ensures Total(s, false) <= TOTAL_SUPPLY
  {
    TotalIsSupply(validAddress, s, false);
    SupplyWithinCaps(DENOMINATIONS, s);
    CapsAddUp();
  }

  /** The counting argument: validated ranges that total the fixed supply issue every serial of every
      denomination exactly once, and conversely; their face value is then fixed too. */
  lemma FullSupplyIsExact(validAddress: bytes -> bool, ranges: seq<Range>)
    requires Validation(validAddress, ranges).Ok?
    ensures Validation(validAddress, ranges).value.totalCount == TOTAL_SUPPLY <==>
              forall v, serial :: ValidSerial(v, serial) ==> Cover(ranges, v, serial) == 1
    ensures Validation(validAddress, ranges).value.totalCount == TOTAL_SUPPLY ==>
              Validation(validAddress, ranges).value.totalValue == FULL_FACE_VALUE
  {
    hide Total, Supply, Caps;
    ValidationExact(validAddress, ranges);
    TotalIsSupply(validAddress, ranges, false);
    TotalIsSupply(validAddress, ranges, true);
    SupplyWithinCaps(DENOMINATIONS, ranges);
    CapsAddUp();
    CompleteMeansEverySerial(ranges);
    if Complete(DENOMINATIONS, ranges) {
      CompleteIsWorth(DENOMINATIONS, ranges, true);
    }
  }

  lemma CompleteMeansEverySerial(s: seq<Range>)
    ensures Complete(DENOMINATIONS, s) <==> forall v, serial :: ValidSerial(v, serial) ==> Cover(s, v, serial) == 1
  {
    DenominationsListed();
    if forall v, serial :: ValidSerial(v, serial) ==> Cover(s, v, serial) == 1 {
      forall v | v in DENOMINATIONS
        ensures Full(s, v, Cap(v))
      {
        forall serial | 1 <= serial <= Cap(v)
          ensures Cover(s, v, serial) == 1
        {
          assert ValidSerial(v, serial);
        }
      }
    }
    if Complete(DENOMINATIONS, s) {
      forall v, serial | ValidSerial(v, serial)
        ensures Cover(s, v, serial) == 1
      {
        assert Full(s, v, Cap(v));
      }
    }
  }

  // ---------------------------------------------------------------- serials and owners

  /** The first range that issues a serial. */
  function FirstCover(s: seq<Range>, v: nat, serial: nat): Option<Range> {
    if s == [] then None else if s[0].Covers(v, serial) then Some(s[0]) else FirstCover(s[1..], v, serial)
  }

  function FindRange(s: seq<Range>, v: nat, serial: nat): Result<Range> {
    if !ValidSerial(v, serial) then Err(Malformed) else
    var found := FirstCover(s, v, serial);
    :- Require(found.Some?, NotCovered);
    Ok(found.value)
  }

  method RangeForSerial(ranges: seq<Range>, v: nat, serial: nat) returns (r: Result<Range>)
    ensures r == FindRange(ranges, v, serial)
  {
    if !ValidSerial(v, serial) {
      return Err(Malformed);
    }
    assert ranges[0..] == ranges;
    for i := 0 to |ranges|
      invariant FirstCover(ranges, v, serial) == FirstCover(ranges[i..], v, serial)
    {
      assert ranges[i..][0] == ranges[i] && ranges[i..][1..] == ranges[i + 1..];
      if ranges[i].Covers(v, serial) {
        return Ok(ranges[i]);
      }
    }
    return Err(NotCovered);
  }

  lemma {:induction false} FirstCoverFinds(s: seq<Range>, v: nat, serial: nat)
    ensures match FirstCover(s, v, serial)
            case None => Cover(s, v, serial) == 0 && forall x :: x in s ==> !x.Covers(v, serial)
            case Some(x) => x in s && x.Covers(v, serial) && Cover(s, v, serial) >= 1
    ensures Cover(s, v, serial) <= 1 ==>
              forall x :: x in s && x.Covers(v, serial) ==> FirstCover(s, v, serial) == Some(x)
    decreases |s|
  {
    if s != [] {
      assert s == [s[0]] + s[1..];
      FirstCoverFinds(s[1..], v, serial);
    }
  }

  /** After validation a serial has at most one range, and the lookup finds it: it succeeds exactly on
      the serials that are issued, with the one range that issues them. */
  lemma RangeIsUnique(validAddress: bytes -> bool, ranges: seq<Range>, v: nat, serial: nat)
    requires Validation(validAddress, ranges).Ok? && ValidSerial(v, serial)
    ensures var found := FindRange(Validation(validAddress, ranges).value.ranges, v, serial);
      && (found.Ok? <==> exists x :: x in ranges && x.Covers(v, serial))
      && (found.Ok? ==> forall x :: x in ranges && x.Covers(v, serial) <==> x == found.value)
  {
    hide Validation, Insert;
    var sorted := Sort(ranges);
    SortedByValidation(validAddress, ranges);
    ValidationExact(validAddress, ranges);
    SortSorts(ranges);
    SortCovers(ranges, v, serial);
    FirstCoverFinds(sorted, v, serial);
    forall x
      ensures x in ranges <==> x in sorted
    {
      assert x in multiset(ranges) <==> x in multiset(sorted);
    }
  }

  lemma SortedByValidation(validAddress: bytes -> bool, ranges: seq<Range>)
    requires Validation(validAddress, ranges).Ok?
    ensures Validation(validAddress, ranges).value.ranges == Sort(ranges)
  {
  }

  // -------------------------------------------------------------------- the full supply

  datatype OwnerKey = ByValue(value: nat) | ByText(text: bytes)

  /** Owners are keyed by denomination, or by its decimal text. */
  function OwnerOf(owners: map<OwnerKey, bytes>, v: nat): Option<bytes> {
    if ByValue(v) in owners then Some(owners[ByValue(v)])
    else if ByText(Decimal(v)) in owners then Some(owners[ByText(Decimal(v))])
    else None
  }

  predicate HasOwner(validAddress: bytes -> bool, owners: map<OwnerKey, bytes>, v: nat) {
    OwnerOf(owners, v).Some? && validAddress(OwnerOf(owners, v).value)
  }

  /** A range that issues a whole denomination to one owner. */
  predicate Whole(x: Range, v: nat, owners: map<OwnerKey, bytes>, seedOf: (nat, bytes) -> Hash) {
    && x.value == v && x.start == 1 && x.count == Cap(v)
    && OwnerOf(owners, v) == Some(x.owner) && x.seed == seedOf(v, x.owner)
  }

  predicate AllWhole(ranges: seq<Range>, vs: seq<nat>, owners: map<OwnerKey, bytes>, seedOf: (nat, bytes) -> Hash) {
    |ranges| == |vs| && forall i :: 0 <= i < |ranges| ==> Whole(ranges[i], vs[i], owners, seedOf)
  }

  method FullSupplyRanges(validAddress: bytes -> bool, owners: map<OwnerKey, bytes>, seedOf: (nat, bytes) -> Hash)
    returns (r: Result<seq<Range>>)
    ensures r.Ok? <==> forall v :: v in DENOMINATIONS ==> HasOwner(validAddress, owners, v)
    ensures r.Ok? ==> AllValid(validAddress, r.value) && AllWhole(r.value, DENOMINATIONS, owners, seedOf)
  {
    CapsAreIssuable();
    r := WholeRanges(validAddress, DENOMINATIONS, owners, seedOf);
  }

  /** The loop, over any list of denominations. */
  method WholeRanges(validAddress: bytes -> bool, vs: seq<nat>, owners: map<OwnerKey, bytes>,
                     seedOf: (nat, bytes) -> Hash)
    returns (r: Result<seq<Range>>)
    requires forall v :: v in vs ==> Cap(v) >= 1
    ensures r.Ok? <==> forall v :: v in vs ==> HasOwner(validAddress, owners, v)
    ensures r.Ok? ==> AllValid(validAddress, r.value) && AllWhole(r.value, vs, owners, seedOf)
  {
    var ranges: seq<Range> := [];
    for i := 0 to |vs|
      invariant |ranges| == i && AllValid(validAddress, ranges)
      invariant forall k :: 0 <= k < i ==> HasOwner(validAddress, owners, vs[k])
      invariant forall k :: 0 <= k < i ==> Whole(ranges[k], vs[k], owners, seedOf)
    {
      var owner := OwnerOf(owners, vs[i]);
      if owner.None? || !validAddress(owner.value) {
        assert vs[i] in vs && !HasOwner(validAddress, owners, vs[i]);
        return Err(Malformed);
      }
      var x := Range(vs[i], 1, Cap(vs[i]), owner.value, seedOf(vs[i], owner.value));
      assert x.Valid(validAddress) && Whole(x, vs[i], owners, seedOf);
      ranges := ranges + [x];
    }
    return Ok(ranges);
  }

  lemma CapsAreIssuable()
    ensures forall v :: v in DENOMINATIONS ==> Cap(v) >= 1
  {
    DenominationsListed();
  }

  lemma {:induction false} WholeCovers(ranges: seq<Range>, vs: seq<nat>, owners: map<OwnerKey, bytes>,
                                       seedOf: (nat, bytes) -> Hash, v: nat, serial: nat)
    requires AllWhole(ranges, vs, owners, seedOf) && Distinct(vs)
    ensures Cover(ranges, v, serial) == if v in vs && 1 <= serial <= Cap(v) then 1 else 0
    decreases |vs|
  {
    if vs != [] {
      assert vs == [vs[0]] + vs[1..];
      assert Whole(ranges[0], vs[0], owners, seedOf);
      WholeCovers(ranges[1..], vs[1..], owners, seedOf, v, serial);
    }
  }

  lemma WholeCoversEverySerial(ranges: seq<Range>, owners: map<OwnerKey, bytes>, seedOf: (nat, bytes) -> Hash, v: nat,
                               serial: nat)
    requires AllWhole(ranges, DENOMINATIONS, owners, seedOf)
    ensures Cover(ranges, v, serial) == if ValidSerial(v, serial) then 1 else 0
  {
    hide AllWhole;
    DenominationsListed();
    WholeCovers(ranges, DENOMINATIONS, owners, seedOf, v, serial);
  }

  /** One whole range per denomination validates, and is the full supply. */
  lemma FullSupplyValidates(validAddress: bytes -> bool, ranges: seq<Range>, owners: map<OwnerKey, bytes>,
                            seedOf: (nat, bytes) -> Hash)
    requires AllValid(validAddress, ranges) && AllWhole(ranges, DENOMINATIONS, owners, seedOf)
    ensures Validation(validAddress, ranges).Ok?
    ensures Validation(validAddress, ranges).value.totalCount == TOTAL_SUPPLY
    ensures Validation(validAddress, ranges).value.totalValue == FULL_FACE_VALUE
  {
    hide Validation, AllWhole, AllValid, ValidSerial, Cover;
    forall v, serial
      ensures Cover(ranges, v, serial) == if ValidSerial(v, serial) then 1 else 0
    {
      WholeCoversEverySerial(ranges, owners, seedOf, v, serial);
    }
    assert ranges != [] by { NotEmpty(ranges, owners, seedOf); }
    ValidationExact(validAddress, ranges);
    FullSupplyIsExact(validAddress, ranges);
  }

  lemma NotEmpty(ranges: seq<Range>, owners: map<OwnerKey, bytes>, seedOf: (nat, bytes) -> Hash)
    requires AllWhole(ranges, DENOMINATIONS, owners, seedOf)
    ensures ranges != []
  {
  }

  // ------------------------------------------------------------------------ manifests

  datatype Manifest = Manifest(
    networkId: nat,
    issuerPublicKey: Hash,
    issuerKeyId: Hash,
    issuedAt: nat,
    totalCount: nat,
    totalValue: nat,
    ranges: seq<Range>,
    metadata: bytes,
    signature: bytes,
    manifestHash: Hash)

  /** What manifests are checked and derived with. Digests and signatures ignore the signature and the
      self-hash of the manifest they are taken of. */
  datatype Mint = Mint(
    validAddress: bytes -> bool,
    keyId: Hash -> Hash,
    metadataFits: bytes -> bool,
    digest: Manifest -> Hash,
    signed: (Manifest, bytes) -> bool,
    genesisDigest: (Hash, nat, nat, Range) -> Hash)

  function Unsigned(m: Manifest): Manifest {
    m.(signature := [], manifestHash := ZERO_HASH)
  }

  function VerifyManifest(k: Mint, m: Manifest, networkId: Option<nat>, trusted: Option<set<Hash>>,
                          requireFullSupply: bool): Result<Validated> {
    if networkId.Some? && m.networkId != networkId.value then Err(WrongNetwork) else
    :- Require(m.issuerKeyId == k.keyId(m.issuerPublicKey), BadKey);
    :- Require(m.issuedAt <= MAX_PROTOCOL_TIMESTAMP && k.metadataFits(m.metadata), Malformed);
    var checked :- Validation(k.validAddress, m.ranges);
    :- Require(m.totalCount == checked.totalCount && m.totalValue == checked.totalValue, ValueMismatch);
    :- Require(!requireFullSupply || checked.totalCount == TOTAL_SUPPLY, NotCovered);
    :- Require(m.manifestHash == k.digest(Unsigned(m)), HashMismatch);
    :- Require(trusted.None? || m.manifestHash in trusted.value, UntrustedGenesis);
    :- Require(|m.signature| == 64 && k.signed(Unsigned(m), m.signature), BadSignature);
    Ok(checked)
  }

  /** Validates, sorts, totals and signs. */
  function MakeManifest(k: Mint, ranges: seq<Range>, publicKey: Hash, sign: Manifest -> bytes, issuedAt: nat,
                        networkId: nat, metadata: bytes): Result<Manifest> {
    if Validation(k.validAddress, ranges).Err? then Err(Validation(k.validAddress, ranges).error) else
    var checked := Validation(k.validAddress, ranges).value;
    :- Require(issuedAt <= MAX_PROTOCOL_TIMESTAMP && k.metadataFits(metadata), Malformed);
    var m := Manifest(networkId, publicKey, k.keyId(publicKey), issuedAt, checked.totalCount, checked.totalValue,
                      checked.ranges, metadata, [], ZERO_HASH);
    Ok(m.(signature := sign(m), manifestHash := k.digest(m)))
  }

  /** Sorting changes neither a verdict nor a total. */
  lemma SortedValidatesAlike(validAddress: bytes -> bool, ranges: seq<Range>)
    requires Validation(validAddress, ranges).Ok?
    ensures Validation(validAddress, Validation(validAddress, ranges).value.ranges) == Validation(validAddress, ranges)
  {
    hide Total, Insert;
    var sorted := Sort(ranges);
    SortSorts(ranges);
    SortKeepsSorted(sorted);
    ValidationExact(validAddress, ranges);
    forall i | 0 <= i < |sorted|
      ensures sorted[i].Valid(validAddress)
    {
      assert sorted[i] in multiset(sorted) && sorted[i] in ranges;
    }
    assert |sorted| == |multiset(sorted)| == |ranges|;
    forall v, serial
      ensures Cover(sorted, v, serial) == Cover(ranges, v, serial)
    {
      SortCovers(ranges, v, serial);
    }
    forall byValue
      ensures Total(sorted, byValue) == Total(ranges, byValue)
    {
      TotalIsSupply(validAddress, sorted, byValue);
      TotalIsSupply(validAddress, ranges, byValue);
      SameCoverSameSupply(DENOMINATIONS, sorted, ranges, byValue);
    }
  }

  lemma {:induction false} SameCoverSameSupply(vs: seq<nat>, s: seq<Range>, t: seq<Range>, byValue: bool)
    requires forall v, serial :: Cover(s, v, serial) == Cover(t, v, serial)
    ensures Supply(vs, s, byValue) == Supply(vs, t, byValue)
    decreases |vs|
  {
    if vs != [] {
      SameCoverSameIssue(vs[0], Cap(vs[0]), s, t);
      SameCoverSameSupply(vs[1..], s, t, byValue);
    }
  }

  lemma {:induction false} SameCoverSameIssue(v: nat, n: nat, s: seq<Range>, t: seq<Range>)
    requires forall v, serial :: Cover(s, v, serial) == Cover(t, v, serial)
    ensures Issued(s, v, n) == Issued(t, v, n)
    decreases n
  {
    if n > 0 {
      SameCoverSameIssue(v, n - 1, s, t);
    }
  }

  /** The range issues at least one serial, all of them within its denomination's cap, to a valid address. */
  predicate IssuesValidly(validAddress: bytes -> bool, x: Range) {
    && 1 <= x.count && ValidValue(x.value) && 1 <= x.start
    && x.start + x.count - 1 <= DENOMINATION_SERIAL_CAPS[x.value]
    && validAddress(x.owner)
  }

  lemma AllIssueValidly(validAddress: bytes -> bool, s: seq<Range>)
    ensures AllValid(validAddress, s) <==> forall x :: x in s ==> IssuesValidly(validAddress, x)
  {
    forall i | 0 <= i < |s|
      ensures s[i].Valid(validAddress) <==> IssuesValidly(validAddress, s[i])
    {
    }
    if AllValid(validAddress, s) {
      forall x | x in s
        ensures IssuesValidly(validAddress, x)
      {
        var i :| 0 <= i < |s| && s[i] == x;
        assert s[i].Valid(validAddress);
      }
    }
  }

  /** A manifest is accepted exactly if it is this network's, names its key, issues no serial twice and
      counts what it issues, and is signed, hashed and trusted; and, on request, issues every serial. */
  lemma ManifestExact(k: Mint, m: Manifest, networkId: Option<nat>, trusted: Option<set<Hash>>, full: bool)
    ensures var bare := m.(signature := [], manifestHash := ZERO_HASH);
      VerifyManifest(k, m, networkId, trusted, full).Ok? <==>
        && (networkId.Some? ==> m.networkId == networkId.value) && m.issuerKeyId == k.keyId(m.issuerPublicKey)
        && m.issuedAt <= 0x7fff_ffff_ffff_ffff && k.metadataFits(m.metadata)
        && m.ranges != [] && (forall x :: x in m.ranges ==> IssuesValidly(k.validAddress, x)) && IssuedOnce(m.ranges)
        && m.totalCount == Supply(DENOMINATIONS, m.ranges, false)
        && m.totalValue == Supply(DENOMINATIONS, m.ranges, true)
        && (full ==> forall v, serial :: ValidSerial(v, serial) ==> Cover(m.ranges, v, serial) == 1)
        && m.manifestHash == k.digest(bare) && (trusted.Some? ==> m.manifestHash in trusted.value)
        && |m.signature| == 64 && k.signed(bare, m.signature)
  {
    ValidationExact(k.validAddress, m.ranges);
    AllIssueValidly(k.validAddress, m.ranges);
    hide Total, Supply, Cover, IssuesValidly, AllValid, IssuedOnce;
    if AllValid(k.validAddress, m.ranges) {
      TotalIsSupply(k.validAddress, m.ranges, false);
      TotalIsSupply(k.validAddress, m.ranges, true);
    }
    if Validation(k.validAddress, m.ranges).Ok? {
      FullSupplyIsExact(k.validAddress, m.ranges);
      ValidationTotals(k.validAddress, m.ranges);
    }
    hide Validation;
  }

  lemma ValidationTotals(validAddress: bytes -> bool, ranges: seq<Range>)
    requires Validation(validAddress, ranges).Ok?
    ensures AllValid(validAddress, ranges)
    ensures var checked := Validation(validAddress, ranges).value;
      checked.totalCount == Total(ranges, false) && checked.totalValue == Total(ranges, true)
  {
    hide AllValid, Total, NoneRunsInto;
  }

  /** What is made: the ranges in order, none lost, under the maker's key, date and network. */
  lemma MadeManifestShows(k: Mint, ranges: seq<Range>, publicKey: Hash, sign: Manifest -> bytes, issuedAt: nat,
                          networkId: nat, metadata: bytes)
    ensures var made := MakeManifest(k, ranges, publicKey, sign, issuedAt, networkId, metadata);
      && (made.Ok? <==>
            && ranges != [] && (forall x :: x in ranges ==> IssuesValidly(k.validAddress, x)) && IssuedOnce(ranges)
            && issuedAt <= 0x7fff_ffff_ffff_ffff && k.metadataFits(metadata))
      && (made.Ok? ==>
            var m := made.value;
            var bare := m.(signature := [], manifestHash := ZERO_HASH);
            && multiset(m.ranges) == multiset(ranges) && Sorted(m.ranges)
            && m.networkId == networkId && m.issuerPublicKey == publicKey && m.issuerKeyId == k.keyId(publicKey)
            && m.issuedAt == issuedAt && m.metadata == metadata
            && m.totalCount == Supply(DENOMINATIONS, ranges, false)
            && m.totalValue == Supply(DENOMINATIONS, ranges, true)
            && m.signature == sign(bare) && m.manifestHash == k.digest(bare))
  {
    ValidationExact(k.validAddress, ranges);
    AllIssueValidly(k.validAddress, ranges);
    SortSorts(ranges);
    if AllValid(k.validAddress, ranges) {
      TotalIsSupply(k.validAddress, ranges, false);
      TotalIsSupply(k.validAddress, ranges, true);
    }
    hide Total, Supply, IssuesValidly, AllValid, IssuedOnce, Sort, Sorted, NoneRunsInto;
  }

  /** A manifest just made verifies, wherever its hash is trusted; the ranges it carries are its own. */
  lemma MadeManifestVerifies(k: Mint, ranges: seq<Range>, publicKey: Hash, sign: Manifest -> bytes, issuedAt: nat,
                             networkId: nat, metadata: bytes, trusted: Option<set<Hash>>)
    requires MakeManifest(k, ranges, publicKey, sign, issuedAt, networkId, metadata).Ok?
    requires forall m :: |sign(m)| == 64 && k.signed(m, sign(m))
    ensures var m := MakeManifest(k, ranges, publicKey, sign, issuedAt, networkId, metadata).value;
      (trusted.Some? ==> m.manifestHash in trusted.value) ==>
        VerifyManifest(k, m, Some(networkId), trusted, false) == Validation(k.validAddress, ranges)
  {
    SortedValidatesAlike(k.validAddress, ranges);
    hide Validation;
  }

  // ------------------------------------------------------------------- first states

  function GenesisHash(k: Mint, m: Manifest, v: nat, serial: nat, x: Range): Hash {
    k.genesisDigest(m.manifestHash, v, serial, x)
  }

  /** The reference a bill carries back to its manifest. */
  function DeriveGenesisRef(k: Mint, m: Manifest, v: nat, serial: nat): Result<GenesisRef> {
    if VerifyManifest(k, m, None, None, false).Err? then Err(VerifyManifest(k, m, None, None, false).error) else
    var x :- FindRange(VerifyManifest(k, m, None, None, false).value.ranges, v, serial);
    Ok(GenesisRef(m.networkId, GenesisHash(k, m, v, serial, x), Some(m.manifestHash), Some(m.issuerKeyId),
                  serial, m.issuedAt))
  }

  /** The sequence-zero state of a bill. */
  function DeriveBaseState(k: Mint, m: Manifest, v: nat, serial: nat): Result<State> {
    if VerifyManifest(k, m, None, None, false).Err? then Err(VerifyManifest(k, m, None, None, false).error) else
    var x :- FindRange(VerifyManifest(k, m, None, None, false).value.ranges, v, serial);
    Ok(State(0, x.owner, GenesisHash(k, m, v, serial, x), m.issuedAt, DayOf(m.issuedAt), 0,
             CanonicalDisplayId(v, serial), v))
  }

  /** What a first state and its reference show: the bill's value and serial, the manifest it came from, and
      the date of issue. */
  lemma FirstStateShows(k: Mint, m: Manifest, v: nat, serial: nat)
    requires DeriveBaseState(k, m, v, serial).Ok?
    ensures DeriveGenesisRef(k, m, v, serial).Ok?
    ensures var base, g := DeriveBaseState(k, m, v, serial).value, DeriveGenesisRef(k, m, v, serial).value;
      && base.value == v && base.displayId == CanonicalDisplayId(v, serial) && base.sequence == 0
      && base.lastTransferTimestamp == m.issuedAt == g.issuedAt && base.lastTransferHash == g.genesisHash
      && g.issueIndex == serial && g.networkId == m.networkId
      && g.manifestHash == Some(m.manifestHash) && g.issuerKeyId == Some(m.issuerKeyId)
  {
    hide VerifyManifest, FindRange, CanonicalDisplayId;
  }

  /** Two issued bills whose histories start on one genesis hash are one bill, of one range of one manifest,
      or two derivations collide. */
  lemma GenesisTellsBillsApart(k: Mint, m: Manifest, v: nat, serial: nat, n: Manifest, w: nat, other: nat)
    requires DeriveBaseState(k, m, v, serial).Ok? && DeriveBaseState(k, n, w, other).Ok?
    requires DeriveBaseState(k, m, v, serial).value.lastTransferHash
          == DeriveBaseState(k, n, w, other).value.lastTransferHash
    ensures var a, b := DeriveBaseState(k, m, v, serial).value, DeriveBaseState(k, n, w, other).value;
      || (m.manifestHash == n.manifestHash && v == w && serial == other && a.ownerAddress == b.ownerAddress)
      || exists x, y ::
           && x in m.ranges && y in n.ranges
           && (m.manifestHash, v, serial, x) != (n.manifestHash, w, other, y)
           && k.genesisDigest(m.manifestHash, v, serial, x) == k.genesisDigest(n.manifestHash, w, other, y)
  {
    hide Validation, FindRange;
    var x := IssuingRange(k, m, v, serial);
    var y := IssuingRange(k, n, w, other);
    if (m.manifestHash, v, serial, x) == (n.manifestHash, w, other, y) {
      assert x.owner == y.owner;
    }
  }

  lemma IssuingRange(k: Mint, m: Manifest, v: nat, serial: nat) returns (x: Range)
    requires DeriveBaseState(k, m, v, serial).Ok?
    ensures x in m.ranges && DeriveBaseState(k, m, v, serial).value.ownerAddress == x.owner
    ensures DeriveBaseState(k, m, v, serial).value.lastTransferHash == k.genesisDigest(m.manifestHash, v, serial, x)
  {
    hide Validation, FindRange;
    IssuedIsValid(k, m, v, serial);
    RangeIsUnique(k.validAddress, m.ranges, v, serial);
    x := FindRange(VerifyManifest(k, m, None, None, false).value.ranges, v, serial).value;
  }

  /** Every issued bill, and no other, has a first state; its owner is the owner of the one range that
      issues it. */
  lemma BaseStateIsUnique(k: Mint, m: Manifest, v: nat, serial: nat)
    requires VerifyManifest(k, m, None, None, false).Ok? && ValidSerial(v, serial)
    ensures DeriveBaseState(k, m, v, serial).Ok? <==> exists x :: x in m.ranges && x.Covers(v, serial)
    ensures DeriveBaseState(k, m, v, serial).Ok? ==> forall x :: x in m.ranges && x.Covers(v, serial) ==>
              DeriveBaseState(k, m, v, serial).value.ownerAddress == x.owner
  {
    hide Validation, FindRange;
    RangeIsUnique(k.validAddress, m.ranges, v, serial);
  }

  /** A fully supplied manifest gives every bill of every denomination a first state. */
  lemma FullManifestIssuesAll(k: Mint, m: Manifest, v: nat, serial: nat)
    requires VerifyManifest(k, m, None, None, true).Ok?
    ensures DeriveBaseState(k, m, v, serial).Ok? <==> ValidSerial(v, serial)
  {
    hide Validation;
    if ValidSerial(v, serial) {
      FullSupplyIsExact(k.validAddress, m.ranges);
      FirstCoverFinds(m.ranges, v, serial);
      BaseStateIsUnique(k, m, v, serial);
    }
  }

  /** A derived state is where histories start: it is valid, attaches at genesis, agrees with its own
      genesis reference, counts its day truthfully and is within every encoder limit. */
  lemma DerivedBaseStartsHistory(p: Primitives, ctx: Context, tokenId: Hash, k: Mint, m: Manifest, v: nat, serial: nat,
                                 store: SegmentStore)
    requires ctx.suite == Standard(p) && k.validAddress == ctx.suite.validAddress && ctx.networkId == m.networkId
    requires DeriveBaseState(k, m, v, serial).Ok?
    ensures DeriveGenesisRef(k, m, v, serial).Ok?
    ensures var base, g := DeriveBaseState(k, m, v, serial).value, DeriveGenesisRef(k, m, v, serial).value;
      && Attaches(Archiver(ctx, tokenId, g), base, None, store, 0) && ValidState(ctx.suite, base)
      && IssueIndexMatches(ctx.suite, base.displayId, base.value, g.issueIndex) && NumbersFit(base, g)
      && base.lastTransferDay == DayOf(base.lastTransferTimestamp) && base.transfersInLastDay == 0
      && (ValidGenesisRef(ctx, g) <==> p.genesisTrusted(Some(m.manifestHash)))
  {
    hide Validation, FindRange, CanonicalDisplayId, ParseDisplayId;
    IssuedIsValid(k, m, v, serial);
    DisplayIdExact(CanonicalDisplayId(v, serial), v, serial);
    CapsAreBounded(v, serial);
  }

  lemma IssuedIsValid(k: Mint, m: Manifest, v: nat, serial: nat)
    requires DeriveBaseState(k, m, v, serial).Ok?
    ensures ValidSerial(v, serial) && k.validAddress(DeriveBaseState(k, m, v, serial).value.ownerAddress)
  {
    hide Validation, Sort;
    var checked := VerifyManifest(k, m, None, None, false).value;
    var x := FindRange(checked.ranges, v, serial).value;
    RangeIsUnique(k.validAddress, m.ranges, v, serial);
    ValidationExact(k.validAddress, m.ranges);
    assert x in m.ranges;
    var i :| 0 <= i < |m.ranges| && m.ranges[i] == x;
    assert m.ranges[i].Valid(k.validAddress);
  }

  /** From the manifest on: any history of an issued bill, cut into blocks of at most 128 transfers, archives
      to the end, and no UTC day of it holds more than ten transfers. */
  lemma IssuedBillArchives(p: Primitives, ctx: Context, tokenId: Hash, k: Mint, m: Manifest, v: nat, serial: nat,
                           blocks: seq<seq<Transfer>>, day: nat)
    requires ctx.suite == Standard(p) && k.validAddress == ctx.suite.validAddress && ctx.networkId == m.networkId
    requires DeriveBaseState(k, m, v, serial).Ok? && p.genesisTrusted(Some(m.manifestHash))
    requires forall b :: b in blocks ==> 1 <= |b| <= 128
    requires Verifier(ctx, tokenId).Replay(DeriveBaseState(k, m, v, serial).value, Flatten(blocks)).Ok?
    ensures DeriveGenesisRef(k, m, v, serial).Ok?
    ensures Archiver(ctx, tokenId, DeriveGenesisRef(k, m, v, serial).value)
              .BuildChain(DeriveBaseState(k, m, v, serial).value, blocks, None).Ok?
    ensures CountOnDay(Flatten(blocks), day) <= MAX_TRANSFERS_PER_BILL_PER_DAY
  {
    hide Standard, DeriveBaseState, DeriveGenesisRef, Attaches, ValidState, Replayer.Fold;
    DerivedBaseStartsHistory(p, ctx, tokenId, k, m, v, serial, map[]);
    var base, g := DeriveBaseState(k, m, v, serial).value, DeriveGenesisRef(k, m, v, serial).value;
    SmallCutsArchive(p, Archiver(ctx, tokenId, g), base, blocks, None);
    DailyBound(Verifier(ctx, tokenId), base, Flatten(blocks), day);
  }
}
