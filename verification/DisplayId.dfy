/** Fixed denominations, their serial caps, and the human bill id `<value>x<serial>`. */
module DisplayId {
  import opened Wrappers
  import opened Binary

  const TOTAL_SUPPLY: nat := 33 * 1_000_000_000

  const DENOMINATION_SERIAL_CAPS: map<nat, nat> := map[
    1 := 6_000_000_000, 2 := 5_500_000_000, 5 := 5_000_000_000, 10 := 4_500_000_000,
    20 := 4_000_000_000, 50 := 2_000_000_000, 100 := 1_500_000_000, 200 := 1_000_000_000,
    500 := 800_000_000, 1000 := 700_000_000, 2000 := 600_000_000, 5000 := 500_000_000,
    10000 := 400_000_000, 20000 := 250_000_000, 50000 := 150_000_000, 100000 := 100_000_000]

  predicate ValidValue(value: nat) {
    value in DENOMINATION_SERIAL_CAPS
  }

  predicate ValidSerial(value: nat, serial: nat) {
    ValidValue(value) && 1 <= serial <= DENOMINATION_SERIAL_CAPS[value]
  }

  const SEPARATOR: byte := 'x' as int

  predicate IsDigit(b: byte) {
    48 <= b <= 57
  }

  predicate AllDigits(s: bytes) {
    forall i :: 0 <= i < |s| ==> IsDigit(s[i])
  }

  function Decimal(n: nat): bytes {
    if n < 10 then [48 + n] else Decimal(n / 10) + [48 + n % 10]
  }

  function DecimalValue(s: bytes): nat
    requires AllDigits(s)
  {
    if s == [] then 0 else 10 * DecimalValue(s[..|s| - 1]) + (s[|s| - 1] - 48)
  }

  function CanonicalDisplayId(value: nat, serial: nat): bytes {
    Decimal(value) + ([SEPARATOR] + Decimal(serial))
  }

  /** The part before the first separator: all of `s` when there is none. */
  function BeforeSeparator(s: bytes): bytes {
    if s == [] || s[0] == SEPARATOR then [] else [s[0]] + BeforeSeparator(s[1..])
  }

  /** A number written without leading zeros. */
  function ParseNumber(s: bytes): Option<nat> {
    if s == [] || !AllDigits(s) || (|s| > 1 && s[0] == 48) then None else Some(DecimalValue(s))
  }

  function ParseDisplayId(id: bytes): Option<(nat, nat)> {
    var prefix := BeforeSeparator(id);
    if |prefix| >= |id| then None else
    var value :- ParseNumber(prefix);
    var serial :- ParseNumber(id[|prefix| + 1..]);
    if ValidSerial(value, serial) then Some((value, serial)) else None
  }

  lemma {:induction false} DecimalReadsBack(n: nat)
    ensures AllDigits(Decimal(n)) && Decimal(n) != [] && DecimalValue(Decimal(n)) == n
    ensures |Decimal(n)| > 1 ==> Decimal(n)[0] != 48
    ensures n > 0 ==> Decimal(n)[0] != 48
    decreases n
  {
    if n < 10 {
      assert Decimal(n)[..0] == [];
    } else {
      DecimalReadsBack(n / 10);
      var s := Decimal(n);
      assert s[..|s| - 1] == Decimal(n / 10) && s[0] == Decimal(n / 10)[0];
    }
  }

  lemma {:induction false} NumberIsCanonical(s: bytes)
    requires ParseNumber(s).Some?
    ensures s == Decimal(ParseNumber(s).value)
    ensures s[0] != 48 ==> ParseNumber(s).value > 0
    decreases |s|
  {
    var init, last := s[..|s| - 1], s[|s| - 1];
    assert s == init + [last];
    if |s| == 1 {
      assert DecimalValue(init) == 0;
    } else {
      NumberIsCanonical(init);
      assert init[0] == s[0];
      var n := DecimalValue(s);
      assert n / 10 == DecimalValue(init) && n % 10 == last - 48;
    }
  }

  lemma {:induction false} BeforeSeparatorSplits(a: bytes, rest: bytes)
    requires SEPARATOR !in a
    ensures BeforeSeparator(a + ([SEPARATOR] + rest)) == a
    decreases |a|
  {
    if a != [] {
      var s := a + ([SEPARATOR] + rest);
      assert s[1..] == a[1..] + ([SEPARATOR] + rest);
      BeforeSeparatorSplits(a[1..], rest);
    }
  }

  lemma {:induction false} BeforeSeparatorIsPrefix(s: bytes)
    ensures BeforeSeparator(s) <= s
    ensures |BeforeSeparator(s)| < |s| ==> s[|BeforeSeparator(s)|] == SEPARATOR
    decreases |s|
  {
    if s != [] && s[0] != SEPARATOR {
      BeforeSeparatorIsPrefix(s[1..]);
      assert s == [s[0]] + s[1..];
    }
  }

  lemma SplitAt(s: bytes, k: nat)
    requires k < |s|
    ensures s == s[..k] + ([s[k]] + s[k + 1..])
  {
  }

  lemma CanonicalParses(value: nat, serial: nat)
    requires ValidSerial(value, serial)
    ensures ParseDisplayId(CanonicalDisplayId(value, serial)) == Some((value, serial))
  {
    var id := CanonicalDisplayId(value, serial);
    DecimalReadsBack(value);
    DecimalReadsBack(serial);
    BeforeSeparatorSplits(Decimal(value), Decimal(serial));
    assert id[|Decimal(value)| + 1..] == Decimal(serial);
  }

  lemma ParsedIsCanonical(id: bytes, value: nat, serial: nat)
    requires ParseDisplayId(id) == Some((value, serial))
    ensures id == CanonicalDisplayId(value, serial)
  {
    var prefix := BeforeSeparator(id);
    BeforeSeparatorIsPrefix(id);
    SplitAt(id, |prefix|);
    assert prefix == Decimal(value) by {
      NumberIsCanonical(prefix);
    }
    assert id[|prefix| + 1..] == Decimal(serial) by {
      NumberIsCanonical(id[|prefix| + 1..]);
    }
  }

  /** Display ids and (value, serial) pairs are in bijection: one spelling per bill. */
  lemma DisplayIdExact(id: bytes, value: nat, serial: nat)
    ensures ParseDisplayId(id) == Some((value, serial))
       <==> ValidSerial(value, serial) && id == CanonicalDisplayId(value, serial)
  {
    if ParseDisplayId(id).Some? {
      ParsedIsCanonical(id, ParseDisplayId(id).value.0, ParseDisplayId(id).value.1);
    }
    if ValidSerial(value, serial) {
      CanonicalParses(value, serial);
    }
  }

  function Pow10(k: nat): nat {
    if k == 0 then 1 else 10 * Pow10(k - 1)
  }

  lemma {:induction false} DecimalIsShort(n: nat, k: nat)
    requires k >= 1 && n < Pow10(k)
    ensures |Decimal(n)| <= k && AllDigits(Decimal(n))
    decreases k
  {
    if n >= 10 {
      DecimalIsShort(n / 10, k - 1);
    }
  }

  lemma CapsAreBounded(value: nat, serial: nat)
    requires ValidSerial(value, serial)
    ensures 1 <= value <= 100_000 && serial <= 6_000_000_000
  {
  }

  lemma CanonicalIsShort(value: nat, serial: nat)
    requires ValidSerial(value, serial)
    ensures |CanonicalDisplayId(value, serial)| <= 64 && IsAscii(CanonicalDisplayId(value, serial))
    ensures 1 <= value <= 100_000
  {
    CapsAreBounded(value, serial);
    DecimalIsShort(value, 10);
    DecimalIsShort(serial, 10);
  }
}
