/**
  Canonical binary primitives: bounded unsigned integers in minimal LEB128
  (DWARF 5, section 7.6), length-prefixed fields, nullable hashes, object hashes and
  signing preimages, together with the cursor that reads them back.
 */
module Binary {
  import opened Wrappers

  type byte = x: int | 0 <= x < 256
  type bytes = seq<byte>
  type Hash = h: bytes | |h| == 32 witness seq(32, _ => 0)

  const MAX_UVARINT: nat := 0x7FFF_FFFF_FFFF_FFFF
  const MAX_BOUNDED_BYTES: nat := 64 * 1024
  const MAX_SIGNING_PREIMAGE_OBJECT_BYTES: nat := 1024 * 1024
  const SIGNATURE_ALGORITHM_ID: nat := 1
  const ZERO_HASH: Hash := [
    0, 0, 0, 0, 0, 0, 0, 0, 0, 0, 0, 0, 0, 0, 0, 0, 0, 0, 0, 0, 0, 0, 0, 0, 0, 0, 0, 0, 0, 0, 0, 0]

  // ---------------------------------------------------------------- encoders

  /** The minimal LEB128 form: seven bits a byte, low group first. */
  function Uvarint(v: nat): bytes {
    if v < 128 then [v] else [v % 128 + 128] + Uvarint(v / 128)
  }

  predicate IsAscii(s: bytes) {
    forall i :: 0 <= i < |s| ==> s[i] < 128
  }

  function BoundedBytes(b: bytes): bytes {
    Uvarint(|b|) + b
  }

  function NullableHash(h: Option<Hash>): bytes {
    match h
    case None => [0]
    case Some(value) => [1] + value
  }

  /** Appends the groups of `value` low first until nothing is left. */
  method EncodeUvarint(value: int) returns (r: Result<bytes>)
    ensures r == if 0 <= value <= MAX_UVARINT then Ok(Uvarint(value)) else Err(NotEncodable)
  {
    if value < 0 || value > MAX_UVARINT {
      return Err(NotEncodable);
    }
    var v: nat := value;
    var out: bytes := [];
    while true
      invariant out + Uvarint(v) == Uvarint(value)
      decreases v
    {
      var group := v % 128;
      ghost var before := v;
      v := v / 128;
      if v != 0 {
        assert Uvarint(before) == [group + 128] + Uvarint(v);
        out := out + [group + 128];
      } else {
        assert Uvarint(before) == [group];
        out := out + [group];
        return Ok(out);
      }
    }
  }

  // ------------------------------------------------------------------ parsers

  /** A parsed prefix and the unread remainder. */
  datatype Parsed<+T> = Rejected | Parsed(value: T, rest: bytes) {
    predicate IsFailure() {
      Rejected?
    }

    function PropagateFailure<U>(): Parsed<U>
      requires Rejected?
    {
      Rejected
    }

    function Extract(): (T, bytes)
      requires Parsed?
    {
      (value, rest)
    }
  }

  /** Reads groups up to the first byte without a continuation bit; a final zero group is
      allowed only when it is also the first one. */
  function ParseGroups(s: bytes, first: bool): Parsed<nat> {
    if s == [] then Rejected
    else if s[0] < 128 then (if s[0] == 0 && !first then Rejected else Parsed(s[0], s[1..]))
    else
      match ParseGroups(s[1..], false)
      case Rejected => Rejected
      case Parsed(v, rest) => Parsed(s[0] - 128 + 128 * v, rest)
  }

  function ParseUvarint(s: bytes): Parsed<nat> {
    match ParseGroups(s, true)
    case Rejected => Rejected
    case Parsed(v, rest) => if v <= MAX_UVARINT then Parsed(v, rest) else Rejected
  }

  function ParseFixed(s: bytes, length: nat): Parsed<bytes> {
    if length > MAX_BOUNDED_BYTES || length > |s| then Rejected else Parsed(s[..length], s[length..])
  }

  function ParseHash(s: bytes): Parsed<Hash> {
    if |s| < 32 then Rejected else Parsed(s[..32], s[32..])
  }

  function ParseBytes(s: bytes, max: nat): Parsed<bytes> {
    var (n, s) :- ParseUvarint(s);
    if n > max then Rejected else ParseFixed(s, n)
  }

  function ParseAscii(s: bytes, max: nat): Parsed<bytes> {
    var (text, s) :- ParseBytes(s, max);
    if IsAscii(text) then Parsed(text, s) else Rejected
  }

  function ParseNullableHash(s: bytes): Parsed<Option<Hash>> {
    if s == [] then Rejected
    else if s[0] == 0 then Parsed(None, s[1..])
    else if s[0] == 1 then
      var (h, s) :- ParseHash(s[1..]);
      Parsed(Some(h), s)
    else Rejected
  }

  // ------------------------------------------- uvarint: encoder against parser

  lemma {:induction false} GroupsReadBack(v: nat, rest: bytes, first: bool)
    requires first || v > 0
    ensures ParseGroups(Uvarint(v) + rest, first) == Parsed(v, rest)
    decreases v
  {
    var s := Uvarint(v) + rest;
    if v < 128 {
      assert s[0] == v && s[1..] == rest;
    } else {
      GroupsReadBack(v / 128, rest, false);
      assert s[0] == v % 128 + 128 && s[1..] == Uvarint(v / 128) + rest;
    }
  }

  lemma {:induction false} GroupsAreCanonical(s: bytes, first: bool)
    requires ParseGroups(s, first).Parsed?
    ensures s == Uvarint(ParseGroups(s, first).value) + ParseGroups(s, first).rest
    ensures first || ParseGroups(s, first).value > 0
    decreases |s|
  {
    if s[0] < 128 {
      assert s == [s[0]] + s[1..];
    } else {
      GroupsAreCanonical(s[1..], false);
      var v := ParseGroups(s, first).value;
      var tail := ParseGroups(s[1..], false).value;
      assert v % 128 == s[0] - 128 && v / 128 == tail && v >= 128;
      assert s == [s[0]] + s[1..];
    }
  }

  /** A parse succeeds exactly on the encodings of 0 .. 2^63-1, and consumes exactly the encoding. */
  lemma UvarintExact(s: bytes, v: nat, rest: bytes)
    ensures ParseUvarint(s) == Parsed(v, rest) <==> v <= MAX_UVARINT && s == Uvarint(v) + rest
  {
    if v <= MAX_UVARINT && s == Uvarint(v) + rest {
      GroupsReadBack(v, rest, true);
    }
    if ParseUvarint(s).Parsed? {
      GroupsAreCanonical(s, true);
    }
  }

  /** `v << 7 * groups`. */
  function Shl7(v: nat, groups: nat): nat
    decreases groups
  {
    if groups == 0 then v else Shl7(128 * v, groups - 1)
  }

  lemma {:induction false} Shl7Sum(a: nat, b: nat, k: nat)
    ensures Shl7(a + b, k) == Shl7(a, k) + Shl7(b, k)
    decreases k
  {
    if k > 0 {
      Shl7Sum(128 * a, 128 * b, k - 1);
    }
  }

  lemma {:induction false} Shl7Monotone(a: nat, b: nat, k: nat)
    requires a <= b
    ensures Shl7(a, k) <= Shl7(b, k) && a <= Shl7(a, k)
    decreases k
  {
    if k > 0 {
      Shl7Monotone(128 * a, 128 * b, k - 1);
    }
  }

  lemma {:induction false} UvarintLength(v: nat, k: nat)
    requires k >= 1 && v < Shl7(1, k)
    ensures 1 <= |Uvarint(v)| <= k
    decreases k
  {
    if v >= 128 {
      Shl7Scale(1, k - 1);
      UvarintLength(v / 128, k - 1);
    }
  }

  lemma {:induction false} Shl7Scale(v: nat, k: nat)
    ensures Shl7(128 * v, k) == 128 * Shl7(v, k)
    decreases k
  {
    if k > 0 {
      Shl7Scale(128 * v, k - 1);
    }
  }

  lemma UvarintAtMostNine(v: nat)
    requires v <= MAX_UVARINT
    ensures 1 <= |Uvarint(v)| <= 9
  {
    assert Shl7(1, 9) == MAX_UVARINT + 1;
    UvarintLength(v, 9);
  }

  // ------------------------------------------------------------------- reader

  /** The seven payload bits of a byte. */
  function Low(b: byte): (low: nat)
    ensures low < 128
  {
    if b >= 128 then b - 128 else b
  }

  /** What a whole parse becomes once `k` groups with total `value` have been read from it. */
  function Resume(value: nat, k: nat, tail: Parsed<nat>): Parsed<nat> {
    match tail
    case Rejected => Rejected
    case Parsed(v, rest) => Parsed(value + Shl7(v, k), rest)
  }

  lemma GroupFits(group: nat, k: nat)
    requires group < 128
    ensures Shl7(group, k) + Shl7(1, k) <= Shl7(1, k + 1)
  {
    Shl7Sum(group, 1, k);
    Shl7Monotone(group + 1, 128, k);
  }

  /** Reading one more continuation group moves it from the unread tail into the total. */
  lemma ResumeStep(value: nat, k: nat, s: bytes)
    requires s != [] && s[0] >= 128
    ensures Resume(value, k, ParseGroups(s, k == 0))
         == Resume(value + Shl7(Low(s[0]), k), k + 1, ParseGroups(s[1..], false))
  {
    var tail := ParseGroups(s[1..], false);
    if tail.Parsed? {
      Shl7Sum(Low(s[0]), 128 * tail.value, k);
    }
  }

  /** Ten continuation bytes leave no room: whatever follows is zero (not minimal) or too big. */
  lemma TenGroupsNeverParse(value: nat, s: bytes)
    ensures var p := Resume(value, 10, ParseGroups(s, false)); p.Parsed? ==> p.value > MAX_UVARINT
  {
    var tail := ParseGroups(s, false);
    if tail.Parsed? {
      GroupsAreCanonical(s, false);
      assert Shl7(1, 10) == 128 * (MAX_UVARINT + 1);
      Shl7Monotone(1, tail.value, 10);
    }
  }

  /** `value` is the total of the `k` groups of `s` that precede `unread`. */
  predicate Midway(s: bytes, unread: bytes, value: nat, k: nat) {
    value < Shl7(1, k) && value <= MAX_UVARINT &&
    ParseGroups(s, true) == Resume(value, k, ParseGroups(unread, k == 0))
  }

  /** What one more byte settles: an excess rejects the whole input, a continuation resumes. */
  lemma GroupStep(s: bytes, unread: bytes, before: nat, k: nat)
    requires unread != [] && Midway(s, unread, before, k)
    ensures var value := before + Shl7(Low(unread[0]), k);
      && (value > MAX_UVARINT ==> ParseUvarint(s) == Rejected)
      && (value <= MAX_UVARINT && unread[0] >= 128 ==> Midway(s, unread[1..], value, k + 1))
  {
    if unread[0] >= 128 {
      GroupFits(Low(unread[0]), k);
      ResumeStep(before, k, unread);
    } else {
      assert ParseGroups(unread, k == 0) in {Rejected, Parsed(unread[0], unread[1..])};
    }
  }

  lemma TenthGroup(s: bytes, unread: bytes, value: nat)
    requires Midway(s, unread, value, 10)
    ensures ParseUvarint(s) == Rejected
  {
    TenGroupsNeverParse(value, unread);
  }

  /** At a byte without a continuation bit, re-encoding the total gives back the bytes read
      exactly when the parse accepts it. */
  lemma LastGroup(s: bytes, raw: bytes, unread: bytes, before: nat, k: nat)
    requires unread != [] && unread[0] < 128 && Midway(s, unread, before, k)
    requires |raw| == k + 1 && s == raw + unread[1..]
    requires before + Shl7(unread[0], k) <= MAX_UVARINT
    ensures var value := before + Shl7(unread[0], k);
            ParseUvarint(s) == if Uvarint(value) == raw then Parsed(value, unread[1..]) else Rejected
  {
    var rest := unread[1..];
    if unread[0] == 0 && k > 0 {
      Shl7Sum(0, 0, k);
      UvarintLength(before, k);
    } else {
      GroupsAreCanonical(s, true);
      assert (raw + rest)[..|s| - |rest|] == raw;
    }
  }

  /** `p` is what a read returned (`r`), leaving `after` unread; on failure the cursor is spent. */
  predicate Agrees<T(==)>(p: Parsed<T>, r: Option<T>, after: bytes) {
    match p
    case Rejected => r == None
    case Parsed(v, rest) => r == Some(v) && after == rest
  }

  class Reader {
    const data: bytes
    var offset: nat

    ghost predicate Valid()
      reads this
    {
      offset <= |data|
    }

    function Rest(): bytes
      requires Valid()
      reads this
    {
      data[offset..]
    }

    constructor (data: bytes)
      ensures Valid() && this.data == data && Rest() == data
    {
      this.data := data;
      offset := 0;
    }

    method Read(length: nat) returns (r: Option<bytes>)
      requires Valid()
      modifies this`offset
      ensures Valid() && offset >= old(offset)
      ensures Agrees(ParseFixed(old(Rest()), length), r, Rest())
    {
      if length > MAX_BOUNDED_BYTES || offset + length > |data| {
        return None;
      }
      assert data[offset..][..length] == data[offset..offset + length];
      r := Some(data[offset..offset + length]);
      offset := offset + length;
    }

    /** Accumulates groups with a growing shift, then re-encodes to reject padded forms. */
    method ReadUvarint() returns (r: Option<nat>)
      requires Valid()
      modifies this`offset
      ensures Valid() && old(offset) <= offset <= old(offset) + 10
      ensures Agrees(ParseUvarint(old(Rest())), r, Rest())
    {
      var start := offset;
      var value: nat := 0;
      ghost var s := Rest();
      ghost var unread := s;
      var k: nat := 0;
      while true
        invariant Valid() && offset == start + k && k <= 9
        invariant s == data[start..] && unread == data[offset..]
        invariant Midway(s, unread, value, k)
        decreases 10 - k
      {
        if offset >= |data| {
          assert ParseUvarint(s) == Rejected;
          return None;
        }
        var group := data[offset];
        offset := offset + 1;
        assert unread[0] == group && unread[1..] == data[offset..];
        GroupStep(s, unread, value, k);
        ghost var before := value;
        value := value + Shl7(Low(group), k);
        if value > MAX_UVARINT {
          return None;
        }
        if group < 128 {
          var raw := data[start..offset];
          assert s == raw + unread[1..];
          var minimal := EncodeUvarint(value);
          LastGroup(s, raw, unread, before, k);
          return if minimal == Ok(raw) then Some(value) else None;
        }
        k := k + 1;
        unread := unread[1..];
        if 7 * k > 63 {
          TenthGroup(s, unread, value);
          return None;
        }
      }
    }

    method ReadBytes(max: nat) returns (r: Option<bytes>)
      requires Valid()
      modifies this`offset
      ensures Valid() && offset >= old(offset)
      ensures Agrees(ParseBytes(old(Rest()), max), r, Rest())
    {
      var length :- ReadUvarint();
      if length > max {
        return None;
      }
      r := Read(length);
    }

    method ReadAscii(max: nat) returns (r: Option<bytes>)
      requires Valid()
      modifies this`offset
      ensures Valid() && offset >= old(offset)
      ensures Agrees(ParseAscii(old(Rest()), max), r, Rest())
    {
      var raw :- ReadBytes(max);
      return if IsAscii(raw) then Some(raw) else None;
    }

    method ReadHash() returns (r: Option<Hash>)
      requires Valid()
      modifies this`offset
      ensures Valid() && offset >= old(offset)
      ensures Agrees(ParseHash(old(Rest())), r, Rest())
    {
      var raw :- Read(32);
      return Some(raw);
    }

    method ReadNullableHash() returns (r: Option<Option<Hash>>)
      requires Valid()
      modifies this`offset
      ensures Valid() && offset >= old(offset)
      ensures Agrees(ParseNullableHash(old(Rest())), r, Rest())
    {
      ghost var s := Rest();
      var marker :- Read(1);
      assert s[1..] == Rest();
      if marker == [0] {
        return Some(None);
      }
      if marker == [1] {
        var h :- ReadHash();
        return Some(Some(h));
      }
      assert marker[0] == s[0];
      return None;
    }

    method AtEnd() returns (r: bool)
      requires Valid()
      ensures r <==> Rest() == []
    {
      r := offset == |data|;
    }
  }

  // --------------------------------------------- all field kinds, both directions

  lemma BytesExact(s: bytes, b: bytes, rest: bytes, max: nat)
    requires max <= MAX_BOUNDED_BYTES
    ensures ParseBytes(s, max) == Parsed(b, rest) <==> |b| <= max && s == BoundedBytes(b) + rest
  {
    if |b| <= max && s == BoundedBytes(b) + rest {
      UvarintExact(s, |b|, b + rest);
      assert s == Uvarint(|b|) + (b + rest);
      assert (b + rest)[..|b|] == b && (b + rest)[|b|..] == rest;
    }
    if ParseBytes(s, max) == Parsed(b, rest) {
      var p := ParseUvarint(s);
      UvarintExact(s, p.value, p.rest);
      assert p.rest == b + rest;
      assert s == Uvarint(|b|) + (b + rest);
    }
  }

  lemma HashExact(s: bytes, h: Hash, rest: bytes)
    ensures ParseHash(s) == Parsed(h, rest) <==> s == h + rest
  {
  }

  lemma NullableExact(s: bytes, h: Option<Hash>, rest: bytes)
    ensures ParseNullableHash(s) == Parsed(h, rest) <==> s == NullableHash(h) + rest
  {
    if s != [] {
      assert s == [s[0]] + s[1..];
      if h.Some? {
        HashExact(s[1..], h.value, rest);
        assert s == NullableHash(h) + rest <==> s[0] == 1 && s[1..] == h.value + rest;
      } else {
        assert s == NullableHash(h) + rest <==> s[0] == 0 && s[1..] == rest;
      }
    }
  }

  // ------------------------------------------------- hash and signing preimages

  function Ascii(text: string): (b: bytes)
    requires forall i :: 0 <= i < |text| ==> text[i] < 128 as char
    ensures |b| == |text| && IsAscii(b)
  {
    seq(|text|, i requires 0 <= i < |text| => text[i] as int)
  }

  const SIGNATURE_PREIMAGE_MAGIC: bytes := Ascii("IND-SIGNATURE-V3") + [0]

  /** The bytes hashed for one typed canonical object. */
  function ObjectPreimage(domain: bytes, payload: bytes): bytes {
    BoundedBytes(domain) + BoundedBytes(payload)
  }

  datatype SigningInput = SigningInput(
    networkId: nat, objectType: bytes, objectVersion: nat, algorithm: nat, domain: bytes, payload: bytes)
  {
    predicate Encodable() {
      && networkId <= MAX_UVARINT && objectVersion <= MAX_UVARINT && algorithm <= MAX_UVARINT
      && |objectType| <= 64 && IsAscii(objectType)
      && |domain| <= 128 && IsAscii(domain)
      && |payload| <= MAX_SIGNING_PREIMAGE_OBJECT_BYTES
    }

    /** The domain-separated bytes an Ed25519 key signs. */
    function Preimage(): bytes {
      SIGNATURE_PREIMAGE_MAGIC + (Uvarint(networkId) + (BoundedBytes(objectType) + (Uvarint(objectVersion)
      + (Uvarint(algorithm) + (BoundedBytes(domain) + BoundedBytes(payload))))))
    }
  }

  lemma UvarintCancels(a: nat, b: nat, r: bytes, t: bytes)
    requires a <= MAX_UVARINT && b <= MAX_UVARINT && Uvarint(a) + r == Uvarint(b) + t
    ensures a == b && r == t
  {
    UvarintExact(Uvarint(a) + r, a, r);
    UvarintExact(Uvarint(a) + r, b, t);
  }

  lemma BoundedCancels(a: bytes, b: bytes, r: bytes, t: bytes)
    requires |a| <= MAX_UVARINT && |b| <= MAX_UVARINT && BoundedBytes(a) + r == BoundedBytes(b) + t
    ensures a == b && r == t
  {
    assert BoundedBytes(a) + r == Uvarint(|a|) + (a + r);
    assert BoundedBytes(b) + t == Uvarint(|b|) + (b + t);
    UvarintCancels(|a|, |b|, a + r, b + t);
    assert (a + r)[..|a|] == a && (a + r)[|a|..] == r;
    assert (b + t)[..|b|] == b && (b + t)[|b|..] == t;
  }

  lemma PrefixCancels(p: bytes, r: bytes, t: bytes)
    requires p + r == p + t
    ensures r == t
  {
    assert (p + r)[|p|..] == r && (p + t)[|p|..] == t;
  }

  lemma ObjectPreimageInjective(d1: bytes, p1: bytes, d2: bytes, p2: bytes)
    requires |d1| <= MAX_UVARINT && |d2| <= MAX_UVARINT && |p1| <= MAX_UVARINT && |p2| <= MAX_UVARINT
    requires ObjectPreimage(d1, p1) == ObjectPreimage(d2, p2)
    ensures d1 == d2 && p1 == p2
  {
    BoundedCancels(d1, d2, BoundedBytes(p1), BoundedBytes(p2));
    assert BoundedBytes(p1) + [] == BoundedBytes(p1) && BoundedBytes(p2) + [] == BoundedBytes(p2);
    BoundedCancels(p1, p2, [], []);
  }

  /** No two signing inputs share a preimage: the six arguments are all committed to. */
  lemma SigningPreimageInjective(a: SigningInput, b: SigningInput)
    requires a.Encodable() && b.Encodable()
    requires a.Preimage() == b.Preimage()
    ensures a == b
  {
    var a5, b5 := BoundedBytes(a.domain) + BoundedBytes(a.payload), BoundedBytes(b.domain) + BoundedBytes(b.payload);
    var a4, b4 := Uvarint(a.algorithm) + a5, Uvarint(b.algorithm) + b5;
    var a3, b3 := Uvarint(a.objectVersion) + a4, Uvarint(b.objectVersion) + b4;
    var a2, b2 := BoundedBytes(a.objectType) + a3, BoundedBytes(b.objectType) + b3;
    PrefixCancels(SIGNATURE_PREIMAGE_MAGIC, Uvarint(a.networkId) + a2, Uvarint(b.networkId) + b2);
    UvarintCancels(a.networkId, b.networkId, a2, b2);
    BoundedCancels(a.objectType, b.objectType, a3, b3);
    UvarintCancels(a.objectVersion, b.objectVersion, a4, b4);
    UvarintCancels(a.algorithm, b.algorithm, a5, b5);
    ObjectPreimageInjective(a.domain, a.payload, b.domain, b.payload);
  }
}
