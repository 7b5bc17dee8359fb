/**
  An object body is a fixed list of fields, written one after another and read back in the same
  order. One proof here serves every object: reading succeeds exactly on what writing produces.
 */
module Fields {
  import opened Wrappers
  import opened Binary

  datatype Field =
    | Number(v: nat)
    | Text(ascii: bytes)
    | Digest(h: Hash)
    | MaybeDigest(o: Option<Hash>)
    | Blob(raw: bytes)
    | Fixed(exact: bytes)

  type Size = n: nat | n <= MAX_BOUNDED_BYTES

  datatype Kind =
    | NumberKind
    | TextKind(max: Size)
    | DigestKind
    | MaybeDigestKind
    | BlobKind(max: Size)
    | FixedKind(length: Size)

  function FieldBytes(f: Field): bytes {
    match f
    case Number(v) => Uvarint(v)
    case Text(text) => BoundedBytes(text)
    case Digest(h) => h
    case MaybeDigest(o) => NullableHash(o)
    case Blob(raw) => BoundedBytes(raw)
    case Fixed(exact) => exact
  }

  /** The encoder accepts the field where the layout has this kind. */
  predicate FieldFits(f: Field, k: Kind) {
    match k
    case NumberKind => f.Number? && f.v <= MAX_UVARINT
    case TextKind(max) => f.Text? && |f.ascii| <= max && IsAscii(f.ascii)
    case DigestKind => f.Digest?
    case MaybeDigestKind => f.MaybeDigest?
    case BlobKind(max) => f.Blob? && |f.raw| <= max
    case FixedKind(length) => f.Fixed? && |f.exact| == length
  }

  predicate Fit(fs: seq<Field>, ks: seq<Kind>) {
    |fs| == |ks| && forall i :: 0 <= i < |fs| ==> FieldFits(fs[i], ks[i])
  }

  /** The fields joined, followed by `tail`. */
  function Join(fs: seq<Field>, tail: bytes): bytes {
    if fs == [] then tail else FieldBytes(fs[0]) + Join(fs[1..], tail)
  }

  function ParseField(k: Kind, s: bytes): Parsed<Field> {
    match k
    case NumberKind => var (v, s) :- ParseUvarint(s); Parsed(Number(v), s)
    case TextKind(max) => var (text, s) :- ParseAscii(s, max); Parsed(Text(text), s)
    case DigestKind => var (h, s) :- ParseHash(s); Parsed(Digest(h), s)
    case MaybeDigestKind => var (o, s) :- ParseNullableHash(s); Parsed(MaybeDigest(o), s)
    case BlobKind(max) => var (raw, s) :- ParseBytes(s, max); Parsed(Blob(raw), s)
    case FixedKind(length) => var (exact, s) :- ParseFixed(s, length); Parsed(Fixed(exact), s)
  }

  function ParseFields(ks: seq<Kind>, s: bytes): Parsed<seq<Field>> {
    if ks == [] then Parsed([], s)
    else
      var (f, s) :- ParseField(ks[0], s);
      var (fs, s) :- ParseFields(ks[1..], s);
      Parsed([f] + fs, s)
  }

  lemma FieldExact(k: Kind, s: bytes, f: Field, rest: bytes)
    ensures ParseField(k, s) == Parsed(f, rest) <==> FieldFits(f, k) && s == FieldBytes(f) + rest
  {
    match (k, f) {
      case (NumberKind, Number(v)) => UvarintExact(s, v, rest);
      case (TextKind(max), Text(text)) => BytesExact(s, text, rest, max);
      case (DigestKind, Digest(h)) => HashExact(s, h, rest);
      case (MaybeDigestKind, MaybeDigest(o)) => NullableExact(s, o, rest);
      case (BlobKind(max), Blob(raw)) => BytesExact(s, raw, rest, max);
      case (FixedKind(length), Fixed(exact)) =>
        if |exact| == length && s == exact + rest {
          assert s[..length] == exact && s[length..] == rest;
        }
      case _ =>
    }
  }

  /** Reading a layout yields `fs` and leaves `rest` exactly when the input is `fs` joined to `rest`. */
  lemma {:induction false} FieldsExact(ks: seq<Kind>, s: bytes, fs: seq<Field>, rest: bytes)
    ensures ParseFields(ks, s) == Parsed(fs, rest) <==> Fit(fs, ks) && s == Join(fs, rest)
    decreases |ks|
  {
    if ks != [] {
      if fs != [] {
        FieldExact(ks[0], s, fs[0], Join(fs[1..], rest));
        FieldsExact(ks[1..], Join(fs[1..], rest), fs[1..], rest);
        assert fs == [fs[0]] + fs[1..];
        FitSplits(fs, ks);
      }
      var p := ParseField(ks[0], s);
      if p.Parsed? {
        FieldExact(ks[0], s, p.value, p.rest);
        if fs != [] {
          FieldsExact(ks[1..], p.rest, fs[1..], rest);
        }
      }
    }
  }

  lemma FitSplits(fs: seq<Field>, ks: seq<Kind>)
    requires fs != [] && ks != []
    ensures Fit(fs, ks) <==> FieldFits(fs[0], ks[0]) && Fit(fs[1..], ks[1..])
  {
    if FieldFits(fs[0], ks[0]) && Fit(fs[1..], ks[1..]) {
      forall i | 0 <= i < |fs|
        ensures FieldFits(fs[i], ks[i])
      {
        if i > 0 {
          assert FieldFits(fs[1..][i - 1], ks[1..][i - 1]);
        }
      }
    }
  }

  lemma {:induction false} JoinAppends(fs: seq<Field>, tail: bytes)
    ensures Join(fs, tail) == Join(fs, []) + tail
    decreases |fs|
  {
    if fs != [] {
      JoinAppends(fs[1..], tail);
    }
  }

  lemma {:induction false} JoinConcat(fs: seq<Field>, gs: seq<Field>, tail: bytes)
    ensures Join(fs + gs, tail) == Join(fs, Join(gs, tail))
    decreases |fs|
  {
    if fs == [] {
      assert fs + gs == gs;
    } else {
      assert (fs + gs)[0] == fs[0] && (fs + gs)[1..] == fs[1..] + gs;
      JoinConcat(fs[1..], gs, tail);
    }
  }

  /** What a field can weigh: a number or a length prefix takes at most nine bytes. */
  function Weight(k: Kind): nat {
    match k
    case NumberKind => 9
    case TextKind(max) => 9 + max
    case DigestKind => 32
    case MaybeDigestKind => 33
    case BlobKind(max) => 9 + max
    case FixedKind(length) => length
  }

  function TotalWeight(ks: seq<Kind>): nat {
    if ks == [] then 0 else Weight(ks[0]) + TotalWeight(ks[1..])
  }

  lemma {:induction false} TotalWeightSplits(ks: seq<Kind>, js: seq<Kind>)
    ensures TotalWeight(ks + js) == TotalWeight(ks) + TotalWeight(js)
    decreases |ks|
  {
    if ks == [] {
      assert ks + js == js;
    } else {
      assert (ks + js)[1..] == ks[1..] + js;
      TotalWeightSplits(ks[1..], js);
    }
  }

  lemma {:induction false} JoinWeighs(fs: seq<Field>, ks: seq<Kind>, tail: bytes)
    requires Fit(fs, ks)
    ensures |Join(fs, tail)| <= TotalWeight(ks) + |tail|
    decreases |ks|
  {
    if ks != [] {
      match fs[0] {
        case Number(v) => UvarintAtMostNine(v);
        case Text(text) => UvarintAtMostNine(|text|);
        case Blob(raw) => UvarintAtMostNine(|raw|);
        case _ =>
      }
      FitSplits(fs, ks);
      JoinWeighs(fs[1..], ks[1..], tail);
    }
  }

  /** Reads one field of the given kind. */
  method ReadField(reader: Reader, k: Kind) returns (r: Option<Field>)
    requires reader.Valid()
    modifies reader`offset
    ensures reader.Valid()
    ensures Agrees(ParseField(k, old(reader.Rest())), r, reader.Rest())
  {
    match k {
      case NumberKind =>
        var v :- reader.ReadUvarint();
        return Some(Number(v));
      case TextKind(max) =>
        var text :- reader.ReadAscii(max);
        return Some(Text(text));
      case DigestKind =>
        var h :- reader.ReadHash();
        return Some(Digest(h));
      case MaybeDigestKind =>
        var o :- reader.ReadNullableHash();
        return Some(MaybeDigest(o));
      case BlobKind(max) =>
        var raw :- reader.ReadBytes(max);
        return Some(Blob(raw));
      case FixedKind(length) =>
        var exact :- reader.Read(length);
        return Some(Fixed(exact));
    }
  }

  /** Reads the fields of a layout in order, stopping at the first malformed one. */
  method ReadFields(reader: Reader, ks: seq<Kind>) returns (r: Option<seq<Field>>)
    requires reader.Valid()
    modifies reader`offset
    ensures reader.Valid()
    ensures Agrees(ParseFields(ks, old(reader.Rest())), r, reader.Rest())
  {
    var fs: seq<Field> := [];
    ghost var s := reader.Rest();
    var i := 0;
    PrependNone(ParseFields(ks, s));
    assert ks[0..] == ks;
    while i < |ks|
      invariant 0 <= i <= |ks| && reader.Valid()
      invariant ParseFields(ks, s) == Prepend(fs, ParseFields(ks[i..], reader.Rest()))
    {
      ghost var before := reader.Rest();
      assert ks[i..][0] == ks[i] && ks[i..][1..] == ks[i + 1..];
      var f :- ReadField(reader, ks[i]);
      PrependOne(fs, f, ParseFields(ks[i + 1..], reader.Rest()));
      fs := fs + [f];
      i := i + 1;
    }
    assert ParseFields(ks[i..], reader.Rest()) == Parsed([], reader.Rest());
    assert fs + [] == fs;
    return Some(fs);
  }

  function Prepend(fs: seq<Field>, p: Parsed<seq<Field>>): Parsed<seq<Field>> {
    match p
    case Rejected => Rejected
    case Parsed(gs, rest) => Parsed(fs + gs, rest)
  }

  lemma PrependNone(p: Parsed<seq<Field>>)
    ensures Prepend([], p) == p
  {
    if p.Parsed? {
      assert [] + p.value == p.value;
    }
  }

  lemma PrependOne(fs: seq<Field>, f: Field, p: Parsed<seq<Field>>)
    ensures Prepend(fs, Prepend([f], p)) == Prepend(fs + [f], p)
  {
    if p.Parsed? {
      assert fs + ([f] + p.value) == fs + [f] + p.value;
    }
  }
}
