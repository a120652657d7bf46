/**
 The primitives of the reflect codec: `ReflectWriter` and `ReflectReader` of
 ReflectCodec.cs. Numbers are little-endian, strings carry a two-byte length and
 byte arrays a four-byte one. A float is its bit pattern, a string its UTF-8 bytes.
 */
module ReflectScalars {
  import opened Words
  import opened Endian

  /** Integers, floats and entity references are words of some width; text and byte arrays carry a length. */
  datatype Encoding = Word(width: nat, signed: bool) | Boolean | Text | Blob

  datatype Value =
    | Number(n: int)
    | Flag(b: bool)
    | Raw(bytes: Bytes)
    | List(items: seq<Value>)
    | Record(fields: map<string, Value>)

  /** The values a C# field of this encoding can hold; arrays are at most 2^31 - 1 long. */
  predicate Typed(e: Encoding, v: Value) {
    match e
    case Boolean => v.Flag?
    case Text | Blob => v.Raw? && |v.bytes| < 0x8000_0000
    case Word(w, signed) => v.Number? && if signed then InSigned(v.n, w) else 0 <= v.n < Pow256(w)
  }

  /** The wire can carry it: a string's length has only 16 bits. */
  predicate FitsScalar(e: Encoding, v: Value)
    requires Typed(e, v)
  {
    e.Text? ==> |v.bytes| < 0x1_0000
  }

  predicate Holds(e: Encoding, v: Value) {
    Typed(e, v) && FitsScalar(e, v)
  }

  predicate InSigned(n: int, width: nat) {
    -2 * n <= Pow256(width) && 2 * n < Pow256(width)
  }

  function DefaultScalar(e: Encoding): Value {
    match e
    case Boolean => Flag(false)
    case Text | Blob => Raw([])
    case Word(_, _) => Number(0)
  }

  /** The unchecked cast to the unsigned type of the same width. */
  function Unsigned(n: int, width: nat): (u: nat)
    ensures u < Pow256(width)
  {
    n % Pow256(width)
  }

  /** The unchecked cast back. */
  function SignedOf(u: nat, width: nat): int {
    if 2 * u < Pow256(width) then u else u - Pow256(width)
  }

  lemma CastsInvert(n: int, width: nat)
    requires InSigned(n, width)
    ensures SignedOf(Unsigned(n, width), width) == n
  {
    var p := Pow256(width);
    if n < 0 {
      assert n == -1 * p + (n + p);
      ModOf(n, p, -1, n + p);
    } else {
      ModOf(n, p, 0, n);
    }
  }

  lemma ModOf(x: int, d: nat, q: int, r: nat)
    requires d > 0 && r < d && x == q * d + r
    ensures x % d == r
  {
    DivisionUnique(d, x / d, x % d, q, r);
  }

  /** What one write call appends. */
  function Written(e: Encoding, v: Value): Bytes
    requires Typed(e, v)
  {
    match e
    case Boolean => [if v.b then 1 else 0]
    case Text => Le(|v.bytes|, 2) + v.bytes
    case Blob => Le(|v.bytes|, 4) + v.bytes
    case Word(w, _) => Le(Unsigned(v.n, w), w)
  }

  /** What one read call returns, and the cursor after it; `None` past the end. */
  function ReadScalar(e: Encoding, data: Bytes, pos: nat): Option<(Value, nat)> {
    match e
    case Boolean => if pos + 1 > |data| then None else Some((Flag(data[pos] != 0), pos + 1))
    case Text => ReadRaw(data, pos, 2)
    case Blob => ReadRaw(data, pos, 4)
    case Word(w, signed) =>
      if pos + w > |data| then None
      else
        var u := FromLe(data[pos..pos + w]);
        Some((Number(if signed then SignedOf(u, w) else u), pos + w))
  }

  function ReadRaw(data: Bytes, pos: nat, prefix: nat): Option<(Value, nat)> {
    if pos + prefix > |data| then None
    else
      var n := FromLe(data[pos..pos + prefix]);
      if n >= 0x8000_0000 || pos + prefix + n > |data| then None
      else Some((Raw(data[pos + prefix..pos + prefix + n]), pos + prefix + n))
  }

  lemma RawReadsBack(data: Bytes, pos: nat, prefix: nat, bytes: Bytes)
    requires |bytes| < Pow256(prefix) && |bytes| < 0x8000_0000 && At(data, pos, Le(|bytes|, prefix) + bytes)
    ensures ReadRaw(data, pos, prefix) == Some((Raw(bytes), pos + prefix + |bytes|))
  {
    hide Le, FromLe, Pow256, At;
    AtSplit(data, pos, Le(|bytes|, prefix), bytes);
    AtIs(data, pos, Le(|bytes|, prefix));
    AtIs(data, pos + prefix, bytes);
    LeRoundTrip(|bytes|, prefix);
  }

  lemma LongTextIsLost(data: Bytes, pos: nat, bytes: Bytes)
    requires |bytes| >= 0x1_0000 && At(data, pos, Le(|bytes|, 2) + bytes)
    ensures ReadRaw(data, pos, 2).Some? ==> ReadRaw(data, pos, 2).value.0 != Raw(bytes)
  {
    hide Le, FromLe, Pow256, At;
    AtSplit(data, pos, Le(|bytes|, 2), bytes);
    AtIs(data, pos, Le(|bytes|, 2));
    Pow256Values();
    FromLeBound(data[pos..pos + 2]);
  }

  /** A read call undoes its write call and stops exactly behind it, unless a string is too long. */
  lemma ScalarReadsBack(e: Encoding, v: Value, data: Bytes, pos: nat)
    requires Typed(e, v) && At(data, pos, Written(e, v))
    ensures ReadScalar(e, data, pos) == Some((v, pos + |Written(e, v)|)) <==> Holds(e, v)
  {
    hide Le, FromLe, Pow256;
    Pow256Values();
    match e
    case Text =>
      if Holds(e, v) {
        RawReadsBack(data, pos, 2, v.bytes);
      } else {
        LongTextIsLost(data, pos, v.bytes);
      }
    case Blob => RawReadsBack(data, pos, 4, v.bytes);
    case Boolean =>
      assert data[pos] == data[pos..pos + 1][0];
    case Word(w, signed) =>
      LeRoundTrip(Unsigned(v.n, w), w);
      if signed {
        CastsInvert(v.n, w);
      } else {
        ModOf(v.n, Pow256(w), 0, v.n);
      }
  }

  /** Whatever the bytes, a value that is read is one the wire can carry. */
  lemma ReadHolds(e: Encoding, data: Bytes, pos: nat)
    requires ReadScalar(e, data, pos).Some?
    ensures Holds(e, ReadScalar(e, data, pos).value.0)
  {
    hide FromLe, Pow256;
    Pow256Values();
    match e
    case Boolean =>
    case Text => FromLeBound(data[pos..pos + 2]);
    case Blob =>
    case Word(w, signed) => FromLeBound(data[pos..pos + w]);
  }

  // ---- The objects ------------------------------------------------------------------------

  class ReflectWriter {
    var bytes: Bytes

    constructor ()
      ensures bytes == []
    {
      bytes := [];
    }

    /** `WriteU8` to `WriteU64`: the low bytes of `v`, shifted out one by one. */
    method WriteUnsigned(v: nat, width: nat)
      modifies this
      ensures bytes == old(bytes) + Le(v, width)
    {
      hide Le;
      var rest := v;
      LeNone(v);
      for i := 0 to width
        invariant old(bytes) + Le(v, width) == bytes + Le(rest, width - i)
      {
        LeStep(rest, width - i);
        assert bytes + ([rest % 256] + Le(rest / 256, width - i - 1))
            == bytes + [rest % 256] + Le(rest / 256, width - i - 1);
        bytes := bytes + [rest % 256];
        rest := rest / 256;
      }
      LeNone(rest);
      assert bytes + [] == bytes;
    }

    method Write(e: Encoding, v: Value)
      requires Typed(e, v)
      modifies this
      ensures bytes == old(bytes) + Written(e, v)
    {
      hide Le, Pow256;
      match e {
        case Boolean => bytes := bytes + [if v.b then 1 else 0];
        case Text =>
          WriteUnsigned(|v.bytes|, 2);
          bytes := bytes + v.bytes;
        case Blob =>
          WriteUnsigned(|v.bytes|, 4);
          bytes := bytes + v.bytes;
        case Word(w, _) => WriteUnsigned(Unsigned(v.n, w), w);
      }
    }

    /** `WriteSliceLen` keeps the low 16 bits of the count. */
    method WriteSliceLen(n: nat)
      modifies this
      ensures bytes == old(bytes) + Le(n, 2)
    {
      WriteUnsigned(n, 2);
    }
  }

  lemma NoBytes()
    ensures FromLe([]) == 0 && Pow256(0) == 1
  {
  }

  lemma NextByte(b: Bytes, i: nat)
    requires i < |b|
    ensures FromLe(b[..i + 1]) == FromLe(b[..i]) + b[i] * Pow256(i) && Pow256(i + 1) == 256 * Pow256(i)
  {
    assert b[..i + 1] == b[..i] + [b[i]];
    FromLeConcat(b[..i], [b[i]]);
    assert FromLe([b[i]]) == b[i];
  }

  class ReflectReader {
    const data: Bytes
    var pos: nat

    constructor (data: Bytes)
      ensures this.data == data && pos == 0
    {
      this.data, pos := data, 0;
    }

    /** `ReadU8` to `ReadU64`: each byte is worth 256 times the one before. */
    method ReadUnsigned(width: nat) returns (r: Option<nat>)
      modifies this`pos
      ensures if old(pos) + width <= |data|
              then r == Some(FromLe(data[old(pos)..old(pos) + width])) && pos == old(pos) + width
              else r == None && pos == old(pos)
    {
      if pos + width > |data| {
        return None;
      }
      var v: nat, scale: nat := 0, 1;
      ghost var b := data[pos..pos + width];
      hide FromLe, Pow256;
      NoBytes();
      for i := 0 to width
        invariant pos == old(pos) && scale == Pow256(i) && v == FromLe(b[..i])
      {
        NextByte(b, i);
        v := v + data[pos + i] * scale;
        scale := 256 * scale;
      }
      assert b[..width] == b;
      pos := pos + width;
      r := Some(v);
    }

    method Read(e: Encoding) returns (r: Option<Value>)
      modifies this`pos
      ensures match ReadScalar(e, data, old(pos))
              case None => r == None
              case Some(p) => r == Some(p.0) && pos == p.1
    {
      hide FromLe, Pow256;
      match e {
        case Boolean =>
          if pos + 1 > |data| { return None; }
          r := Some(Flag(data[pos] != 0));
          pos := pos + 1;
        case Text => r := ReadPrefixed(2);
        case Blob => r := ReadPrefixed(4);
        case Word(w, signed) =>
          var u := ReadUnsigned(w);
          if u.None? { return None; }
          r := Some(Number(if signed then SignedOf(u.value, w) else u.value));
      }
    }

    method ReadPrefixed(prefix: nat) returns (r: Option<Value>)
      modifies this`pos
      ensures match ReadRaw(data, old(pos), prefix)
              case None => r == None
              case Some(p) => r == Some(p.0) && pos == p.1
    {
      hide FromLe;
      var n := ReadUnsigned(prefix);
      if n.None? || n.value >= 0x8000_0000 || pos + n.value > |data| {
        return None;
      }
      r := Some(Raw(data[pos..pos + n.value]));
      pos := pos + n.value;
    }
  }
}
