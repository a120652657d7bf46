/**
 Field-by-field deltas between two snapshots of one layout: `DeltaEncoder.Encode`
 of pkg/quantize/delta.go on the sending side, `ApplyDelta` of
 DeltaDecoderCore.cs on the receiving side.
 */
module DeltaFields {
  import opened Words
  import opened Endian

  /** Fixed field sizes, then optionally a tail with a two-byte length prefix. */
  datatype Layout = Layout(sizes: seq<nat>, tail: bool)

  /** `splitVarTailLayout`: a trailing -1 marks the tail. */
  function SplitVarTail(layout: seq<int>): (l: Layout)
    requires forall i :: 0 <= i < |layout| ==> layout[i] >= 0 || (layout[i] == -1 && i == |layout| - 1)
    ensures l.tail <==> |layout| > 0 && layout[|layout| - 1] == -1
    ensures |layout| == FieldCount(l) && l.sizes == layout[..|l.sizes|]
  {
    if |layout| > 0 && layout[|layout| - 1] == -1 then
      Layout(layout[..|layout| - 1], true)
    else
      Layout(layout, false)
  }

  function FieldCount(l: Layout): nat {
    |l.sizes| + (if l.tail then 1 else 0)
  }

  function MaskSize(l: Layout): nat {
    (FieldCount(l) + 7) / 8
  }

  /** The byte offset of field `i`. */
  function Offset(sizes: seq<nat>, i: nat): (o: nat)
    requires i <= |sizes|
  {
    if i == 0 then 0 else Offset(sizes, i - 1) + sizes[i - 1]
  }

  function FixedSize(l: Layout): nat {
    Offset(l.sizes, |l.sizes|)
  }

  lemma {:induction false} OffsetMonotone(sizes: seq<nat>, i: nat, j: nat)
    requires i <= j <= |sizes|
    ensures Offset(sizes, i) <= Offset(sizes, j)
    decreases j
  {
    if i < j { OffsetMonotone(sizes, i, j - 1); }
  }

  /** Whether the mask has bit `i`, eight fields to a byte. */
  predicate Marked(mask: Bytes, i: nat)
    requires i / 8 < |mask|
  {
    Bit(mask[i / 8], i % 8)
  }

  // ---- The sender's side ----------------------------------------------------------

  function Field(l: Layout, snap: Bytes, i: nat): Bytes
    requires i < |l.sizes| && FixedSize(l) <= |snap|
  {
    OffsetMonotone(l.sizes, i + 1, |l.sizes|);
    snap[Offset(l.sizes, i)..Offset(l.sizes, i + 1)]
  }

  /** `readVarTail`: a missing prefix is an empty tail, a short tail is taken as it is. */
  function TailData(l: Layout, snap: Bytes): (t: Bytes)
    ensures |t| < 0x1_0000
  {
    var f := FixedSize(l);
    if |snap| < f + 2 then []
    else
      var n := FromBe(snap[f..f + 2]);
      FromBeBound(snap[f..f + 2]);
      Pow256Values();
      if f + 2 + n > |snap| then snap[f + 2..] else snap[f + 2..f + 2 + n]
  }

  predicate Differs(l: Layout, prev: Bytes, curr: Bytes, i: nat)
    requires FixedSize(l) <= |prev| && FixedSize(l) <= |curr| && i < FieldCount(l)
  {
    if i < |l.sizes| then Field(l, prev, i) != Field(l, curr, i)
    else TailData(l, prev) != TailData(l, curr)
  }

  /** The new values of the changed fields from field `i` on, in order. */
  function Payload(l: Layout, prev: Bytes, curr: Bytes, i: nat): Bytes
    requires FixedSize(l) <= |prev| && FixedSize(l) <= |curr| && i <= |l.sizes|
    decreases |l.sizes| - i
  {
    if i < |l.sizes| then
      (if Differs(l, prev, curr, i) then Field(l, curr, i) else []) + Payload(l, prev, curr, i + 1)
    else if l.tail && Differs(l, prev, curr, i) then
      Be(|TailData(l, curr)|, 2) + TailData(l, curr)
    else []
  }

  /** The mask says of each of the first `n` fields whether it changed, and of no later one. */
  ghost predicate MaskOf(l: Layout, prev: Bytes, curr: Bytes, mask: Bytes, n: nat)
    requires FixedSize(l) <= |prev| && FixedSize(l) <= |curr| && n <= FieldCount(l)
  {
    && |mask| == MaskSize(l)
    && forall i | 0 <= i < FieldCount(l) :: Marked(mask, i) <==> i < n && Differs(l, prev, curr, i)
  }

  /** A bitmask of the changed fields followed by exactly those fields. */
  ghost predicate IsDelta(l: Layout, prev: Bytes, curr: Bytes, delta: Bytes)
    requires FixedSize(l) <= |prev| && FixedSize(l) <= |curr|
  {
    && MaskSize(l) <= |delta|
    && MaskOf(l, prev, curr, delta[..MaskSize(l)], FieldCount(l))
    && delta[MaskSize(l)..] == Payload(l, prev, curr, 0)
  }

  lemma MarkOne(l: Layout, prev: Bytes, curr: Bytes, mask: Bytes, n: nat, x: Byte)
    requires FixedSize(l) <= |prev| && FixedSize(l) <= |curr| && n < FieldCount(l)
    requires MaskOf(l, prev, curr, mask, n) && Differs(l, prev, curr, n)
    requires x == Or(mask[n / 8], Pow2(n % 8))
    ensures MaskOf(l, prev, curr, mask[n / 8 := x], n + 1)
  {
    hide Bit, Differs, Pow2, Or;
    var mask' := mask[n / 8 := x];
    forall i | 0 <= i < FieldCount(l)
      ensures Marked(mask', i) <==> i < n + 1 && Differs(l, prev, curr, i)
    {
      assert Marked(mask, i) <==> i < n && Differs(l, prev, curr, i);
      if i / 8 == n / 8 {
        BitOfOr(mask[n / 8], Pow2(n % 8), i % 8);
        BitOfPow2(n % 8, i % 8);
        SameByte(i, n);
      }
    }
  }

  lemma SameByte(i: nat, n: nat)
    requires i / 8 == n / 8
    ensures i % 8 == n % 8 <==> i == n
  {
  }

  function OrByte(a: Byte, k: nat): (r: Byte)
    requires k < 8
    ensures r == Or(a, Pow2(k))
  {
    Pow2Values();
    Pow2Monotone(k + 1, 8);
    OrBound(a, Pow2(k), 8);
    Or(a, Pow2(k))
  }

  /** `Encode`: the delta appended to `out`, or nothing when no field changed. */
  method Encode(l: Layout, prev: Bytes, curr: Bytes, out: Bytes) returns (r: Option<Bytes>)
    requires FixedSize(l) <= |prev| && FixedSize(l) <= |curr|
    ensures r.None? <==> forall i | 0 <= i < FieldCount(l) :: !Differs(l, prev, curr, i)
    ensures r.Some? ==> out <= r.value && IsDelta(l, prev, curr, r.value[|out|..])
  {
    hide *;
    var mask: Bytes := seq(MaskSize(l), _ => 0);
    EmptyMask(l, prev, curr, mask);
    RestEnds(l, prev, curr);
    var body: Bytes, changed, i: nat := [], false, 0;
    while i < FieldCount(l)
      invariant i <= FieldCount(l)
      invariant MaskOf(l, prev, curr, mask, i)
      invariant body + Rest(l, prev, curr, i) == Payload(l, prev, curr, 0)
      invariant changed <==> exists k | 0 <= k < i :: Differs(l, prev, curr, k)
    {
      RestStep(l, prev, curr, i);
      if Differs(l, prev, curr, i) {
        MaskIndex(l, prev, curr, mask, i);
        MarkOne(l, prev, curr, mask, i, OrByte(mask[i / 8], i % 8));
        mask := mask[i / 8 := OrByte(mask[i / 8], i % 8)];
        ghost var rest := Rest(l, prev, curr, i + 1);
        assert body + (Value(l, curr, i) + rest) == body + Value(l, curr, i) + rest;
        body := body + Value(l, curr, i);
        changed := true;
      } else {
        SkipOne(l, prev, curr, mask, i);
      }
      i := i + 1;
    }
    assert body + [] == body;
    if !changed {
      return None;
    }
    DeltaFrom(l, prev, curr, mask, body);
    r := Some(out + (mask + body));
    assert r.value[|out|..] == mask + body;
  }

  /** What a changed field contributes; the tail carries its length first. */
  function Value(l: Layout, curr: Bytes, i: nat): Bytes
    requires FixedSize(l) <= |curr| && i < FieldCount(l)
  {
    if i < |l.sizes| then Field(l, curr, i) else Be(|TailData(l, curr)|, 2) + TailData(l, curr)
  }

  ghost function Rest(l: Layout, prev: Bytes, curr: Bytes, i: nat): Bytes
    requires FixedSize(l) <= |prev| && FixedSize(l) <= |curr| && i <= FieldCount(l)
  {
    if i <= |l.sizes| then Payload(l, prev, curr, i) else []
  }

  lemma RestStep(l: Layout, prev: Bytes, curr: Bytes, i: nat)
    requires FixedSize(l) <= |prev| && FixedSize(l) <= |curr| && i < FieldCount(l)
    ensures Rest(l, prev, curr, i)
         == (if Differs(l, prev, curr, i) then Value(l, curr, i) else []) + Rest(l, prev, curr, i + 1)
  {
    hide Differs, TailData, Field, Be;
  }

  lemma RestEnds(l: Layout, prev: Bytes, curr: Bytes)
    requires FixedSize(l) <= |prev| && FixedSize(l) <= |curr|
    ensures Rest(l, prev, curr, 0) == Payload(l, prev, curr, 0)
    ensures Rest(l, prev, curr, FieldCount(l)) == []
  {
    hide Differs, TailData, Field, Be;
  }

  lemma MaskIndex(l: Layout, prev: Bytes, curr: Bytes, mask: Bytes, i: nat)
    requires FixedSize(l) <= |prev| && FixedSize(l) <= |curr| && i < FieldCount(l)
    requires MaskOf(l, prev, curr, mask, i)
    ensures i / 8 < |mask|
  {
  }

  lemma SkipOne(l: Layout, prev: Bytes, curr: Bytes, mask: Bytes, i: nat)
    requires FixedSize(l) <= |prev| && FixedSize(l) <= |curr| && i < FieldCount(l)
    requires MaskOf(l, prev, curr, mask, i) && !Differs(l, prev, curr, i)
    ensures MaskOf(l, prev, curr, mask, i + 1)
  {
    hide Differs, Marked;
  }

  lemma DeltaFrom(l: Layout, prev: Bytes, curr: Bytes, mask: Bytes, body: Bytes)
    requires FixedSize(l) <= |prev| && FixedSize(l) <= |curr|
    requires MaskOf(l, prev, curr, mask, FieldCount(l)) && body == Payload(l, prev, curr, 0)
    ensures IsDelta(l, prev, curr, mask + body)
  {
    hide Differs, Marked, Payload;
    assert (mask + body)[..MaskSize(l)] == mask && (mask + body)[MaskSize(l)..] == body;
  }

  lemma EmptyMask(l: Layout, prev: Bytes, curr: Bytes, mask: Bytes)
    requires FixedSize(l) <= |prev| && FixedSize(l) <= |curr|
    requires mask == seq(MaskSize(l), _ => 0)
    ensures MaskOf(l, prev, curr, mask, 0)
  {
    forall i | 0 <= i < FieldCount(l) ensures !Marked(mask, i) { BitOfZero(i % 8); }
  }

  // ---- The receiver's side ----------------------------------------------------------

  /** The fixed fields from field `i` on, patched at `off`; `None` when an index is out of range. */
  function PatchFields(sizes: seq<nat>, i: nat, delta: Bytes, dpos: nat, result: Bytes, off: nat): Option<(Bytes, nat)>
    requires i <= |sizes|
    decreases |sizes| - i
  {
    if i == |sizes| then Some((result, dpos))
    else if i / 8 >= |delta| then None
    else if !Marked(delta, i) then PatchFields(sizes, i + 1, delta, dpos, result, off + sizes[i])
    else if dpos + sizes[i] > |delta| || off + sizes[i] > |result| then None
    else
      PatchFields(sizes, i + 1, delta, dpos + sizes[i],
                  result[..off] + delta[dpos..dpos + sizes[i]] + result[off + sizes[i]..], off + sizes[i])
  }

  /** The tail, replaced whole when its bit is set. */
  function PatchTail(l: Layout, delta: Bytes, dpos: nat, result: Bytes): Option<Bytes>
    requires l.tail
  {
    var i := |l.sizes|;
    if i / 8 >= |delta| then None
    else if !Marked(delta, i) then Some(result)
    else if dpos + 2 > |delta| then None
    else
      var n := FromBe(delta[dpos..dpos + 2]);
      if FixedSize(l) > |result| || dpos + 2 + n > |delta| then None
      else Some(result[..FixedSize(l)] + Be(n, 2) + delta[dpos + 2..dpos + 2 + n])
  }

  /** `ApplyDelta`; `None` stands for the exception. */
  function Apply(l: Layout, baseline: Bytes, delta: Bytes): Option<Bytes> {
    match PatchFields(l.sizes, 0, delta, MaskSize(l), baseline, 0)
    case None => None
    case Some(p) => if l.tail then PatchTail(l, delta, p.1, p.0) else Some(p.0)
  }

  /** `ApplyDelta` in place on a clone of the baseline. */
  method ApplyDelta(l: Layout, baseline: Bytes, delta: Bytes) returns (r: Option<Bytes>)
    ensures r == Apply(l, baseline, delta)
  {
    hide Marked, PatchTail, MaskSize;
    var dpos: nat, off: nat, i: nat := MaskSize(l), 0, 0;
    var result := new Byte[|baseline|](k requires 0 <= k < |baseline| => baseline[k]);
    assert result[..] == baseline;
    while i < |l.sizes|
      invariant i <= |l.sizes|
      invariant PatchFields(l.sizes, 0, delta, MaskSize(l), baseline, 0)
             == PatchFields(l.sizes, i, delta, dpos, result[..], off)
    {
      if i / 8 >= |delta| {
        return None;
      }
      if Marked(delta, i) {
        if dpos + l.sizes[i] > |delta| || off + l.sizes[i] > result.Length {
          return None;
        }
        Copy(delta, dpos, result, off, l.sizes[i]);
        dpos := dpos + l.sizes[i];
      }
      off := off + l.sizes[i];
      i := i + 1;
    }
    if l.tail {
      r := ApplyTail(l, delta, dpos, result);
    } else {
      r := Some(result[..]);
    }
  }

  method ApplyTail(l: Layout, delta: Bytes, dpos: nat, result: array<Byte>) returns (r: Option<Bytes>)
    requires l.tail
    ensures r == PatchTail(l, delta, dpos, result[..])
  {
    hide Marked, FromBe, Be;
    var fixed: nat := 0;
    for k := 0 to |l.sizes|
      invariant fixed == Offset(l.sizes, k)
    {
      fixed := fixed + l.sizes[k];
    }
    var i := |l.sizes|;
    if i / 8 >= |delta| {
      return None;
    }
    if !Marked(delta, i) {
      return Some(result[..]);
    }
    if dpos + 2 > |delta| {
      return None;
    }
    var n := FromBe(delta[dpos..dpos + 2]);
    if fixed > result.Length || dpos + 2 + n > |delta| {
      return None;
    }
    var bytes := Rebuild(result[..fixed], n, delta[dpos + 2..dpos + 2 + n]);
    r := Some(bytes);
  }

  /** A new array of the fixed part, the length and the new tail. */
  method Rebuild(fixed: Bytes, n: nat, tail: Bytes) returns (r: Bytes)
    requires |tail| == n
    ensures r == fixed + Be(n, 2) + tail
  {
    hide Be;
    var f := |fixed|;
    var rebuilt := new Byte[f + 2 + n](_ => 0);
    Copy(fixed, 0, rebuilt, 0, f);
    assert rebuilt[..f] == fixed;
    Copy(Be(n, 2), 0, rebuilt, f, 2);
    assert rebuilt[..f + 2] == fixed + Be(n, 2);
    Copy(tail, 0, rebuilt, f + 2, n);
    r := rebuilt[..];
  }

  /** `Array.Copy` of `n` bytes. */
  method Copy(src: Bytes, from: nat, dst: array<Byte>, to: nat, n: nat)
    requires from + n <= |src| && to + n <= dst.Length
    modifies dst
    ensures dst[..] == old(dst[..to]) + src[from..from + n] + old(dst[to + n..])
  {
    for i := 0 to n
      invariant forall k | 0 <= k < dst.Length ::
        dst[k] == if to <= k < to + i then src[from + (k - to)] else old(dst[k])
    {
      dst[to + i] := src[from + i];
    }
  }

  // ---- Applying a delta inverts making it -----------------------------------------------

  /** Everything up to field `i` is new, everything after it is still old. */
  ghost predicate Halfway(l: Layout, prev: Bytes, curr: Bytes, result: Bytes, i: nat)
    requires i <= |l.sizes| && FixedSize(l) <= |prev| && FixedSize(l) <= |curr|
  {
    OffsetMonotone(l.sizes, i, |l.sizes|);
    var o := Offset(l.sizes, i);
    result == curr[..o] + prev[o..]
  }

  lemma {:induction false} PatchReaches(l: Layout, prev: Bytes, curr: Bytes, delta: Bytes, i: nat, dpos: nat,
                                        result: Bytes)
    requires i <= |l.sizes| && FixedSize(l) <= |prev| && FixedSize(l) <= |curr|
    requires IsDelta(l, prev, curr, delta) && Halfway(l, prev, curr, result, i)
    requires dpos <= |delta| && delta[dpos..] == Payload(l, prev, curr, i)
    ensures var p := PatchFields(l.sizes, i, delta, dpos, result, Offset(l.sizes, i));
            && p.Some? && p.value.1 <= |delta|
            && Halfway(l, prev, curr, p.value.0, |l.sizes|)
            && delta[p.value.1..] == Payload(l, prev, curr, |l.sizes|)
    decreases |l.sizes| - i
  {
    hide MaskOf, TailData, Marked, Differs, Halfway, IsDelta, Field, PatchFields, Payload, FixedSize;
    PatchStep(l.sizes, i, delta, dpos, result, Offset(l.sizes, i));
    if i < |l.sizes| {
      MarkedIffDiffers(l, prev, curr, delta, i);
      FieldStep(l, prev, curr, result, i);
      PayloadStep(l, prev, curr, i);
      var o, size := Offset(l.sizes, i), l.sizes[i];
      if Marked(delta, i) {
        assert delta[dpos..][..size] == Field(l, curr, i) && delta[dpos..][size..] == delta[dpos + size..];
        assert delta[dpos..dpos + size] == Field(l, curr, i);
        PatchReaches(l, prev, curr, delta, i + 1, dpos + size,
                     result[..o] + delta[dpos..dpos + size] + result[o + size..]);
      } else {
        PatchReaches(l, prev, curr, delta, i + 1, dpos, result);
      }
    }
  }

  lemma PatchStep(sizes: seq<nat>, i: nat, delta: Bytes, dpos: nat, result: Bytes, off: nat)
    requires i <= |sizes|
    ensures i == |sizes| ==> PatchFields(sizes, i, delta, dpos, result, off) == Some((result, dpos))
    ensures i < |sizes| && i / 8 < |delta| ==>
      PatchFields(sizes, i, delta, dpos, result, off) ==
        if !Marked(delta, i) then PatchFields(sizes, i + 1, delta, dpos, result, off + sizes[i])
        else if dpos + sizes[i] > |delta| || off + sizes[i] > |result| then None
        else PatchFields(sizes, i + 1, delta, dpos + sizes[i],
               result[..off] + delta[dpos..dpos + sizes[i]] + result[off + sizes[i]..], off + sizes[i])
  {
    hide Marked;
  }

  lemma PayloadStep(l: Layout, prev: Bytes, curr: Bytes, i: nat)
    requires FixedSize(l) <= |prev| && FixedSize(l) <= |curr| && i < |l.sizes|
    ensures Payload(l, prev, curr, i)
         == (if Differs(l, prev, curr, i) then Field(l, curr, i) else []) + Payload(l, prev, curr, i + 1)
  {
    hide Differs, Field;
  }

  lemma FieldStep(l: Layout, prev: Bytes, curr: Bytes, result: Bytes, i: nat)
    requires i < |l.sizes| && FixedSize(l) <= |prev| && FixedSize(l) <= |curr|
    requires Halfway(l, prev, curr, result, i)
    ensures var o := Offset(l.sizes, i);
            && o + l.sizes[i] <= |result| && |Field(l, curr, i)| == l.sizes[i]
            && Halfway(l, prev, curr, result[..o] + Field(l, curr, i) + result[o + l.sizes[i]..], i + 1)
            && (!Differs(l, prev, curr, i) ==> Halfway(l, prev, curr, result, i + 1))
  {
    OffsetMonotone(l.sizes, i + 1, |l.sizes|);
    var o, o' := Offset(l.sizes, i), Offset(l.sizes, i + 1);
    assert curr[..o'] == curr[..o] + curr[o..o'];
    assert prev[o..] == prev[o..o'] + prev[o'..];
  }

  lemma MarkedIffDiffers(l: Layout, prev: Bytes, curr: Bytes, delta: Bytes, i: nat)
    requires i < FieldCount(l) && FixedSize(l) <= |prev| && FixedSize(l) <= |curr|
    requires IsDelta(l, prev, curr, delta)
    ensures i / 8 < |delta| && (Marked(delta, i) <==> Differs(l, prev, curr, i))
  {
    hide Bit, Differs, Payload;
    var mask := delta[..MaskSize(l)];
    assert Marked(mask, i) <==> Differs(l, prev, curr, i);
    assert mask[i / 8] == delta[i / 8];
  }

  /** What a delta restores in general: the new fixed part, and the new tail if it changed. */
  lemma ApplyRestores(l: Layout, prev: Bytes, curr: Bytes, delta: Bytes)
    requires FixedSize(l) <= |prev| && FixedSize(l) <= |curr| && IsDelta(l, prev, curr, delta)
    ensures Apply(l, prev, delta) == Some(curr[..FixedSize(l)] +
      if l.tail && TailData(l, prev) != TailData(l, curr)
      then Be(|TailData(l, curr)|, 2) + TailData(l, curr) else prev[FixedSize(l)..])
  {
    hide MaskOf, TailData, Marked;
    assert Halfway(l, prev, curr, prev, 0);
    PatchReaches(l, prev, curr, delta, 0, MaskSize(l), prev);
    var p := PatchFields(l.sizes, 0, delta, MaskSize(l), prev, 0).value;
    if l.tail {
      MarkedIffDiffers(l, prev, curr, delta, |l.sizes|);
      if Marked(delta, |l.sizes|) {
        TailRestored(l, curr, delta, p.1, p.0);
      }
    }
  }

  lemma TailRestored(l: Layout, curr: Bytes, delta: Bytes, dpos: nat, result: Bytes)
    requires l.tail && |l.sizes| / 8 < |delta| && Marked(delta, |l.sizes|)
    requires FixedSize(l) <= |result| && FixedSize(l) <= |curr| && result[..FixedSize(l)] == curr[..FixedSize(l)]
    requires dpos <= |delta| && delta[dpos..] == Be(|TailData(l, curr)|, 2) + TailData(l, curr)
    ensures PatchTail(l, delta, dpos, result)
         == Some(curr[..FixedSize(l)] + (Be(|TailData(l, curr)|, 2) + TailData(l, curr)))
  {
    hide Marked, FixedSize, TailData, Be, FromBe;
    var t := TailData(l, curr);
    Pow256Values();
    BeRoundTrip(|t|, 2);
    assert delta[dpos..][..2] == Be(|t|, 2) && delta[dpos..][2..] == t;
    assert delta[dpos..dpos + 2] == Be(|t|, 2);
    assert delta[dpos + 2..dpos + 2 + |t|] == t;
    assert result[..FixedSize(l)] + Be(|t|, 2) + t == curr[..FixedSize(l)] + (Be(|t|, 2) + t);
  }

  /** A snapshot of the layout: the fixed fields, then a tail its prefix counts. */
  ghost predicate WellFormed(l: Layout, snap: Bytes) {
    if l.tail then
      |snap| >= FixedSize(l) + 2 && snap[FixedSize(l)..] == Be(|TailData(l, snap)|, 2) + TailData(l, snap)
    else
      |snap| == FixedSize(l)
  }

  /** Any layout: applying the delta to the old snapshot gives the new one. */
  lemma ApplyInvertsEncode(l: Layout, prev: Bytes, curr: Bytes, delta: Bytes)
    requires WellFormed(l, prev) && WellFormed(l, curr) && IsDelta(l, prev, curr, delta)
    ensures Apply(l, prev, delta) == Some(curr)
  {
    hide IsDelta, TailData, Apply;
    ApplyRestores(l, prev, curr, delta);
    assert curr == curr[..FixedSize(l)] + curr[FixedSize(l)..];
    assert !l.tail ==> prev[FixedSize(l)..] == [] == curr[FixedSize(l)..];
  }

  /** No delta is produced exactly when there is nothing to send. */
  lemma NothingChanged(l: Layout, prev: Bytes, curr: Bytes)
    requires WellFormed(l, prev) && WellFormed(l, curr)
    ensures (forall i | 0 <= i < FieldCount(l) :: !Differs(l, prev, curr, i)) <==> prev == curr
  {
    if forall i | 0 <= i < FieldCount(l) :: !Differs(l, prev, curr, i) {
      FixedSame(l, prev, curr, |l.sizes|);
      hide TailData;
      if l.tail { assert !Differs(l, prev, curr, |l.sizes|); }
      var f := FixedSize(l);
      assert prev == prev[..f] + prev[f..] && curr == curr[..f] + curr[f..];
    }
  }

  lemma {:induction false} FixedSame(l: Layout, prev: Bytes, curr: Bytes, i: nat)
    requires i <= |l.sizes| && FixedSize(l) <= |prev| && FixedSize(l) <= |curr|
    requires forall k | 0 <= k < FieldCount(l) :: !Differs(l, prev, curr, k)
    ensures Offset(l.sizes, i) <= FixedSize(l) && prev[..Offset(l.sizes, i)] == curr[..Offset(l.sizes, i)]
  {
    hide TailData;
    OffsetMonotone(l.sizes, i, |l.sizes|);
    if i == 0 {
    } else {
      FixedSame(l, prev, curr, i - 1);
      assert !Differs(l, prev, curr, i - 1);
      var o, o' := Offset(l.sizes, i - 1), Offset(l.sizes, i);
      assert prev[..o'] == prev[..o] + Field(l, prev, i - 1) && curr[..o'] == curr[..o] + Field(l, curr, i - 1);
    }
  }
}
