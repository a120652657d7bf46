/**
 The delta world update frame: `FrameEncoder.Encode` of pkg/quantize/wireformat.go
 and the entry decoders of DeltaDecoderCore.cs. All numbers are big-endian; a
 read past the end is an exception, here `None`.
 */
module DeltaFrame {
  import opened Words
  import opened Endian

  const HEADER_SIZE := 20
  const FRESH: nat := 1
  const INPUT_ACK: nat := 2

  /** An empty `initial` is the absent one: the wire does not tell them apart. */
  datatype FullEntry = FullEntry(netID: U32, epoch: U32, kind: Byte, producedAt: U64, snapshot: Bytes, initial: Bytes)
  datatype DeltaEntry = DeltaEntry(netID: U32, epoch: U32, kind: Byte, producedAt: U64, data: Bytes)

  datatype Header = Header(tick: U32, sequence: U32, flags: U32,
                           fullCount: U16, deltaCount: U16, removedCount: U16, exitedCount: U16)

  datatype Frame = Frame(tick: U32, sequence: U32, flags: U32, full: seq<FullEntry>, delta: seq<DeltaEntry>,
                         removed: seq<U32>, exited: seq<U32>, ack: Option<U32>)

  // ---- Printing -----------------------------------------------------------------------

  function FullBytes(e: FullEntry): Bytes {
    Be(e.netID, 4) + (Be(e.epoch, 4) + ([e.kind] + (Be(e.producedAt, 8)
    + (Be(|e.snapshot|, 2) + (e.snapshot + (Be(|e.initial|, 2) + e.initial))))))
  }

  function DeltaBytes(e: DeltaEntry): Bytes {
    Be(e.netID, 4) + (Be(e.epoch, 4) + ([e.kind] + (Be(e.producedAt, 8) + (Be(|e.data|, 2) + e.data))))
  }

  function FullsBytes(es: seq<FullEntry>): Bytes {
    if es == [] then [] else FullBytes(es[0]) + FullsBytes(es[1..])
  }

  function DeltasBytes(es: seq<DeltaEntry>): Bytes {
    if es == [] then [] else DeltaBytes(es[0]) + DeltasBytes(es[1..])
  }

  function IdsBytes(ids: seq<U32>): Bytes {
    if ids == [] then [] else Be(ids[0], 4) + IdsBytes(ids[1..])
  }

  function AckBytes(ack: Option<U32>): Bytes {
    if ack.Some? then Be(ack.value, 4) else []
  }

  /** The acknowledgement flag says whether there is a trailer, whatever the caller set. */
  function FlagsFor(flags: U32, ack: Option<U32>): (f: nat) {
    if ack.Some? then Or(flags, INPUT_ACK) else flags - And(flags, INPUT_ACK)
  }

  function HeaderBytes(f: Frame): Bytes {
    Be(f.tick, 4) + (Be(f.sequence, 4) + (Be(FlagsFor(f.flags, f.ack), 4)
    + (Be(|f.full|, 2) + (Be(|f.delta|, 2) + (Be(|f.removed|, 2) + Be(|f.exited|, 2))))))
  }

  function FrameBytes(f: Frame): Bytes {
    HeaderBytes(f)
    + (FullsBytes(f.full) + (DeltasBytes(f.delta) + (IdsBytes(f.removed) + (IdsBytes(f.exited) + AckBytes(f.ack)))))
  }

  // ---- Scanning -----------------------------------------------------------------------

  function Number(data: Bytes, pos: nat, n: nat): (v: nat)
    requires pos + n <= |data|
    ensures v < Pow256(n)
  {
    FromBeBound(data[pos..pos + n]);
    FromBe(data[pos..pos + n])
  }

  function ReadU16(data: Bytes, pos: nat): U16
    requires pos + 2 <= |data|
  {
    Pow256Values();
    Number(data, pos, 2)
  }

  function ReadU32(data: Bytes, pos: nat): U32
    requires pos + 4 <= |data|
  {
    Pow256Values();
    Number(data, pos, 4)
  }

  function ReadU64(data: Bytes, pos: nat): U64
    requires pos + 8 <= |data|
  {
    Pow256Values();
    Number(data, pos, 8)
  }

  function DecodeHeader(data: Bytes, pos: nat): Option<(Header, nat)> {
    if pos + HEADER_SIZE > |data| then None
    else Some((Header(ReadU32(data, pos), ReadU32(data, pos + 4), ReadU32(data, pos + 8), ReadU16(data, pos + 12),
                      ReadU16(data, pos + 14), ReadU16(data, pos + 16), ReadU16(data, pos + 18)), pos + HEADER_SIZE))
  }

  function DecodeFull(data: Bytes, pos: nat): Option<(FullEntry, nat)> {
    if pos + 19 > |data| then None
    else
      var n := ReadU16(data, pos + 17);
      if pos + 21 + n > |data| then None
      else
        var k := ReadU16(data, pos + 19 + n);
        if pos + 21 + n + k > |data| then None
        else Some((FullEntry(ReadU32(data, pos), ReadU32(data, pos + 4), data[pos + 8], ReadU64(data, pos + 9),
                             data[pos + 19..pos + 19 + n], data[pos + 21 + n..pos + 21 + n + k]), pos + 21 + n + k))
  }

  function DecodeDelta(data: Bytes, pos: nat): Option<(DeltaEntry, nat)> {
    if pos + 19 > |data| then None
    else
      var n := ReadU16(data, pos + 17);
      if pos + 19 + n > |data| then None
      else Some((DeltaEntry(ReadU32(data, pos), ReadU32(data, pos + 4), data[pos + 8], ReadU64(data, pos + 9),
                            data[pos + 19..pos + 19 + n]), pos + 19 + n))
  }

  function DecodeIds(data: Bytes, pos: nat, count: nat): Option<(seq<U32>, nat)>
    decreases count
  {
    if count == 0 then Some(([], pos))
    else if pos + 4 > |data| then None
    else
      match DecodeIds(data, pos + 4, count - 1)
      case None => None
      case Some(r) => Some(([ReadU32(data, pos)] + r.0, r.1))
  }

  /** `DecodeRemovedIDs`. */
  method DecodeRemovedIDs(data: Bytes, start: nat, count: nat) returns (r: Option<(seq<U32>, nat)>)
    ensures r == DecodeIds(data, start, count)
  {
    hide ReadU32;
    var ids: seq<U32>, pos: nat := [], start;
    for i := 0 to count
      invariant DecodeIds(data, start, count) == Prepend(ids, DecodeIds(data, pos, count - i))
    {
      if pos + 4 > |data| {
        return None;
      }
      ids, pos := ids + [ReadU32(data, pos)], pos + 4;
    }
    assert ids + [] == ids;
    r := Some((ids, pos));
  }

  ghost function Prepend(ids: seq<U32>, r: Option<(seq<U32>, nat)>): (p: Option<(seq<U32>, nat)>)
    ensures ids == [] ==> p == r
    ensures r.Some? && |ids| > 0 ==> p == Prepend(ids[..|ids| - 1], Some(([ids[|ids| - 1]] + r.value.0, r.value.1)))
  {
    match r
    case None => None
    case Some(p) =>
      assert [] + p.0 == p.0;
      assert |ids| > 0 ==> ids + p.0 == ids[..|ids| - 1] + ([ids[|ids| - 1]] + p.0);
      Some((ids + p.0, p.1))
  }

  function DecodeAck(data: Bytes, pos: nat, flags: U32): Option<Option<U32>> {
    if And(flags, INPUT_ACK) == 0 then Some(None)
    else if pos + 4 > |data| then None
    else Some(Some(ReadU32(data, pos)))
  }

  // ---- Scanning inverts printing ---------------------------------------------------------

  lemma NumberAt(data: Bytes, pos: nat, v: nat, n: nat)
    requires At(data, pos, Be(v, n)) && v < Pow256(n)
    ensures Number(data, pos, n) == v
  {
    BeRoundTrip(v, n);
  }

  lemma U16At(data: Bytes, pos: nat, v: nat)
    requires At(data, pos, Be(v, 2)) && v < 0x1_0000
    ensures pos + 2 <= |data| && ReadU16(data, pos) == v
  {
    hide Number, Be, FromBe;
    Pow256Values();
    NumberAt(data, pos, v, 2);
  }

  lemma U32At(data: Bytes, pos: nat, v: nat)
    requires At(data, pos, Be(v, 4)) && v < 0x1_0000_0000
    ensures pos + 4 <= |data| && ReadU32(data, pos) == v
  {
    hide Number, Be, FromBe;
    Pow256Values();
    NumberAt(data, pos, v, 4);
  }

  lemma U64At(data: Bytes, pos: nat, v: U64)
    requires At(data, pos, Be(v, 8))
    ensures pos + 8 <= |data| && ReadU64(data, pos) == v
  {
    hide Number, Be, FromBe;
    Pow256Values();
    NumberAt(data, pos, v, 8);
  }

  /** The lengths that fit their two-byte prefixes. */
  predicate FullFits(e: FullEntry) {
    |e.snapshot| < 0x1_0000 && |e.initial| < 0x1_0000
  }

  predicate DeltaFits(e: DeltaEntry) {
    |e.data| < 0x1_0000
  }

  lemma FullAt(data: Bytes, pos: nat, e: FullEntry)
    requires At(data, pos, FullBytes(e)) && FullFits(e)
    ensures DecodeFull(data, pos) == Some((e, pos + |FullBytes(e)|))
  {
    hide At, ReadU16, ReadU32, ReadU64, Be;
    var n, k := |e.snapshot|, |e.initial|;
    var t7 := Be(k, 2) + e.initial;
    var t6 := e.snapshot + t7;
    var t5 := Be(n, 2) + t6;
    EntryAt(data, pos, e.netID, e.epoch, e.kind, e.producedAt, t5);
    AtSplit(data, pos + 17, Be(n, 2), t6);
    U16At(data, pos + 17, n);
    AtSplit(data, pos + 19, e.snapshot, t7);
    AtIs(data, pos + 19, e.snapshot);
    AtSplit(data, pos + 19 + n, Be(k, 2), e.initial);
    U16At(data, pos + 19 + n, k);
    AtIs(data, pos + 21 + n, e.initial);
  }

  /** The four fields both kinds of entry begin with. */
  lemma EntryAt(data: Bytes, pos: nat, netID: U32, epoch: U32, kind: Byte, producedAt: U64, rest: Bytes)
    requires At(data, pos, Be(netID, 4) + (Be(epoch, 4) + ([kind] + (Be(producedAt, 8) + rest))))
    ensures pos + 17 <= |data| && ReadU32(data, pos) == netID && ReadU32(data, pos + 4) == epoch
    ensures data[pos + 8] == kind && ReadU64(data, pos + 9) == producedAt && At(data, pos + 17, rest)
  {
    hide At, ReadU16, ReadU32, ReadU64, Be;
    var t3 := Be(producedAt, 8) + rest;
    var t2 := [kind] + t3;
    AtSplit(data, pos, Be(netID, 4), Be(epoch, 4) + t2);
    U32At(data, pos, netID);
    AtSplit(data, pos + 4, Be(epoch, 4), t2);
    U32At(data, pos + 4, epoch);
    AtSplit(data, pos + 8, [kind], t3);
    AtIs(data, pos + 8, [kind]);
    assert data[pos + 8] == data[pos + 8..pos + 9][0];
    AtSplit(data, pos + 9, Be(producedAt, 8), rest);
    U64At(data, pos + 9, producedAt);
  }

  lemma DeltaAt(data: Bytes, pos: nat, e: DeltaEntry)
    requires At(data, pos, DeltaBytes(e)) && DeltaFits(e)
    ensures DecodeDelta(data, pos) == Some((e, pos + |DeltaBytes(e)|))
  {
    hide At, ReadU16, ReadU32, ReadU64, Be;
    var n := |e.data|;
    EntryAt(data, pos, e.netID, e.epoch, e.kind, e.producedAt, Be(n, 2) + e.data);
    AtSplit(data, pos + 17, Be(n, 2), e.data);
    U16At(data, pos + 17, n);
    AtIs(data, pos + 19, e.data);
  }

  lemma {:induction false} IdsAt(data: Bytes, pos: nat, ids: seq<U32>)
    requires At(data, pos, IdsBytes(ids))
    ensures DecodeIds(data, pos, |ids|) == Some((ids, pos + |IdsBytes(ids)|))
    decreases |ids|
  {
    hide At, ReadU32, Be;
    if ids == [] {
    } else {
      AtSplit(data, pos, Be(ids[0], 4), IdsBytes(ids[1..]));
      U32At(data, pos, ids[0]);
      IdsAt(data, pos + 4, ids[1..]);
      assert ids == [ids[0]] + ids[1..];
    }
  }

  lemma FlagsKept(flags: U32, ack: Option<U32>)
    ensures FlagsFor(flags, ack) < 0x1_0000_0000
    ensures And(FlagsFor(flags, ack), FRESH) == And(flags, FRESH)
    ensures And(FlagsFor(flags, ack), INPUT_ACK) != 0 <==> ack.Some?
  {
    Pow2Values();
    var f := FlagsFor(flags, ack);
    assert Pow2(0) == 1 && Pow2(1) == 2;
    AndWithPow2(flags, 0);
    AndWithPow2(flags, 1);
    AndWithPow2(f, 0);
    AndWithPow2(f, 1);
    if ack.Some? {
      OrBound(flags, 2, 32);
      BitOfOr(flags, 2, 0);
      BitOfOr(flags, 2, 1);
      BitOfPow2(1, 0);
      BitOfPow2(1, 1);
    } else {
      ClearBitOne(flags);
    }
  }

  lemma ClearBitOne(x: nat)
    ensures var y := x - (if Bit(x, 1) then 2 else 0); y >= 0 && !Bit(y, 1) && (Bit(y, 0) <==> Bit(x, 0))
  {
    assert Bit(x, 1) <==> (x / 2) % 2 == 1;
  }

  /** Every count and length of the frame fits its two bytes. */
  predicate Fits(f: Frame) {
    && |f.full| < 0x1_0000 && |f.delta| < 0x1_0000 && |f.removed| < 0x1_0000 && |f.exited| < 0x1_0000
    && (forall i | 0 <= i < |f.full| :: FullFits(f.full[i]))
    && (forall i | 0 <= i < |f.delta| :: DeltaFits(f.delta[i]))
  }

  function HeaderOf(f: Frame): Header
    requires Fits(f)
  {
    FlagsKept(f.flags, f.ack);
    Header(f.tick, f.sequence, FlagsFor(f.flags, f.ack), |f.full|, |f.delta|, |f.removed|, |f.exited|)
  }

  lemma HeaderAt(data: Bytes, f: Frame)
    requires Fits(f) && At(data, 0, HeaderBytes(f))
    ensures DecodeHeader(data, 0) == Some((HeaderOf(f), HEADER_SIZE)) && |HeaderBytes(f)| == HEADER_SIZE
  {
    hide At, ReadU16, ReadU32, Be, Fits, FlagsFor;
    FlagsKept(f.flags, f.ack);
    FitsCounts(f);
    var t6 := Be(|f.removed|, 2) + Be(|f.exited|, 2);
    var t5 := Be(|f.delta|, 2) + t6;
    var t4 := Be(|f.full|, 2) + t5;
    var t3 := Be(FlagsFor(f.flags, f.ack), 4) + t4;
    AtSplit(data, 0, Be(f.tick, 4), Be(f.sequence, 4) + t3);
    U32At(data, 0, f.tick);
    AtSplit(data, 4, Be(f.sequence, 4), t3);
    U32At(data, 4, f.sequence);
    AtSplit(data, 8, Be(FlagsFor(f.flags, f.ack), 4), t4);
    U32At(data, 8, FlagsFor(f.flags, f.ack));
    AtSplit(data, 12, Be(|f.full|, 2), t5);
    U16At(data, 12, |f.full|);
    AtSplit(data, 14, Be(|f.delta|, 2), t6);
    U16At(data, 14, |f.delta|);
    AtSplit(data, 16, Be(|f.removed|, 2), Be(|f.exited|, 2));
    U16At(data, 16, |f.removed|);
    U16At(data, 18, |f.exited|);
  }

  lemma FitsCounts(f: Frame)
    requires Fits(f)
    ensures |f.full| < 0x1_0000 && |f.delta| < 0x1_0000 && |f.removed| < 0x1_0000 && |f.exited| < 0x1_0000
  {
  }

  /** Where each part of a printed frame stands. */
  lemma PartsAt(f: Frame)
    ensures var data := FrameBytes(f);
            var p1 := |HeaderBytes(f)|;
            var p2 := p1 + |FullsBytes(f.full)|;
            var p3 := p2 + |DeltasBytes(f.delta)|;
            var p4 := p3 + |IdsBytes(f.removed)|;
            && At(data, 0, HeaderBytes(f)) && At(data, p1, FullsBytes(f.full)) && At(data, p2, DeltasBytes(f.delta))
            && At(data, p3, IdsBytes(f.removed)) && At(data, p4, IdsBytes(f.exited))
            && At(data, p4 + |IdsBytes(f.exited)|, AckBytes(f.ack))
  {
    hide At, HeaderBytes, FullsBytes, DeltasBytes, IdsBytes, AckBytes;
    var data := FrameBytes(f);
    WholeAt(data);
    var t4 := IdsBytes(f.exited) + AckBytes(f.ack);
    var t3 := IdsBytes(f.removed) + t4;
    var t2 := DeltasBytes(f.delta) + t3;
    var p1 := |HeaderBytes(f)|;
    AtSplit(data, 0, HeaderBytes(f), FullsBytes(f.full) + t2);
    AtSplit(data, p1, FullsBytes(f.full), t2);
    AtSplit(data, p1 + |FullsBytes(f.full)|, DeltasBytes(f.delta), t3);
    AtSplit(data, p1 + |FullsBytes(f.full)| + |DeltasBytes(f.delta)|, IdsBytes(f.removed), t4);
    AtSplit(data, p1 + |FullsBytes(f.full)| + |DeltasBytes(f.delta)| + |IdsBytes(f.removed)|,
            IdsBytes(f.exited), AckBytes(f.ack));
  }

  lemma AckAt(data: Bytes, pos: nat, flags: U32, ack: Option<U32>)
    requires At(data, pos, AckBytes(ack)) && (And(flags, INPUT_ACK) != 0 <==> ack.Some?)
    ensures DecodeAck(data, pos, flags) == Some(ack)
  {
    hide At, ReadU32, Be, And;
    if ack.Some? {
      U32At(data, pos, ack.value);
    }
  }
}
