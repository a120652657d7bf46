/**
 What the emitted Decode makes of arbitrary bytes: when it succeeds, the message is of
 the schema's type and every string and slice in it is shorter than 65536. So a
 message comes back from its own encoding exactly when its lengths fit.
 */
module ReflectReads {
  import opened Words
  import opened Endian
  import opened ReflectScalars
  import opened ReflectCodegen
  import opened ReflectLaws

  /** The run, if it succeeds, only stored a conforming value at the place. */
  ghost predicate Reads(f: Field, target: Place, m: Reader, r: Option<Reader>, v: Value)
    requires Load(m.vars, target).Some?
  {
    r.Some? ==> Conforms(f, v) && r.value.vars == Assign(m.vars, target, v)
  }

  lemma {:induction false} FieldReads(f: Field, target: Place, depth: nat, data: Bytes, m: Reader) returns (v: Value)
    requires WellNamed([f]) && Scoped(m.vars, depth) && Load(m.vars, target) == Some(Default(f))
    ensures Reads(f, target, m, ExecReads(EmitDecode(f, target, depth), data, m), v)
    decreases f, 2, 0
  {
    hide *;
    match f
    case Scalar(_, _) => v := ScalarReads(f, target, depth, data, m);
    case Struct(_, _) => v := StructReads(f, target, depth, data, m);
    case ScalarSlice(_, _) => v := ScalarsRead(f, target, depth, data, m);
    case StructSlice(_, _) => v := StructsRead(f, target, depth, data, m);
  }

  lemma ScalarReads(f: Field, target: Place, depth: nat, data: Bytes, m: Reader) returns (v: Value)
    requires f.Scalar? && Load(m.vars, target).Some?
    ensures Reads(f, target, m, ExecReads(EmitDecode(f, target, depth), data, m), v)
  {
    hide ReadScalar, Load, ExecReads, Typed, FitsScalar, Assign;
    OneRead(ReadInto(target, f.encoding), data, m);
    v := Flag(false);
    var r := ReadScalar(f.encoding, data, m.pos);
    if r.Some? {
      v := r.value.0;
      ReadHolds(f.encoding, data, m.pos);
    }
  }

  lemma {:induction false} StructReads(f: Field, target: Place, depth: nat, data: Bytes, m: Reader) returns (v: Value)
    requires f.Struct? && WellNamed([f]) && Scoped(m.vars, depth) && Load(m.vars, target).Some?
    ensures Reads(f, target, m, ExecReads(EmitDecode(f, target, depth), data, m), v)
    decreases f, 1, 0
  {
    hide Load, ExecReads, EmitDecodes, ShapedAll, FitAll, Defaults, Assign, Untouched;
    var fs := f.fields;
    var blank := Record(Defaults(fs));
    var m1 := Reader(Assign(m.vars, target, blank), m.pos);
    AssignTwice(m.vars, target, blank, blank);
    ScopedAfter(m.vars, target, blank, depth);
    ReadsInOrder([NewObject(target, fs)], EmitDecodes(fs, target, depth), data, m);
    OneRead(NewObject(target, fs), data, m);
    DefaultKeys(fs);
    var q := FieldsRead(fs, target, depth, Defaults(fs), data, m1);
    v := Record(q);
    AssignTwice(m.vars, target, blank, v);
  }

  /** The record `r` with the fields `fs` replaced by conforming values, and nothing else. */
  ghost predicate Completed(fs: seq<Field>, r: map<string, Value>, q: map<string, Value>) {
    && q.Keys == r.Keys && ConformAll(fs, q)
    && forall n :: n in r && (forall i | 0 <= i < |fs| :: fs[i].name != n) ==> q[n] == r[n]
  }

  lemma {:induction false} FieldsRead(fs: seq<Field>, owner: Place, depth: nat, r: map<string, Value>, data: Bytes,
                                      m: Reader)
    returns (q: map<string, Value>)
    requires WellNamed(fs) && Untouched(fs, r) && Scoped(m.vars, depth) && Load(m.vars, owner) == Some(Record(r))
    ensures var run := ExecReads(EmitDecodes(fs, owner, depth), data, m);
            run.Some? ==> Completed(fs, r, q) && run.value.vars == Assign(m.vars, owner, Record(q))
    decreases fs, 0, 0
  {
    hide Load, ExecReads, EmitDecode, Shaped, Fits, Default, Assign, Completed, Conforms, Scoped;
    q := r;
    if fs == [] {
      NoReads(data, m);
      AssignTwice(m.vars, owner, Record(r), Record(r));
      NothingCompleted(r);
    } else {
      var f, place := fs[0], Dot(owner, fs[0].name);
      AssignField(m.vars, owner, f.name, r[f.name]);
      FirstNamed(fs);
      var x := FieldReads(f, place, depth, data, m);
      ReadsInOrder(EmitDecode(f, place, depth), EmitDecodes(fs[1..], owner, depth), data, m);
      var first := ExecReads(EmitDecode(f, place, depth), data, m);
      if first.Some? {
        var r' := r[f.name := x];
        AssignField(m.vars, owner, f.name, x);
        AssignTwice(m.vars, owner, Record(r'), Record(r'));
        ScopedAfter(m.vars, owner, Record(r'), depth);
        RestUntouched(fs, r, x);
        q := FieldsRead(fs[1..], owner, depth, r', data, first.value);
        AssignTwice(m.vars, owner, Record(r'), Record(q));
        if ExecReads(EmitDecodes(fs[1..], owner, depth), data, first.value).Some? {
          OneMore(fs, r, x, q);
        }
      }
    }
  }

  lemma NothingCompleted(r: map<string, Value>)
    ensures Completed([], r, r)
  {
  }

  lemma RestUntouched(fs: seq<Field>, r: map<string, Value>, x: Value)
    requires fs != [] && WellNamed(fs) && Untouched(fs, r)
    ensures Untouched(fs[1..], r[fs[0].name := x])
  {
    hide Default;
    forall i | 0 <= i < |fs[1..]|
      ensures fs[1..][i].name in r[fs[0].name := x] && r[fs[0].name := x][fs[1..][i].name] == Default(fs[1..][i])
    {
      assert fs[1..][i] == fs[i + 1];
    }
  }

  lemma OneMore(fs: seq<Field>, r: map<string, Value>, x: Value, q: map<string, Value>)
    requires fs != [] && WellNamed(fs) && fs[0].name in r && Conforms(fs[0], x)
    requires Completed(fs[1..], r[fs[0].name := x], q)
    ensures Completed(fs, r, q)
  {
    hide Shaped, Fits;
    var name, rest := fs[0].name, fs[1..];
    assert forall i | 0 <= i < |rest| :: rest[i] == fs[i + 1];
    assert q[name] == x;
    forall n | n in r && (forall i | 0 <= i < |fs| :: fs[i].name != n) ensures q[n] == r[n] {
      assert n != name && forall i | 0 <= i < |rest| :: rest[i].name != n;
    }
  }

  lemma ShortCount(data: Bytes, pos: nat)
    requires pos + 2 <= |data|
    ensures FromLe(data[pos..pos + 2]) < 0x1_0000
  {
    hide FromLe, Pow256;
    Pow256Values();
    FromLeBound(data[pos..pos + 2]);
  }

  lemma ScalarsRead(f: Field, target: Place, depth: nat, data: Bytes, m: Reader) returns (v: Value)
    requires f.ScalarSlice? && Load(m.vars, target) == Some(Default(f))
    ensures Reads(f, target, m, ExecReads(EmitDecode(f, target, depth), data, m), v)
  {
    hide Holds, Typed, Load, ExecReads, ExecAdds, FromLe, Assign;
    OneRead(ReadList(target, f.encoding), data, m);
    v := List([]);
    if m.pos + 2 <= |data| {
      ShortCount(data, m.pos);
      var items := AddsRead(f.encoding, target, [], FromLe(data[m.pos..m.pos + 2]), data, m.(pos := m.pos + 2));
      v := List(items);
    }
  }

  lemma {:induction false} AddsRead(e: Encoding, target: Place, done: seq<Value>, n: nat, data: Bytes, m: Reader)
    returns (items: seq<Value>)
    requires Load(m.vars, target) == Some(List(done))
    requires forall i | 0 <= i < |done| :: Typed(e, done[i]) && Holds(e, done[i])
    ensures var r := ExecAdds(target, e, n, data, m);
            r.Some? ==> |items| == |done| + n && r.value.vars == Assign(m.vars, target, List(items))
                        && forall i | 0 <= i < |items| :: Typed(e, items[i]) && Holds(e, items[i])
    decreases n
  {
    hide Typed, FitsScalar, ReadScalar, Load, Assign;
    items := done;
    if n == 0 {
      AssignTwice(m.vars, target, List(done), List(done));
    } else if ReadScalar(e, data, m.pos).Some? {
      var r := ReadScalar(e, data, m.pos).value;
      ReadHolds(e, data, m.pos);
      var more := done + [r.0];
      AssignTwice(m.vars, target, List(more), List(more));
      items := AddsRead(e, target, more, n - 1, data, Reader(Assign(m.vars, target, List(more)), r.1));
      AssignTwice(m.vars, target, List(more), List(items));
    }
  }

  lemma {:induction false} StructsRead(f: Field, target: Place, depth: nat, data: Bytes, m: Reader) returns (v: Value)
    requires f.StructSlice? && WellNamed([f]) && Scoped(m.vars, depth) && Load(m.vars, target) == Some(Default(f))
    ensures Reads(f, target, m, ExecReads(EmitDecode(f, target, depth), data, m), v)
    decreases f, 1, 0
  {
    hide Load, ExecReads, ExecObjects, FromLe, Assign, EmitDecodes, ShapedAll, FitAll, Scoped, Defaults;
    var s := ReadObjects(target, depth, f.fields, EmitDecodes(f.fields, Place(Item(depth), []), depth + 1));
    OneRead(s, data, m);
    v := List([]);
    if m.pos + 2 <= |data| {
      ShortCount(data, m.pos);
      var items := ObjectsRead(f, s, [], FromLe(data[m.pos..m.pos + 2]), data, m.(pos := m.pos + 2));
      v := List(items);
    }
  }

  lemma {:induction false} ObjectsRead(f: Field, s: ReadStmt, done: seq<Value>, n: nat, data: Bytes, m: Reader)
    returns (items: seq<Value>)
    requires f.StructSlice? && WellNamed(f.fields) && AreObjects(f.fields, done) && ObjectsFit(f.fields, done)
    requires s.ReadObjects? && s.fields == f.fields && Scoped(m.vars, s.depth)
    requires s.body == EmitDecodes(f.fields, Place(Item(s.depth), []), s.depth + 1)
    requires Load(m.vars, s.target) == Some(List(done))
    ensures var r := ExecObjects(s, n, data, m);
            r.Some? ==> |items| == |done| + n && r.value.vars == Assign(m.vars, s.target, List(items))
                        && AreObjects(f.fields, items) && ObjectsFit(f.fields, items)
    decreases f, 0, n
  {
    hide Load, Assign, ExecReads, ShapedAll, FitAll, EmitDecodes, Defaults, Scoped, WellNamed;
    items := done;
    if n == 0 {
      AssignTwice(m.vars, s.target, List(done), List(done));
    } else {
      var q := ObjectRead(f, s, data, m);
      var run := ExecReads(s.body, data, m.(vars := m.vars[Item(s.depth) := Record(Defaults(s.fields))]));
      if run.Some? {
        var more := done + [Record(q)];
        AssignTwice(m.vars, s.target, List(more), List(more));
        ScopedAfter(m.vars, s.target, List(more), s.depth);
        items := ObjectsRead(f, s, more, n - 1, data, Reader(Assign(m.vars, s.target, List(more)), run.value.pos));
        AssignTwice(m.vars, s.target, List(more), List(items));
      }
    }
  }

  lemma {:induction false} ObjectRead(f: Field, s: ReadStmt, data: Bytes, m: Reader) returns (q: map<string, Value>)
    requires f.StructSlice? && WellNamed(f.fields)
    requires s.ReadObjects? && s.fields == f.fields && Scoped(m.vars, s.depth)
    requires s.body == EmitDecodes(f.fields, Place(Item(s.depth), []), s.depth + 1)
    ensures var item := Item(s.depth);
            var run := ExecReads(s.body, data, m.(vars := m.vars[item := Record(Defaults(f.fields))]));
            && item !in m.vars
            && (run.Some? ==> IsObject(f.fields, Record(q)) && FitAll(f.fields, q)
                              && run.value.vars == m.vars[item := Record(q)] && run.value.vars - {item} == m.vars)
    decreases f, 0, 0
  {
    hide ExecReads, EmitDecodes, ShapedAll, FitAll, Defaults, Untouched, WellNamed;
    var item := Item(s.depth);
    var m1 := m.(vars := m.vars[item := Record(Defaults(f.fields))]);
    DefaultKeys(f.fields);
    q := FieldsRead(f.fields, Place(item, []), s.depth + 1, Defaults(f.fields), data, m1);
    assert m1.vars[item := Record(q)] == m.vars[item := Record(q)];
  }

  // ---- Exactly what comes back -----------------------------------------------------------------

  /** A field of any kind is read back from its own bytes exactly when its lengths fit. */
  lemma FieldReadsBack(f: Field, target: Place, depth: nat, v: Value, data: Bytes, m: Reader)
    requires WellNamed([f]) && Shaped(f, v) && Scoped(m.vars, depth)
    requires Load(m.vars, target) == Some(Default(f)) && At(data, m.pos, Wire(f, v))
    ensures var r := Reader(Assign(m.vars, target, v), m.pos + |Wire(f, v)|);
            ExecReads(EmitDecode(f, target, depth), data, m) == Some(r) <==> Fits(f, v)
  {
    hide *;
    ConformsIs(f, v);
    if Fits(f, v) {
      FieldDecodes(f, target, depth, v, data, m);
    }
    var got := FieldReads(f, target, depth, data, m);
    ReadsIs(f, target, m, ExecReads(EmitDecode(f, target, depth), data, m), got);
    AssignTwice(m.vars, target, v, got);
    AssignTwice(m.vars, target, got, v);
    ConformsIs(f, got);
  }

  lemma ConformsIs(f: Field, v: Value)
    ensures Conforms(f, v) <==> Shaped(f, v) && Fits(f, v)
  {
    hide Shaped, Fits;
  }

  lemma ReadsIs(f: Field, target: Place, m: Reader, r: Option<Reader>, v: Value)
    requires Load(m.vars, target).Some? && Reads(f, target, m, r, v)
    ensures r.Some? ==> Conforms(f, v) && r.value.vars == Assign(m.vars, target, v)
  {
    hide Conforms, Load, Assign;
  }

  /** Whatever the bytes, a decoded message is an object of the schema whose lengths all fit. */
  lemma DecodedFits(fs: seq<Field>, data: Bytes)
    requires WellNamed(fs) && Decode(fs, data).Some?
    ensures var v := Decode(fs, data).value.0; IsObject(fs, v) && FitAll(fs, v.fields)
  {
    hide ExecReads, EmitDecodes, ShapedAll, FitAll, Defaults, Untouched, WellNamed;
    DefaultKeys(fs);
    var m := Reader(map[Message := Record(Defaults(fs))], 0);
    var q := FieldsRead(fs, Place(Message, []), 0, Defaults(fs), data, m);
    assert Assign(m.vars, Place(Message, []), Record(q))[Message] == Record(q);
  }

  /**
   For every schema and every message of its type: Encode writes its wire format, and
   Decode gives the message back, consuming exactly those bytes, if and only if every
   string and slice in it is shorter than 65536.
   */
  lemma DecodeInvertsEncode(fs: seq<Field>, r: map<string, Value>, rest: Bytes)
    requires WellNamed(fs) && IsObject(fs, Record(r))
    ensures Encode(fs, Record(r)) == Some(WireAll(fs, r))
    ensures Decode(fs, WireAll(fs, r) + rest) == Some((Record(r), |WireAll(fs, r)|)) <==> FitAll(fs, r)
  {
    hide ExecWrites, Decode, EmitEncodes, ShapedAll, FitAll, WireAll, Defaults, WellNamed;
    var wire := WireAll(fs, r);
    FieldsEncode(fs, Place(Message, []), 0, r, map[Message := Record(r)], []);
    assert [] + wire == wire;
    if FitAll(fs, r) {
      DecodeWhatFits(fs, r, rest);
    }
    if Decode(fs, wire + rest).Some? {
      DecodedFits(fs, wire + rest);
    }
  }
}
