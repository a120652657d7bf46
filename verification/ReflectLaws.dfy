/**
 For every schema, the emitted Encode writes the wire format of the message and the
 emitted Decode rebuilds the message from it, stopping exactly behind its bytes.
 */
module ReflectLaws {
  import opened Words
  import opened Endian
  import opened ReflectScalars
  import opened ReflectCodegen

  // ---- Encode ------------------------------------------------------------------------------

  /** No loop variable of this depth or deeper is in scope. */
  ghost predicate Scoped(vars: Store, depth: nat) {
    forall d: nat :: d >= depth ==> Item(d) !in vars
  }

  lemma {:induction false} FieldEncodes(f: Field, source: Place, depth: nat, v: Value, vars: Store, out: Bytes)
    requires Shaped(f, v) && Load(vars, source) == Some(v) && Scoped(vars, depth)
    ensures ExecWrites(EmitEncode(f, source, depth), vars, out) == Some(out + Wire(f, v))
    decreases f, 1, 0
  {
    hide Typed, Written, Le, WireItems, ExecItems, Load, WireAll, EmitEncodes, ExecWrites;
    match f
    case Scalar(_, e) =>
      OneWrite(WriteFrom(source, e), vars, out);
    case Struct(_, fs) =>
      FieldsEncode(fs, source, depth, v.fields, vars, out);
    case ScalarSlice(_, e) =>
      OneWrite(WriteList(source, e), vars, out);
      ItemsEncode(e, v.items, out + Le(|v.items|, 2));
      assert out + Le(|v.items|, 2) + WireItems(e, v.items) == out + (Le(|v.items|, 2) + WireItems(e, v.items));
    case StructSlice(_, fs) =>
      var s := WriteObjects(source, depth, EmitEncodes(fs, Place(Item(depth), []), depth + 1));
      OneWrite(s, vars, out);
      ObjectsEncode(f, s, v.items, vars, out + Le(|v.items|, 2));
      assert out + Le(|v.items|, 2) + WireObjects(f, v.items) == out + (Le(|v.items|, 2) + WireObjects(f, v.items));
  }

  lemma {:induction false} FieldsEncode(fs: seq<Field>, owner: Place, depth: nat, r: map<string, Value>,
                                        vars: Store, out: Bytes)
    requires ShapedAll(fs, r) && Load(vars, owner) == Some(Record(r)) && Scoped(vars, depth)
    ensures ExecWrites(EmitEncodes(fs, owner, depth), vars, out) == Some(out + WireAll(fs, r))
    decreases fs, 0, 0
  {
    hide Shaped, EmitEncode, ExecWrites, Wire, Load;
    if fs == [] {
      NoWrites(vars, out);
      assert out + [] == out;
    } else {
      var f, place := fs[0], Dot(owner, fs[0].name);
      AssignField(vars, owner, f.name, r[f.name]);
      FieldEncodes(f, place, depth, r[f.name], vars, out);
      WritesInOrder(EmitEncode(f, place, depth), EmitEncodes(fs[1..], owner, depth), vars, out);
      FieldsEncode(fs[1..], owner, depth, r, vars, out + Wire(f, r[f.name]));
      assert out + Wire(f, r[f.name]) + WireAll(fs[1..], r) == out + (Wire(f, r[f.name]) + WireAll(fs[1..], r));
    }
  }

  lemma NoWrites(vars: Store, out: Bytes)
    ensures ExecWrites([], vars, out) == Some(out)
  {
  }

  lemma {:induction false} ItemsEncode(e: Encoding, items: seq<Value>, out: Bytes)
    requires forall i | 0 <= i < |items| :: Typed(e, items[i])
    ensures ExecItems(e, items, out) == Some(out + WireItems(e, items))
    decreases |items|
  {
    hide Typed, Written;
    if items == [] {
      assert out + [] == out;
    } else {
      ItemsEncode(e, items[1..], out + Written(e, items[0]));
      assert out + Written(e, items[0]) + WireItems(e, items[1..])
          == out + (Written(e, items[0]) + WireItems(e, items[1..]));
    }
  }

  lemma {:induction false} ObjectsEncode(f: Field, s: WriteStmt, items: seq<Value>, vars: Store, out: Bytes)
    requires f.StructSlice? && AreObjects(f.fields, items) && s.WriteObjects? && Scoped(vars, s.depth)
    requires s.body == EmitEncodes(f.fields, Place(Item(s.depth), []), s.depth + 1)
    ensures ExecEach(s, items, vars, out) == Some(out + WireObjects(f, items))
    decreases f, 0, |items|
  {
    hide ShapedAll, EmitEncodes, WireAll, ExecWrites;
    if items == [] {
      assert out + [] == out;
    } else {
      var inner, r := vars[Item(s.depth) := items[0]], items[0].fields;
      FieldsEncode(f.fields, Place(Item(s.depth), []), s.depth + 1, r, inner, out);
      ObjectsEncode(f, s, items[1..], vars, out + WireAll(f.fields, r));
      assert out + WireAll(f.fields, r) + WireObjects(f, items[1..])
          == out + (WireAll(f.fields, r) + WireObjects(f, items[1..]));
    }
  }

  // ---- Decode ------------------------------------------------------------------------------

  /** The record `r` after the fields `fs` have been taken from `v`. */
  ghost function Filled(r: map<string, Value>, fs: seq<Field>, v: map<string, Value>): map<string, Value>
    requires ShapedAll(fs, v)
    decreases |fs|
  {
    if fs == [] then r else Filled(r[fs[0].name := v[fs[0].name]], fs[1..], v)
  }

  /** The fields still to come hold their initial values. */
  ghost predicate Untouched(fs: seq<Field>, r: map<string, Value>) {
    forall i | 0 <= i < |fs| :: fs[i].name in r && r[fs[i].name] == Default(fs[i])
  }

  lemma {:induction false} FilledFromDefaults(fs: seq<Field>, r: map<string, Value>, v: map<string, Value>)
    requires ShapedAll(fs, v) && WellNamed(fs) && r.Keys == v.Keys
    requires forall n :: n in r && (forall i | 0 <= i < |fs| :: fs[i].name != n) ==> r[n] == v[n]
    ensures Filled(r, fs, v) == v
    decreases |fs|
  {
    hide Shaped;
    if fs == [] {
    } else {
      var r' := r[fs[0].name := v[fs[0].name]];
      forall n | n in r' && (forall i | 0 <= i < |fs[1..]| :: fs[1..][i].name != n)
        ensures r'[n] == v[n]
      {
        if n != fs[0].name {
          forall i | 0 <= i < |fs| ensures fs[i].name != n {
            if i > 0 { assert fs[i] == fs[1..][i - 1]; }
          }
        }
      }
      FilledFromDefaults(fs[1..], r', v);
    }
  }

  lemma {:induction false} DefaultKeys(fs: seq<Field>)
    requires WellNamed(fs)
    ensures Untouched(fs, Defaults(fs))
    ensures forall n :: n in Defaults(fs) ==> exists i :: 0 <= i < |fs| && fs[i].name == n
    decreases |fs|
  {
    hide Default;
    if fs == [] {
    } else {
      DefaultKeys(fs[1..]);
      forall i | 0 <= i < |fs| ensures fs[i].name in Defaults(fs) && Defaults(fs)[fs[i].name] == Default(fs[i]) {
        if i > 0 { assert fs[i] == fs[1..][i - 1]; }
      }
      forall n | n in Defaults(fs) ensures exists i :: 0 <= i < |fs| && fs[i].name == n {
        if n != fs[0].name {
          var i :| 0 <= i < |fs[1..]| && fs[1..][i].name == n;
          assert fs[i + 1].name == n;
        }
      }
    }
  }

  /** A new object filled field by field is the value that was written. */
  lemma ObjectComplete(fs: seq<Field>, v: map<string, Value>)
    requires WellNamed(fs) && ShapedAll(fs, v) && v.Keys == Defaults(fs).Keys
    ensures Filled(Defaults(fs), fs, v) == v && Untouched(fs, Defaults(fs))
  {
    hide ShapedAll, Untouched, Filled, WellNamed;
    DefaultKeys(fs);
    FilledFromDefaults(fs, Defaults(fs), v);
  }

  lemma {:induction false} FieldDecodes(f: Field, target: Place, depth: nat, v: Value, data: Bytes, m: Reader)
    requires WellNamed([f]) && Conforms(f, v) && Scoped(m.vars, depth)
    requires Load(m.vars, target) == Some(Default(f)) && At(data, m.pos, Wire(f, v))
    ensures ExecReads(EmitDecode(f, target, depth), data, m)
         == Some(Reader(Assign(m.vars, target, v), m.pos + |Wire(f, v)|))
    decreases f, 2, 0
  {
    hide *;
    match f
    case Scalar(_, e) => ScalarDecodes(f, target, depth, v, data, m);
    case Struct(_, fs) => StructDecodes(f, target, depth, v, data, m);
    case ScalarSlice(_, e) => ScalarsDecode(f, target, depth, v, data, m);
    case StructSlice(_, fs) => StructsDecode(f, target, depth, v, data, m);
  }

  lemma HoldsTyped(e: Encoding, v: Value)
    requires Holds(e, v)
    ensures Typed(e, v)
  {
  }

  lemma ScalarDecodes(f: Field, target: Place, depth: nat, v: Value, data: Bytes, m: Reader)
    requires f.Scalar? && Conforms(f, v)
    requires Load(m.vars, target).Some? && At(data, m.pos, Wire(f, v))
    ensures ExecReads(EmitDecode(f, target, depth), data, m)
         == Some(Reader(Assign(m.vars, target, v), m.pos + |Wire(f, v)|))
  {
    hide At, Typed, FitsScalar, Written, ReadScalar, Load, ExecReads;
    OneRead(ReadInto(target, f.encoding), data, m);
    HoldsTyped(f.encoding, v);
    ScalarReadsBack(f.encoding, v, data, m.pos);
  }

  lemma {:induction false} StructDecodes(f: Field, target: Place, depth: nat, v: Value, data: Bytes, m: Reader)
    requires f.Struct? && WellNamed([f]) && Conforms(f, v) && Scoped(m.vars, depth)
    requires Load(m.vars, target).Some? && At(data, m.pos, Wire(f, v))
    ensures ExecReads(EmitDecode(f, target, depth), data, m)
         == Some(Reader(Assign(m.vars, target, v), m.pos + |Wire(f, v)|))
    decreases f, 1, 0
  {
    hide At, Load, ExecReads, EmitDecodes, ShapedAll, FitAll, WireAll, Defaults, Assign, Filled, Untouched;
    var fs := f.fields;
    var blank := Record(Defaults(fs));
    var m1 := Reader(Assign(m.vars, target, blank), m.pos);
    AssignTwice(m.vars, target, blank, v);
    ScopedAfter(m.vars, target, blank, depth);
    ReadsInOrder([NewObject(target, fs)], EmitDecodes(fs, target, depth), data, m);
    OneRead(NewObject(target, fs), data, m);
    ObjectComplete(fs, v.fields);
    FieldsDecode(fs, target, depth, Defaults(fs), v.fields, data, m1);
  }

  lemma ScopedAfter(vars: Store, p: Place, x: Value, depth: nat)
    requires Scoped(vars, depth) && Load(vars, p).Some?
    ensures Scoped(Assign(vars, p, x), depth)
  {
  }

  lemma {:induction false} FieldsDecode(fs: seq<Field>, owner: Place, depth: nat, r: map<string, Value>,
                                        v: map<string, Value>,
                                   data: Bytes, m: Reader)
    requires WellNamed(fs) && ConformAll(fs, v) && Untouched(fs, r) && Scoped(m.vars, depth)
    requires Load(m.vars, owner) == Some(Record(r)) && At(data, m.pos, WireAll(fs, v))
    ensures ExecReads(EmitDecodes(fs, owner, depth), data, m)
         == Some(Reader(Assign(m.vars, owner, Record(Filled(r, fs, v))), m.pos + |WireAll(fs, v)|))
    decreases fs, 0, 0
  {
    hide At, Load, ExecReads, EmitDecode, Shaped, Fits, Wire, Default, Defaults, Assign;
    if fs == [] {
      NoReads(data, m);
      AssignTwice(m.vars, owner, Record(r), Record(r));
    } else {
      var f, place := fs[0], Dot(owner, fs[0].name);
      var x := v[f.name];
      AtSplit(data, m.pos, Wire(f, x), WireAll(fs[1..], v));
      AssignField(m.vars, owner, f.name, x);
      FirstNamed(fs);
      FieldDecodes(f, place, depth, x, data, m);
      var r' := r[f.name := x];
      var m' := Reader(Assign(m.vars, owner, Record(r')), m.pos + |Wire(f, x)|);
      ReadsInOrder(EmitDecode(f, place, depth), EmitDecodes(fs[1..], owner, depth), data, m);
      ScopedAfter(m.vars, owner, Record(r'), depth);
      AssignTwice(m.vars, owner, Record(r'), Record(Filled(r, fs, v)));
      FieldsDecode(fs[1..], owner, depth, r', v, data, m');
    }
  }

  lemma FirstNamed(fs: seq<Field>)
    requires fs != [] && WellNamed(fs)
    ensures WellNamed([fs[0]])
  {
    assert [fs[0]][1..] == [];
  }

  lemma NoReads(data: Bytes, m: Reader)
    ensures ExecReads([], data, m) == Some(m)
  {
  }

  lemma LengthReadsBack(data: Bytes, pos: nat, n: nat, rest: Bytes)
    requires n < 0x1_0000 && At(data, pos, Le(n, 2) + rest)
    ensures pos + 2 <= |data| && FromLe(data[pos..pos + 2]) == n && At(data, pos + 2, rest)
  {
    hide Le, FromLe, Pow256, At;
    AtSplit(data, pos, Le(n, 2), rest);
    AtIs(data, pos, Le(n, 2));
    Pow256Values();
    LeRoundTrip(n, 2);
  }

  lemma ScalarsDecode(f: Field, target: Place, depth: nat, v: Value, data: Bytes, m: Reader)
    requires f.ScalarSlice? && Conforms(f, v)
    requires Load(m.vars, target) == Some(Default(f)) && At(data, m.pos, Wire(f, v))
    ensures ExecReads(EmitDecode(f, target, depth), data, m)
         == Some(Reader(Assign(m.vars, target, v), m.pos + |Wire(f, v)|))
  {
    hide At, Holds, Load, ExecReads, ExecAdds, WireItems, Le, FromLe, Assign;
    OneRead(ReadList(target, f.encoding), data, m);
    LengthReadsBack(data, m.pos, |v.items|, WireItems(f.encoding, v.items));
    AddsDecode(f.encoding, target, [], v.items, data, m.(pos := m.pos + 2));
    assert [] + v.items == v.items;
  }

  lemma {:induction false} AddsDecode(e: Encoding, target: Place, done: seq<Value>, items: seq<Value>, data: Bytes,
                                      m: Reader)
    requires forall i | 0 <= i < |items| :: Typed(e, items[i]) && Holds(e, items[i])
    requires Load(m.vars, target) == Some(List(done)) && At(data, m.pos, WireItems(e, items))
    ensures ExecAdds(target, e, |items|, data, m)
         == Some(Reader(Assign(m.vars, target, List(done + items)), m.pos + |WireItems(e, items)|))
    decreases |items|
  {
    hide At, Holds, Typed, Written, ReadScalar, Load, Assign;
    if items == [] {
      assert done + items == done;
      AssignTwice(m.vars, target, List(done), List(done));
    } else {
      HoldsTyped(e, items[0]);
      AtSplit(data, m.pos, Written(e, items[0]), WireItems(e, items[1..]));
      ScalarReadsBack(e, items[0], data, m.pos);
      var m' := Reader(Assign(m.vars, target, List(done + [items[0]])), m.pos + |Written(e, items[0])|);
      AssignTwice(m.vars, target, List(done + [items[0]]), List(done + items));
      AddsDecode(e, target, done + [items[0]], items[1..], data, m');
      assert done + [items[0]] + items[1..] == done + items;
    }
  }

  lemma {:induction false} StructsDecode(f: Field, target: Place, depth: nat, v: Value, data: Bytes, m: Reader)
    requires f.StructSlice? && WellNamed([f]) && Conforms(f, v) && Scoped(m.vars, depth)
    requires Load(m.vars, target) == Some(Default(f)) && At(data, m.pos, Wire(f, v))
    ensures ExecReads(EmitDecode(f, target, depth), data, m)
         == Some(Reader(Assign(m.vars, target, v), m.pos + |Wire(f, v)|))
    decreases f, 1, 0
  {
    hide At, Load, ExecReads, ExecObjects, WireObjects, Le, FromLe, Assign, EmitDecodes, ShapedAll, FitAll;
    var s := ReadObjects(target, depth, f.fields, EmitDecodes(f.fields, Place(Item(depth), []), depth + 1));
    OneRead(s, data, m);
    LengthReadsBack(data, m.pos, |v.items|, WireObjects(f, v.items));
    ObjectsDecode(f, s, [], v.items, data, m.(pos := m.pos + 2));
    assert [] + v.items == v.items;
  }

  lemma {:induction false} ObjectsDecode(f: Field, s: ReadStmt, done: seq<Value>, items: seq<Value>, data: Bytes,
                                        m: Reader)
    requires f.StructSlice? && WellNamed(f.fields) && AreObjects(f.fields, items) && ObjectsFit(f.fields, items)
    requires s.ReadObjects? && s.fields == f.fields && Scoped(m.vars, s.depth)
    requires s.body == EmitDecodes(f.fields, Place(Item(s.depth), []), s.depth + 1)
    requires Load(m.vars, s.target) == Some(List(done)) && At(data, m.pos, WireObjects(f, items))
    ensures ExecObjects(s, |items|, data, m)
         == Some(Reader(Assign(m.vars, s.target, List(done + items)), m.pos + |WireObjects(f, items)|))
    decreases f, 0, |items|
  {
    hide At, Load, Assign, ExecReads, WireAll, ShapedAll, FitAll, EmitDecodes, Defaults, Scoped, WellNamed;
    if items == [] {
      assert done + items == done;
      AssignTwice(m.vars, s.target, List(done), List(done));
    } else {
      var r := items[0].fields;
      AtSplit(data, m.pos, WireAll(f.fields, r), WireObjects(f, items[1..]));
      ObjectDecodes(f, s, r, data, m);
      var more := done + [items[0]];
      var m' := Reader(Assign(m.vars, s.target, List(more)), m.pos + |WireAll(f.fields, r)|);
      AssignTwice(m.vars, s.target, List(more), List(done + items));
      ScopedAfter(m.vars, s.target, List(more), s.depth);
      ObjectsDecode(f, s, more, items[1..], data, m');
      assert more + items[1..] == done + items;
      assert items[0] == Record(r);
    }
  }

  /** One round of the loop: the item variable ends up holding the object, all else is as before. */
  lemma {:induction false} ObjectDecodes(f: Field, s: ReadStmt, r: map<string, Value>, data: Bytes, m: Reader)
    requires f.StructSlice? && WellNamed(f.fields) && ConformAll(f.fields, r) && r.Keys == Defaults(f.fields).Keys
    requires s.ReadObjects? && s.fields == f.fields && Scoped(m.vars, s.depth)
    requires s.body == EmitDecodes(f.fields, Place(Item(s.depth), []), s.depth + 1)
    requires At(data, m.pos, WireAll(f.fields, r))
    ensures var item := Item(s.depth);
            && item !in m.vars
            && ExecReads(s.body, data, m.(vars := m.vars[item := Record(Defaults(f.fields))]))
               == Some(Reader(m.vars[item := Record(r)], m.pos + |WireAll(f.fields, r)|))
            && m.vars[item := Record(r)] - {item} == m.vars
    decreases f, 0, 0
  {
    hide At, ExecReads, EmitDecodes, ShapedAll, FitAll, WireAll, Defaults, Filled, Untouched, WellNamed;
    var item := Item(s.depth);
    var m1 := m.(vars := m.vars[item := Record(Defaults(f.fields))]);
    ObjectComplete(f.fields, r);
    FieldsDecode(f.fields, Place(item, []), s.depth + 1, Defaults(f.fields), r, data, m1);
    assert m1.vars[item := Record(r)] == m.vars[item := Record(r)];
  }

  // ---- Messages ------------------------------------------------------------------------------

  /** The emitted `Encode` of a message class. */
  function Encode(fs: seq<Field>, v: Value): Option<Bytes> {
    ExecWrites(EmitEncodes(fs, Place(Message, []), 0), map[Message := v], [])
  }

  /** The emitted `Decode`; the cursor is kept to see how much was consumed. */
  function Decode(fs: seq<Field>, data: Bytes): Option<(Value, nat)> {
    match ExecReads(EmitDecodes(fs, Place(Message, []), 0), data, Reader(map[Message := Record(Defaults(fs))], 0))
    case None => None
    case Some(m) => if Message in m.vars then Some((m.vars[Message], m.pos)) else None
  }

  /** Where every length fits, Decode undoes Encode, whatever bytes follow, and consumes what was written. */
  lemma DecodeWhatFits(fs: seq<Field>, r: map<string, Value>, rest: Bytes)
    requires WellNamed(fs) && IsObject(fs, Record(r)) && FitAll(fs, r)
    ensures Decode(fs, WireAll(fs, r) + rest) == Some((Record(r), |WireAll(fs, r)|))
  {
    hide ExecReads, EmitDecodes, ShapedAll, FitAll, WireAll, Defaults, Filled, Untouched, WellNamed;
    var wire := WireAll(fs, r);
    ObjectComplete(fs, r);
    WholeAt(wire + rest);
    AtSplit(wire + rest, 0, wire, rest);
    FieldsDecode(fs, Place(Message, []), 0, Defaults(fs), r, wire + rest,
        Reader(map[Message := Record(Defaults(fs))], 0));
  }
}
