/**
 The Encode and Decode bodies that cmd/sdkgen emits for a message, as programs: one
 statement per emitted line, places such as `m.a.b` or `_it0.c`, and loop variables
 numbered by nesting depth. The programs are run here on explicit variables, so
 that two loops sharing a variable, or a place that is not there, would fail.
 */
module ReflectCodegen {
  import opened Words
  import opened Endian
  import opened ReflectScalars

  /** A field of a message; a slice holds scalars or structs, never slices. */
  datatype Field =
    | Scalar(name: string, encoding: Encoding)
    | Struct(name: string, fields: seq<Field>)
    | ScalarSlice(name: string, encoding: Encoding)
    | StructSlice(name: string, fields: seq<Field>)

  /** The message itself, or the item variable of the loop at some depth. */
  datatype Variable = Message | Item(depth: nat)

  datatype Place = Place(root: Variable, path: seq<string>)

  function Dot(p: Place, name: string): Place {
    Place(p.root, p.path + [name])
  }

  // ---- The emitted statements --------------------------------------------------------------

  datatype ReadStmt =
    | ReadInto(target: Place, encoding: Encoding)
    | NewObject(target: Place, fields: seq<Field>)
    | ReadList(target: Place, encoding: Encoding)
    | ReadObjects(target: Place, depth: nat, fields: seq<Field>, body: seq<ReadStmt>)

  datatype WriteStmt =
    | WriteFrom(source: Place, encoding: Encoding)
    | WriteList(source: Place, encoding: Encoding)
    | WriteObjects(source: Place, depth: nat, body: seq<WriteStmt>)

  /** `writeCsFieldDecode`. */
  function EmitDecode(f: Field, target: Place, depth: nat): seq<ReadStmt>
    decreases f
  {
    match f
    case Scalar(_, e) => [ReadInto(target, e)]
    case Struct(_, fs) => [NewObject(target, fs)] + EmitDecodes(fs, target, depth)
    case ScalarSlice(_, e) => [ReadList(target, e)]
    case StructSlice(_, fs) => [ReadObjects(target, depth, fs, EmitDecodes(fs, Place(Item(depth), []), depth + 1))]
  }

  function EmitDecodes(fs: seq<Field>, owner: Place, depth: nat): seq<ReadStmt>
    decreases fs
  {
    if fs == [] then []
    else EmitDecode(fs[0], Dot(owner, fs[0].name), depth) + EmitDecodes(fs[1..], owner, depth)
  }

  /** `writeCsFieldEncode`. */
  function EmitEncode(f: Field, source: Place, depth: nat): seq<WriteStmt>
    decreases f
  {
    match f
    case Scalar(_, e) => [WriteFrom(source, e)]
    case Struct(_, fs) => EmitEncodes(fs, source, depth)
    case ScalarSlice(_, e) => [WriteList(source, e)]
    case StructSlice(_, fs) => [WriteObjects(source, depth, EmitEncodes(fs, Place(Item(depth), []), depth + 1))]
  }

  function EmitEncodes(fs: seq<Field>, owner: Place, depth: nat): seq<WriteStmt>
    decreases fs
  {
    if fs == [] then []
    else EmitEncode(fs[0], Dot(owner, fs[0].name), depth) + EmitEncodes(fs[1..], owner, depth)
  }

  // ---- Values in places ----------------------------------------------------------------------

  function Get(v: Value, path: seq<string>): Option<Value>
    decreases |path|
  {
    if path == [] then Some(v)
    else if v.Record? && path[0] in v.fields then Get(v.fields[path[0]], path[1..])
    else None
  }

  function Set(v: Value, path: seq<string>, x: Value): (r: Value)
    requires Get(v, path).Some?
    decreases |path|
  {
    if path == [] then x else Record(v.fields[path[0] := Set(v.fields[path[0]], path[1..], x)])
  }

  lemma {:induction false} SetGet(v: Value, path: seq<string>, a: Value, b: Value)
    requires Get(v, path).Some?
    ensures Get(Set(v, path, a), path) == Some(a)
    ensures Set(Set(v, path, a), path, b) == Set(v, path, b)
    ensures Set(v, path, Get(v, path).value) == v
    decreases |path|
  {
    if path == [] {
    } else {
      SetGet(v.fields[path[0]], path[1..], a, b);
      assert v.fields[path[0] := v.fields[path[0]]] == v.fields;
      var w := Set(v.fields[path[0]], path[1..], a);
      var w' := Set(v.fields[path[0]], path[1..], b);
      assert v.fields[path[0] := w][path[0] := w'] == v.fields[path[0] := w'];
    }
  }

  /** Assigning one field of the object at a place. */
  lemma {:induction false} SetField(v: Value, path: seq<string>, name: string, x: Value)
    requires Get(v, path).Some? && Get(v, path).value.Record? && name in Get(v, path).value.fields
    ensures Get(v, path + [name]) == Some(Get(v, path).value.fields[name])
    ensures Set(v, path + [name], x) == Set(v, path, Record(Get(v, path).value.fields[name := x]))
    decreases |path|
  {
    if path == [] {
      assert (path + [name])[1..] == [];
      assert Get(v.fields[name], []) == Some(v.fields[name]);
    } else {
      assert (path + [name])[1..] == path[1..] + [name];
      SetField(v.fields[path[0]], path[1..], name, x);
    }
  }

  type Store = map<Variable, Value>

  function Load(vars: Store, p: Place): Option<Value> {
    if p.root in vars then Get(vars[p.root], p.path) else None
  }

  function Assign(vars: Store, p: Place, x: Value): Store
    requires Load(vars, p).Some?
  {
    vars[p.root := Set(vars[p.root], p.path, x)]
  }

  lemma AssignTwice(vars: Store, p: Place, a: Value, b: Value)
    requires Load(vars, p).Some?
    ensures Load(Assign(vars, p, a), p) == Some(a)
    ensures Assign(Assign(vars, p, a), p, b) == Assign(vars, p, b)
    ensures Assign(vars, p, Load(vars, p).value) == vars
  {
    SetGet(vars[p.root], p.path, a, b);
  }

  lemma AssignField(vars: Store, p: Place, name: string, x: Value)
    requires Load(vars, p).Some? && Load(vars, p).value.Record? && name in Load(vars, p).value.fields
    ensures Load(vars, Dot(p, name)) == Some(Load(vars, p).value.fields[name])
    ensures Assign(vars, Dot(p, name), x) == Assign(vars, p, Record(Load(vars, p).value.fields[name := x]))
  {
    SetField(vars[p.root], p.path, name, x);
  }

  // ---- Running the emitted code ----------------------------------------------------------------

  /** What the field initializers of a generated class leave in a new object. */
  function Default(f: Field): Value
    decreases f
  {
    match f
    case Scalar(_, e) => DefaultScalar(e)
    case Struct(_, fs) => Record(Defaults(fs))
    case ScalarSlice(_, _) => List([])
    case StructSlice(_, _) => List([])
  }

  function Defaults(fs: seq<Field>): map<string, Value>
    decreases fs
  {
    if fs == [] then map[] else Defaults(fs[1..])[fs[0].name := Default(fs[0])]
  }

  datatype Reader = Reader(vars: Store, pos: nat)

  /** Reading into a place that must exist. */
  function PutAt(m: Reader, p: Place, x: Value, pos: nat): Option<Reader> {
    if Load(m.vars, p).None? then None else Some(Reader(Assign(m.vars, p, x), pos))
  }

  function AddTo(m: Reader, p: Place, x: Value, pos: nat): Option<Reader> {
    match Load(m.vars, p)
    case Some(List(items)) => Some(Reader(Assign(m.vars, p, List(items + [x])), pos))
    case _ => None
  }

  function ExecRead(s: ReadStmt, data: Bytes, m: Reader): Option<Reader>
    decreases s, 1, 0
  {
    match s
    case NewObject(p, fs) => PutAt(m, p, Record(Defaults(fs)), m.pos)
    case ReadInto(p, e) =>
      (match ReadScalar(e, data, m.pos)
       case None => None
       case Some(r) => PutAt(m, p, r.0, r.1))
    case ReadList(p, e) =>
      if m.pos + 2 > |data| then None
      else ExecAdds(p, e, FromLe(data[m.pos..m.pos + 2]), data, m.(pos := m.pos + 2))
    case ReadObjects(_, _, _, _) =>
      if m.pos + 2 > |data| then None
      else ExecObjects(s, FromLe(data[m.pos..m.pos + 2]), data, m.(pos := m.pos + 2))
  }

  function ExecAdds(p: Place, e: Encoding, n: nat, data: Bytes, m: Reader): Option<Reader>
    decreases n
  {
    if n == 0 then Some(m)
    else
      match ReadScalar(e, data, m.pos)
      case None => None
      case Some(r) =>
        match AddTo(m, p, r.0, r.1)
        case None => None
        case Some(m') => ExecAdds(p, e, n - 1, data, m')
  }

  /** Each round declares the item variable, fills it, adds it and lets it go out of scope. */
  function ExecObjects(s: ReadStmt, n: nat, data: Bytes, m: Reader): Option<Reader>
    requires s.ReadObjects?
    decreases s, 0, n
  {
    var item := Item(s.depth);
    if n == 0 then Some(m)
    else if item in m.vars then None
    else
      match ExecReads(s.body, data, m.(vars := m.vars[item := Record(Defaults(s.fields))]))
      case None => None
      case Some(m1) =>
        if item !in m1.vars then None
        else
          match AddTo(Reader(m1.vars - {item}, m1.pos), s.target, m1.vars[item], m1.pos)
          case None => None
          case Some(m2) => ExecObjects(s, n - 1, data, m2)
  }

  function ExecReads(ss: seq<ReadStmt>, data: Bytes, m: Reader): Option<Reader>
    decreases ss, 0, 0
  {
    if ss == [] then Some(m)
    else
      match ExecRead(ss[0], data, m)
      case None => None
      case Some(m') => ExecReads(ss[1..], data, m')
  }

  lemma {:induction false} ReadsInOrder(a: seq<ReadStmt>, b: seq<ReadStmt>, data: Bytes, m: Reader)
    ensures ExecReads(a + b, data, m) ==
      match ExecReads(a, data, m) case None => None case Some(m') => ExecReads(b, data, m')
    decreases |a|
  {
    hide ExecRead;
    if a == [] {
      assert a + b == b;
    } else {
      assert (a + b)[0] == a[0] && (a + b)[1..] == a[1..] + b;
      if ExecRead(a[0], data, m).Some? {
        ReadsInOrder(a[1..], b, data, ExecRead(a[0], data, m).value);
      }
    }
  }

  lemma OneRead(s: ReadStmt, data: Bytes, m: Reader)
    ensures ExecReads([s], data, m) == ExecRead(s, data, m)
  {
    hide ExecRead;
    assert [s][1..] == [];
  }

  function ExecWrite(s: WriteStmt, vars: Store, out: Bytes): Option<Bytes>
    decreases s, 1, 0
  {
    match s
    case WriteFrom(p, e) =>
      (match Load(vars, p)
       case Some(v) => if Typed(e, v) then Some(out + Written(e, v)) else None
       case None => None)
    case WriteList(p, e) =>
      (match Load(vars, p)
       case Some(List(items)) => ExecItems(e, items, out + Le(|items|, 2))
       case _ => None)
    case WriteObjects(p, _, _) =>
      match Load(vars, p)
      case Some(List(items)) => ExecEach(s, items, vars, out + Le(|items|, 2))
      case _ => None
  }

  function ExecItems(e: Encoding, items: seq<Value>, out: Bytes): Option<Bytes>
    decreases |items|
  {
    if items == [] then Some(out)
    else if Typed(e, items[0]) then ExecItems(e, items[1..], out + Written(e, items[0]))
    else None
  }

  function ExecEach(s: WriteStmt, items: seq<Value>, vars: Store, out: Bytes): Option<Bytes>
    requires s.WriteObjects?
    decreases s, 0, |items|
  {
    if items == [] then Some(out)
    else if Item(s.depth) in vars then None
    else
      match ExecWrites(s.body, vars[Item(s.depth) := items[0]], out)
      case None => None
      case Some(out') => ExecEach(s, items[1..], vars, out')
  }

  function ExecWrites(ss: seq<WriteStmt>, vars: Store, out: Bytes): Option<Bytes>
    decreases ss, 0, 0
  {
    if ss == [] then Some(out)
    else
      match ExecWrite(ss[0], vars, out)
      case None => None
      case Some(out') => ExecWrites(ss[1..], vars, out')
  }

  lemma {:induction false} WritesInOrder(a: seq<WriteStmt>, b: seq<WriteStmt>, vars: Store, out: Bytes)
    ensures ExecWrites(a + b, vars, out) ==
      match ExecWrites(a, vars, out) case None => None case Some(out') => ExecWrites(b, vars, out')
    decreases |a|
  {
    hide ExecWrite;
    if a == [] {
      assert a + b == b;
    } else {
      assert (a + b)[0] == a[0] && (a + b)[1..] == a[1..] + b;
      if ExecWrite(a[0], vars, out).Some? {
        WritesInOrder(a[1..], b, vars, ExecWrite(a[0], vars, out).value);
      }
    }
  }

  lemma OneWrite(s: WriteStmt, vars: Store, out: Bytes)
    ensures ExecWrites([s], vars, out) == ExecWrite(s, vars, out)
  {
    hide ExecWrite;
    assert [s][1..] == [];
  }

  // ---- What the bytes mean ---------------------------------------------------------------------

  /** C# fields have distinct names, in every nested class. */
  predicate WellNamed(fs: seq<Field>)
    decreases fs
  {
    fs == [] ||
    (&& (forall i | 1 <= i < |fs| :: fs[i].name != fs[0].name)
     && (fs[0].Struct? || fs[0].StructSlice? ==> WellNamed(fs[0].fields))
     && WellNamed(fs[1..]))
  }

  /** A value of the field's C# type. */
  predicate Shaped(f: Field, v: Value)
    decreases f
  {
    match f
    case Scalar(_, e) => Typed(e, v)
    case Struct(_, fs) => v.Record? && v.fields.Keys == Defaults(fs).Keys && ShapedAll(fs, v.fields)
    case ScalarSlice(_, e) => v.List? && forall i | 0 <= i < |v.items| :: Typed(e, v.items[i])
    case StructSlice(_, fs) =>
      && v.List?
      && forall i | 0 <= i < |v.items| ::
           v.items[i].Record? && v.items[i].fields.Keys == Defaults(fs).Keys && ShapedAll(fs, v.items[i].fields)
  }

  predicate ShapedAll(fs: seq<Field>, r: map<string, Value>)
    decreases fs
  {
    fs == [] || (fs[0].name in r && Shaped(fs[0], r[fs[0].name]) && ShapedAll(fs[1..], r))
  }

  /** An object of a generated class. */
  predicate IsObject(fs: seq<Field>, v: Value) {
    v.Record? && v.fields.Keys == Defaults(fs).Keys && ShapedAll(fs, v.fields)
  }

  /** Every string and every slice in the value is shorter than 65536. */
  predicate Fits(f: Field, v: Value)
    requires Shaped(f, v)
    decreases f
  {
    match f
    case Scalar(_, e) => FitsScalar(e, v)
    case Struct(_, fs) => FitAll(fs, v.fields)
    case ScalarSlice(_, e) => |v.items| < 0x1_0000 && forall i | 0 <= i < |v.items| :: Holds(e, v.items[i])
    case StructSlice(_, fs) =>
      |v.items| < 0x1_0000 && forall i | 0 <= i < |v.items| :: IsObject(fs, v.items[i]) && FitAll(fs, v.items[i].fields)
  }

  predicate FitAll(fs: seq<Field>, r: map<string, Value>)
    requires ShapedAll(fs, r)
    decreases fs
  {
    fs == [] || (Fits(fs[0], r[fs[0].name]) && FitAll(fs[1..], r))
  }

  predicate Conforms(f: Field, v: Value) {
    Shaped(f, v) && Fits(f, v)
  }

  predicate ConformAll(fs: seq<Field>, r: map<string, Value>) {
    ShapedAll(fs, r) && FitAll(fs, r)
  }

  /** The bytes Encode writes: fields in order, a slice as the low 16 bits of its count and its items. */
  function Wire(f: Field, v: Value): Bytes
    requires Shaped(f, v)
    decreases f, 1, 0
  {
    match f
    case Scalar(_, e) => Written(e, v)
    case Struct(_, fs) => WireAll(fs, v.fields)
    case ScalarSlice(_, e) => Le(|v.items|, 2) + WireItems(e, v.items)
    case StructSlice(_, fs) => Le(|v.items|, 2) + WireObjects(f, v.items)
  }

  function WireAll(fs: seq<Field>, r: map<string, Value>): Bytes
    requires ShapedAll(fs, r)
    decreases fs, 0, 0
  {
    if fs == [] then [] else Wire(fs[0], r[fs[0].name]) + WireAll(fs[1..], r)
  }

  function WireItems(e: Encoding, items: seq<Value>): Bytes
    requires forall i | 0 <= i < |items| :: Typed(e, items[i])
    decreases |items|
  {
    if items == [] then [] else assert Typed(e, items[0]); Written(e, items[0]) + WireItems(e, items[1..])
  }

  ghost predicate AreObjects(fs: seq<Field>, items: seq<Value>) {
    forall i | 0 <= i < |items| :: IsObject(fs, items[i])
  }

  ghost predicate ObjectsFit(fs: seq<Field>, items: seq<Value>) {
    forall i | 0 <= i < |items| :: IsObject(fs, items[i]) && FitAll(fs, items[i].fields)
  }

  function WireObjects(f: Field, items: seq<Value>): Bytes
    requires f.StructSlice? && AreObjects(f.fields, items)
    decreases f, 0, |items|
  {
    if items == [] then [] else WireAll(f.fields, items[0].fields) + WireObjects(f, items[1..])
  }
}
