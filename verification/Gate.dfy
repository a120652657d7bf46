/**
 ReconciliationGate.cs: prediction seeds and accepted frames wait for each other in
 two bounded tables. Each table is a dictionary beside a list of its keys, oldest
 first, kept in step by hand.
 */
module Gate {
  import opened Words
  import opened Serial
  import opened PairKeys

  // ---- One bounded table -------------------------------------------------------------------

  datatype Table<T> = Table(values: map<string, T>, order: seq<string>)

  ghost predicate Distinct(order: seq<string>) {
    forall i, j | 0 <= i < j < |order| :: order[i] != order[j]
  }

  /** The list names every key of the dictionary once. */
  ghost predicate Listing<T>(t: Table<T>) {
    Distinct(t.order) && forall k :: k in t.order <==> k in t.values
  }

  function Without(order: seq<string>, key: string): seq<string> {
    if order == [] then [] else (if order[0] == key then [] else [order[0]]) + Without(order[1..], key)
  }

  function Newest(order: seq<string>, limit: nat): seq<string> {
    if |order| > limit then order[|order| - limit..] else order
  }

  /** The key goes to the back; only the newest `limit` keys stay. */
  function Put<T>(t: Table<T>, key: string, value: T, limit: nat): Table<T> {
    Kept(t.values[key := value], Without(t.order, key) + [key], limit)
  }

  function Restrict<T>(values: map<string, T>, order: seq<string>): map<string, T> {
    map k | k in values && k in order :: values[k]
  }

  function Kept<T>(values: map<string, T>, order: seq<string>, limit: nat): Table<T> {
    Table(Restrict(values, Newest(order, limit)), Newest(order, limit))
  }

  function Take<T>(t: Table<T>, key: string): Table<T> {
    Table(t.values - {key}, Without(t.order, key))
  }

  /** Keep the keys with a prefix, in order. */
  function Starting(order: seq<string>, prefix: string): seq<string> {
    if order == [] then []
    else (if StartsWith(order[0], prefix) then [order[0]] else []) + Starting(order[1..], prefix)
  }

  function Retain<T>(t: Table<T>, prefix: string): Table<T> {
    Table(map k | k in t.values && StartsWith(k, prefix) :: t.values[k], Starting(t.order, prefix))
  }

  lemma {:induction false} WithoutIs(order: seq<string>, key: string)
    requires Distinct(order)
    ensures var r := Without(order, key);
            && (forall k :: k in r <==> k in order && k != key)
            && Distinct(r)
            && |r| == |order| - (if key in order then 1 else 0)
    decreases |order|
  {
    if order == [] {
    } else {
      var rest := order[1..];
      WithoutIs(rest, key);
      assert forall k :: k in order <==> k == order[0] || k in rest;
      assert order[0] !in rest;
    }
  }

  lemma {:induction false} StartingIs(order: seq<string>, prefix: string)
    requires Distinct(order)
    ensures var r := Starting(order, prefix);
            && (forall k :: k in r <==> k in order && StartsWith(k, prefix))
            && Distinct(r)
            && |r| <= |order|
    decreases |order|
  {
    hide StartsWith;
    if order == [] {
    } else {
      var rest := order[1..];
      StartingIs(rest, prefix);
      assert forall k :: k in order <==> k == order[0] || k in rest;
      assert order[0] !in rest;
    }
  }

  /** A bounded insert keeps the listing, holds the new key, and evicts only keys older than all it keeps. */
  lemma PutKeeps<T>(t: Table<T>, key: string, value: T, limit: nat)
    requires Listing(t) && limit > 0
    ensures var u := Put(t, key, value, limit);
            && Listing(u) && |u.order| <= limit && |u.order| <= |t.order| + 1
            && key in u.values && u.values[key] == value && u.order[|u.order| - 1] == key
            && (forall k :: k in u.values && k != key ==> k in t.values && u.values[k] == t.values[k])
            && (var all := Without(t.order, key) + [key];
                u.order == all[|all| - |u.order|..] && (|u.order| < |all| ==> |u.order| == limit))
  {
    hide Without, Restrict, Distinct;
    WithoutIs(t.order, key);
    var all := Without(t.order, key) + [key];
    Appended(Without(t.order, key), key);
    var u := Put(t, key, value, limit);
    NewestIs(all, limit);
    RestrictIs(t.values[key := value], u.order);
  }

  lemma NewestIs(order: seq<string>, limit: nat)
    requires Distinct(order) && limit > 0 && order != []
    ensures var r := Newest(order, limit);
            && Distinct(r) && r != [] && r[|r| - 1] == order[|order| - 1] && |r| <= limit && |r| <= |order|
            && r == order[|order| - |r|..] && (|r| < |order| ==> |r| == limit)
            && (forall k :: k in r ==> k in order)
  {
  }

  lemma RestrictIs<T>(values: map<string, T>, order: seq<string>)
    ensures forall k :: k in Restrict(values, order) <==> k in values && k in order
    ensures forall k :: k in Restrict(values, order) ==> Restrict(values, order)[k] == values[k]
  {
  }

  lemma TakeKeeps<T>(t: Table<T>, key: string)
    requires Listing(t)
    ensures Listing(Take(t, key)) && |Take(t, key).order| == |t.order| - (if key in t.values then 1 else 0)
  {
    WithoutIs(t.order, key);
  }

  lemma RetainKeeps<T>(t: Table<T>, prefix: string)
    requires Listing(t)
    ensures Listing(Retain(t, prefix)) && |Retain(t, prefix).order| <= |t.order|
  {
    hide StartsWith;
    StartingIs(t.order, prefix);
  }

  /** `AddBounded`. */
  method AddBounded<T>(t: Table<T>, key: string, value: T, limit: nat) returns (u: Table<T>)
    requires Listing(t)
    ensures u == Put(t, key, value, limit)
  {
    hide Distinct, Kept, Without;
    var values, order := t.values, t.order;
    WithoutIs(order, key);
    if key in values {
      order := RemoveFirst(order, key);
    } else {
      AbsentStays(order, key);
    }
    Appended(order, key);
    u := Evict(values[key := value], order + [key], limit);
  }

  lemma Appended(order: seq<string>, key: string)
    requires Distinct(order) && key !in order
    ensures Distinct(order + [key])
  {
  }

  method Evict<T>(values: map<string, T>, order: seq<string>, limit: nat) returns (u: Table<T>)
    requires Listing(Table(values, order))
    ensures u == Kept(values, order, limit)
  {
    hide Restrict, Distinct;
    var d, kept, rest := 0, values, order;
    Whole(values, order);
    while |rest| > limit
      invariant 0 <= d <= |order| && rest == order[d..] && (d > 0 ==> |rest| >= limit)
      invariant kept == Restrict(values, order[d..])
    {
      DropOldest(values, order, d);
      kept := kept - {rest[0]};
      d, rest := d + 1, rest[1..];
    }
    u := Table(kept, rest);
  }

  lemma Whole<T>(values: map<string, T>, order: seq<string>)
    requires Listing(Table(values, order))
    ensures order[0..] == order && values == Restrict(values, order[0..])
  {
    assert order[0..] == order;
  }

  lemma DropOldest<T>(values: map<string, T>, order: seq<string>, d: nat)
    requires Distinct(order) && d < |order|
    ensures Restrict(values, order[d..]) - {order[d]} == Restrict(values, order[d + 1..])
    ensures order[d..][0] == order[d] && order[d..][1..] == order[d + 1..]
  {
    var rest, next := order[d..], order[d + 1..];
    assert rest == [order[d]] + next;
    assert order[d] !in next;
  }

  lemma {:induction false} AbsentStays(order: seq<string>, key: string)
    requires key !in order
    ensures Without(order, key) == order
    decreases |order|
  {
    if order == [] {
    } else {
      AbsentStays(order[1..], key);
    }
  }

  /** `List.Remove`: the first occurrence. */
  method RemoveFirst(order: seq<string>, key: string) returns (r: seq<string>)
    requires Distinct(order)
    ensures r == Without(order, key)
  {
    hide Without;
    var i := 0;
    while i < |order| && order[i] != key
      invariant i <= |order| && key !in order[..i]
    {
      i := i + 1;
    }
    if i < |order| {
      WithoutAt(order, i);
      return order[..i] + order[i + 1..];
    }
    assert order[..i] == order;
    AbsentStays(order, key);
    r := order;
  }

  lemma {:induction false} WithoutAt(order: seq<string>, i: nat)
    requires i < |order| && Distinct(order)
    ensures Without(order, order[i]) == order[..i] + order[i + 1..]
    decreases i
  {
    if i == 0 {
      assert order[0] !in order[1..];
      AbsentStays(order[1..], order[0]);
    } else {
      assert order[0] != order[i] && order[1..][i - 1] == order[i];
      WithoutAt(order[1..], i - 1);
      assert order[1..][..i - 1] == order[1..i] && order[1..][i..] == order[i + 1..];
      assert [order[0]] + (order[1..i] + order[i + 1..]) == order[..i] + order[i + 1..];
    }
  }

  /** What is left once every key from place `i` on has been filtered. */
  function Filtered<T>(t: Table<T>, prefix: string, i: nat): Table<T>
    requires i <= |t.order|
  {
    Table(map k | k in t.values && (k in t.order[..i] || StartsWith(k, prefix)) :: t.values[k],
          t.order[..i] + Starting(t.order[i..], prefix))
  }

  /** One half of `RetainEpoch`: from the back, so that removal does not move what is still to be seen. */
  method RetainPrefix<T>(t: Table<T>, prefix: string) returns (u: Table<T>)
    requires Listing(t)
    ensures u == Retain(t, prefix)
  {
    hide StartsWith, Filtered, Listing, Retain;
    var i := |t.order|;
    u := t;
    FilterEnds(t, prefix);
    while i > 0
      invariant 0 <= i <= |t.order| && u == Filtered(t, prefix, i)
    {
      FilterStep(t, prefix, i - 1);
      i := i - 1;
      if !StartsWith(u.order[i], prefix) {
        u := Table(u.values - {u.order[i]}, u.order[..i] + u.order[i + 1..]);
      }
    }
  }

  lemma FilterEnds<T>(t: Table<T>, prefix: string)
    requires Listing(t)
    ensures Filtered(t, prefix, |t.order|) == t && Filtered(t, prefix, 0) == Retain(t, prefix)
  {
    hide StartsWith;
    assert t.order[..|t.order|] == t.order && t.order[0..] == t.order && t.order[|t.order|..] == [];
  }

  lemma FilterStep<T>(t: Table<T>, prefix: string, i: nat)
    requires Listing(t) && i < |t.order|
    ensures var u := Filtered(t, prefix, i + 1);
            && i < |u.order| && u.order[i] == t.order[i]
            && Filtered(t, prefix, i) == if StartsWith(u.order[i], prefix) then u
                                         else Table(u.values - {u.order[i]}, u.order[..i] + u.order[i + 1..])
  {
    hide StartsWith, Starting, Listing;
    FilterOrder(t, prefix, i);
    FilterValues(t, prefix, i);
  }

  lemma FilterOrder<T>(t: Table<T>, prefix: string, i: nat)
    requires i < |t.order|
    ensures var u, v := Filtered(t, prefix, i + 1).order, Filtered(t, prefix, i).order;
            && i < |u| && u[i] == t.order[i]
            && v == if StartsWith(u[i], prefix) then u else u[..i] + u[i + 1..]
  {
    hide StartsWith;
    var a, key, rest := t.order[..i], t.order[i], Starting(t.order[i + 1..], prefix);
    assert t.order[i..][0] == key && t.order[i..][1..] == t.order[i + 1..];
    assert Starting(t.order[i..], prefix) == (if StartsWith(key, prefix) then [key] else []) + rest;
    hide Starting;
    assert t.order[..i + 1] == a + [key];
    var u := a + [key] + rest;
    assert u[..i] == a && u[i + 1..] == rest;
    assert a + ([key] + rest) == u;
  }

  lemma FilterValues<T>(t: Table<T>, prefix: string, i: nat)
    requires Listing(t) && i < |t.order|
    ensures var u, v, key := Filtered(t, prefix, i + 1).values, Filtered(t, prefix, i).values, t.order[i];
            v == if StartsWith(key, prefix) then u else u - {key}
  {
    hide StartsWith, Starting;
    var key := t.order[i];
    assert t.order[..i + 1] == t.order[..i] + [key];
    assert key !in t.order[..i];
  }

  // ---- The gate as a state machine -----------------------------------------------------------

  datatype State<S> = State(seeds: Table<S>, frames: Table<AckedFrame>, epoch: Option<U32>)

  function Start<S>(): State<S> {
    State(Table(map[], []), Table(map[], []), None)
  }

  /** The current stream or a forward one. */
  predicate Accepts(current: Option<U32>, epoch: U32) {
    current.None? || epoch == current.value || IsNewer(epoch, current.value)
  }

  function ObserveStream<S>(s: State<S>, epoch: U32): (State<S>, bool) {
    if s.epoch.Some? && (epoch == s.epoch.value || !IsNewer(epoch, s.epoch.value)) then (s, false)
    else (State(Retain(s.seeds, Prefix(epoch)), Retain(s.frames, Prefix(epoch)), Some(epoch)), s.epoch.Some?)
  }

  function ResetForFreshSnapshot<S>(s: State<S>, frame: Option<AckedFrame>): State<S> {
    if frame.Some? && PairKey(frame.value) in s.seeds.values then
      var key := PairKey(frame.value);
      State(Table(map[key := s.seeds.values[key]], [key]), Table(map[], []), s.epoch)
    else State(Table(map[], []), Table(map[], []), s.epoch)
  }

  function StageSeed<S>(s: State<S>, select: S -> AckedFrame, limit: nat, seed: S): (State<S>, Option<S>) {
    var key := PairKey(select(seed));
    if !Accepts(s.epoch, select(seed).epoch) then (s, None)
    else if key in s.frames.values then (s.(frames := Take(s.frames, key)), Some(seed))
    else (s.(seeds := Put(s.seeds, key, seed, limit)), None)
  }

  function StageFrame<S>(s: State<S>, limit: nat, frame: AckedFrame): (State<S>, Option<S>) {
    var key := PairKey(frame);
    if key in s.seeds.values then (s.(seeds := Take(s.seeds, key)), Some(s.seeds.values[key]))
    else (s.(frames := Put(s.frames, key, frame, limit)), None)
  }

  // ---- The object ------------------------------------------------------------------------------

  class ReconciliationGate<!S> {
    const select: S -> AckedFrame
    const limit: nat
    var seeds: Table<S>
    var frames: Table<AckedFrame>
    var epoch: Option<U32>

    ghost function Now(): State<S>
      reads this
    {
      State(seeds, frames, epoch)
    }

    ghost predicate Valid()
      reads this
    {
      limit > 0 && Sound(Now(), select, limit)
    }

    constructor (select: S -> AckedFrame, limit: nat)
      requires limit > 0
      ensures Valid() && Now() == Start() && this.select == select && this.limit == limit
    {
      this.select, this.limit := select, limit;
      seeds, frames, epoch := Table(map[], []), Table(map[], []), None;
    }

    method Observe(streamEpoch: U32) returns (changed: bool)
      requires Valid()
      modifies this
      ensures Valid() && (Now(), changed) == ObserveStream(old(Now()), streamEpoch)
    {
      ObserveKeeps(Now(), select, limit, streamEpoch);
      if epoch.Some? && (streamEpoch == epoch.value || !IsNewer(streamEpoch, epoch.value)) {
        return false;
      }
      changed := epoch.Some?;
      seeds := RetainPrefix(seeds, Prefix(streamEpoch));
      frames := RetainPrefix(frames, Prefix(streamEpoch));
      epoch := Some(streamEpoch);
    }

    method ResetFor(frame: Option<AckedFrame>)
      requires Valid()
      modifies this
      ensures Valid() && Now() == ResetForFreshSnapshot(old(Now()), frame)
    {
      ResetKeeps(Now(), select, limit, frame);
      var matching: Option<S>, key := None, "";
      if frame.Some? {
        key := PairKey(frame.value);
        matching := if key in seeds.values then Some(seeds.values[key]) else None;
      }
      seeds, frames := Table(map[], []), Table(map[], []);
      if matching.Some? {
        seeds := Table(map[key := matching.value], [key]);
      }
    }

    /** A pair is returned exactly when the frame was already there. */
    method TryStageSeed(seed: S) returns (paired: Option<S>)
      requires Valid()
      modifies this
      ensures Valid() && (Now(), paired) == StageSeed(old(Now()), select, limit, seed)
    {
      SeedKeeps(Now(), select, limit, seed);
      if !Accepts(epoch, select(seed).epoch) {
        return None;
      }
      var key := PairKey(select(seed));
      if key in frames.values {
        var order := RemoveFirst(frames.order, key);
        frames := Table(frames.values - {key}, order);
        return Some(seed);
      }
      seeds := AddBounded(seeds, key, seed, limit);
      paired := None;
    }

    method TryStageFrame(frame: AckedFrame) returns (paired: Option<S>)
      requires Valid()
      modifies this
      ensures Valid() && (Now(), paired) == StageFrame(old(Now()), limit, frame)
    {
      FrameKeeps(Now(), select, limit, frame);
      var key := PairKey(frame);
      if key in seeds.values {
        paired := Some(seeds.values[key]);
        var order := RemoveFirst(seeds.order, key);
        seeds := Table(seeds.values - {key}, order);
        return;
      }
      frames := AddBounded(frames, key, frame, limit);
      paired := None;
    }

    method Reset()
      requires Valid()
      modifies this
      ensures Valid() && Now() == Start()
    {
      seeds, frames, epoch := Table(map[], []), Table(map[], []), None;
    }
  }

  // ---- What every run keeps ----------------------------------------------------------------------

  ghost predicate Bounded<T>(t: Table<T>, limit: nat) {
    Listing(t) && |t.order| <= limit
  }

  /** Both tables are listings within bounds, nothing waits on both sides, and every value waits under its own key. */
  ghost predicate Sound<S>(s: State<S>, select: S -> AckedFrame, limit: nat) {
    && Bounded(s.seeds, limit) && Bounded(s.frames, limit)
    && s.seeds.values.Keys !! s.frames.values.Keys
    && (forall k :: k in s.seeds.values ==> PairKey(select(s.seeds.values[k])) == k)
    && (forall k :: k in s.frames.values ==> PairKey(s.frames.values[k]) == k)
    && (forall k :: k in s.seeds.values ==> Accepts(s.epoch, select(s.seeds.values[k]).epoch))
  }

  lemma ObserveKeeps<S>(s: State<S>, select: S -> AckedFrame, limit: nat, epoch: U32)
    requires Sound(s, select, limit)
    ensures Sound(ObserveStream(s, epoch).0, select, limit)
  {
    hide StartsWith, PairKey, Prefix, IsNewer, Listing, Starting;
    RetainKeeps(s.seeds, Prefix(epoch));
    RetainKeeps(s.frames, Prefix(epoch));
    forall k | k in s.seeds.values && StartsWith(k, Prefix(epoch)) ensures select(s.seeds.values[k]).epoch == epoch {
      PrefixIsEpoch(select(s.seeds.values[k]), epoch);
    }
  }

  lemma ResetKeeps<S>(s: State<S>, select: S -> AckedFrame, limit: nat, frame: Option<AckedFrame>)
    requires Sound(s, select, limit) && limit > 0
    ensures Sound(ResetForFreshSnapshot(s, frame), select, limit)
  {
    hide PairKey, IsNewer;
  }

  lemma SeedKeeps<S>(s: State<S>, select: S -> AckedFrame, limit: nat, seed: S)
    requires Sound(s, select, limit) && limit > 0
    ensures Sound(StageSeed(s, select, limit, seed).0, select, limit)
  {
    hide PairKey, IsNewer, Listing, Put;
    var key := PairKey(select(seed));
    PutKeeps(s.seeds, key, seed, limit);
    TakeKeeps(s.frames, key);
  }

  lemma FrameKeeps<S>(s: State<S>, select: S -> AckedFrame, limit: nat, frame: AckedFrame)
    requires Sound(s, select, limit) && limit > 0
    ensures Sound(StageFrame(s, limit, frame).0, select, limit)
  {
    hide PairKey, IsNewer, Listing, Put;
    var key := PairKey(frame);
    PutKeeps(s.frames, key, frame, limit);
    TakeKeeps(s.seeds, key);
  }

  datatype Action<S> =
    | Observe(epoch: U32)
    | Fresh(frame: Option<AckedFrame>)
    | Seed(seed: S)
    | Frame(frame': AckedFrame)
    | Restart

  function Step<S>(s: State<S>, select: S -> AckedFrame, limit: nat, a: Action<S>): (State<S>, Option<S>) {
    match a
    case Observe(epoch) => (ObserveStream(s, epoch).0, None)
    case Fresh(frame) => (ResetForFreshSnapshot(s, frame), None)
    case Seed(seed) => StageSeed(s, select, limit, seed)
    case Frame(frame) => StageFrame(s, limit, frame)
    case Restart => (Start(), None)
  }

  function Run<S>(select: S -> AckedFrame, limit: nat, actions: seq<Action<S>>): State<S>
    decreases |actions|
  {
    if actions == [] then Start()
    else Step(Run(select, limit, actions[..|actions| - 1]), select, limit, actions[|actions| - 1]).0
  }

  lemma {:induction false} AlwaysSound<S>(select: S -> AckedFrame, limit: nat, actions: seq<Action<S>>)
    requires limit > 0
    ensures Sound(Run(select, limit, actions), select, limit)
    decreases |actions|
  {
    hide Sound, ObserveStream, ResetForFreshSnapshot, StageSeed, StageFrame;
    if actions == [] {
      StartSound(select, limit);
    } else {
      var n := |actions| - 1;
      AlwaysSound(select, limit, actions[..n]);
      var s := Run(select, limit, actions[..n]);
      match actions[n]
      case Observe(epoch) => ObserveKeeps(s, select, limit, epoch);
      case Fresh(frame) => ResetKeeps(s, select, limit, frame);
      case Seed(seed) => SeedKeeps(s, select, limit, seed);
      case Frame(frame) => FrameKeeps(s, select, limit, frame);
      case Restart => StartSound(select, limit);
    }
  }

  lemma StartSound<S>(select: S -> AckedFrame, limit: nat)
    ensures Sound(Start(), select, limit)
  {
  }

  /** A returned seed belongs to exactly the frame it was paired with, and neither half is left waiting. */
  lemma PairsMatch<S>(s: State<S>, select: S -> AckedFrame, limit: nat, frame: AckedFrame)
    requires Sound(s, select, limit)
    ensures var (t, paired) := StageFrame(s, limit, frame);
            && (paired.Some? <==> exists k :: k in s.seeds.values && select(s.seeds.values[k]) == frame)
            && (paired.Some? ==> select(paired.value) == frame)
            && (paired.Some? ==> PairKey(frame) !in t.seeds.values && PairKey(frame) !in t.frames.values)
  {
    hide Listing, Accepts, Put;
    var key := PairKey(frame);
    if key in s.seeds.values {
      PairKeyInjective(select(s.seeds.values[key]), frame);
    }
  }

  lemma SeedPairsMatch<S>(s: State<S>, select: S -> AckedFrame, limit: nat, seed: S)
    requires Sound(s, select, limit)
    ensures var (t, paired) := StageSeed(s, select, limit, seed);
            && (paired.Some? <==> Accepts(s.epoch, select(seed).epoch)
                                  && exists k :: k in s.frames.values && s.frames.values[k] == select(seed))
            && (paired.Some? ==> paired == Some(seed))
            && (paired.Some? ==> PairKey(select(seed)) !in t.seeds.values && PairKey(select(seed)) !in t.frames.values)
  {
    hide Listing, Put, IsNewer;
    var key := PairKey(select(seed));
    if key in s.frames.values {
      PairKeyInjective(s.frames.values[key], select(seed));
    }
  }

  // ---- Each half is used once ------------------------------------------------------------------

  function One(b: bool): nat {
    if b then 1 else 0
  }

  predicate IsSeed<S>(a: Action<S>, select: S -> AckedFrame, f: AckedFrame) {
    a.Seed? && select(a.seed) == f
  }

  predicate IsFrame<S>(a: Action<S>, f: AckedFrame) {
    a.Frame? && a.frame' == f
  }

  function SeedsStaged<S>(select: S -> AckedFrame, actions: seq<Action<S>>, f: AckedFrame): nat
    decreases |actions|
  {
    if actions == [] then 0
    else SeedsStaged(select, actions[..|actions| - 1], f) + One(IsSeed(actions[|actions| - 1], select, f))
  }

  function FramesStaged<S>(actions: seq<Action<S>>, f: AckedFrame): nat
    decreases |actions|
  {
    if actions == [] then 0
    else FramesStaged(actions[..|actions| - 1], f) + One(IsFrame(actions[|actions| - 1], f))
  }

  /** The step returned a pair for this identity. */
  predicate Pairs<S>(s: State<S>, select: S -> AckedFrame, limit: nat, a: Action<S>, f: AckedFrame) {
    (IsSeed(a, select, f) || IsFrame(a, f)) && Step(s, select, limit, a).1.Some?
  }

  function PairsMade<S>(select: S -> AckedFrame, limit: nat, actions: seq<Action<S>>, f: AckedFrame): nat
    decreases |actions|
  {
    if actions == [] then 0
    else
      var earlier := actions[..|actions| - 1];
      PairsMade(select, limit, earlier, f)
      + One(Pairs(Run(select, limit, earlier), select, limit, actions[|actions| - 1], f))
  }

  /** How one step changes what waits under an identity. */
  lemma WaitingSteps<S>(s: State<S>, select: S -> AckedFrame, limit: nat, a: Action<S>, f: AckedFrame)
    requires Sound(s, select, limit) && limit > 0
    ensures var t, key := Step(s, select, limit, a).0, PairKey(f);
            && One(key in t.seeds.values) + One(Pairs(s, select, limit, a, f))
               <= One(key in s.seeds.values) + One(IsSeed(a, select, f))
            && One(key in t.frames.values) + One(Pairs(s, select, limit, a, f))
               <= One(key in s.frames.values) + One(IsFrame(a, f))
  {
    hide PairKey, IsNewer, Listing, Put, Sound, Without, StartsWith, Starting;
    var key := PairKey(f);
    SoundParts(s, select, limit);
    match a
    case Observe(_) =>
    case Fresh(_) =>
    case Restart =>
    case Seed(seed) =>
      PutKeeps(s.seeds, PairKey(select(seed)), seed, limit);
      if select(seed) != f && PairKey(select(seed)) == key { PairKeyInjective(select(seed), f); }
      SeedPairsMatch(s, select, limit, seed);
    case Frame(frame) =>
      PutKeeps(s.frames, PairKey(frame), frame, limit);
      if frame != f && PairKey(frame) == key { PairKeyInjective(frame, f); }
      PairsMatch(s, select, limit, frame);
  }

  lemma SoundParts<S>(s: State<S>, select: S -> AckedFrame, limit: nat)
    requires Sound(s, select, limit)
    ensures Listing(s.seeds) && Listing(s.frames) && s.seeds.values.Keys !! s.frames.values.Keys
  {
  }

  /** In every run an identity is paired at most as often as each half of it was staged, counting what still waits. */
  lemma {:induction false} UsedOnce<S>(select: S -> AckedFrame, limit: nat, actions: seq<Action<S>>, f: AckedFrame)
    requires limit > 0
    ensures var s, pairs := Run(select, limit, actions), PairsMade(select, limit, actions, f);
            && pairs + One(PairKey(f) in s.seeds.values) <= SeedsStaged(select, actions, f)
            && pairs + One(PairKey(f) in s.frames.values) <= FramesStaged(actions, f)
    decreases |actions|
  {
    hide PairKey, Step, Pairs, IsSeed, IsFrame, Sound;
    if actions == [] {
    } else {
      var n := |actions| - 1;
      UsedOnce(select, limit, actions[..n], f);
      AlwaysSound(select, limit, actions[..n]);
      WaitingSteps(Run(select, limit, actions[..n]), select, limit, actions[n], f);
    }
  }

  // ---- The tables hold the newest ---------------------------------------------------------------

  ghost predicate IsSuffix(order: seq<string>, history: seq<string>) {
    |order| <= |history| && history[|history| - |order|..] == order
  }

  /** The stream epochs observed since the last restart. */
  function Observed<S>(actions: seq<Action<S>>): seq<U32>
    decreases |actions|
  {
    if actions == [] then []
    else
      var n := |actions| - 1;
      match actions[n]
      case Observe(epoch) => Observed(actions[..n]) + [epoch]
      case Restart => []
      case _ => Observed(actions[..n])
  }

  /** The stream a run is in: the serially latest epoch observed since the last restart. */
  function Stream<S>(actions: seq<Action<S>>): Option<U32> {
    Latest(None, Observed(actions))
  }

  /** The epoch begins a stream: there was none, or it is serially newer. */
  predicate Begins(current: Option<U32>, epoch: U32) {
    current.None? || IsNewer(epoch, current.value)
  }

  /** What each action does to the recorded epoch: observing takes the later one, a restart forgets it. */
  lemma EpochSteps<S>(s: State<S>, select: S -> AckedFrame, limit: nat, a: Action<S>)
    ensures Step(s, select, limit, a).0.epoch ==
            match a case Observe(epoch) => Later(s.epoch, epoch) case Restart => None case _ => s.epoch
  {
    hide PairKey, Put, Take, Retain;
    if a.Observe? && s.epoch.Some? {
      NewerAsymmetric(a.epoch, s.epoch.value);
    }
  }

  lemma StreamSteps<S>(actions: seq<Action<S>>)
    requires actions != []
    ensures var n := |actions| - 1;
            Stream(actions) == match actions[n]
                               case Observe(epoch) => Later(Stream(actions[..n]), epoch)
                               case Restart => None
                               case _ => Stream(actions[..n])
  {
    hide Later;
    var n := |actions| - 1;
    match actions[n]
    case Observe(epoch) =>
      LatestConcat(None, Observed(actions[..n]), [epoch]);
      assert Latest(Stream(actions[..n]), [epoch]) == Later(Stream(actions[..n]), epoch);
    case _ =>
  }

  /** In every run the recorded epoch is the latest one observed since the last restart. */
  lemma {:induction false} EpochIsStream<S>(select: S -> AckedFrame, limit: nat, actions: seq<Action<S>>)
    ensures Run(select, limit, actions).epoch == Stream(actions)
    decreases |actions|
  {
    hide Step, Stream, Later;
    if actions == [] {
      NoStream<S>();
    } else {
      var n := |actions| - 1;
      EpochIsStream(select, limit, actions[..n]);
      EpochSteps(Run(select, limit, actions[..n]), select, limit, actions[n]);
      StreamSteps(actions);
    }
  }

  lemma NoStream<S>()
    ensures Stream<S>([]) == None
  {
  }

  /** Observing answers true exactly when the run already is in a stream and this one is newer. */
  lemma ObserveAnswers<S>(select: S -> AckedFrame, limit: nat, actions: seq<Action<S>>, epoch: U32)
    ensures ObserveStream(Run(select, limit, actions), epoch).1 <==>
              Stream(actions).Some? && IsNewer(epoch, Stream(actions).value)
  {
    hide Stream, Run, Retain;
    EpochIsStream(select, limit, actions);
    if Stream(actions).Some? {
      NewerAsymmetric(epoch, Stream(actions).value);
    }
  }

  /** The seeds staged in a run and neither paired nor cleared since, in the order of their last staging. */
  function SeedHistory<S>(select: S -> AckedFrame, limit: nat, actions: seq<Action<S>>): seq<string>
    decreases |actions|
  {
    if actions == [] then []
    else
      var n := |actions| - 1;
      var h, s := SeedHistory(select, limit, actions[..n]), Run(select, limit, actions[..n]);
      match actions[n]
      case Observe(epoch) => if Begins(Stream(actions[..n]), epoch) then Starting(h, Prefix(epoch)) else h
      case Fresh(frame) => if frame.Some? && PairKey(frame.value) in s.seeds.values then [PairKey(frame.value)] else []
      case Seed(seed) =>
        var key := PairKey(select(seed));
        if !Accepts(Stream(actions[..n]), select(seed).epoch) || key in s.frames.values then h
        else Without(h, key) + [key]
      case Frame(frame) => if PairKey(frame) in s.seeds.values then Without(h, PairKey(frame)) else h
      case Restart => []
  }

  /** The same for frames. */
  function FrameHistory<S>(select: S -> AckedFrame, limit: nat, actions: seq<Action<S>>): seq<string>
    decreases |actions|
  {
    if actions == [] then []
    else
      var n := |actions| - 1;
      var h, s := FrameHistory(select, limit, actions[..n]), Run(select, limit, actions[..n]);
      match actions[n]
      case Observe(epoch) => if Begins(Stream(actions[..n]), epoch) then Starting(h, Prefix(epoch)) else h
      case Fresh(_) => []
      case Seed(seed) =>
        var key := PairKey(select(seed));
        if Accepts(Stream(actions[..n]), select(seed).epoch) && key in s.frames.values then Without(h, key) else h
      case Frame(frame) => if PairKey(frame) in s.seeds.values then h else Without(h, PairKey(frame)) + [PairKey(frame)]
      case Restart => []
  }

  /** An observed epoch that does not begin a stream changes nothing, one that does filters both tables. */
  lemma ObserveBegins<S>(s: State<S>, a: Action<S>)
    ensures a.Observe? ==>
              ObserveStream(s, a.epoch).0 ==
              if Begins(s.epoch, a.epoch)
              then State(Retain(s.seeds, Prefix(a.epoch)), Retain(s.frames, Prefix(a.epoch)), Some(a.epoch)) else s
  {
    hide Retain, Prefix;
    if a.Observe? && s.epoch.Some? {
      NewerAsymmetric(a.epoch, s.epoch.value);
    }
  }

  lemma {:induction false} WithoutConcat(a: seq<string>, b: seq<string>, key: string)
    ensures Without(a + b, key) == Without(a, key) + Without(b, key)
    decreases |a|
  {
    if a == [] {
      assert a + b == b;
    } else {
      assert (a + b)[0] == a[0] && (a + b)[1..] == a[1..] + b;
      WithoutConcat(a[1..], b, key);
    }
  }

  lemma {:induction false} StartingConcat(a: seq<string>, b: seq<string>, prefix: string)
    ensures Starting(a + b, prefix) == Starting(a, prefix) + Starting(b, prefix)
    decreases |a|
  {
    hide StartsWith;
    if a == [] {
      assert a + b == b;
    } else {
      assert (a + b)[0] == a[0] && (a + b)[1..] == a[1..] + b;
      StartingConcat(a[1..], b, prefix);
    }
  }

  /** Removing, filtering, and inserting at the back within the limit keep a suffix a suffix. */
  lemma SuffixKept(order: seq<string>, history: seq<string>, key: string, limit: nat, prefix: string)
    requires IsSuffix(order, history)
    ensures IsSuffix(Without(order, key), Without(history, key))
    ensures IsSuffix(Starting(order, prefix), Starting(history, prefix))
    ensures IsSuffix(Newest(Without(order, key) + [key], limit), Without(history, key) + [key])
  {
    hide Without, Starting;
    var front := history[..|history| - |order|];
    assert history == front + order;
    WithoutConcat(front, order, key);
    StartingConcat(front, order, prefix);
    var o, h := Without(order, key), Without(history, key);
    assert h == Without(front, key) + o;
    assert h + [key] == Without(front, key) + (o + [key]);
  }

  /**
   In every run each table lists the newest of what was staged and not used or cleared
   since: no older key outlasts a newer.
   */
  lemma {:induction false} TablesHoldNewest<S>(select: S -> AckedFrame, limit: nat, actions: seq<Action<S>>)
    ensures IsSuffix(Run(select, limit, actions).seeds.order, SeedHistory(select, limit, actions))
    ensures IsSuffix(Run(select, limit, actions).frames.order, FrameHistory(select, limit, actions))
    decreases |actions|
  {
    hide PairKey, Prefix, Starting, Without, Newest, IsNewer, Restrict, StartsWith, Stream;
    if actions == [] {
      assert Run(select, limit, actions) == Start();
    } else {
      var n := |actions| - 1;
      TablesHoldNewest(select, limit, actions[..n]);
      EpochIsStream(select, limit, actions[..n]);
      ObserveBegins(Run(select, limit, actions[..n]), actions[n]);
      var s := Run(select, limit, actions[..n]);
      var hs, hf := SeedHistory(select, limit, actions[..n]), FrameHistory(select, limit, actions[..n]);
      var key, prefix := KeyOf(actions[n], select), PrefixOf(actions[n]);
      SuffixKept(s.seeds.order, hs, key, limit, prefix);
      SuffixKept(s.frames.order, hf, key, limit, prefix);
    }
  }

  /** While no more than the limit were ever waiting, a table lists all of them. */
  lemma {:induction false} NothingEvicted<S>(select: S -> AckedFrame, limit: nat, actions: seq<Action<S>>)
    requires forall k | 0 <= k <= |actions| ::
      |SeedHistory(select, limit, actions[..k])| <= limit && |FrameHistory(select, limit, actions[..k])| <= limit
    ensures Run(select, limit, actions).seeds.order == SeedHistory(select, limit, actions)
    ensures Run(select, limit, actions).frames.order == FrameHistory(select, limit, actions)
    decreases |actions|
  {
    hide SeedHistory, FrameHistory, Run;
    HistoriesStart(select, limit);
    if actions == [] {
      assert actions[..0] == [];
    } else {
      var n := |actions| - 1;
      assert forall k | 0 <= k <= n :: actions[..n][..k] == actions[..k];
      NothingEvicted(select, limit, actions[..n]);
      assert actions[..|actions|] == actions;
      AllKept(select, limit, actions);
    }
  }

  lemma HistoriesStart<S>(select: S -> AckedFrame, limit: nat)
    ensures SeedHistory(select, limit, []) == [] == FrameHistory(select, limit, []) && Run(select, limit, []) == Start()
  {
  }

  lemma AllKept<S>(select: S -> AckedFrame, limit: nat, actions: seq<Action<S>>)
    requires actions != []
    requires var earlier := actions[..|actions| - 1];
             && Run(select, limit, earlier).seeds.order == SeedHistory(select, limit, earlier)
             && Run(select, limit, earlier).frames.order == FrameHistory(select, limit, earlier)
    requires |SeedHistory(select, limit, actions)| <= limit && |FrameHistory(select, limit, actions)| <= limit
    ensures Run(select, limit, actions).seeds.order == SeedHistory(select, limit, actions)
    ensures Run(select, limit, actions).frames.order == FrameHistory(select, limit, actions)
  {
    hide PairKey, Prefix, Starting, Without, IsNewer, Restrict, StartsWith, Stream;
    EpochIsStream(select, limit, actions[..|actions| - 1]);
    ObserveBegins(Run(select, limit, actions[..|actions| - 1]), actions[|actions| - 1]);
    match actions[|actions| - 1]
    case Observe(_) =>
    case Fresh(_) =>
    case Seed(_) =>
    case Frame(_) =>
    case Restart =>
  }

  ghost function KeyOf<S>(a: Action<S>, select: S -> AckedFrame): string {
    match a
    case Seed(seed) => PairKey(select(seed))
    case Frame(frame) => PairKey(frame)
    case _ => ""
  }

  ghost function PrefixOf<S>(a: Action<S>): string {
    if a.Observe? then Prefix(a.epoch) else ""
  }
}
