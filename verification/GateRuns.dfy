/**
 The gate against a plain one. The plain gate has no dictionaries, no text keys and no
 key lists: it keeps two lists of waiting records, oldest first, compares identities, and
 reads the stream it is in off the actions so far. Over every run the gate of
 ReconciliationGate.cs gives the same answers and holds the same records in the same order.
 */
module GateRuns {
  import opened Words
  import opened Serial
  import opened PairKeys
  import opened Gate

  // ---- The plain gate -------------------------------------------------------------------

  datatype Plain<S> = Plain(seeds: seq<S>, frames: seq<AckedFrame>)

  /** The records of another identity than `f`. */
  function Others<T>(list: seq<T>, id: T -> AckedFrame, f: AckedFrame): seq<T> {
    if list == [] then [] else (if id(list[0]) == f then [] else [list[0]]) + Others(list[1..], id, f)
  }

  function Same<T>(list: seq<T>, id: T -> AckedFrame, f: AckedFrame): seq<T> {
    if list == [] then [] else (if id(list[0]) == f then [list[0]] else []) + Same(list[1..], id, f)
  }

  function OfStream<T>(list: seq<T>, id: T -> AckedFrame, epoch: U32): seq<T> {
    if list == [] then [] else (if id(list[0]).epoch == epoch then [list[0]] else []) + OfStream(list[1..], id, epoch)
  }

  /** The record replaces an older one of its identity; only the newest `limit` wait. */
  function Staged<T>(list: seq<T>, id: T -> AckedFrame, x: T, limit: nat): seq<T> {
    var all := Others(list, id, id(x)) + [x];
    if |all| > limit then all[|all| - limit..] else all
  }

  function Itself(f: AckedFrame): AckedFrame {
    f
  }

  function PlainStep<S>(p: Plain<S>, stream: Option<U32>, select: S -> AckedFrame, limit: nat, a: Action<S>)
    : (Plain<S>, Option<S>)
  {
    match a
    case Observe(epoch) =>
      if Begins(stream, epoch) then (Plain(OfStream(p.seeds, select, epoch), OfStream(p.frames, Itself, epoch)), None)
      else (p, None)
    case Fresh(None) => (Plain([], []), None)
    case Fresh(Some(frame)) => (Plain(Same(p.seeds, select, frame), []), None)
    case Seed(seed) =>
      if !Accepts(stream, select(seed).epoch) then (p, None)
      else if select(seed) in p.frames then (p.(frames := Others(p.frames, Itself, select(seed))), Some(seed))
      else (p.(seeds := Staged(p.seeds, select, seed, limit)), None)
    case Frame(frame) =>
      var waiting := Same(p.seeds, select, frame);
      if waiting == [] then (p.(frames := Staged(p.frames, Itself, frame, limit)), None)
      else (p.(seeds := Others(p.seeds, select, frame)), Some(waiting[0]))
    case Restart => (Plain([], []), None)
  }

  function PlainRun<S>(select: S -> AckedFrame, limit: nat, actions: seq<Action<S>>): Plain<S>
    decreases |actions|
  {
    if actions == [] then Plain([], [])
    else
      var n := |actions| - 1;
      PlainStep(PlainRun(select, limit, actions[..n]), Stream(actions[..n]), select, limit, actions[n]).0
  }

  // ---- A table that holds a list ----------------------------------------------------------

  function KeysOf<T>(list: seq<T>, id: T -> AckedFrame): (keys: seq<string>)
    ensures |keys| == |list| && forall i :: 0 <= i < |keys| ==> keys[i] == PairKey(id(list[i]))
  {
    seq(|list|, i requires 0 <= i < |list| => PairKey(id(list[i])))
  }

  /** The table lists the records in this order and finds each under its own key. */
  ghost predicate Holds<T>(t: Table<T>, list: seq<T>, id: T -> AckedFrame) {
    && t.order == KeysOf(list, id)
    && forall i :: 0 <= i < |list| ==> t.order[i] in t.values && t.values[t.order[i]] == list[i]
  }

  lemma KeysSplit<T>(list: seq<T>, id: T -> AckedFrame)
    requires list != []
    ensures KeysOf(list, id)[0] == PairKey(id(list[0])) && KeysOf(list, id)[1..] == KeysOf(list[1..], id)
  {
    hide PairKey;
  }

  lemma KeysConcat<T>(a: seq<T>, b: seq<T>, id: T -> AckedFrame)
    ensures KeysOf(a + b, id) == KeysOf(a, id) + KeysOf(b, id)
  {
    hide PairKey;
  }

  lemma SameKey(f: AckedFrame, g: AckedFrame)
    ensures PairKey(f) == PairKey(g) <==> f == g
  {
    if PairKey(f) == PairKey(g) { PairKeyInjective(f, g); }
  }

  lemma {:induction false} OthersKeys<T>(list: seq<T>, id: T -> AckedFrame, f: AckedFrame)
    ensures Without(KeysOf(list, id), PairKey(f)) == KeysOf(Others(list, id, f), id)
    ensures forall x :: x in Others(list, id, f) ==> x in list && id(x) != f
    decreases |list|
  {
    hide PairKey, KeysOf;
    if list == [] {
      assert |KeysOf(list, id)| == 0;
    } else {
      KeysSplit(list, id);
      SameKey(id(list[0]), f);
      OthersKeys(list[1..], id, f);
      KeysConcat([list[0]], Others(list[1..], id, f), id);
      assert KeysOf([list[0]], id) == [PairKey(id(list[0]))];
      assert [] + Others(list[1..], id, f) == Others(list[1..], id, f);
    }
  }

  lemma {:induction false} StreamKeys<T>(list: seq<T>, id: T -> AckedFrame, epoch: U32)
    ensures Starting(KeysOf(list, id), Prefix(epoch)) == KeysOf(OfStream(list, id, epoch), id)
    ensures forall x :: x in OfStream(list, id, epoch) ==> x in list && id(x).epoch == epoch
    decreases |list|
  {
    hide PairKey, KeysOf, StartsWith, Prefix;
    if list == [] {
      assert |KeysOf(list, id)| == 0;
    } else {
      KeysSplit(list, id);
      PrefixIsEpoch(id(list[0]), epoch);
      StreamKeys(list[1..], id, epoch);
      KeysConcat([list[0]], OfStream(list[1..], id, epoch), id);
      assert KeysOf([list[0]], id) == [PairKey(id(list[0]))];
      assert [] + OfStream(list[1..], id, epoch) == OfStream(list[1..], id, epoch);
    }
  }

  /** Among records of distinct identities at most one is `f`: the one the table finds under its key. */
  lemma {:induction false} SameIsOne<T>(list: seq<T>, id: T -> AckedFrame, f: AckedFrame)
    requires Distinct(KeysOf(list, id))
    ensures var same := Same(list, id, f);
            if PairKey(f) in KeysOf(list, id)
            then |same| == 1 && same[0] in list && id(same[0]) == f else same == []
    decreases |list|
  {
    hide PairKey, KeysOf;
    if list == [] {
      assert |KeysOf(list, id)| == 0;
    } else {
      var keys, rest := KeysOf(list, id), KeysOf(list[1..], id);
      KeysSplit(list, id);
      assert keys == [keys[0]] + rest;
      assert keys[0] !in rest;
      SameKey(id(list[0]), f);
      SameIsOne(list[1..], id, f);
    }
  }

  lemma HoldsEach<T>(t: Table<T>, list: seq<T>, id: T -> AckedFrame, x: T)
    requires Holds(t, list, id) && x in list
    ensures PairKey(id(x)) in t.values && t.values[PairKey(id(x))] == x && PairKey(id(x)) in t.order
  {
    hide PairKey;
    var i :| 0 <= i < |list| && list[i] == x;
    assert t.order[i] == PairKey(id(x));
  }

  /** A table whose list is part of another's and whose values agree holds that part. */
  lemma HoldsPart<T>(t: Table<T>, list: seq<T>, id: T -> AckedFrame, u: Table<T>, part: seq<T>)
    requires Holds(t, list, id) && u.order == KeysOf(part, id)
    requires forall x :: x in part ==> x in list
    requires forall x :: x in part ==>
               var key := PairKey(id(x)); key in t.values ==> key in u.values && u.values[key] == t.values[key]
    ensures Holds(u, part, id)
  {
    hide PairKey;
    forall i | 0 <= i < |part|
      ensures u.order[i] in u.values && u.values[u.order[i]] == part[i]
    {
      assert part[i] in part;
      HoldsEach(t, list, id, part[i]);
    }
  }

  lemma TakeHolds<T>(t: Table<T>, list: seq<T>, id: T -> AckedFrame, f: AckedFrame)
    requires Holds(t, list, id)
    ensures Holds(Take(t, PairKey(f)), Others(list, id, f), id)
  {
    hide PairKey, KeysOf, Without, Others, Holds;
    HoldsOrder(t, list, id);
    OthersKeys(list, id, f);
    forall x | x in Others(list, id, f)
      ensures PairKey(id(x)) != PairKey(f)
    {
      SameKey(id(x), f);
    }
    HoldsPart(t, list, id, Take(t, PairKey(f)), Others(list, id, f));
  }

  lemma HoldsOrder<T>(t: Table<T>, list: seq<T>, id: T -> AckedFrame)
    requires Holds(t, list, id)
    ensures t.order == KeysOf(list, id)
  {
  }

  lemma RetainHolds<T>(t: Table<T>, list: seq<T>, id: T -> AckedFrame, epoch: U32)
    requires Holds(t, list, id)
    ensures Holds(Retain(t, Prefix(epoch)), OfStream(list, id, epoch), id)
  {
    hide PairKey, KeysOf, Starting, OfStream, Holds, StartsWith, Prefix;
    HoldsOrder(t, list, id);
    StreamKeys(list, id, epoch);
    forall x | x in OfStream(list, id, epoch)
      ensures StartsWith(PairKey(id(x)), Prefix(epoch))
    {
      PrefixIsEpoch(id(x), epoch);
    }
    HoldsPart(t, list, id, Retain(t, Prefix(epoch)), OfStream(list, id, epoch));
  }

  lemma NewestKeys<T>(list: seq<T>, id: T -> AckedFrame, limit: nat)
    ensures Newest(KeysOf(list, id), limit) ==
            KeysOf(if |list| > limit then list[|list| - limit..] else list, id)
  {
    hide PairKey;
  }

  lemma PutHolds<T>(t: Table<T>, list: seq<T>, id: T -> AckedFrame, x: T, limit: nat)
    requires Holds(t, list, id)
    ensures Holds(Put(t, PairKey(id(x)), x, limit), Staged(list, id, x, limit), id)
  {
    hide PairKey, KeysOf, Without, Others, Holds, Newest;
    var key, others := PairKey(id(x)), Others(list, id, id(x));
    TakeHolds(t, list, id, id(x));
    HoldsOrder(Take(t, key), others, id);
    KeysConcat(others, [x], id);
    assert KeysOf([x], id) == [key];
    var wide := Table(t.values[key := x], Without(t.order, key) + [key]);
    AppendHolds(Take(t, key), others, id, x, wide);
    NewestKeys(others + [x], id, limit);
    var u, staged := Put(t, key, x, limit), Staged(list, id, x, limit);
    assert forall y :: y in staged ==> y in others + [x];
    forall y | y in staged
      ensures PairKey(id(y)) in wide.values ==> PairKey(id(y)) in u.values
    {
      KeyListed(staged, id, y);
    }
    HoldsPart(wide, others + [x], id, u, staged);
  }

  lemma KeyListed<T>(list: seq<T>, id: T -> AckedFrame, x: T)
    requires x in list
    ensures PairKey(id(x)) in KeysOf(list, id)
  {
    hide PairKey;
    var i :| 0 <= i < |list| && list[i] == x;
    assert KeysOf(list, id)[i] == PairKey(id(x));
  }

  lemma AppendHolds<T>(t: Table<T>, list: seq<T>, id: T -> AckedFrame, x: T, u: Table<T>)
    requires Holds(t, list, id) && u.order == KeysOf(list + [x], id)
    requires PairKey(id(x)) in u.values && u.values[PairKey(id(x))] == x
    requires PairKey(id(x)) !in t.values
    requires forall k :: k in t.values ==> k in u.values && u.values[k] == t.values[k]
    ensures Holds(u, list + [x], id)
  {
    hide PairKey;
  }

  /** What waits under `f` in the list is what the table finds under its key. */
  lemma SameHolds<T>(t: Table<T>, list: seq<T>, id: T -> AckedFrame, f: AckedFrame)
    requires Holds(t, list, id) && Listing(t)
    ensures Same(list, id, f) == if PairKey(f) in t.values then [t.values[PairKey(f)]] else []
  {
    hide PairKey, KeysOf, Same, Holds, Distinct;
    HoldsOrder(t, list, id);
    SameIsOne(list, id, f);
    if PairKey(f) in t.values {
      var x := Same(list, id, f)[0];
      HoldsEach(t, list, id, x);
    }
  }

  lemma FrameListed(t: Table<AckedFrame>, list: seq<AckedFrame>, f: AckedFrame)
    requires Holds(t, list, Itself) && Listing(t)
    ensures f in list <==> PairKey(f) in t.values
  {
    hide PairKey, KeysOf, Same, Holds, Distinct;
    HoldsOrder(t, list, Itself);
    SameIsOne(list, Itself, f);
    if f in list {
      HoldsEach(t, list, Itself, f);
    }
  }

  // ---- One step ------------------------------------------------------------------------------

  ghost predicate Matches<S>(s: State<S>, p: Plain<S>, stream: Option<U32>, select: S -> AckedFrame) {
    Holds(s.seeds, p.seeds, select) && Holds(s.frames, p.frames, Itself) && s.epoch == stream
  }

  lemma NothingHeld<T>(id: T -> AckedFrame)
    ensures Holds(Table(map[], []), [], id)
  {
    assert KeysOf<T>([], id) == [];
  }

  lemma OneHeld<T>(id: T -> AckedFrame, x: T)
    ensures Holds(Table(map[PairKey(id(x)) := x], [PairKey(id(x))]), [x], id)
  {
    assert KeysOf([x], id) == [PairKey(id(x))];
  }

  lemma FreshMatches<S>(s: State<S>, p: Plain<S>, stream: Option<U32>, select: S -> AckedFrame, limit: nat,
                        frame: Option<AckedFrame>)
    requires Matches(s, p, stream, select) && Listing(s.seeds)
    requires forall k :: k in s.seeds.values ==> PairKey(select(s.seeds.values[k])) == k
    ensures var q := PlainStep(p, stream, select, limit, Fresh(frame)).0;
            Matches(ResetForFreshSnapshot(s, frame), q, stream, select)
  {
    hide PairKey, Holds, Same, Listing;
    NothingHeld(select);
    NothingHeld(Itself);
    if frame.Some? {
      SameHolds(s.seeds, p.seeds, select, frame.value);
      if PairKey(frame.value) in s.seeds.values {
        OneHeld(select, s.seeds.values[PairKey(frame.value)]);
      }
    }
  }

  lemma ObserveMatches<S>(s: State<S>, p: Plain<S>, stream: Option<U32>, select: S -> AckedFrame, limit: nat,
                          epoch: U32)
    requires Matches(s, p, stream, select)
    ensures Matches(ObserveStream(s, epoch).0, PlainStep(p, stream, select, limit, Observe(epoch)).0,
                    Later(stream, epoch), select)
  {
    hide PairKey, Holds, OfStream, Retain, Prefix, IsNewer;
    ObserveBegins(s, Observe(epoch));
    RetainHolds(s.seeds, p.seeds, select, epoch);
    RetainHolds(s.frames, p.frames, Itself, epoch);
  }

  lemma SeedMatches<S>(s: State<S>, p: Plain<S>, stream: Option<U32>, select: S -> AckedFrame, limit: nat, seed: S)
    requires Matches(s, p, stream, select) && Listing(s.frames)
    ensures var (t, paired) := StageSeed(s, select, limit, seed);
            var (q, same) := PlainStep(p, stream, select, limit, Seed(seed));
            Matches(t, q, stream, select) && paired == same
  {
    hide PairKey, Holds, Others, Staged, Put, Take, Listing, IsNewer;
    FrameListed(s.frames, p.frames, select(seed));
    TakeHolds(s.frames, p.frames, Itself, select(seed));
    PutHolds(s.seeds, p.seeds, select, seed, limit);
  }

  lemma FrameMatches<S>(s: State<S>, p: Plain<S>, stream: Option<U32>, select: S -> AckedFrame, limit: nat,
                        frame: AckedFrame)
    requires Matches(s, p, stream, select) && Listing(s.seeds)
    ensures var (t, paired) := StageFrame(s, limit, frame);
            var (q, same) := PlainStep(p, stream, select, limit, Frame(frame));
            Matches(t, q, stream, select) && paired == same
  {
    hide PairKey, Holds, Others, Same, Staged, Put, Take, Listing;
    SameHolds(s.seeds, p.seeds, select, frame);
    TakeHolds(s.seeds, p.seeds, select, frame);
    PutHolds(s.frames, p.frames, Itself, frame, limit);
  }

  /** The stream after one more action. */
  function NextStream<S>(stream: Option<U32>, a: Action<S>): Option<U32> {
    match a
    case Observe(epoch) => Later(stream, epoch)
    case Restart => None
    case _ => stream
  }

  lemma StepMatches<S>(s: State<S>, p: Plain<S>, stream: Option<U32>, select: S -> AckedFrame, limit: nat, a: Action<S>)
    requires Sound(s, select, limit) && Matches(s, p, stream, select)
    ensures var (t, paired) := Step(s, select, limit, a);
            var (q, same) := PlainStep(p, stream, select, limit, a);
            Matches(t, q, NextStream(stream, a), select) && paired == same
  {
    hide Matches, Holds, PairKey, ObserveStream, ResetForFreshSnapshot, StageSeed, StageFrame, Listing, IsNewer;
    match a
    case Observe(epoch) => ObserveMatches(s, p, stream, select, limit, epoch);
    case Fresh(frame) => FreshMatches(s, p, stream, select, limit, frame);
    case Seed(seed) => SeedMatches(s, p, stream, select, limit, seed);
    case Frame(frame) => FrameMatches(s, p, stream, select, limit, frame);
    case Restart => NothingMatches(select);
  }

  lemma NothingMatches<S>(select: S -> AckedFrame)
    ensures Matches(Start(), Plain([], []), None, select)
  {
    NothingHeld(select);
    NothingHeld(Itself);
  }

  // ---- Every run -------------------------------------------------------------------------------

  /**
   After every run the gate holds the plain gate's records in its order, under the stream
   the actions put it in, and answers any further action as the plain gate does.
   */
  lemma {:induction false} GateIsPlain<S>(select: S -> AckedFrame, limit: nat, actions: seq<Action<S>>)
    requires limit > 0
    ensures Matches(Run(select, limit, actions), PlainRun(select, limit, actions), Stream(actions), select)
    decreases |actions|
  {
    hide Matches, Step, PlainStep, Stream, Sound;
    if actions == [] {
      NoStream<S>();
      NothingMatches(select);
    } else {
      var n := |actions| - 1;
      GateIsPlain(select, limit, actions[..n]);
      AlwaysSound(select, limit, actions[..n]);
      StreamSteps(actions);
      StepMatches(Run(select, limit, actions[..n]), PlainRun(select, limit, actions[..n]), Stream(actions[..n]), select,
          limit, actions[n]);
    }
  }

  lemma AnswersArePlain<S>(select: S -> AckedFrame, limit: nat, actions: seq<Action<S>>, a: Action<S>)
    requires limit > 0
    ensures Step(Run(select, limit, actions), select, limit, a).1 ==
            PlainStep(PlainRun(select, limit, actions), Stream(actions), select, limit, a).1
  {
    hide Matches, Step, PlainStep, Stream, Sound;
    GateIsPlain(select, limit, actions);
    AlwaysSound(select, limit, actions);
    StepMatches(Run(select, limit, actions), PlainRun(select, limit, actions), Stream(actions), select, limit, a);
  }
}
