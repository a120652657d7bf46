/**
 The decoder that cmd/sdkgen emits for C#: a fence on (stream epoch, frame
 sequence), one baseline per entity, and the highest authority epoch recorded per
 entity. Every frame is a function from state to state and outcome; an exception
 leaves the state as it was at that moment.
 */
module DeltaDecoder {
  import opened Words
  import opened Serial
  import F = DeltaFields
  import opened DeltaFrame

  /** What `DecodeEntity` can do: throw, not know the type, or build an entity. */
  datatype Entity<E> = Broken | Unknown | Made(entity: E)

  /** The generated per-type tables and the snapshot decoder; the last argument is the previous entity. */
  datatype Game<!E> = Game(
    layout: Byte -> F.Layout,
    decode: (Byte, Bytes, Bytes, U32, U32, U64, Option<E>) -> Entity<E>)

  datatype Baseline<E> = Baseline(epoch: U32, kind: Byte, snapshot: Bytes, entity: Option<E>)

  datatype State<E> = State(
    baselines: map<U32, Baseline<E>>,
    epochs: map<U32, U32>,
    stream: Option<U32>,
    last: Option<U32>)

  function Cleared<E>(): State<E> {
    State(map[], map[], None, None)
  }

  datatype Outcome<E> =
    | Rejected
    | Threw
    | Update(tick: U32, sequence: U32, restart: bool, changed: bool, ack: Option<U32>,
             entered: seq<E>, updated: seq<E>, removed: seq<U32>, exited: seq<U32>)

  // ---- The fence ------------------------------------------------------------------------

  datatype Fence<E> = Closed | Open(state: State<E>, changed: bool)

  /** `AcceptFrame`; a missing stream epoch is the older wire format, which has no fence. */
  function AcceptFrame<E>(s: State<E>, epoch: Option<U32>, sequence: U32): Fence<E> {
    if epoch.None? then Open(s, false)
    else if s.stream.None? then Open(s.(stream := epoch, last := Some(sequence)), true)
    else if epoch != s.stream then
      if IsNewer(epoch.value, s.stream.value) then Open(State(map[], map[], epoch, Some(sequence)), true)
      else Closed
    else if s.last.Some? && !IsNewer(sequence, s.last.value) then Closed
    else Open(s.(last := Some(sequence)), false)
  }

  /** The position moves forward in serial order: a newer stream, or a newer frame of the same stream. */
  predicate Ahead(epoch: U32, sequence: U32, stream: U32, last: U32) {
    IsNewer(epoch, stream) || (epoch == stream && IsNewer(sequence, last))
  }

  /** A frame passes exactly when its position is ahead; then that is the new position. */
  lemma FenceIsExact<E>(s: State<E>, epoch: U32, sequence: U32)
    requires s.stream.Some? && s.last.Some?
    ensures var f := AcceptFrame(s, Some(epoch), sequence);
            && (f.Open? <==> Ahead(epoch, sequence, s.stream.value, s.last.value))
            && (f.Open? ==> f.state.stream == Some(epoch) && f.state.last == Some(sequence))
            && (f.Open? && !f.changed ==> f.state.baselines == s.baselines && f.state.epochs == s.epochs)
            && (f.Open? && f.changed ==> f.state.baselines == map[] && f.state.epochs == map[])
  {
    NewerAsymmetric(epoch, s.stream.value);
  }

  // ---- Entries --------------------------------------------------------------------------

  /** How far a pass over the entries got: the state, what was built, the ids seen, and where it stands. */
  datatype Pass<E> = Pass(state: State<E>, made: seq<E>, ids: set<U32>, pos: nat, threw: bool)

  function Stored<E>(s: State<E>, id: U32, epoch: U32, kind: Byte, snapshot: Bytes, e: Entity<E>): State<E>
    requires !e.Broken?
  {
    s.(baselines := s.baselines[id := Baseline(epoch, kind, snapshot, if e.Made? then Some(e.entity) else None)])
  }

  function Built<E>(e: Entity<E>): seq<E> {
    if e.Made? then [e.entity] else []
  }

  /** The entry's authority epoch is behind the recorded one. */
  predicate Stale(epochs: map<U32, U32>, id: U32, epoch: U32) {
    id in epochs && epoch != epochs[id] && !IsNewer(epoch, epochs[id])
  }

  function Previous<E>(s: State<E>, e: FullEntry): Option<E> {
    if e.netID in s.baselines && s.baselines[e.netID].epoch == e.epoch && s.baselines[e.netID].kind == e.kind
    then s.baselines[e.netID].entity else None
  }

  function FullEntity<E>(g: Game<E>, s: State<E>, e: FullEntry): Entity<E> {
    g.decode(e.kind, e.snapshot, e.initial, e.netID, e.epoch, e.producedAt, Previous(s, e))
  }

  /** One full entry: the epoch is recorded before the snapshot is decoded. */
  function TakeFull<E>(g: Game<E>, p: Pass<E>, e: FullEntry): Pass<E> {
    var s := p.state;
    var seen := p.(ids := p.ids + {e.netID});
    if Stale(s.epochs, e.netID, e.epoch) then seen
    else
      var s1 := s.(epochs := s.epochs[e.netID := e.epoch]);
      var made := FullEntity(g, s, e);
      if made.Broken? then seen.(state := s1, threw := true)
      else seen.(state := Stored(s1, e.netID, e.epoch, e.kind, e.snapshot, made), made := p.made + Built(made))
  }

  /** One delta entry: dropped unless a baseline of the same epoch and type is there to patch. */
  function TakeDelta<E>(g: Game<E>, p: Pass<E>, e: DeltaEntry): Pass<E> {
    var s := p.state;
    if e.netID !in s.baselines then p
    else
      var b := s.baselines[e.netID];
      if b.epoch != e.epoch || b.kind != e.kind then p
      else
        match F.Apply(g.layout(e.kind), b.snapshot, e.data)
        case None => p.(threw := true)
        case Some(snapshot) =>
          var made := g.decode(e.kind, snapshot, [], e.netID, e.epoch, e.producedAt, b.entity);
          if made.Broken? then p.(threw := true)
          else p.(state := Stored(s, e.netID, e.epoch, e.kind, snapshot, made), made := p.made + Built(made))
  }

  function ReadFulls<E>(g: Game<E>, p: Pass<E>, data: Bytes, n: nat): Pass<E>
    decreases n
  {
    if n == 0 || p.threw then p
    else
      match DecodeFull(data, p.pos)
      case None => p.(threw := true)
      case Some(r) => ReadFulls(g, TakeFull(g, p.(pos := r.1), r.0), data, n - 1)
  }

  function ReadDeltas<E>(g: Game<E>, p: Pass<E>, data: Bytes, n: nat): Pass<E>
    decreases n
  {
    if n == 0 || p.threw then p
    else
      match DecodeDelta(data, p.pos)
      case None => p.(threw := true)
      case Some(r) => ReadDeltas(g, TakeDelta(g, p.(pos := r.1), r.0), data, n - 1)
  }

  function Elements(s: seq<U32>): set<U32> {
    set x | x in s
  }

  /** Removal at the end of a frame; outside a stream the authority epochs are kept. */
  function Forget<E>(s: State<E>, gone: set<U32>, restart: bool, ids: set<U32>): State<E> {
    var epochs := if s.stream.Some? then s.epochs - gone else s.epochs;
    s.(baselines := s.baselines - gone,
       epochs := if s.stream.Some? && restart then map id | id in epochs && id in ids :: epochs[id] else epochs)
  }

  // ---- A frame --------------------------------------------------------------------------

  predicate IsFresh(h: Header) {
    And(h.flags, FRESH) != 0
  }

  function Started<E>(s: State<E>, h: Header, pos: nat): Pass<E> {
    Pass(if IsFresh(h) then s.(baselines := map[]) else s, [], {}, pos, false)
  }

  /** The lists behind the entries, and the last changes to the state. */
  function Finished<E>(h: Header, changed: bool, fulls: Pass<E>, deltas: Pass<E>, data: Bytes): (State<E>, Outcome<E>) {
    match DecodeIds(data, deltas.pos, h.removedCount)
    case None => (deltas.state, Threw)
    case Some(removed) =>
      match DecodeIds(data, removed.1, h.exitedCount)
      case None => (deltas.state, Threw)
      case Some(exited) =>
        match DecodeAck(data, exited.1, h.flags)
        case None => (deltas.state, Threw)
        case Some(ack) =>
          (Forget(deltas.state, Elements(removed.0) + Elements(exited.0), IsFresh(h), fulls.ids),
           Update(h.tick, h.sequence, IsFresh(h), changed, ack, fulls.made, deltas.made, removed.0, exited.0))
  }

  /** `Decode`. */
  function Decode<E>(g: Game<E>, s: State<E>, data: Bytes, epoch: Option<U32>): (State<E>, Outcome<E>) {
    match DecodeHeader(data, 0)
    case None => (s, Threw)
    case Some(header) =>
      var h := header.0;
      match AcceptFrame(s, epoch, h.sequence)
      case Closed => (s, Rejected)
      case Open(s1, changed) =>
        var fulls := ReadFulls(g, Started(s1, h, header.1), data, h.fullCount);
        if fulls.threw then (fulls.state, Threw)
        else
          var deltas := ReadDeltas(g, Pass(fulls.state, [], {}, fulls.pos, false), data, h.deltaCount);
          if deltas.threw then (deltas.state, Threw) else Finished(h, changed, fulls, deltas, data)
  }

  // ---- The object -----------------------------------------------------------------------

  class Decoder<!E> {
    var baselines: map<U32, Baseline<E>>
    var epochs: map<U32, U32>
    var stream: Option<U32>
    var last: Option<U32>

    ghost function Now(): State<E>
      reads this
    {
      State(baselines, epochs, stream, last)
    }

    constructor ()
      ensures Now() == Cleared()
    {
      baselines, epochs, stream, last := map[], map[], None, None;
    }

    method Clear()
      modifies this
      ensures Now() == Cleared()
    {
      baselines, epochs, stream, last := map[], map[], None, None;
    }

    method Accept(candidate: Option<U32>, sequence: U32) returns (ok: bool, changed: bool)
      modifies this
      ensures var f := AcceptFrame(old(Now()), candidate, sequence);
              && ok == f.Open?
              && (ok ==> Now() == f.state && changed == f.changed)
              && (!ok ==> Now() == old(Now()))
    {
      changed := false;
      if candidate.None? {
        return true, false;
      }
      if stream.None? {
        stream, last := candidate, Some(sequence);
        return true, true;
      }
      if candidate.value != stream.value {
        if !IsNewer(candidate.value, stream.value) {
          return false, false;
        }
        stream, last, baselines, epochs := candidate, Some(sequence), map[], map[];
        return true, true;
      }
      if last.Some? && !IsNewer(sequence, last.value) {
        return false, false;
      }
      last := Some(sequence);
      return true, false;
    }

    method TakeFullEntry(g: Game<E>, e: FullEntry, ghost p: Pass<E>) returns (made: seq<E>, threw: bool)
      requires p.state == Now() && p.made == [] && !p.threw
      modifies this
      ensures var q := TakeFull(g, p, e); Now() == q.state && made == q.made && threw == q.threw
    {
      var known := e.netID in epochs;
      if known && e.epoch != epochs[e.netID] && !IsNewer(e.epoch, epochs[e.netID]) {
        return [], false;
      }
      var previous := if e.netID in baselines && baselines[e.netID].epoch == e.epoch && baselines[e.netID].kind
          == e.kind
                      then baselines[e.netID].entity else None;
      if !known || IsNewer(e.epoch, epochs[e.netID]) {
        epochs := epochs[e.netID := e.epoch];
      }
      assert epochs == old(epochs)[e.netID := e.epoch];
      var entity := g.decode(e.kind, e.snapshot, e.initial, e.netID, e.epoch, e.producedAt, previous);
      if entity.Broken? {
        return [], true;
      }
      baselines := baselines[e.netID := Baseline(e.epoch, e.kind, e.snapshot,
                                                 if entity.Made? then Some(entity.entity) else None)];
      return Built(entity), false;
    }

    method TakeDeltaEntry(g: Game<E>, e: DeltaEntry, ghost p: Pass<E>) returns (made: seq<E>, threw: bool)
      requires p.state == Now() && p.made == [] && !p.threw
      modifies this
      ensures var q := TakeDelta(g, p, e); Now() == q.state && made == q.made && threw == q.threw
    {
      if e.netID !in baselines {
        return [], false;
      }
      var b := baselines[e.netID];
      if b.epoch != e.epoch || b.kind != e.kind {
        return [], false;
      }
      var snapshot := F.ApplyDelta(g.layout(e.kind), b.snapshot, e.data);
      if snapshot.None? {
        return [], true;
      }
      var entity := g.decode(e.kind, snapshot.value, [], e.netID, e.epoch, e.producedAt, b.entity);
      if entity.Broken? {
        return [], true;
      }
      baselines := baselines[e.netID := Baseline(e.epoch, e.kind, snapshot.value,
                                                 if entity.Made? then Some(entity.entity) else None)];
      return Built(entity), false;
    }

    method DecodeFulls(g: Game<E>, data: Bytes, start: nat, n: nat) returns (made: seq<E>, ids: set<U32>, pos: nat,
                       threw: bool)
      modifies this
      ensures ReadFulls(g, Pass(old(Now()), [], {}, start, false), data, n) == Pass(Now(), made, ids, pos, threw)
    {
      hide TakeFull, DecodeFull;
      made, ids, pos, threw := [], {}, start, false;
      for i := 0 to n
        invariant !threw
        invariant ReadFulls(g, Pass(old(Now()), [], {}, start, false), data, n)
               == ReadFulls(g, Pass(Now(), made, ids, pos, threw), data, n - i)
      {
        var r := DecodeFull(data, pos);
        if r.None? {
          threw := true;
          return;
        }
        ghost var before := Pass(Now(), made, ids, r.value.1, false);
        FullAdds(g, before, r.value.0);
        var more, broke := TakeFullEntry(g, r.value.0, before.(made := []));
        made, ids, pos, threw := made + more, ids + {r.value.0.netID}, r.value.1, broke;
        assert TakeFull(g, before, r.value.0) == Pass(Now(), made, ids, pos, threw);
        if threw {
          return;
        }
      }
    }

    method DecodeDeltas(g: Game<E>, data: Bytes, start: nat, n: nat) returns (made: seq<E>, pos: nat, threw: bool)
      modifies this
      ensures ReadDeltas(g, Pass(old(Now()), [], {}, start, false), data, n) == Pass(Now(), made, {}, pos, threw)
    {
      hide TakeDelta, DecodeDelta;
      made, pos, threw := [], start, false;
      for i := 0 to n
        invariant !threw
        invariant ReadDeltas(g, Pass(old(Now()), [], {}, start, false), data, n)
               == ReadDeltas(g, Pass(Now(), made, {}, pos, threw), data, n - i)
      {
        var r := DecodeDelta(data, pos);
        if r.None? {
          threw := true;
          return;
        }
        ghost var before := Pass(Now(), made, {}, r.value.1, false);
        DeltaAdds(g, before, r.value.0);
        var more, broke := TakeDeltaEntry(g, r.value.0, before.(made := []));
        made, pos, threw := made + more, r.value.1, broke;
        assert TakeDelta(g, before, r.value.0) == Pass(Now(), made, {}, pos, threw);
        if threw {
          return;
        }
      }
    }

    /** `Decode`, one frame: the new state and the outcome are those of the function. */
    method DecodeFrame(g: Game<E>, data: Bytes, epoch: Option<U32>) returns (r: Outcome<E>)
      modifies this
      ensures (Now(), r) == Decode(g, old(Now()), data, epoch)
    {
      hide ReadFulls, ReadDeltas, DecodeIds, DecodeHeader, DecodeAck, And, Forget;
      var header := DecodeHeader(data, 0);
      if header.None? {
        return Threw;
      }
      var h := header.value.0;
      var ok, changed := Accept(epoch, h.sequence);
      if !ok {
        return Rejected;
      }
      if IsFresh(h) {
        baselines := map[];
      }
      var entered, ids, pos, threw := DecodeFulls(g, data, header.value.1, h.fullCount);
      if threw {
        return Threw;
      }
      ghost var fulls := Pass(Now(), entered, ids, pos, false);
      var updated, pos', threw' := DecodeDeltas(g, data, pos, h.deltaCount);
      if threw' {
        return Threw;
      }
      ghost var deltas := Pass(Now(), updated, {}, pos', false);
      r := FinishFrame(h, changed, entered, ids, updated, pos', data, fulls, deltas);
    }

    method FinishFrame(h: Header, changed: bool, entered: seq<E>, ids: set<U32>, updated: seq<E>, pos: nat, data: Bytes,
                       ghost fulls: Pass<E>, ghost deltas: Pass<E>)
      returns (r: Outcome<E>)
      requires deltas == Pass(Now(), updated, {}, pos, false) && fulls.made == entered && fulls.ids == ids
      modifies this
      ensures (Now(), r) == Finished(h, changed, fulls, deltas, data)
    {
      hide DecodeIds, DecodeAck, And;
      var removed := DecodeRemovedIDs(data, pos, h.removedCount);
      if removed.None? {
        return Threw;
      }
      var exited := DecodeRemovedIDs(data, removed.value.1, h.exitedCount);
      if exited.None? {
        return Threw;
      }
      var ack := DecodeAck(data, exited.value.1, h.flags);
      if ack.None? {
        return Threw;
      }
      var gone := Elements(removed.value.0) + Elements(exited.value.0);
      baselines := baselines - gone;
      if stream.Some? {
        epochs := epochs - gone;
        if IsFresh(h) {
          epochs := map id | id in epochs && id in ids :: epochs[id];
        }
      }
      r := Update(h.tick, h.sequence, IsFresh(h), changed, ack.value, entered, updated, removed.value.0,
          exited.value.0);
    }
  }

  /** Entities accumulate behind what was built before. */
  lemma FullAdds<E>(g: Game<E>, p: Pass<E>, e: FullEntry)
    ensures var q, q0 := TakeFull(g, p, e), TakeFull(g, p.(made := []), e);
            q == q0.(made := p.made + q0.made) && q0.ids == p.ids + {e.netID} && q0.pos == p.pos
  {
  }

  lemma DeltaAdds<E>(g: Game<E>, p: Pass<E>, e: DeltaEntry)
    ensures var q, q0 := TakeDelta(g, p, e), TakeDelta(g, p.(made := []), e);
            q == q0.(made := p.made + q0.made) && q0.ids == p.ids && q0.pos == p.pos
  {
    hide F.Apply;
  }
}
