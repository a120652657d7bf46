/**
 The entities a client shows. The reference is a client that needs no deltas and no
 bytes: it is told of each entity with its whole snapshot, decodes it against the entity
 it last made for that identifier, and remembers the result. In every run without loss
 the generated decoder reports exactly the entities that client makes, in its order, and
 its baselines hold exactly what that client remembers.
 */
module DeltaScene {
  import opened Words
  import opened Endian
  import opened Serial
  import F = DeltaFields
  import opened DeltaFrame
  import opened DeltaDecoder
  import opened DeltaRuns

  // ---- The reference client -----------------------------------------------------------

  /** One entity as the sender means it. */
  datatype Sighting = Sighting(id: U32, epoch: U32, kind: Byte, snapshot: Bytes, initial: Bytes, at: U64)

  /** What is remembered of each entity: how it was last seen and what was made of it. */
  type Scene<E> = map<U32, Baseline<E>>

  /** The entity remembered for this identifier, if it was seen under the same epoch and type. */
  function Known<E>(scene: Scene<E>, s: Sighting): Option<E> {
    if s.id in scene && scene[s.id].epoch == s.epoch && scene[s.id].kind == s.kind then scene[s.id].entity else None
  }

  function Look<E>(g: Game<E>, scene: Scene<E>, s: Sighting): Entity<E> {
    g.decode(s.kind, s.snapshot, s.initial, s.id, s.epoch, s.at, Known(scene, s))
  }

  function Remember<E>(g: Game<E>, scene: Scene<E>, s: Sighting): Scene<E> {
    var entity := match Look(g, scene, s) case Made(e) => Some(e) case _ => None;
    scene[s.id := Baseline(s.epoch, s.kind, s.snapshot, entity)]
  }

  function Watch<E>(g: Game<E>, scene: Scene<E>, ss: seq<Sighting>): Scene<E>
    decreases |ss|
  {
    if ss == [] then scene else Watch(g, Remember(g, scene, ss[0]), ss[1..])
  }

  /** A type the client does not know makes no entity. */
  function Glimpse<E>(g: Game<E>, scene: Scene<E>, s: Sighting): seq<E> {
    match Look(g, scene, s)
    case Made(e) => [e]
    case _ => []
  }

  /** The entities made of these sightings, in order. */
  function Show<E>(g: Game<E>, scene: Scene<E>, ss: seq<Sighting>): seq<E>
    decreases |ss|
  {
    if ss == [] then []
    else Glimpse(g, scene, ss[0]) + Show(g, Remember(g, scene, ss[0]), ss[1..])
  }

  function WholeSightings(es: seq<FullEntry>): (ss: seq<Sighting>)
    ensures |ss| == |es|
  {
    seq(|es|, i requires 0 <= i < |es| =>
      Sighting(es[i].netID, es[i].epoch, es[i].kind, es[i].snapshot, es[i].initial, es[i].producedAt))
  }

  /** A delta is the sighting of the snapshot it leads to. */
  function DeltaSightings(es: seq<DeltaEntry>, targets: seq<Bytes>): (ss: seq<Sighting>)
    requires |es| == |targets|
    ensures |ss| == |es|
  {
    seq(|es|, i requires 0 <= i < |es| =>
      Sighting(es[i].netID, es[i].epoch, es[i].kind, targets[i], [], es[i].producedAt))
  }

  /** What is remembered of an entity is its last sighting, decoded against what was remembered then. */
  lemma {:induction false} WatchLast<E>(g: Game<E>, scene: Scene<E>, ss: seq<Sighting>, k: nat)
    requires k < |ss| && forall j :: k < j < |ss| ==> ss[j].id != ss[k].id
    ensures var after, look := Watch(g, scene, ss), Look(g, Watch(g, scene, ss[..k]), ss[k]);
            && ss[k].id in after
            && after[ss[k].id] == Baseline(ss[k].epoch, ss[k].kind, ss[k].snapshot,
                                           if look.Made? then Some(look.entity) else None)
    decreases |ss|
  {
    if k == 0 {
      WatchOthers(g, Remember(g, scene, ss[0]), ss[1..], ss[0].id);
    } else {
      assert ss[1..][k - 1] == ss[k] && ss[1..][..k - 1] == ss[..k][1..];
      WatchLast(g, Remember(g, scene, ss[0]), ss[1..], k - 1);
    }
  }

  lemma {:induction false} WatchOthers<E>(g: Game<E>, scene: Scene<E>, ss: seq<Sighting>, id: U32)
    requires forall j :: 0 <= j < |ss| ==> ss[j].id != id
    ensures var after := Watch(g, scene, ss);
            (id in after <==> id in scene) && (id in scene ==> after[id] == scene[id])
    decreases |ss|
  {
    if ss == [] {
    } else {
      WatchOthers(g, Remember(g, scene, ss[0]), ss[1..], id);
    }
  }

  // ---- The entries of a frame -----------------------------------------------------------

  lemma FullShows<E(!new)>(g: Game<E>, p: Pass<E>, e: FullEntry)
    requires !p.threw && !Stale(p.state.epochs, e.netID, e.epoch) && Decodable(g, e.kind, e.snapshot, e.initial)
    ensures var q, s := TakeFull(g, p, e), WholeSightings([e])[0];
            && q.state.baselines == Remember(g, p.state.baselines, s)
            && q.made == p.made + Glimpse(g, p.state.baselines, s)
  {
    hide Stale;
    var s := WholeSightings([e])[0];
    assert !Look(g, p.state.baselines, s).Broken?;
  }

  lemma {:induction false} FullsShow<E(!new)>(g: Game<E>, p: Pass<E>, w: World, known: map<U32, U32>, data: Bytes,
                                       es: seq<FullEntry>)
    requires !p.threw && Tracks(p.state, w, known) && At(data, p.pos, FullsBytes(es))
    requires ProperFulls(g, p.state.epochs, es)
    ensures var q, ss := ReadFulls(g, p, data, |es|), WholeSightings(es);
            && q.state.baselines == Watch(g, p.state.baselines, ss)
            && q.made == p.made + Show(g, p.state.baselines, ss)
    decreases |es|
  {
    hide At, DecodeFull, FullBytes, Stale, Tracks, Decodable, TakeFull, FullFits, Show, Watch, Remember, Glimpse,
         WholeSightings;
    if es == [] {
      NothingSeen(g, p.state.baselines, WholeSightings(es));
    } else {
      var e := es[0];
      AtSplit(data, p.pos, FullBytes(e), FullsBytes(es[1..]));
      FullAt(data, p.pos, e);
      var p' := p.(pos := p.pos + |FullBytes(e)|);
      FullTracks(g, p', w, known, e);
      FullShows(g, p', e);
      FullsShow(g, TakeFull(g, p', e), w[e.netID := Snap(e.epoch, e.kind, e.snapshot)], known, data, es[1..]);
      WholeSplit(es);
      ShowStep(g, p.state.baselines, WholeSightings(es));
    }
  }

  lemma NothingSeen<E>(g: Game<E>, scene: Scene<E>, ss: seq<Sighting>)
    ensures |ss| == 0 ==> Watch(g, scene, ss) == scene && Show(g, scene, ss) == []
  {
  }

  lemma WholeSplit(es: seq<FullEntry>)
    requires es != []
    ensures var ss := WholeSightings(es);
            |ss| == |es| && ss[0] == WholeSightings([es[0]])[0] && ss[1..] == WholeSightings(es[1..])
  {
  }

  lemma DeltaSplit(es: seq<DeltaEntry>, targets: seq<Bytes>)
    requires |es| == |targets| && es != []
    ensures var ss := DeltaSightings(es, targets);
            && |ss| == |es| && ss[0] == DeltaSightings([es[0]], [targets[0]])[0]
            && ss[1..] == DeltaSightings(es[1..], targets[1..])
  {
  }

  lemma ShowStep<E>(g: Game<E>, scene: Scene<E>, ss: seq<Sighting>)
    requires ss != []
    ensures Show(g, scene, ss) == Glimpse(g, scene, ss[0]) + Show(g, Remember(g, scene, ss[0]), ss[1..])
    ensures Watch(g, scene, ss) == Watch(g, Remember(g, scene, ss[0]), ss[1..])
  {
    hide Glimpse, Remember;
  }

  lemma DeltaShows<E(!new)>(g: Game<E>, p: Pass<E>, w: World, e: DeltaEntry, target: Bytes)
    requires !p.threw && View(p.state) == w && ProperDelta(g, w, e, target)
    ensures var q, s := TakeDelta(g, p, e), DeltaSightings([e], [target])[0];
            && q.state.baselines == Remember(g, p.state.baselines, s)
            && q.made == p.made + Glimpse(g, p.state.baselines, s)
  {
    hide F.IsDelta, F.WellFormed, F.Apply;
    assert e.netID in View(p.state);
    var b := p.state.baselines[e.netID];
    assert View(p.state)[e.netID] == Snap(b.epoch, b.kind, b.snapshot);
    F.ApplyInvertsEncode(g.layout(e.kind), b.snapshot, target, e.data);
    var s := DeltaSightings([e], [target])[0];
    assert !Look(g, p.state.baselines, s).Broken?;
  }

  lemma {:induction false} DeltasShow<E(!new)>(g: Game<E>, p: Pass<E>, w: World, known: map<U32, U32>, data: Bytes,
                                        es: seq<DeltaEntry>, targets: seq<Bytes>)
    requires !p.threw && Tracks(p.state, w, known)
    requires At(data, p.pos, DeltasBytes(es)) && ProperDeltas(g, w, es, targets)
    ensures |es| == |targets|
    ensures var q, ss := ReadDeltas(g, p, data, |es|), DeltaSightings(es, targets);
            && q.state.baselines == Watch(g, p.state.baselines, ss)
            && q.made == p.made + Show(g, p.state.baselines, ss)
    decreases |es|
  {
    hide At, DecodeDelta, DeltaBytes, Tracks, TakeDelta, ProperDelta, View, Show, Watch, Remember, Glimpse,
         DeltaSightings;
    if es == [] {
      NothingSeen(g, p.state.baselines, DeltaSightings(es, targets));
    } else {
      var e := es[0];
      AtSplit(data, p.pos, DeltaBytes(e), DeltasBytes(es[1..]));
      ProperFits(g, w, e, targets[0]);
      DeltaAt(data, p.pos, e);
      var p' := p.(pos := p.pos + |DeltaBytes(e)|);
      DeltaTracks(g, p', w, known, e, targets[0]);
      TracksView(p'.state, w, known);
      DeltaShows(g, p', w, e, targets[0]);
      DeltasShow(g, TakeDelta(g, p', e), w[e.netID := Snap(e.epoch, e.kind, targets[0])], known, data, es[1..],
          targets[1..]);
      DeltaSplit(es, targets);
      ShowStep(g, p.state.baselines, DeltaSightings(es, targets));
    }
  }

  lemma TracksView<E>(s: State<E>, w: World, known: map<U32, U32>)
    requires Tracks(s, w, known)
    ensures View(s) == w
  {
  }

  // ---- One frame ------------------------------------------------------------------------

  /** The scene a frame starts from. */
  function Opening<E>(scene: Scene<E>, f: Frame): Scene<E> {
    if Restarts(f) then map[] else scene
  }

  /** The reference client after a frame. */
  function AfterFrame<E>(g: Game<E>, scene: Scene<E>, f: Frame, targets: seq<Bytes>): Scene<E>
    requires |f.delta| == |targets|
  {
    var whole := Watch(g, Opening(scene, f), WholeSightings(f.full));
    Watch(g, whole, DeltaSightings(f.delta, targets)) - (Elements(f.removed) + Elements(f.exited))
  }

  /** What the reference client reports of a frame. */
  function Report<E>(g: Game<E>, scene: Scene<E>, f: Frame, targets: seq<Bytes>, changed: bool): Outcome<E>
    requires |f.delta| == |targets|
  {
    var whole := Watch(g, Opening(scene, f), WholeSightings(f.full));
    Update(f.tick, f.sequence, Restarts(f), changed, f.ack,
           Show(g, Opening(scene, f), WholeSightings(f.full)),
           Show(g, whole, DeltaSightings(f.delta, targets)), f.removed, f.exited)
  }

  lemma DescribesTargets<E(!new)>(g: Game<E>, before: World, f: Frame, targets: seq<Bytes>, after: World)
    requires Describes(g, before, f, targets, after)
    ensures |f.delta| == |targets|
  {
    hide Fits, ProperFulls, WithFulls, ProperDelta;
  }

  lemma EntriesShow<E(!new)>(g: Game<E>, s: State<E>, n: Sent, before: World)
    requires Describes(g, before, n.frame, n.targets, n.world) && InStep(s, before, n.stream, n.sequence)
    requires |n.frame.delta| == |n.targets|
    ensures var f, data := n.frame, FrameBytes(n.frame);
            var fulls := ReadFulls(g, Started(s, HeaderOf(f), HEADER_SIZE), data, |f.full|);
            var deltas := ReadDeltas(g, Pass(fulls.state, [], {}, fulls.pos, false), data, |f.delta|);
            var whole := Watch(g, Opening(s.baselines, f), WholeSightings(f.full));
            && fulls.made == Show(g, Opening(s.baselines, f), WholeSightings(f.full))
            && deltas.made == Show(g, whole, DeltaSightings(f.delta, n.targets))
            && deltas.state.baselines == Watch(g, whole, DeltaSightings(f.delta, n.targets))
  {
    hide ReadFulls, ReadDeltas, At, FullsBytes, DeltasBytes, IdsBytes, AckBytes, HeaderBytes, FrameBytes, WithFulls,
         WithDeltas, ProperFulls, ProperDeltas, Fits, Started, Tracks, View, EpochsOf, HeaderOf, Ids, Show, Watch,
         WholeSightings, DeltaSightings, Opening;
    var f, data := n.frame, FrameBytes(n.frame);
    PartsAt(f);
    HeaderAt(data, f);
    var p := Started(s, HeaderOf(f), HEADER_SIZE);
    var w := if Restarts(f) then map[] else before;
    var known := EpochsOf(before);
    StartTracks(s, n, before);
    StartScene(s, f);
    FullsTrack(g, p, w, known, data, f.full);
    FullsShow(g, p, w, known, data, f.full);
    var fulls := ReadFulls(g, p, data, |f.full|);
    var p' := Pass(fulls.state, [], {}, fulls.pos, false);
    DeltasShow(g, p', WithFulls(w, f.full), known, data, f.delta, n.targets);
    var whole := Watch(g, Opening(s.baselines, f), WholeSightings(f.full));
    assert [] + Show(g, Opening(s.baselines, f), WholeSightings(f.full)) ==
           Show(g, Opening(s.baselines, f), WholeSightings(f.full));
    assert [] + Show(g, whole, DeltaSightings(f.delta, n.targets)) ==
           Show(g, whole, DeltaSightings(f.delta, n.targets));
  }

  lemma StartScene<E>(s: State<E>, f: Frame)
    requires Fits(f)
    ensures Started(s, HeaderOf(f), HEADER_SIZE).state.baselines == Opening(s.baselines, f)
  {
    hide Fits, FlagsFor, And;
    FlagsKept(f.flags, f.ack);
  }

  /**
   An accepted frame that describes the step from `before` is reported exactly as by the
   reference client, and the baselines become what that client remembers.
   */
  lemma FrameShows<E(!new)>(g: Game<E>, s: State<E>, n: Sent, before: World)
    requires n.frame.sequence == n.sequence % WRAP32 && |n.frame.delta| == |n.targets|
    requires Describes(g, before, n.frame, n.targets, n.world)
    requires var a := AcceptFrame(s, Some(n.stream % WRAP32), n.frame.sequence);
             a.Open? && InStep(a.state, before, n.stream, n.sequence)
    ensures var a := AcceptFrame(s, Some(n.stream % WRAP32), n.frame.sequence);
            var r := Decode(g, s, FrameBytes(n.frame), Some(n.stream % WRAP32));
            && r.0.baselines == AfterFrame(g, a.state.baselines, n.frame, n.targets)
            && r.1 == Report(g, a.state.baselines, n.frame, n.targets, a.changed)
  {
    hide ReadFulls, ReadDeltas, At, FullsBytes, DeltasBytes, HeaderBytes, FrameBytes, AcceptFrame, Finished,
         Started, DecodeHeader, WithFulls, WithDeltas, ProperFulls, ProperDeltas, FlagsFor, Fits, Tracks, View,
         EpochsOf, Restarts, Ids, Show, Watch, WholeSightings, DeltaSightings, Opening;
    var f, data := n.frame, FrameBytes(n.frame);
    PartsAt(f);
    HeaderAt(data, f);
    var a := AcceptFrame(s, Some(n.stream % WRAP32), f.sequence);
    EntriesTrack(g, a.state, n, before);
    EntriesShow(g, a.state, n, before);
    var fulls := ReadFulls(g, Started(a.state, HeaderOf(f), HEADER_SIZE), data, |f.full|);
    var deltas := ReadDeltas(g, Pass(fulls.state, [], {}, fulls.pos, false), data, |f.delta|);
    ListsRead(f, a.changed, fulls, deltas);
  }

  // ---- Whole runs -------------------------------------------------------------------------

  ghost predicate NewStream(h: seq<Sent>, k: nat)
    requires k < |h|
  {
    k == 0 || h[k - 1].stream != h[k].stream
  }

  /** The scene of the reference client after the first `k` frames; a new stream starts afresh. */
  ghost function SceneAfter<E>(g: Game<E>, h: seq<Sent>, k: nat): Scene<E>
    requires k <= |h| && forall i :: 0 <= i < |h| ==> |h[i].frame.delta| == |h[i].targets|
    decreases k, 0
  {
    if k == 0 then map[] else AfterFrame(g, SceneBefore(g, h, k - 1), h[k - 1].frame, h[k - 1].targets)
  }

  /** The scene frame `k` meets. */
  ghost function SceneBefore<E>(g: Game<E>, h: seq<Sent>, k: nat): Scene<E>
    requires k < |h| && forall i :: 0 <= i < |h| ==> |h[i].frame.delta| == |h[i].targets|
    decreases k, 1
  {
    if NewStream(h, k) then map[] else SceneAfter(g, h, k)
  }

  lemma HistoryTargets<E(!new)>(g: Game<E>, h: seq<Sent>)
    requires Proper(g, h)
    ensures forall i :: 0 <= i < |h| ==> |h[i].frame.delta| == |h[i].targets|
  {
    hide Describes;
    forall i | 0 <= i < |h|
      ensures |h[i].frame.delta| == |h[i].targets|
    {
      if i == 0 {
        DescribesTargets(g, map[], h[0].frame, h[0].targets, h[0].world);
      } else {
        assert Follows(g, h[i - 1], h[i]);
        DescribesTargets(g, if h[i].stream == h[i - 1].stream then h[i - 1].world else map[], h[i].frame, h[i].targets,
            h[i].world);
      }
    }
  }

  /** The next frame, at a client in step with the history. */
  lemma NextFrameShown<E(!new)>(g: Game<E>, c: Client<E>, h: seq<Sent>)
    requires Proper(g, h) && Synced(c, h) && c.next < |h|
    requires forall i :: 0 <= i < |h| ==> |h[i].frame.delta| == |h[i].targets|
    requires c.state.baselines == SceneAfter(g, h, c.next)
    ensures var n := h[c.next];
            var r := Decode(g, c.state, FrameBytes(n.frame), Some(n.stream % WRAP32));
            && r.0.baselines == SceneAfter(g, h, c.next + 1)
            && r.1 == Report(g, SceneBefore(g, h, c.next), n.frame, n.targets, NewStream(h, c.next))
  {
    hide Describes, FrameBytes, IsNewer, Decode, Report, AfterFrame;
    var n := h[c.next];
    if c.next == 0 {
      assert InStep(AcceptFrame(c.state, Some(n.stream % WRAP32), n.frame.sequence).state, map[], n.stream, n.sequence);
      FrameShows(g, c.state, n, map[]);
    } else {
      var last := h[c.next - 1];
      assert Follows(g, last, n);
      NewerUnwrapped(n.stream, last.stream);
      if n.stream == last.stream {
        NewerUnwrapped(n.sequence, last.sequence);
        FrameShows(g, c.state, n, last.world);
      } else {
        assert EpochsOf(map[]) == map[];
        FrameShows(g, c.state, n, map[]);
      }
    }
  }

  lemma {:induction false} BaselinesAreScene<E(!new)>(g: Game<E>, h: seq<Sent>, schedule: seq<nat>)
    requires Proper(g, h) && Legal(g, h, schedule)
    requires forall i :: 0 <= i < |h| ==> |h[i].frame.delta| == |h[i].targets|
    ensures var c := Run(g, h, schedule);
            c.next <= |h| && c.state.baselines == SceneAfter(g, h, c.next)
    decreases |schedule|
  {
    hide Proper, Synced, MayArrive, Arrive, SceneAfter, SceneBefore;
    if schedule == [] {
      SceneStarts(g, h);
    } else {
      var n := |schedule| - 1;
      var earlier := schedule[..n];
      assert forall i | 0 <= i < n :: earlier[..i] == schedule[..i];
      BaselinesAreScene(g, h, earlier);
      BaselinesAreSnapshots(g, h, earlier);
      var c, k := Run(g, h, earlier), schedule[n];
      if k == c.next {
        NextArrives(g, c, h);
      } else {
        Earlier(h, c.next, k);
        OldFrameIgnored(g, c, h, k);
      }
    }
  }

  lemma NextArrives<E(!new)>(g: Game<E>, c: Client<E>, h: seq<Sent>)
    requires Proper(g, h) && Synced(c, h) && c.next < |h|
    requires forall i :: 0 <= i < |h| ==> |h[i].frame.delta| == |h[i].targets|
    requires c.state.baselines == SceneAfter(g, h, c.next)
    ensures var c' := Arrive(g, c, h, c.next);
            c'.next == c.next + 1 && c'.state.baselines == SceneAfter(g, h, c'.next)
  {
    hide Proper, Synced, Decode, SceneAfter, SceneBefore;
    NextFrameShown(g, c, h);
  }

  lemma SceneStarts<E>(g: Game<E>, h: seq<Sent>)
    requires forall i :: 0 <= i < |h| ==> |h[i].frame.delta| == |h[i].targets|
    ensures SceneAfter(g, h, 0) == map[]
  {
  }

  /** What the decoder of client `c` says to frame `k` is what the reference client says. */
  ghost predicate Reported<E>(g: Game<E>, h: seq<Sent>, c: Client<E>, k: nat)
    requires k < |h| && forall i :: 0 <= i < |h| ==> |h[i].frame.delta| == |h[i].targets|
  {
    Decode(g, c.state, FrameBytes(h[k].frame), Some(h[k].stream % WRAP32)).1 ==
    if k == c.next then Report(g, SceneBefore(g, h, k), h[k].frame, h[k].targets, NewStream(h, k)) else Rejected
  }

  /**
   Every sender history, every schedule without loss, every frame that arrives: the next
   frame is reported as the reference client reports it, with its entered and updated
   entities in order; a duplicate or an older frame is rejected. The baselines are always
   what that client remembers.
   */
  lemma ReportsAreExact<E(!new)>(g: Game<E>, h: seq<Sent>, schedule: seq<nat>, k: nat)
    requires Proper(g, h) && Legal(g, h, schedule) && k < |h|
    ensures forall i :: 0 <= i < |h| ==> |h[i].frame.delta| == |h[i].targets|
    ensures var c := Run(g, h, schedule);
            && c.next <= |h| && c.state.baselines == SceneAfter(g, h, c.next)
            && (MayArrive(h, c.next, k) ==> Reported(g, h, c, k))
  {
    hide Proper, Synced, MayArrive, Decode, SceneAfter, SceneBefore, Report;
    HistoryTargets(g, h);
    BaselinesAreScene(g, h, schedule);
    BaselinesAreSnapshots(g, h, schedule);
    var c := Run(g, h, schedule);
    if MayArrive(h, c.next, k) {
      if k == c.next {
        NextFrameShown(g, c, h);
      } else {
        Earlier(h, c.next, k);
        OldFrameIgnored(g, c, h, k);
      }
    }
  }

  // ---- Any entry in any state -------------------------------------------------------------

  /**
   A full entry, whatever came before: one behind its recorded epoch is dropped; a broken
   snapshot raises the epoch and throws; any other is remembered and reported as the
   reference client does.
   */
  lemma FullEntryExact<E>(g: Game<E>, p: Pass<E>, e: FullEntry)
    requires !p.threw
    ensures var q, s := TakeFull(g, p, e), WholeSightings([e])[0];
            var scene := p.state.baselines;
            if Stale(p.state.epochs, e.netID, e.epoch) then
              !q.threw && q.state == p.state && q.made == p.made
            else
              && q.state.epochs == p.state.epochs[e.netID := e.epoch]
              && (q.threw <==> Look(g, scene, s).Broken?)
              && q.state.baselines == (if q.threw then scene else Remember(g, scene, s))
              && q.made == (if q.threw then p.made else p.made + Glimpse(g, scene, s))
  {
    hide Stale;
    assert Look(g, p.state.baselines, WholeSightings([e])[0]) == FullEntity(g, p.state, e);
  }

  /**
   A delta entry, whatever came before: without a baseline of its epoch and type it is
   dropped; bytes that do not patch it or a broken result throw and change nothing; else the
   patched snapshot is remembered and reported as the reference client does.
   */
  lemma DeltaEntryExact<E>(g: Game<E>, p: Pass<E>, e: DeltaEntry)
    requires !p.threw
    ensures var q, scene := TakeDelta(g, p, e), p.state.baselines;
            if !(e.netID in scene && scene[e.netID].epoch == e.epoch && scene[e.netID].kind == e.kind) then q == p
            else
              var patched := F.Apply(g.layout(e.kind), scene[e.netID].snapshot, e.data);
              && q.state.epochs == p.state.epochs
              && (patched.None? ==> q.threw)
              && (patched.Some? ==>
                    var s := DeltaSightings([e], [patched.value])[0];
                    && (q.threw <==> Look(g, scene, s).Broken?)
                    && (!q.threw ==> q.state.baselines == Remember(g, scene, s)
                                     && q.made == p.made + Glimpse(g, scene, s)))
              && (q.threw ==> q.state == p.state && q.made == p.made)
  {
    hide F.Apply;
  }
}
