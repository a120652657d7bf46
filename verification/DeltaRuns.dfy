/**
 Delta decoding refines full snapshots. The sender keeps the world it last sent; it
 sends each entity whole or as a delta against that. As long as no frame is lost,
 the decoder's baselines are the sender's world after every frame, at the level
 of bytes, whatever duplicates and older frames are mixed in.
 */
module DeltaRuns {
  import opened Words
  import opened Endian
  import opened Serial
  import F = DeltaFields
  import opened DeltaFrame
  import opened DeltaDecoder

  datatype Snap = Snap(epoch: U32, kind: Byte, snapshot: Bytes)
  type World = map<U32, Snap>

  function View<E>(s: State<E>): World {
    map id | id in s.baselines :: Snap(s.baselines[id].epoch, s.baselines[id].kind, s.baselines[id].snapshot)
  }

  function EpochsOf(w: World): map<U32, U32> {
    map id | id in w :: w[id].epoch
  }

  // ---- What a proper sender puts in a frame ---------------------------------------------

  ghost predicate Decodable<E(!new)>(g: Game<E>, kind: Byte, snapshot: Bytes, initial: Bytes) {
    forall id, epoch, at, prev :: !g.decode(kind, snapshot, initial, id, epoch, at, prev).Broken?
  }

  function WithFulls(w: World, es: seq<FullEntry>): World
    decreases |es|
  {
    if es == [] then w else WithFulls(w[es[0].netID := Snap(es[0].epoch, es[0].kind, es[0].snapshot)], es[1..])
  }

  /** Full entries never step behind an authority epoch already sent in this stream. */
  ghost predicate ProperFulls<E(!new)>(g: Game<E>, known: map<U32, U32>, es: seq<FullEntry>)
    decreases |es|
  {
    es == [] ||
    (&& FullFits(es[0]) && !Stale(known, es[0].netID, es[0].epoch)
     && Decodable(g, es[0].kind, es[0].snapshot, es[0].initial)
     && ProperFulls(g, known[es[0].netID := es[0].epoch], es[1..]))
  }

  function WithDeltas(w: World, es: seq<DeltaEntry>, targets: seq<Bytes>): World
    requires |es| == |targets|
    decreases |es|
  {
    if es == [] then w
    else WithDeltas(w[es[0].netID := Snap(es[0].epoch, es[0].kind, targets[0])], es[1..], targets[1..])
  }

  /** A delta goes from the snapshot last sent, under its epoch and type, to the new one. */
  ghost predicate ProperDelta<E(!new)>(g: Game<E>, w: World, e: DeltaEntry, target: Bytes) {
    && DeltaFits(e) && e.netID in w && w[e.netID].epoch == e.epoch && w[e.netID].kind == e.kind
    && F.WellFormed(g.layout(e.kind), w[e.netID].snapshot) && F.WellFormed(g.layout(e.kind), target)
    && F.IsDelta(g.layout(e.kind), w[e.netID].snapshot, target, e.data)
    && Decodable(g, e.kind, target, [])
  }

  ghost predicate ProperDeltas<E(!new)>(g: Game<E>, w: World, es: seq<DeltaEntry>, targets: seq<Bytes>)
    decreases |es|
  {
    && |es| == |targets|
    && (es == [] ||
        (&& ProperDelta(g, w, es[0], targets[0])
         && ProperDeltas(g, w[es[0].netID := Snap(es[0].epoch, es[0].kind, targets[0])], es[1..], targets[1..])))
  }

  predicate Restarts(f: Frame) {
    And(f.flags, FRESH) != 0
  }

  /** The frame takes the world it was made against to the world `after`. */
  ghost predicate Describes<E(!new)>(g: Game<E>, before: World, f: Frame, targets: seq<Bytes>, after: World) {
    && Fits(f) && ProperFulls(g, EpochsOf(before), f.full)
    && var full := WithFulls(if Restarts(f) then map[] else before, f.full);
    && ProperDeltas(g, full, f.delta, targets)
    && after == WithDeltas(full, f.delta, targets) - (Elements(f.removed) + Elements(f.exited))
  }

  /** A frame as sent, with its unwrapped position and the world the client should then hold. */
  datatype Sent = Sent(stream: nat, sequence: nat, frame: Frame, targets: seq<Bytes>, world: World)

  ghost predicate Follows<E(!new)>(g: Game<E>, prev: Sent, next: Sent) {
    && next.frame.sequence == next.sequence % WRAP32
    && if next.stream == prev.stream
       then prev.sequence < next.sequence < prev.sequence + HALF32
            && Describes(g, prev.world, next.frame, next.targets, next.world)
       else prev.stream < next.stream < prev.stream + HALF32
            && Describes(g, map[], next.frame, next.targets, next.world)
  }

  ghost predicate Proper<E(!new)>(g: Game<E>, h: seq<Sent>) {
    && (h != [] ==> h[0].frame.sequence == h[0].sequence % WRAP32
                    && Describes(g, map[], h[0].frame, h[0].targets, h[0].world))
    && forall i | 0 < i < |h| :: Follows(g, h[i - 1], h[i])
  }

  // ---- One frame --------------------------------------------------------------------------

  /** The decoder mid-frame: its baselines are `w`, its epochs those of `w` over `known`. */
  ghost predicate Tracks<E>(s: State<E>, w: World, known: map<U32, U32>) {
    View(s) == w && s.epochs == known + EpochsOf(w)
  }

  lemma FullTracks<E(!new)>(g: Game<E>, p: Pass<E>, w: World, known: map<U32, U32>, e: FullEntry)
    requires !p.threw && Tracks(p.state, w, known)
    requires !Stale(p.state.epochs, e.netID, e.epoch) && Decodable(g, e.kind, e.snapshot, e.initial)
    ensures var q := TakeFull(g, p, e);
            && !q.threw && q.pos == p.pos && q.ids == p.ids + {e.netID}
            && q.state.stream == p.state.stream && q.state.last == p.state.last
            && q.state.epochs == p.state.epochs[e.netID := e.epoch]
            && Tracks(q.state, w[e.netID := Snap(e.epoch, e.kind, e.snapshot)], known)
  {
    hide Stale, View, EpochsOf, Previous;
    assert !FullEntity(g, p.state, e).Broken?;
    var s1 := p.state.(epochs := p.state.epochs[e.netID := e.epoch]);
    ViewSame(p.state, s1);
    ViewStored(s1, e.netID, e.epoch, e.kind, e.snapshot, FullEntity(g, p.state, e));
    EpochStored(w, known, e.netID, Snap(e.epoch, e.kind, e.snapshot));
  }

  lemma ViewSame<E>(s: State<E>, t: State<E>)
    requires s.baselines == t.baselines
    ensures View(s) == View(t)
  {
  }

  lemma ViewStored<E>(s: State<E>, id: U32, epoch: U32, kind: Byte, snapshot: Bytes, e: Entity<E>)
    requires !e.Broken?
    ensures View(Stored(s, id, epoch, kind, snapshot, e)) == View(s)[id := Snap(epoch, kind, snapshot)]
  {
  }

  lemma EpochStored(w: World, known: map<U32, U32>, id: U32, snap: Snap)
    ensures known + EpochsOf(w[id := snap]) == (known + EpochsOf(w))[id := snap.epoch]
  {
    assert EpochsOf(w[id := snap]) == EpochsOf(w)[id := snap.epoch];
  }

  lemma {:induction false} FullsTrack<E(!new)>(g: Game<E>, p: Pass<E>, w: World, known: map<U32, U32>, data: Bytes,
                                        es: seq<FullEntry>)
    requires !p.threw && Tracks(p.state, w, known) && w.Keys <= p.ids + known.Keys
    requires At(data, p.pos, FullsBytes(es)) && ProperFulls(g, p.state.epochs, es)
    ensures var q := ReadFulls(g, p, data, |es|);
            && !q.threw && q.pos == p.pos + |FullsBytes(es)| && q.ids == p.ids + Ids(es)
            && q.state.stream == p.state.stream && q.state.last == p.state.last
            && Tracks(q.state, WithFulls(w, es), known)
    decreases |es|
  {
    hide At, DecodeFull, FullBytes, Stale, Tracks, Decodable, TakeFull, FullFits;
    if es == [] {
      assert p.ids + Ids(es) == p.ids;
    } else {
      var e := es[0];
      AtSplit(data, p.pos, FullBytes(e), FullsBytes(es[1..]));
      FullAt(data, p.pos, e);
      var p' := p.(pos := p.pos + |FullBytes(e)|);
      FullTracks(g, p', w, known, e);
      FullsTrack(g, TakeFull(g, p', e), w[e.netID := Snap(e.epoch, e.kind, e.snapshot)], known, data, es[1..]);
      assert es == [e] + es[1..];
      assert p.ids + {e.netID} + Ids(es[1..]) == p.ids + Ids(es);
    }
  }

  ghost function Ids(es: seq<FullEntry>): set<U32> {
    set i | 0 <= i < |es| :: es[i].netID
  }

  lemma DeltaTracks<E(!new)>(g: Game<E>, p: Pass<E>, w: World, known: map<U32, U32>, e: DeltaEntry, target: Bytes)
    requires !p.threw && Tracks(p.state, w, known) && ProperDelta(g, w, e, target)
    ensures var q := TakeDelta(g, p, e);
            && !q.threw && q.pos == p.pos && q.state.stream == p.state.stream && q.state.last == p.state.last
            && Tracks(q.state, w[e.netID := Snap(e.epoch, e.kind, target)], known)
  {
    hide F.IsDelta, F.WellFormed, F.Apply;
    assert e.netID in View(p.state);
    var b := p.state.baselines[e.netID];
    assert View(p.state)[e.netID] == Snap(b.epoch, b.kind, b.snapshot);
    F.ApplyInvertsEncode(g.layout(e.kind), b.snapshot, target, e.data);
    var q := TakeDelta(g, p, e);
    var w' := w[e.netID := Snap(e.epoch, e.kind, target)];
    assert View(q.state) == w';
    assert EpochsOf(w') == EpochsOf(w);
  }

  lemma {:induction false} DeltasTrack<E(!new)>(g: Game<E>, p: Pass<E>, w: World, known: map<U32, U32>, data: Bytes,
                                           es: seq<DeltaEntry>, targets: seq<Bytes>)
    requires !p.threw && Tracks(p.state, w, known)
    requires At(data, p.pos, DeltasBytes(es)) && ProperDeltas(g, w, es, targets)
    ensures |es| == |targets|
    ensures var q := ReadDeltas(g, p, data, |es|);
            && !q.threw && q.pos == p.pos + |DeltasBytes(es)|
            && q.state.stream == p.state.stream && q.state.last == p.state.last
            && Tracks(q.state, WithDeltas(w, es, targets), known)
    decreases |es|
  {
    hide At, DecodeDelta, DeltaBytes, Tracks, TakeDelta, ProperDelta;
    if es == [] {
    } else {
      var e := es[0];
      AtSplit(data, p.pos, DeltaBytes(e), DeltasBytes(es[1..]));
      ProperFits(g, w, e, targets[0]);
      DeltaAt(data, p.pos, e);
      var p' := p.(pos := p.pos + |DeltaBytes(e)|);
      DeltaTracks(g, p', w, known, e, targets[0]);
      DeltasTrack(g, TakeDelta(g, p', e), w[e.netID := Snap(e.epoch, e.kind, targets[0])], known, data, es[1..],
          targets[1..]);
    }
  }

  lemma ProperFits<E(!new)>(g: Game<E>, w: World, e: DeltaEntry, target: Bytes)
    requires ProperDelta(g, w, e, target)
    ensures DeltaFits(e) && e.netID in w
  {
    hide F.IsDelta, F.WellFormed, Decodable;
  }

  lemma {:induction false} FullKeys(w: World, es: seq<FullEntry>)
    ensures WithFulls(w, es).Keys == w.Keys + Ids(es)
    decreases |es|
  {
    if es == [] {
      assert w.Keys + Ids(es) == w.Keys;
    } else {
      FullKeys(w[es[0].netID := Snap(es[0].epoch, es[0].kind, es[0].snapshot)], es[1..]);
      assert es == [es[0]] + es[1..];
      assert Ids(es) == {es[0].netID} + Ids(es[1..]);
    }
  }

  lemma {:induction false} DeltaKeys<E(!new)>(g: Game<E>, w: World, es: seq<DeltaEntry>, targets: seq<Bytes>)
    requires ProperDeltas(g, w, es, targets)
    ensures WithDeltas(w, es, targets).Keys == w.Keys
    decreases |es|
  {
    hide ProperDelta;
    if es == [] {
    } else {
      ProperFits(g, w, es[0], targets[0]);
      DeltaKeys(g, w[es[0].netID := Snap(es[0].epoch, es[0].kind, targets[0])], es[1..], targets[1..]);
    }
  }

  /** The decoder holds exactly the sender's world, at the sender's position. */
  ghost predicate InStep<E>(s: State<E>, world: World, stream: nat, sequence: nat) {
    && View(s) == world && s.epochs == EpochsOf(world)
    && s.stream == Some(stream % WRAP32) && s.last == Some(sequence % WRAP32)
  }

  lemma ForgetInStep<E>(s: State<E>, w: World, known: map<U32, U32>, gone: set<U32>, restart: bool, ids: set<U32>)
    requires s.stream.Some? && Tracks(s, w, known)
    requires if restart then w.Keys == ids else known.Keys <= w.Keys
    ensures View(Forget(s, gone, restart, ids)) == w - gone
    ensures Forget(s, gone, restart, ids).epochs == EpochsOf(w - gone)
  {
    var t := Forget(s, gone, restart, ids);
    assert View(t) == w - gone by {
      forall id | id in w - gone ensures id in View(s) { }
    }
    forall id ensures id in t.epochs <==> id in EpochsOf(w - gone) {
    }
    assert t.epochs == EpochsOf(w - gone);
  }

  /** The entries of a printed frame, read from a decoder in step with `before`. */
  lemma EntriesTrack<E(!new)>(g: Game<E>, s: State<E>, n: Sent, before: World)
    requires Describes(g, before, n.frame, n.targets, n.world) && InStep(s, before, n.stream, n.sequence)
    ensures var f, data := n.frame, FrameBytes(n.frame);
            var w := WithFulls(if Restarts(f) then map[] else before, f.full);
            var fulls := ReadFulls(g, Started(s, HeaderOf(f), HEADER_SIZE), data, |f.full|);
            var deltas := ReadDeltas(g, Pass(fulls.state, [], {}, fulls.pos, false), data, |f.delta|);
            && !fulls.threw && !deltas.threw && |f.delta| == |n.targets|
            && deltas.pos == HEADER_SIZE + |FullsBytes(f.full)| + |DeltasBytes(f.delta)|
            && deltas.state.stream == s.stream && deltas.state.last == s.last
            && Tracks(deltas.state, WithDeltas(w, f.delta, n.targets), EpochsOf(before))
            && WithDeltas(w, f.delta, n.targets).Keys == w.Keys && fulls.ids == Ids(f.full)
  {
    hide ReadFulls, ReadDeltas, At, FullsBytes, DeltasBytes, IdsBytes, AckBytes, HeaderBytes, FrameBytes, WithFulls,
         WithDeltas, ProperFulls, ProperDeltas, Fits, Started, Tracks, View, EpochsOf, Restarts, HeaderOf, Ids;
    var f, data := n.frame, FrameBytes(n.frame);
    PartsAt(f);
    HeaderAt(data, f);
    var p := Started(s, HeaderOf(f), HEADER_SIZE);
    var w := if Restarts(f) then map[] else before;
    var known := EpochsOf(before);
    StartTracks(s, n, before);
    FullsTrack(g, p, w, known, data, f.full);
    var fulls := ReadFulls(g, p, data, |f.full|);
    DeltasTrack(g, Pass(fulls.state, [], {}, fulls.pos, false), WithFulls(w, f.full), known, data, f.delta, n.targets);
    DeltaKeys(g, WithFulls(w, f.full), f.delta, n.targets);
    assert {} + Ids(f.full) == Ids(f.full);
  }

  lemma StartTracks<E>(s: State<E>, n: Sent, before: World)
    requires Fits(n.frame) && InStep(s, before, n.stream, n.sequence)
    ensures var p, h := Started(s, HeaderOf(n.frame), HEADER_SIZE), HeaderOf(n.frame);
            var w := if Restarts(n.frame) then map[] else before;
            && p == Pass(p.state, [], {}, HEADER_SIZE, false)
            && p.state.stream == s.stream && p.state.last == s.last && p.state.epochs == EpochsOf(before)
            && Tracks(p.state, w, EpochsOf(before)) && w.Keys <= EpochsOf(before).Keys
            && h.fullCount == |n.frame.full| && h.deltaCount == |n.frame.delta|
  {
    hide Fits, FlagsFor, And;
    FlagsKept(n.frame.flags, n.frame.ack);
  }

  /** The lists behind the entries of a printed frame. */
  lemma ListsRead<E>(f: Frame, changed: bool, fulls: Pass<E>, deltas: Pass<E>)
    requires Fits(f) && deltas.pos == HEADER_SIZE + |FullsBytes(f.full)| + |DeltasBytes(f.delta)|
    ensures var r := Finished(HeaderOf(f), changed, fulls, deltas, FrameBytes(f));
            && r.0 == Forget(deltas.state, Elements(f.removed) + Elements(f.exited), Restarts(f), fulls.ids)
            && r.1 == Update(f.tick, f.sequence, Restarts(f), changed, f.ack, fulls.made, deltas.made, f.removed,
                f.exited)
  {
    hide Forget, At, FullsBytes, DeltasBytes, IdsBytes, AckBytes, HeaderBytes, FrameBytes, DecodeIds, DecodeAck, And,
         FlagsFor, Fits;
    var data, h := FrameBytes(f), HeaderOf(f);
    PartsAt(f);
    HeaderAt(data, f);
    FlagsKept(f.flags, f.ack);
    IdsAt(data, deltas.pos, f.removed);
    IdsAt(data, deltas.pos + |IdsBytes(f.removed)|, f.exited);
    AckAt(data, deltas.pos + |IdsBytes(f.removed)| + |IdsBytes(f.exited)|, h.flags, f.ack);
  }

  /** An accepted frame that describes the step from `before` puts the decoder in step with `after`. */
  lemma FrameInStep<E(!new)>(g: Game<E>, s: State<E>, n: Sent, before: World)
    requires n.frame.sequence == n.sequence % WRAP32
    requires Describes(g, before, n.frame, n.targets, n.world)
    requires var a := AcceptFrame(s, Some(n.stream % WRAP32), n.frame.sequence);
             a.Open? && InStep(a.state, before, n.stream, n.sequence)
    ensures var r := Decode(g, s, FrameBytes(n.frame), Some(n.stream % WRAP32));
            r.1.Update? && InStep(r.0, n.world, n.stream, n.sequence)
  {
    hide ReadFulls, ReadDeltas, Forget, At, FullsBytes, DeltasBytes, HeaderBytes, FrameBytes, AcceptFrame, Finished,
         Started, DecodeHeader, WithFulls, WithDeltas, ProperFulls, ProperDeltas, FlagsFor, Fits, Tracks, View,
         EpochsOf, Restarts, Ids;
    var f, data := n.frame, FrameBytes(n.frame);
    PartsAt(f);
    HeaderAt(data, f);
    var h := HeaderOf(f);
    var a := AcceptFrame(s, Some(n.stream % WRAP32), f.sequence);
    EntriesTrack(g, a.state, n, before);
    var fulls := ReadFulls(g, Started(a.state, h, HEADER_SIZE), data, |f.full|);
    var deltas := ReadDeltas(g, Pass(fulls.state, [], {}, fulls.pos, false), data, |f.delta|);
    ListsRead(f, a.changed, fulls, deltas);
    var w := WithFulls(if Restarts(f) then map[] else before, f.full);
    var gone := Elements(f.removed) + Elements(f.exited);
    FullKeys(if Restarts(f) then map[] else before, f.full);
    KnownKeys(before);
    ForgetInStep(deltas.state, WithDeltas(w, f.delta, n.targets), EpochsOf(before), gone, Restarts(f), fulls.ids);
    ForgetPosition(deltas.state, gone, Restarts(f), fulls.ids);
  }

  lemma KnownKeys(w: World)
    ensures EpochsOf(w).Keys == w.Keys
  {
  }

  lemma ForgetPosition<E>(s: State<E>, gone: set<U32>, restart: bool, ids: set<U32>)
    ensures var t := Forget(s, gone, restart, ids); t.stream == s.stream && t.last == s.last
  {
  }

  // ---- Whole runs ---------------------------------------------------------------------------

  /** The decoder after the first `n` frames in order, with frames named by `schedule` arriving one by one. */
  datatype Client<E> = Client(state: State<E>, next: nat)

  function Arrive<E>(g: Game<E>, c: Client<E>, h: seq<Sent>, k: nat): Client<E>
    requires k < |h|
  {
    Client(Decode(g, c.state, FrameBytes(h[k].frame), Some(h[k].stream % WRAP32)).0,
        if k == c.next then k + 1 else c.next)
  }

  /** The next frame, or any earlier one whose position is at most half the serial range behind. */
  predicate MayArrive(h: seq<Sent>, next: nat, k: nat)
    requires next <= |h| && k < |h|
  {
    || k == next
    || (k < next && h[next - 1].stream - h[k].stream <= HALF32
        && (h[k].stream == h[next - 1].stream ==> h[next - 1].sequence - h[k].sequence <= HALF32))
  }

  function Run<E>(g: Game<E>, h: seq<Sent>, schedule: seq<nat>): Client<E>
    requires forall i | 0 <= i < |schedule| :: schedule[i] < |h|
    decreases |schedule|
  {
    if schedule == [] then Client(Cleared(), 0)
    else Arrive(g, Run(g, h, schedule[..|schedule| - 1]), h, schedule[|schedule| - 1])
  }

  ghost predicate Legal<E>(g: Game<E>, h: seq<Sent>, schedule: seq<nat>) {
    && (forall i | 0 <= i < |schedule| :: schedule[i] < |h|)
    && (forall i | 0 <= i < |schedule| ::
          Run(g, h, schedule[..i]).next <= |h| && MayArrive(h, Run(g, h, schedule[..i]).next, schedule[i]))
  }

  ghost predicate Synced<E>(c: Client<E>, h: seq<Sent>) {
    && c.next <= |h|
    && if c.next == 0 then c.state == Cleared()
       else InStep(c.state, h[c.next - 1].world, h[c.next - 1].stream, h[c.next - 1].sequence)
  }

  lemma {:induction false} Ordered<E(!new)>(g: Game<E>, h: seq<Sent>, i: nat, j: nat)
    requires Proper(g, h) && i <= j < |h|
    ensures h[i].stream < h[j].stream || (h[i].stream == h[j].stream && h[i].sequence <= h[j].sequence)
    ensures h[j].frame.sequence == h[j].sequence % WRAP32
    decreases j
  {
    hide Describes;
    if i < j {
      Ordered(g, h, i, j - 1);
      assert Follows(g, h[j - 1], h[j]);
    } else if j > 0 {
      assert Follows(g, h[j - 1], h[j]);
    }
  }

  /** A duplicate or an older frame is refused: nothing changes. */
  lemma OldFrameIgnored<E(!new)>(g: Game<E>, c: Client<E>, h: seq<Sent>, k: nat)
    requires Proper(g, h) && Synced(c, h) && k < c.next && MayArrive(h, c.next, k)
    ensures Arrive(g, c, h, k) == c
    ensures Decode(g, c.state, FrameBytes(h[k].frame), Some(h[k].stream % WRAP32)).1.Rejected?
  {
    hide Proper, Decode, FrameBytes, View, EpochsOf, IsNewer, Fits;
    var f, last := h[k].frame, h[c.next - 1];
    FrameFits(g, h, k);
    Ordered(g, h, k, c.next - 1);
    Ordered(g, h, k, k);
    NewerUnwrapped(h[k].stream, last.stream);
    if h[k].stream == last.stream {
      NewerUnwrapped(h[k].sequence, last.sequence);
    }
    RefusedFrame(g, c.state, f, Some(h[k].stream % WRAP32));
  }

  lemma RefusedFrame<E>(g: Game<E>, s: State<E>, f: Frame, epoch: Option<U32>)
    requires Fits(f) && AcceptFrame(s, epoch, f.sequence).Closed?
    ensures Decode(g, s, FrameBytes(f), epoch) == (s, Rejected)
  {
    hide FrameBytes, HeaderBytes, DecodeHeader, AcceptFrame, Fits, FlagsFor, At, ReadFulls, ReadDeltas, Finished,
         FullsBytes, DeltasBytes, IdsBytes, AckBytes;
    PartsAt(f);
    HeaderAt(FrameBytes(f), f);
  }

  lemma FrameFits<E(!new)>(g: Game<E>, h: seq<Sent>, k: nat)
    requires Proper(g, h) && k < |h|
    ensures Fits(h[k].frame)
  {
    hide Fits, ProperFulls, ProperDeltas;
    if k > 0 {
      assert Follows(g, h[k - 1], h[k]);
    }
  }

  lemma NextFrameApplied<E(!new)>(g: Game<E>, c: Client<E>, h: seq<Sent>)
    requires Proper(g, h) && Synced(c, h) && c.next < |h|
    ensures Synced(Arrive(g, c, h, c.next), h)
  {
    hide Describes, FrameBytes, IsNewer, Decode;
    var n := h[c.next];
    if c.next == 0 {
      assert InStep(AcceptFrame(c.state, Some(n.stream % WRAP32), n.frame.sequence).state, map[], n.stream, n.sequence);
      FrameInStep(g, c.state, n, map[]);
    } else {
      var last := h[c.next - 1];
      assert Follows(g, last, n);
      NewerUnwrapped(n.stream, last.stream);
      if n.stream == last.stream {
        NewerUnwrapped(n.sequence, last.sequence);
        FrameInStep(g, c.state, n, last.world);
      } else {
        assert EpochsOf(map[]) == map[];
        FrameInStep(g, c.state, n, map[]);
      }
    }
  }

  /** Every sender history, every schedule without loss: the baselines are the last world sent. */
  lemma {:induction false} BaselinesAreSnapshots<E(!new)>(g: Game<E>, h: seq<Sent>, schedule: seq<nat>)
    requires Proper(g, h) && Legal(g, h, schedule)
    ensures Synced(Run(g, h, schedule), h)
    decreases |schedule|
  {
    hide Proper, Synced, MayArrive, Arrive;
    if schedule == [] {
      Unstarted(g, h);
    } else {
      var n := |schedule| - 1;
      var earlier := schedule[..n];
      assert forall i | 0 <= i < n :: earlier[..i] == schedule[..i];
      BaselinesAreSnapshots(g, h, earlier);
      var c, k := Run(g, h, earlier), schedule[n];
      SyncedNext(c, h);
      if k == c.next {
        NextFrameApplied(g, c, h);
      } else {
        Earlier(h, c.next, k);
        OldFrameIgnored(g, c, h, k);
      }
    }
  }

  lemma Unstarted<E>(g: Game<E>, h: seq<Sent>)
    ensures Synced(Run(g, h, []), h)
  {
  }

  lemma SyncedNext<E>(c: Client<E>, h: seq<Sent>)
    requires Synced(c, h)
    ensures c.next <= |h|
  {
  }

  lemma Earlier(h: seq<Sent>, next: nat, k: nat)
    requires next <= |h| && k < |h| && MayArrive(h, next, k) && k != next
    ensures k < next
  {
  }
}
