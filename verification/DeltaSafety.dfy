/**
 What every run of the decoder keeps, whatever bytes arrive: baselines agree with
 the recorded authority epochs unless a snapshot fails to decode at the wrong
 moment, a rejected frame changes nothing, and recorded epochs only move forward.
 */
module DeltaSafety {
  import opened Words
  import opened Endian
  import opened Serial
  import F = DeltaFields
  import opened DeltaFrame
  import opened DeltaDecoder

  /** Every baseline carries exactly the authority epoch recorded for its entity. */
  ghost predicate Agree<E>(s: State<E>) {
    forall id :: id in s.baselines ==> id in s.epochs && s.epochs[id] == s.baselines[id].epoch
  }

  /** The entry raises the recorded epoch of an entity whose baseline it then fails to replace. */
  predicate Breaks<E>(g: Game<E>, s: State<E>, e: FullEntry) {
    && !Stale(s.epochs, e.netID, e.epoch) && FullEntity(g, s, e).Broken?
    && e.netID in s.baselines && s.baselines[e.netID].epoch != e.epoch
  }

  lemma FullAgrees<E>(g: Game<E>, p: Pass<E>, e: FullEntry)
    requires Agree(p.state) && !p.threw
    ensures Agree(TakeFull(g, p, e).state) <==> !Breaks(g, p.state, e)
    ensures Breaks(g, p.state, e) ==> TakeFull(g, p, e).threw
  {
    hide IsNewer;
    if Breaks(g, p.state, e) {
      assert e.netID in TakeFull(g, p, e).state.baselines;
    }
  }

  predicate FullsBreak<E>(g: Game<E>, p: Pass<E>, data: Bytes, n: nat)
    decreases n
  {
    n > 0 && !p.threw && DecodeFull(data, p.pos).Some? &&
    var r := DecodeFull(data, p.pos).value;
    Breaks(g, p.state, r.0) || FullsBreak(g, TakeFull(g, p.(pos := r.1), r.0), data, n - 1)
  }

  lemma {:induction false} FullsAgree<E>(g: Game<E>, p: Pass<E>, data: Bytes, n: nat)
    requires Agree(p.state) && !p.threw
    ensures Agree(ReadFulls(g, p, data, n).state) <==> !FullsBreak(g, p, data, n)
    ensures FullsBreak(g, p, data, n) ==> ReadFulls(g, p, data, n).threw
    decreases n
  {
    hide Agree, Breaks, TakeFull, DecodeFull;
    if n == 0 {
    } else {
      var d := DecodeFull(data, p.pos);
      if d.Some? {
        var q := TakeFull(g, p.(pos := d.value.1), d.value.0);
        FullAgrees(g, p.(pos := d.value.1), d.value.0);
        if !q.threw {
          FullsAgree(g, q, data, n - 1);
        }
      }
    }
  }

  /** After a reset, baselines exist only for entities the frame carries in full. */
  lemma {:induction false} FullsWithin<E>(g: Game<E>, p: Pass<E>, data: Bytes, n: nat)
    requires p.state.baselines.Keys <= p.ids
    ensures var q := ReadFulls(g, p, data, n);
            q.state.baselines.Keys <= q.ids && q.state.stream == p.state.stream && q.state.last == p.state.last
    decreases n
  {
    hide DecodeFull, Stale;
    if n > 0 && !p.threw {
      var d := DecodeFull(data, p.pos);
      if d.Some? {
        FullsWithin(g, TakeFull(g, p.(pos := d.value.1), d.value.0), data, n - 1);
      }
    }
  }

  /** Deltas touch no epoch, no key and no position. */
  lemma {:induction false} DeltasAgree<E>(g: Game<E>, p: Pass<E>, data: Bytes, n: nat)
    ensures var q := ReadDeltas(g, p, data, n);
            && q.state.epochs == p.state.epochs && q.state.baselines.Keys == p.state.baselines.Keys
            && q.state.stream == p.state.stream && q.state.last == p.state.last
            && (Agree(p.state) ==> Agree(q.state))
    decreases n
  {
    hide DecodeDelta, TakeDelta;
    if n > 0 && !p.threw {
      var d := DecodeDelta(data, p.pos);
      if d.Some? {
        DeltaAgrees(g, p.(pos := d.value.1), d.value.0);
        DeltasAgree(g, TakeDelta(g, p.(pos := d.value.1), d.value.0), data, n - 1);
      }
    }
  }

  lemma DeltaAgrees<E>(g: Game<E>, p: Pass<E>, e: DeltaEntry)
    ensures var q := TakeDelta(g, p, e);
            && q.state.epochs == p.state.epochs && q.state.baselines.Keys == p.state.baselines.Keys
            && q.state.stream == p.state.stream && q.state.last == p.state.last
            && (Agree(p.state) ==> Agree(q.state))
  {
    hide F.Apply;
  }

  lemma ForgetAgrees<E>(s: State<E>, gone: set<U32>, restart: bool, ids: set<U32>)
    requires Agree(s) && (restart ==> s.baselines.Keys <= ids)
    ensures Agree(Forget(s, gone, restart, ids))
  {
    var t := Forget(s, gone, restart, ids);
    forall id | id in t.baselines ensures id in t.epochs && t.epochs[id] == t.baselines[id].epoch {
      assert id in s.baselines;
      assert restart ==> id in ids;
    }
  }

  /** The frame is accepted, and a full entry of it breaks the agreement. */
  predicate FrameBreaks<E>(g: Game<E>, s: State<E>, data: Bytes, epoch: Option<U32>) {
    DecodeHeader(data, 0).Some? &&
    var header := DecodeHeader(data, 0).value;
    AcceptFrame(s, epoch, header.0.sequence).Open? &&
    FullsBreak(g, Started(AcceptFrame(s, epoch, header.0.sequence).state, header.0, header.1), data, header.0.fullCount)
  }

  /** One frame of any bytes keeps the agreement exactly when it does not break it. */
  lemma FrameAgrees<E>(g: Game<E>, s: State<E>, data: Bytes, epoch: Option<U32>)
    requires Agree(s)
    ensures Agree(Decode(g, s, data, epoch).0) <==> !FrameBreaks(g, s, data, epoch)
  {
    hide Agree, ReadFulls, ReadDeltas, FullsBreak, DecodeHeader, Forget, DecodeIds, DecodeAck, AcceptFrame, IsFresh;
    var header := DecodeHeader(data, 0);
    if header.Some? {
      var h, pos := header.value.0, header.value.1;
      var fence := AcceptFrame(s, epoch, h.sequence);
      if fence.Open? {
        FenceAgrees(s, epoch, h, pos);
        var p := Started(fence.state, h, pos);
        FullsAgree(g, p, data, h.fullCount);
        var fulls := ReadFulls(g, p, data, h.fullCount);
        if IsFresh(h) { FullsWithin(g, p, data, h.fullCount); }
        if !fulls.threw {
          var p' := Pass(fulls.state, [], {}, fulls.pos, false);
          DeltasAgree(g, p', data, h.deltaCount);
          var deltas := ReadDeltas(g, p', data, h.deltaCount);
          FinishedAgrees(h, fence.changed, fulls, deltas, data);
        }
      }
    }
  }

  lemma FenceAgrees<E>(s: State<E>, epoch: Option<U32>, h: Header, pos: nat)
    requires Agree(s) && AcceptFrame(s, epoch, h.sequence).Open?
    ensures Agree(Started(AcceptFrame(s, epoch, h.sequence).state, h, pos).state)
  {
  }

  lemma FinishedAgrees<E>(h: Header, changed: bool, fulls: Pass<E>, deltas: Pass<E>, data: Bytes)
    requires Agree(deltas.state) && (IsFresh(h) ==> deltas.state.baselines.Keys <= fulls.ids)
    ensures Agree(Finished(h, changed, fulls, deltas, data).0)
  {
    hide Agree, DecodeIds, DecodeAck, Forget, IsFresh;
    forall gone: set<U32> ensures Agree(Forget(deltas.state, gone, IsFresh(h), fulls.ids)) {
      ForgetAgrees(deltas.state, gone, IsFresh(h), fulls.ids);
    }
  }

  // ---- Runs -----------------------------------------------------------------------------

  datatype Input = Input(data: Bytes, epoch: Option<U32>)

  function Run<E>(g: Game<E>, s: State<E>, inputs: seq<Input>): State<E>
    decreases |inputs|
  {
    if inputs == [] then s else Decode(g, Run(g, s, inputs[..|inputs| - 1]), inputs[|inputs| - 1].data,
        inputs[|inputs| - 1].epoch).0
  }

  ghost predicate Breaking<E>(g: Game<E>, inputs: seq<Input>, k: nat)
    requires k < |inputs|
  {
    FrameBreaks(g, Run(g, Cleared(), inputs[..k]), inputs[k].data, inputs[k].epoch)
  }

  lemma {:induction false} AgreeUntil<E>(g: Game<E>, inputs: seq<Input>, n: nat)
    requires n <= |inputs| && forall k | 0 <= k < n :: !Breaking(g, inputs, k)
    ensures Agree(Run(g, Cleared(), inputs[..n]))
    decreases n
  {
    hide Decode, FrameBreaks;
    if n == 0 {
      assert Run(g, Cleared(), inputs[..0]) == Cleared();
    } else {
      AgreeUntil(g, inputs, n - 1);
      assert inputs[..n][..n - 1] == inputs[..n - 1];
      assert !Breaking(g, inputs, n - 1);
      FrameAgrees(g, Run(g, Cleared(), inputs[..n - 1]), inputs[n - 1].data, inputs[n - 1].epoch);
    }
  }

  /** In every run, from any bytes: the agreement holds throughout if and only if no frame breaks it. */
  lemma AlwaysAgree<E>(g: Game<E>, inputs: seq<Input>)
    ensures (forall n | 0 <= n <= |inputs| :: Agree(Run(g, Cleared(), inputs[..n])))
            <==> (forall k | 0 <= k < |inputs| :: !Breaking(g, inputs, k))
  {
    hide Decode, FrameBreaks, Agree;
    if forall k | 0 <= k < |inputs| :: !Breaking(g, inputs, k) {
      forall n | 0 <= n <= |inputs| ensures Agree(Run(g, Cleared(), inputs[..n])) {
        AgreeUntil(g, inputs, n);
      }
    }
    if forall n | 0 <= n <= |inputs| :: Agree(Run(g, Cleared(), inputs[..n])) {
      forall k | 0 <= k < |inputs| ensures !Breaking(g, inputs, k) {
        assert inputs[..k + 1][..k] == inputs[..k];
        assert Agree(Run(g, Cleared(), inputs[..k])) && Agree(Run(g, Cleared(), inputs[..k + 1]));
        FrameAgrees(g, Run(g, Cleared(), inputs[..k]), inputs[k].data, inputs[k].epoch);
      }
    }
  }

  // ---- A run that breaks it ---------------------------------------------------------------

  /** A frame that carries one full entry and nothing else. */
  function OnlyFull(sequence: U32, e: FullEntry): Frame {
    Frame(0, sequence, 0, [e], [], [], [], None)
  }

  /** What the decoder makes of such a frame once the fence is open. */
  lemma OnlyFullDecoded<E>(g: Game<E>, s: State<E>, sequence: U32, e: FullEntry, epoch: Option<U32>)
    requires FullFits(e) && AcceptFrame(s, epoch, sequence).Open?
    ensures var p := Pass(AcceptFrame(s, epoch, sequence).state, [], {}, HEADER_SIZE + |FullBytes(e)|, false);
            Decode(g, s, FrameBytes(OnlyFull(sequence, e)), epoch).0 == TakeFull(g, p, e).state
  {
    hide FullBytes, DecodeFull, DecodeHeader, AcceptFrame, TakeFull, FrameBytes, HeaderBytes, FlagsFor, And,
         FullFits, At;
    var f := OnlyFull(sequence, e);
    var data := FrameBytes(f);
    PartsAt(f);
    assert Fits(f);
    HeaderAt(data, f);
    FlagsKept(0, None);
    NoFlags();
    var h := HeaderOf(f);
    assert FullsBytes([e]) == FullBytes(e) + [] == FullBytes(e) by { assert [e][1..] == []; }
    FullAt(data, HEADER_SIZE, e);
    var p := Started(AcceptFrame(s, epoch, sequence).state, h, HEADER_SIZE);
    var q := TakeFull(g, p.(pos := HEADER_SIZE + |FullBytes(e)|), e);
    assert ReadFulls(g, p, data, 1) == ReadFulls(g, q, data, 0) == q;
    if !q.threw {
      ReadNothing(g, h, AcceptFrame(s, epoch, sequence).changed, q, data);
    }
  }

  lemma NoFlags()
    ensures And(0, FRESH) == 0 && And(0, INPUT_ACK) == 0
  {
  }

  lemma ReadNothing<E>(g: Game<E>, h: Header, changed: bool, q: Pass<E>, data: Bytes)
    requires h.deltaCount == 0 && h.removedCount == 0 && h.exitedCount == 0
    requires And(h.flags, FRESH) == 0 && And(h.flags, INPUT_ACK) == 0
    ensures var p := Pass(q.state, [], {}, q.pos, false);
            ReadDeltas(g, p, data, 0) == p && Finished(h, changed, q, p, data).0 == q.state
  {
    assert Elements([]) + Elements([]) == {};
    assert q.state.baselines - {} == q.state.baselines && q.state.epochs - {} == q.state.epochs;
  }

  /** A game that builds nothing and throws on one snapshot only. */
  function Picky(): Game<bool> {
    Game(_ => F.Layout([], false), (kind, snapshot, initial, id, epoch, at, prev) =>
           if snapshot == [9] then Broken else Unknown)
  }

  function PickyInputs(): seq<Input> {
    [Input(FrameBytes(OnlyFull(1, FullEntry(1, 5, 0, 0, [0], []))), Some(1)),
     Input(FrameBytes(OnlyFull(2, FullEntry(1, 6, 0, 0, [9], []))), Some(1))]
  }

  /**
   Two frames from the start: entity 1 at epoch 5, then at epoch 6 with a snapshot that
   throws. Its epoch is 6, its baseline 5.
   */
  lemma BrokenSnapshotDisagrees()
    ensures !Agree(Run(Picky(), Cleared(), PickyInputs()))
  {
    hide Decode, FrameBytes;
    var g, inputs := Picky(), PickyInputs();
    var e1, e2 := FullEntry(1, 5, 0, 0, [0], []), FullEntry(1, 6, 0, 0, [9], []);
    OnlyFullDecoded(g, Cleared(), 1, e1, Some(1));
    var s1 := Decode(g, Cleared(), inputs[0].data, inputs[0].epoch).0;
    assert s1 == State(map[1 := Baseline(5, 0, [0], None)], map[1 := 5], Some(1), Some(1));
    assert IsNewer(2, 1) && IsNewer(6, 5);
    OnlyFullDecoded(g, s1, 2, e2, Some(1));
    var s2 := Decode(g, s1, inputs[1].data, inputs[1].epoch).0;
    assert 1 in s2.baselines && s2.baselines[1].epoch == 5 && s2.epochs[1] == 6;
    RunTwo(g, inputs);
  }

  lemma RunTwo<E>(g: Game<E>, inputs: seq<Input>)
    requires |inputs| == 2
    ensures Run(g, Cleared(), inputs)
         == Decode(g, Decode(g, Cleared(), inputs[0].data, inputs[0].epoch).0, inputs[1].data, inputs[1].epoch).0
  {
    hide Decode;
    assert inputs[..1][..0] == [] && inputs[..1][0] == inputs[0];
    assert Run(g, Cleared(), inputs[..1]) == Decode(g, Cleared(), inputs[0].data, inputs[0].epoch).0;
  }

  // ---- The position -------------------------------------------------------------------------

  /** A rejected frame changes nothing; inside a stream the position otherwise moves strictly ahead. */
  lemma PositionAdvances<E>(g: Game<E>, s: State<E>, data: Bytes, epoch: U32)
    requires s.stream.Some? && s.last.Some? && DecodeHeader(data, 0).Some?
    ensures var sequence := DecodeHeader(data, 0).value.0.sequence;
            var (t, r) := Decode(g, s, data, Some(epoch));
            if Ahead(epoch, sequence, s.stream.value, s.last.value)
            then t.stream == Some(epoch) && t.last == Some(sequence) && !r.Rejected?
            else t == s && r.Rejected?
  {
    hide ReadFulls, ReadDeltas, DecodeHeader, DecodeIds, DecodeAck, Ahead;
    var header := DecodeHeader(data, 0).value;
    var h := header.0;
    FenceIsExact(s, epoch, h.sequence);
    var fence := AcceptFrame(s, Some(epoch), h.sequence);
    if fence.Open? {
      var p := Started(fence.state, h, header.1);
      FullsPosition(g, p, data, h.fullCount);
      var fulls := ReadFulls(g, p, data, h.fullCount);
      DeltasAgree(g, Pass(fulls.state, [], {}, fulls.pos, false), data, h.deltaCount);
    }
  }

  /** A frame without a stream epoch is never fenced off, and the first one with an epoch sets the position. */
  lemma PositionStarts<E>(g: Game<E>, s: State<E>, data: Bytes, epoch: Option<U32>)
    requires DecodeHeader(data, 0).Some? && (epoch.None? || s.stream.None?)
    ensures var sequence := DecodeHeader(data, 0).value.0.sequence;
            var (t, r) := Decode(g, s, data, epoch);
            && !r.Rejected?
            && t.stream == (if epoch.None? then s.stream else epoch)
            && t.last == (if epoch.None? then s.last else Some(sequence))
            && (r.Update? ==> r.changed == epoch.Some?)
  {
    hide ReadFulls, ReadDeltas, DecodeHeader, DecodeIds, DecodeAck;
    var header := DecodeHeader(data, 0).value;
    var h := header.0;
    var fence := AcceptFrame(s, epoch, h.sequence);
    var p := Started(fence.state, h, header.1);
    FullsPosition(g, p, data, h.fullCount);
    var fulls := ReadFulls(g, p, data, h.fullCount);
    DeltasAgree(g, Pass(fulls.state, [], {}, fulls.pos, false), data, h.deltaCount);
  }

  lemma {:induction false} FullsPosition<E>(g: Game<E>, p: Pass<E>, data: Bytes, n: nat)
    ensures var q := ReadFulls(g, p, data, n); q.state.stream == p.state.stream && q.state.last == p.state.last
    decreases n
  {
    hide DecodeFull, Stale;
    if n > 0 && !p.threw {
      var d := DecodeFull(data, p.pos);
      if d.Some? {
        FullsPosition(g, TakeFull(g, p.(pos := d.value.1), d.value.0), data, n - 1);
      }
    }
  }

  // ---- Authority epochs -------------------------------------------------------------------

  function Lookup(m: map<U32, U32>, id: U32): Option<U32> {
    if id in m then Some(m[id]) else None
  }

  /** The epochs that the full entries of one entity bring, as far as the pass gets. */
  function Carried<E>(g: Game<E>, p: Pass<E>, data: Bytes, n: nat, id: U32): seq<U32>
    decreases n
  {
    if n == 0 || p.threw || DecodeFull(data, p.pos).None? then []
    else
      var r := DecodeFull(data, p.pos).value;
      (if r.0.netID == id then [r.0.epoch] else []) + Carried(g, TakeFull(g, p.(pos := r.1), r.0), data, n - 1, id)
  }

  /** Whether a pass ends well or throws, it records the running serial maximum of what it saw. */
  lemma {:induction false} FullsRecord<E>(g: Game<E>, p: Pass<E>, data: Bytes, n: nat, id: U32)
    ensures Lookup(ReadFulls(g, p, data, n).state.epochs, id)
         == Latest(Lookup(p.state.epochs, id), Carried(g, p, data, n, id))
    decreases n
  {
    hide DecodeFull, IsNewer, TakeFull;
    if n == 0 || p.threw || DecodeFull(data, p.pos).None? {
      assert Carried(g, p, data, n, id) == [];
    } else {
      var r := DecodeFull(data, p.pos).value;
      var q := TakeFull(g, p.(pos := r.1), r.0);
      FullRecords(g, p.(pos := r.1), r.0, id);
      FullsRecord(g, q, data, n - 1, id);
      var rest := Carried(g, q, data, n - 1, id);
      assert ([r.0.epoch] + rest)[1..] == rest && [] + rest == rest;
    }
  }

  lemma FullRecords<E>(g: Game<E>, p: Pass<E>, e: FullEntry, id: U32)
    ensures Lookup(TakeFull(g, p, e).state.epochs, id)
         == if e.netID == id then Later(Lookup(p.state.epochs, id), e.epoch) else Lookup(p.state.epochs, id)
  {
    hide IsNewer;
  }

  /** The state a frame works on once the fence let it through. */
  function Opened<E>(s: State<E>, data: Bytes, epoch: Option<U32>): Option<Pass<E>> {
    match DecodeHeader(data, 0)
    case None => None
    case Some(h) =>
      match AcceptFrame(s, epoch, h.0.sequence)
      case Closed => None
      case Open(s1, _) => Some(Started(s1, h.0, h.1))
  }

  function FullCount(data: Bytes): nat {
    if DecodeHeader(data, 0).Some? then DecodeHeader(data, 0).value.0.fullCount else 0
  }

  /** The epochs one frame brings for an entity; none if it is rejected. */
  function FrameCarries<E>(g: Game<E>, s: State<E>, i: Input, id: U32): seq<U32> {
    var p := Opened(s, i.data, i.epoch);
    if p.Some? then Carried(g, p.value, i.data, FullCount(i.data), id) else []
  }

  /** The frame moves from one stream to a newer one. */
  predicate ChangesStream<E>(s: State<E>, i: Input) {
    s.stream.Some? && Opened(s, i.data, i.epoch).Some? && i.epoch.Some? && i.epoch != s.stream
  }

  /** Inside a stream the frame removes the entity, lets it exit, or omits it from a fresh snapshot. */
  predicate Drops<E>(g: Game<E>, s: State<E>, i: Input, id: U32) {
    var (t, r) := Decode(g, s, i.data, i.epoch);
    && r.Update? && t.stream.Some? && Opened(s, i.data, i.epoch).Some?
    && (|| id in r.removed || id in r.exited
        || (r.restart && id !in ReadFulls(g, Opened(s, i.data, i.epoch).value, i.data, FullCount(i.data)).ids))
  }

  /** Any frame, whether applied, rejected or thrown, with or without a stream: what it does to a recorded epoch. */
  lemma FrameEpochs<E>(g: Game<E>, s: State<E>, i: Input, id: U32)
    ensures var before := if ChangesStream(s, i) then None else Lookup(s.epochs, id);
            Lookup(Decode(g, s, i.data, i.epoch).0.epochs, id)
            == if Drops(g, s, i, id) then None else Latest(before, FrameCarries(g, s, i, id))
  {
    hide ReadFulls, ReadDeltas, DecodeHeader, DecodeIds, DecodeAck, Carried, And, IsNewer, Latest;
    var open := Opened(s, i.data, i.epoch);
    if open.Some? {
      var h := DecodeHeader(i.data, 0).value.0;
      var p := open.value;
      FullsRecord(g, p, i.data, h.fullCount, id);
      FullsPosition(g, p, i.data, h.fullCount);
      var fulls := ReadFulls(g, p, i.data, h.fullCount);
      var p' := Pass(fulls.state, [], {}, fulls.pos, false);
      DeltasAgree(g, p', i.data, h.deltaCount);
      OpenedEpochs(s, i, id);
    } else {
      NothingLater(Lookup(s.epochs, id));
    }
  }

  lemma NothingLater(start: Option<U32>)
    ensures Latest(start, []) == start
  {
  }

  lemma OpenedEpochs<E>(s: State<E>, i: Input, id: U32)
    requires Opened(s, i.data, i.epoch).Some?
    ensures Lookup(Opened(s, i.data, i.epoch).value.state.epochs, id)
         == if ChangesStream(s, i) then None else Lookup(s.epochs, id)
  {
    hide DecodeHeader, IsNewer, And;
  }

  // ---- Authority epochs over runs -----------------------------------------------------------

  /** Every epoch that the frames from `i` on bring for an entity. */
  function Trail<E>(g: Game<E>, inputs: seq<Input>, i: nat, id: U32): seq<U32>
    requires i <= |inputs|
    decreases |inputs|
  {
    if i == |inputs| then []
    else
      var n := |inputs| - 1;
      Trail(g, inputs[..n], i, id) + FrameCarries(g, Run(g, Cleared(), inputs[..n]), inputs[n], id)
  }

  /** Frame `k` leaves the entity in the stream it is in. */
  ghost predicate Stays<E>(g: Game<E>, inputs: seq<Input>, k: nat, id: U32)
    requires k < |inputs|
  {
    var s := Run(g, Cleared(), inputs[..k]);
    !Drops(g, s, inputs[k], id) && !ChangesStream(s, inputs[k])
  }

  /** Over any part of any run in which the entity stays, its epoch is the running serial maximum of all it was sent. */
  lemma {:induction false} EpochsOverRuns<E>(g: Game<E>, inputs: seq<Input>, i: nat, id: U32)
    requires i <= |inputs| && forall k | i <= k < |inputs| :: Stays(g, inputs, k, id)
    ensures Lookup(Run(g, Cleared(), inputs).epochs, id)
         == Latest(Lookup(Run(g, Cleared(), inputs[..i]).epochs, id), Trail(g, inputs, i, id))
    decreases |inputs|
  {
    hide Decode, Drops, ChangesStream, FrameCarries, Latest;
    if i == |inputs| {
      assert inputs[..i] == inputs;
      NothingLater(Lookup(Run(g, Cleared(), inputs).epochs, id));
    } else {
      var n := |inputs| - 1;
      var earlier := inputs[..n];
      assert earlier[..i] == inputs[..i];
      forall k | i <= k < n ensures Stays(g, earlier, k, id) {
        assert earlier[..k] == inputs[..k] && Stays(g, inputs, k, id);
      }
      EpochsOverRuns(g, earlier, i, id);
      assert Stays(g, inputs, n, id);
      var s := Run(g, Cleared(), earlier);
      FrameEpochs(g, s, inputs[n], id);
      LatestConcat(Lookup(Run(g, Cleared(), inputs[..i]).epochs, id), Trail(g, earlier, i, id),
                   FrameCarries(g, s, inputs[n], id));
    }
  }

  /**
   A recorded epoch never moves back: counted from any number `low` in whose half of the
   range the epochs lie, it stays recorded and does not fall, and it is the largest sent.
   */
  lemma EpochMovesForward<E>(g: Game<E>, inputs: seq<Input>, i: nat, id: U32, low: U32)
    requires i <= |inputs| && forall k | i <= k < |inputs| :: Stays(g, inputs, k, id)
    requires id in Run(g, Cleared(), inputs[..i]).epochs
    requires Near(low, [Run(g, Cleared(), inputs[..i]).epochs[id]] + Trail(g, inputs, i, id))
    ensures var e, t := Run(g, Cleared(), inputs[..i]).epochs[id], Run(g, Cleared(), inputs).epochs;
            && id in t && Distance(low, e) <= Distance(low, t[id]) && t[id] in [e] + Trail(g, inputs, i, id)
            && forall c :: c in Trail(g, inputs, i, id) ==> Distance(low, c) <= Distance(low, t[id])
  {
    hide Run, Trail, Stays, Latest, Distance, Near;
    var e := Run(g, Cleared(), inputs[..i]).epochs[id];
    EpochsOverRuns(g, inputs, i, id);
    LatestIsMax(low, e, Trail(g, inputs, i, id));
    assert ([e] + Trail(g, inputs, i, id))[0] == e;
  }
}
