/**
 What one delivery does in a run, exactly, in terms of the messages and not of their
 wrapped numbers: which payload is queued, which message becomes known, which messages
 an ACK takes out of the ring. From that and from what a live tick sends follow the two
 halves of progress: a resent message that still fits the peer's bitmap is received, and
 the ACK of the peer's next live tick retires it.
 */
module UdpDelivery {
  import opened Words
  import opened Serial
  import opened Endian
  import opened UdpProto
  import opened UdpSession
  import opened UdpRuns
  import opened UdpSafety
  import C = UdpCalls
  import T = UdpTransport

  // ---- What an ACK names ------------------------------------------------------

  /** The ACK in record `r` names message `n`: its sender's newest, or one whose bit is set. */
  ghost predicate Acks(r: Sent, n: int) {
    var f := TryDecodeAckBody(r.datagram.body);
    && r.datagram.kind == Ack && f.Some?
    && (n == r.high || (r.high - 32 <= n < r.high && Bit(f.value.ackBits, r.high - 1 - n)))
  }

  lemma Backwards(high: int, j: nat)
    ensures (high - j) % WRAP16 == (high % WRAP16 - j) % WRAP16
  {
  }

  /** Of the outstanding messages, an admitted ACK's wrapped numbers name exactly the ones it means. */
  lemma AckNamesMessages(me: Side, peer: Side, k: nat, n: int)
    requires Local(me) && Local(peer) && Toward(me, peer) && Toward(peer, me)
    requires k < |peer.log| && peer.log[k].datagram.kind == Ack
    requires Check(me.state.window, peer.log[k].datagram.counter) && 0 <= n && InRing(me, n)
    ensures var f := TryDecodeAckBody(peer.log[k].datagram.body);
            f.Some? && (C.Names(f.value.ackSeq, f.value.ackBits, me.state.ring[n % T.RING_SIZE].sequence)
                        <==> Acks(peer.log[k], n))
  {
    hide TotalsOk, HighsOk, Check, Tracks, RecordOk, QueuedOnce, QueueOk, ReceiverOk, ProgressOk, Bit;
    var r := peer.log[k];
    assert AckRecordOk(peer, me, r);
    var f := TryDecodeAckBody(r.datagram.body).value;
    var q := me.state.ring[n % T.RING_SIZE].sequence;
    SlotHolds(n, |me.issued|);
    assert SlotOk(me, n % T.RING_SIZE);
    AckWindow(me, peer, k);
    if C.Names(f.ackSeq, f.ackBits, q) {
      var j: nat :| j <= 32 && C.Position(f.ackSeq, f.ackBits, q, j);
      if j > 0 {
        assert Confirmed(peer, me, r.high - 1 - (j - 1));
      }
      AckCongruent(r.high, j, n, |me.issued|);
    }
    if Acks(r, n) {
      Backwards(r.high, r.high - n);
      assert C.Position(f.ackSeq, f.ackBits, q, r.high - n);
    }
  }

  // ---- One delivery ---------------------------------------------------------------

  /** What an admitted datagram leaves behind, by its kind. */
  ghost predicate Effect(me: Side, me': Side, r: Sent) {
    var s, s', d := me.state, me'.state, r.datagram;
    match d.kind
    case Unreliable =>
      && s'.inbound == (if s.closed || d.body == [] then s.inbound else s.inbound + [d.body])
      && me'.got == me.got && s'.recv == s.recv && s'.ring == s.ring
    case Reliable =>
      var unseen := r.msg !in me.got && r.msg >= me.high - 32;
      && s'.inbound == (if !unseen || s.closed || d.body == [] then s.inbound else s.inbound + [d.body])
      && me'.got == (if unseen then me.got + {r.msg} else me.got) && s'.recv.dirty && s'.ring == s.ring
    case Ack =>
      && s'.inbound == s.inbound && me'.got == me.got && s'.recv == s.recv
      && (forall n :: 0 <= n < |me.issued| && InRing(me, n) ==> (InRing(me', n) <==> !Acks(r, n)))
      && (forall x :: 0 <= x < T.RING_SIZE && s'.ring[x].Used? ==> s'.ring[x] == s.ring[x])
    case Disconnect => false
  }

  /** A datagram is either refused without a trace or admitted, once, and counts as a sign of life. */
  ghost predicate Delivered(me: Side, me': Side, r: Sent, now: int) {
    if r.datagram.kind == Disconnect || !Check(me.state.window, r.datagram.counter) then me' == me
    else
      && Effect(me, me', r)
      && me'.state.lastRecv == T.AdvanceClock(me.state.lastRecv, now)
      && !Check(me'.state.window, r.datagram.counter)
      && me'.log == me.log && me'.issued == me.issued && me'.state.closed == me.state.closed
      && me'.state.sendSeq == me.state.sendSeq && me'.state.lastSend == me.state.lastSend
  }

  lemma CommitRefuses(w: Window, counter: U64)
    requires Check(w, counter)
    ensures !Check(Commit(w, counter), counter)
  {
    assert Pow2(0) == 1;
    hide Or, And, Pow2, Shl;
    var w' := Commit(w, counter);
    var d := w'.highest - counter;
    AndWithPow2(w'.bitmap, d);
    T.Pow2Positive(d);
    BitOfPow2(d, d);
    if counter > w.highest {
      var shift := counter - w.highest;
      var shifted := if shift >= REPLAY_WINDOW then 0 else Shl(w.bitmap, shift, 64);
      BitOfOr(shifted, 1, 0);
    } else {
      BitOfOr(w.bitmap, Pow2(d), d);
    }
  }

  /** The bytes of a sealed datagram are recognised as just that record. */
  lemma OriginOfWire(k: Keys, log: seq<Sent>, i: nat)
    requires Correct(k) && i < |log|
    requires var d := log[i].datagram;
             d.counter == i + 1 && d.kind != Disconnect && (d.kind != Reliable ==> d.sequence == 0)
    ensures Origin(k, log, Wire(k, log[i].datagram)) == Some(i)
  {
    hide TryDecode, Header;
    var d := log[i].datagram;
    var h := Header(d.kind, k.token, d.sequence, d.counter);
    DecodeInvertsEncode(d.kind, k.token, d.sequence, d.counter, k.seal(d.counter, d.body, h));
  }

  lemma DisconnectIgnored(k: Keys, s: T.State, log: seq<Sent>, d: T.Datagram, now: int)
    requires Correct(k) && d.kind == Disconnect && d.sequence == 0
    ensures Origin(k, log, Wire(k, d)).None? && T.HandlePacket(s, k.open, Wire(k, d), now) == s
  {
    hide TryDecode, Header;
    var h := Header(d.kind, k.token, d.sequence, d.counter);
    DecodeInvertsEncode(d.kind, k.token, d.sequence, d.counter, k.seal(d.counter, d.body, h));
  }

  lemma AdmittedStamp(me: Side, me': Side, peer: Side, i: nat, now: int)
    requires i < |peer.log| && RecordOk(peer, i) && Admitted(me, me', peer, i, now)
    requires peer.log[i].datagram.kind == Ack ==> TryDecodeAckBody(peer.log[i].datagram.body).Some?
    ensures me'.state.lastRecv == T.AdvanceClock(me.state.lastRecv, now)
    ensures me'.state.window == Commit(me.state.window, peer.log[i].datagram.counter)
    ensures me'.log == me.log && me'.issued == me.issued && me'.state.closed == me.state.closed
    ensures me'.state.sendSeq == me.state.sendSeq && me'.state.lastSend == me.state.lastSend
  {
    hide T.Track, T.Acknowledge, Check, Commit, T.AdvanceClock;
  }

  lemma UnreliableEffect(me: Side, me': Side, peer: Side, i: nat, now: int)
    requires i < |peer.log| && RecordOk(peer, i) && Admitted(me, me', peer, i, now)
    requires peer.log[i].datagram.kind == Unreliable
    ensures Effect(me, me', peer.log[i])
  {
    hide T.Track, T.Acknowledge, Check, Commit, T.AdvanceClock;
  }

  lemma ReliableEffect(me: Side, me': Side, peer: Side, i: nat, now: int)
    requires Local(me) && Local(peer) && Toward(me, peer) && Toward(peer, me)
    requires i < |peer.log| && Admitted(me, me', peer, i, now) && peer.log[i].datagram.kind == Reliable
    ensures Effect(me, me', peer.log[i])
  {
    hide T.Track, Check, Commit, T.AdvanceClock, TotalsOk, HighsOk, Tracks, ReceiverOk, ArrivalsOk, ProgressOk;
    assert RecordOk(peer, i);
    AdmittedReliable(me, me', peer, i, now);
    SequenceWindow(me, peer, i);
    ReceiverTracks(me, peer);
    TrackRefines(me.state.recv, me.got, me.high, peer.log[i].msg);
  }

  lemma ReceiverTracks(me: Side, peer: Side)
    requires ReceiverOk(me, peer)
    ensures Tracks(me.state.recv, me.got, me.high)
  {
  }

  lemma AckEffect(me: Side, me': Side, peer: Side, i: nat, now: int)
    requires Local(me) && Local(peer) && Toward(me, peer) && Toward(peer, me)
    requires i < |peer.log| && Admitted(me, me', peer, i, now) && peer.log[i].datagram.kind == Ack
    ensures Effect(me, me', peer.log[i])
  {
    hide T.Track, T.Acknowledge, Check, Commit, T.AdvanceClock, TotalsOk, HighsOk, Tracks, ReceiverOk, ArrivalsOk,
         ProgressOk, Acks, RecordOk, SlotOk, Bit, C.Named;
    assert RecordOk(peer, i);
    assert AckRecordOk(peer, me, peer.log[i]);
    AdmittedAck(me, me', peer, i, now);
    AckIssues(me, me', peer, i, now);
    RingPlaced(me);
    var f := TryDecodeAckBody(peer.log[i].datagram.body).value;
    C.AcknowledgePrefix(me.state.ring, f.ackSeq, f.ackBits, 32);
    forall n | 0 <= n < |me.issued| && InRing(me, n)
      ensures InRing(me', n) <==> !Acks(peer.log[i], n)
    {
      AckNamesMessages(me, peer, i, n);
    }
  }

  lemma AckIssues(me: Side, me': Side, peer: Side, i: nat, now: int)
    requires i < |peer.log| && Admitted(me, me', peer, i, now)
    ensures me'.issued == me.issued
  {
    hide T.Track, T.Acknowledge, Check, Commit, T.AdvanceClock;
  }

  /** One delivery of the peer's datagram `i`, at a side of a reachable system. */
  lemma DeliverExact(me: Side, peer: Side, k: Keys, i: nat, now: int)
    requires Correct(k) && Local(me) && Local(peer) && Toward(me, peer) && Toward(peer, me)
    requires i < |peer.log|
    ensures Delivered(me, Step(me, peer, k, Deliver(Wire(k, peer.log[i].datagram), now)), peer.log[i], now)
  {
    hide Local, Toward, Correct, Check, Commit, Effect, RecordOk, T.AdvanceClock, T.HandlePacket, Wire, Origin;
    var r := peer.log[i];
    var data := Wire(k, r.datagram);
    var me' := Step(me, peer, k, Deliver(data, now));
    LocalRecord(peer, i);
    if r.datagram.kind == Disconnect {
      DisconnectIgnored(k, me.state, peer.log, r.datagram, now);
    } else {
      OriginOfWire(k, peer.log, i);
      HandleWire(k, me.state, r.datagram, now);
      DeliverKnown(me, peer, k, data, now, i);
      if Check(me.state.window, r.datagram.counter) {
        AckDecodes(me, peer, i);
        AdmittedStamp(me, me', peer, i, now);
        CommitRefuses(me.state.window, r.datagram.counter);
        match r.datagram.kind
        case Unreliable => UnreliableEffect(me, me', peer, i, now);
        case Reliable => ReliableEffect(me, me', peer, i, now);
        case Ack => AckEffect(me, me', peer, i, now);
      }
    }
  }

  lemma LocalRecord(me: Side, i: nat)
    requires Local(me) && i < |me.log|
    ensures RecordOk(me, i) && me.log[i].datagram.counter == i + 1
    ensures me.log[i].datagram.kind != Reliable ==> me.log[i].datagram.sequence == 0
  {
    hide TotalsOk, HighsOk, TeardownOk, StreakOk;
    assert RecordOk(me, i);
  }

  lemma AckDecodes(me: Side, peer: Side, i: nat)
    requires Toward(peer, me) && i < |peer.log|
    ensures peer.log[i].datagram.kind == Ack ==> TryDecodeAckBody(peer.log[i].datagram.body).Some?
  {
    hide ReceiverOk, ArrivalsOk, ProgressOk;
    assert AckRecordOk(peer, me, peer.log[i]);
  }

  /**
   In every run, delivering any datagram the peer ever sealed: if the replay window admits
   it, a new reliable message at most 32 behind the newest and any non-empty unreliable one
   is queued, an ACK takes exactly the messages it names out of the ring, the peer counts as
   alive, and the same bytes never do anything again. Otherwise nothing changes.
   */
  lemma DeliveryIsExact(startA: int, startB: int, toA: Keys, toB: Keys, events: seq<Event>, i: nat, now: int)
    requires Correct(toA) && Correct(toB) && Legal(startA, startB, toA, toB, events)
    ensures var sys := Run(startA, startB, toA, toB, events);
            && (i < |sys.b.log| ==>
                  var e := Event(true, Deliver(Wire(toA, sys.b.log[i].datagram), now));
                  Delivered(sys.a, Apply(sys, toA, toB, e).a, sys.b.log[i], now))
            && (i < |sys.a.log| ==>
                  var e := Event(false, Deliver(Wire(toB, sys.a.log[i].datagram), now));
                  Delivered(sys.b, Apply(sys, toA, toB, e).b, sys.a.log[i], now))
  {
    hide Local, Toward, Correct, Delivered, Step, Wire;
    Reachable(startA, startB, toA, toB, events);
    var sys := Run(startA, startB, toA, toB, events);
    if i < |sys.b.log| {
      DeliverExact(sys.a, sys.b, toA, i, now);
    }
    if i < |sys.a.log| {
      DeliverExact(sys.b, sys.a, toB, i, now);
    }
  }

  // ---- Progress -----------------------------------------------------------------------

  /** A live tick logs one record for every due message, and last the ACK if one is pending. */
  lemma LiveTickLogs(me: Side, peer: Side, k: Keys, now: int, failAt: nat)
    requires Local(me) && T.Tick(me.state, now, failAt).alive
    ensures var me' := Step(me, peer, k, Tick(now, failAt));
            && me'.log == me.log + Annotate(T.Tick(me.state, now, failAt).sent, |me.issued|, me.high)
            && me'.issued == me.issued && me'.got == me.got && me'.high == me.high
            && me'.state.closed == me.state.closed
  {
    hide T.Tick;
    var a := C.TickExact(me.state, now, failAt);
  }

  lemma DueIsLogged(me: Side, peer: Side, k: Keys, now: int, failAt: nat, n: int) returns (i: nat)
    requires Local(me) && T.Tick(me.state, now, failAt).alive
    requires 0 <= n && InRing(me, n) && C.Due(me.state.ring[n % T.RING_SIZE], now)
    ensures var me' := Step(me, peer, k, Tick(now, failAt));
            |me.log| <= i < |me'.log| && me'.log[i].datagram.kind == Reliable && me'.log[i].msg == n
  {
    hide T.Tick, TotalsOk, HighsOk, TeardownOk, RecordOk, StreakOk, Unwrap, SlotMsg;
    RingPlaced(me);
    LiveTickLogs(me, peer, k, now, failAt);
    C.TickSends(me.state, now, failAt);
    var sent, e := T.Tick(me.state, now, failAt).sent, me.state.ring[n % T.RING_SIZE];
    assert C.SendsFor(sent, e);
    var j :| 0 <= j < |sent| && C.Carries(sent[j], e);
    i := |me.log| + j;
    assert SlotOk(me, n % T.RING_SIZE);
    SlotHolds(n, |me.issued|);
    UnwrapUnique(e.sequence, n, |me.issued|);
  }

  lemma AckIsLogged(me: Side, peer: Side, k: Keys, now: int, failAt: nat, n: int)
    requires Local(me) && ReceiverOk(me, peer) && T.Tick(me.state, now, failAt).alive && me.state.recv.dirty
    requires n in me.got && n >= me.high - 32
    ensures var me' := Step(me, peer, k, Tick(now, failAt));
            |me'.log| > |me.log| && Acks(me'.log[|me'.log| - 1], n)
  {
    hide T.Tick, TotalsOk, HighsOk, TeardownOk, RecordOk, StreakOk, Unwrap, SlotOk, Bit;
    RingPlaced(me);
    LiveTickLogs(me, peer, k, now, failAt);
    C.TickSends(me.state, now, failAt);
    var sent, r := T.Tick(me.state, now, failAt).sent, me.state.recv;
    assert C.SendsKind(sent, Ack);
    AckBodyRoundTrip(r.highest, r.bits);
    if n < me.high {
      assert Bit(r.bits, me.high - 1 - n) <==> me.high - 1 - (me.high - 1 - n) in me.got;
    }
  }

  /** A datagram newer than everything the receiver saw passes its replay window. */
  lemma NewIsAdmitted(me: Side, peer: Side, peer': Side, i: nat)
    requires ReceiverOk(me, peer) && |peer.log| <= i < |peer'.log| && RecordOk(peer', i)
    ensures Check(me.state.window, peer'.log[i].datagram.counter)
  {
  }

  /** The parts of a system seen from one of its sides. */
  ghost predicate Joint(me: Side, peer: Side) {
    Local(me) && Local(peer) && Toward(me, peer) && Toward(peer, me)
  }

  lemma ResendReaches(me: Side, peer: Side, toMe: Keys, toPeer: Keys, now: int, failAt: nat, later: int, n: int)
    returns (i: nat)
    requires Correct(toMe) && Correct(toPeer) && Joint(me, peer) && Enabled(me, peer, toMe, Tick(now, failAt))
    requires T.Tick(me.state, now, failAt).alive
    requires 0 <= n && InRing(me, n) && C.Due(me.state.ring[n % T.RING_SIZE], now)
    ensures var me' := Step(me, peer, toMe, Tick(now, failAt));
            && |me.log| <= i < |me'.log| && me'.log[i].datagram.kind == Reliable && me'.log[i].msg == n
            && var peer' := Step(peer, me', toPeer, Deliver(Wire(toPeer, me'.log[i].datagram), later));
               n >= peer.high - 32 ==> n in peer'.got
  {
    hide T.Tick, Local, Toward, InRing, RecordOk, Correct, Enabled, Wire, Step, Check, ReceiverOk, Delivered;
    var me' := Step(me, peer, toMe, Tick(now, failAt));
    StepKeeps(me, peer, toMe, Tick(now, failAt));
    i := DueIsLogged(me, peer, toMe, now, failAt, n);
    LocalRecord(me', i);
    TowardReceiver(peer, me);
    NewIsAdmitted(peer, me, me', i);
    DeliverExact(peer, me', toPeer, i, later);
    var peer' := Step(peer, me', toPeer, Deliver(Wire(toPeer, me'.log[i].datagram), later));
    DeliveredReliable(peer, peer', me'.log[i], later);
  }

  lemma TowardReceiver(me: Side, peer: Side)
    requires Toward(me, peer)
    ensures ReceiverOk(me, peer)
  {
  }

  lemma DeliveredReliable(me: Side, me': Side, r: Sent, now: int)
    requires Delivered(me, me', r, now) && Check(me.state.window, r.datagram.counter) && r.datagram.kind == Reliable
    ensures r.msg >= me.high - 32 ==> r.msg in me'.got
  {
  }

  lemma DeliveredAck(me: Side, me': Side, r: Sent, now: int, n: int)
    requires Delivered(me, me', r, now) && Check(me.state.window, r.datagram.counter) && Acks(r, n)
    requires 0 <= n < |me.issued| && InRing(me, n)
    ensures !InRing(me', n)
  {
    hide Check, Bit, InRing, T.AdvanceClock;
  }

  lemma AckReaches(me: Side, peer: Side, toMe: Keys, toPeer: Keys, now: int, failAt: nat, later: int, n: int)
    requires Correct(toMe) && Correct(toPeer) && Joint(me, peer) && Enabled(me, peer, toMe, Tick(now, failAt))
    requires T.Tick(me.state, now, failAt).alive && me.state.recv.dirty
    requires n in me.got && n >= me.high - 32 && 0 <= n < |peer.issued| && InRing(peer, n)
    ensures var me' := Step(me, peer, toMe, Tick(now, failAt));
            && |me'.log| > |me.log|
            && var d := me'.log[|me'.log| - 1].datagram;
               !InRing(Step(peer, me', toPeer, Deliver(Wire(toPeer, d), later)), n)
  {
    hide T.Tick, Local, Toward, InRing, RecordOk, Correct, Enabled, Wire, Step, Check, ReceiverOk, Delivered, Acks;
    var me' := Step(me, peer, toMe, Tick(now, failAt));
    StepKeeps(me, peer, toMe, Tick(now, failAt));
    TowardReceiver(me, peer);
    AckIsLogged(me, peer, toMe, now, failAt, n);
    var i := |me'.log| - 1;
    LocalRecord(me', i);
    TowardReceiver(peer, me);
    NewIsAdmitted(peer, me, me', i);
    DeliverExact(peer, me', toPeer, i, later);
    var peer' := Step(peer, me', toPeer, Deliver(Wire(toPeer, me'.log[i].datagram), later));
    DeliveredAck(peer, peer', me'.log[i], later, n);
  }

  /**
   In every run: if A's tick is live while an outstanding message is due, A seals that
   message again, and if B gets that datagram and the message is at most 32 behind B's
   newest, B has received it.
   */
  lemma ResendIsReceived(startA: int, startB: int, toA: Keys, toB: Keys, events: seq<Event>, now: int, failAt: nat,
                         later: int, n: int)
    returns (i: nat)
    requires Correct(toA) && Correct(toB) && Legal(startA, startB, toA, toB, events)
    requires var a := Run(startA, startB, toA, toB, events).a;
             && a.state.sendCounter + 259 <= MAX_COUNTER && T.Tick(a.state, now, failAt).alive
             && 0 <= n && InRing(a, n) && C.Due(a.state.ring[n % T.RING_SIZE], now)
    ensures var sys := Run(startA, startB, toA, toB, events);
            var sys1 := Apply(sys, toA, toB, Event(true, Tick(now, failAt)));
            && |sys.a.log| <= i < |sys1.a.log| && sys1.a.log[i].msg == n
            && var sys2 := Apply(sys1, toA, toB, Event(false, Deliver(Wire(toB, sys1.a.log[i].datagram), later)));
               n >= sys.b.high - 32 ==> n in sys2.b.got
  {
    hide T.Tick, Local, Toward, InRing, Correct, Wire, Step, C.Due;
    Reachable(startA, startB, toA, toB, events);
    var sys := Run(startA, startB, toA, toB, events);
    i := ResendReaches(sys.a, sys.b, toA, toB, now, failAt, later, n);
  }

  /**
   In every run: if B's tick is live with an ACK pending, the last datagram it seals names
   every received message at most 32 behind B's newest; once A gets it, none of them is
   outstanding any more.
   */
  lemma AckIsProcessed(startA: int, startB: int, toA: Keys, toB: Keys, events: seq<Event>, now: int, failAt: nat,
                       later: int, n: int)
    requires Correct(toA) && Correct(toB) && Legal(startA, startB, toA, toB, events)
    requires var sys := Run(startA, startB, toA, toB, events);
             && sys.b.state.sendCounter + 259 <= MAX_COUNTER && T.Tick(sys.b.state, now, failAt).alive
             && sys.b.state.recv.dirty && n in sys.b.got && n >= sys.b.high - 32
             && 0 <= n < |sys.a.issued| && InRing(sys.a, n)
    ensures var sys := Run(startA, startB, toA, toB, events);
            var sys1 := Apply(sys, toA, toB, Event(false, Tick(now, failAt)));
            && |sys1.b.log| > |sys.b.log|
            && var d := sys1.b.log[|sys1.b.log| - 1].datagram;
               !InRing(Apply(sys1, toA, toB, Event(true, Deliver(Wire(toA, d), later))).a, n)
  {
    hide T.Tick, Local, Toward, InRing, Correct, Wire, Step;
    Reachable(startA, startB, toA, toB, events);
    var sys := Run(startA, startB, toA, toB, events);
    AckReaches(sys.b, sys.a, toB, toA, now, failAt, later, n);
  }
}
