/**
 `UdpTransport` as the source writes it: an object whose ring, tracking fields and
 clocks are updated in place. Every method is proved to take the object from one
 state of the module `UdpTransport` to the next, and to hand `sendRaw` exactly the
 packets that state machine emits. What whole runs keep is proved on those states.
 */
module UdpTransportClass {
  import opened Words
  import opened Serial
  import opened UdpProto
  import opened UdpSession
  import T = UdpTransport

  function Packets(token: U32, seal: Sealer, ds: seq<T.Datagram>): (r: seq<Bytes>)
    ensures |r| == |ds|
    ensures forall j :: 0 <= j < |ds| ==> r[j] == T.Packet(token, seal, ds[j])
  {
    seq(|ds|, j requires 0 <= j < |ds| => T.Packet(token, seal, ds[j]))
  }

  lemma PacketsAppend(token: U32, seal: Sealer, ds: seq<T.Datagram>, d: T.Datagram)
    ensures Packets(token, seal, ds + [d]) == Packets(token, seal, ds) + [T.Packet(token, seal, d)]
  {
  }

  class Transport {
    const token: U32
    const seal: Sealer
    const open: Opener
    const session: Session
    const sendBuf: array<T.Slot>
    var sendSeq: U16
    var recvInit: bool
    var recvSeq: U16
    var recvBits: U32
    var ackDirty: bool
    var inbound: seq<Bytes>
    var lastRecvMs: int
    var lastSendMs: int
    var closed: bool

    ghost predicate Valid() {
      sendBuf.Length == T.RING_SIZE
    }

    ghost function Model(): T.State
      requires Valid()
      reads this, sendBuf, session
    {
      T.State(session.sendCounter, session.Replay(), sendSeq, sendBuf[..],
              T.Tracking(recvInit, recvSeq, recvBits, ackDirty), inbound, lastRecvMs, lastSendMs, closed)
    }

    constructor (token: U32, seal: Sealer, open: Opener, now: int)
      ensures Valid() && Model() == T.Start(now) && fresh(sendBuf) && fresh(session)
      ensures this.token == token && this.seal == seal && this.open == open
    {
      this.token, this.seal, this.open := token, seal, open;
      session := new Session();
      sendBuf := new T.Slot[T.RING_SIZE](_ => T.Free);
      sendSeq, recvInit, recvSeq, recvBits, ackDirty := 0, false, 0, 0, false;
      inbound, lastRecvMs, lastSendMs, closed := [], now, now, false;
      new;
      assert sendBuf[..] == T.Start(now).ring;
    }

    /** Seal one datagram and hand it to the sink; `None` when the counters are used up. */
    method Emit(kind: Kind, sequence: U16, body: Bytes) returns (packet: Option<Bytes>)
      requires Valid()
      modifies session
      ensures var (s, d) := T.Emit(old(Model()), kind, sequence, body);
              && Model() == s
              && (packet.None? <==> d == [])
              && (packet.Some? ==> d == [d[0]] && packet.value == T.Packet(token, seal, d[0]))
    {
      packet := session.SealPacket(seal, body, counter => Header(kind, token, sequence, counter));
    }

    method SendReliable(data: Bytes, now: int, later: int, sinkOk: bool) returns (result: T.Result, sent: seq<Bytes>)
      requires Valid()
      modifies this`sendSeq, this`lastSendMs, sendBuf, session
      ensures var o := T.SendReliable(old(Model()), data, now, later, sinkOk);
              Model() == o.state && result == o.result && sent == Packets(token, seal, o.sent)
    {
      sent := [];
      if closed {
        return T.Closed, [];
      }
      var sequence := sendSeq;
      var idx := sequence % T.RING_SIZE;
      if sendBuf[idx].Used? {
        return T.WindowFull, [];
      }
      sendSeq := (sendSeq + 1) % WRAP16;
      sendBuf[idx] := T.Used(sequence, data, now, now);
      var packet := Emit(Reliable, sequence, data);
      if packet.Some? {
        sent := [packet.value];
      }
      if packet.None? || !sinkOk {
        sendBuf[idx] := T.Free;
        return T.SendFailed, sent;
      }
      lastSendMs := T.AdvanceClock(lastSendMs, later);
      result := T.Ok;
    }

    method SendUnreliable(data: Bytes, later: int, sinkOk: bool) returns (result: T.Result, sent: seq<Bytes>)
      requires Valid()
      modifies this`lastSendMs, session
      ensures var o := T.SendUnreliable(old(Model()), data, later, sinkOk);
              Model() == o.state && result == o.result && sent == Packets(token, seal, o.sent)
    {
      if closed {
        return T.Closed, [];
      }
      var packet := Emit(Unreliable, 0, data);
      sent := if packet.Some? then [packet.value] else [];
      if packet.None? || !sinkOk {
        return T.SendFailed, sent;
      }
      lastSendMs := T.AdvanceClock(lastSendMs, later);
      result := T.Ok;
    }

    method Close() returns (sent: seq<Bytes>)
      requires Valid()
      modifies this`closed, sendBuf, session
      ensures var (s, ds) := T.Close(old(Model()));
              Model() == s && sent == Packets(token, seal, ds)
    {
      if closed {
        return [];
      }
      closed := true;
      for i := 0 to sendBuf.Length
        invariant forall k :: 0 <= k < i ==> sendBuf[k] == T.Free
        modifies sendBuf
      {
        sendBuf[i] := T.Free;
      }
      assert sendBuf[..] == T.EmptyRing();
      var packet := Emit(Disconnect, 0, []);
      sent := if packet.Some? then [packet.value] else [];
    }

    // ---- Receiving ----------------------------------------------------------

    method HandlePacket(data: Bytes, now: int)
      requires Valid()
      modifies this`recvInit, this`recvSeq, this`recvBits, this`ackDirty, this`inbound, this`lastRecvMs, sendBuf,
          session
      ensures Model() == T.HandlePacket(old(Model()), open, data, now)
    {
      var kind := T.KindOf(data);
      if kind.None? {
        return;
      }
      var fields := TryDecode(kind.value, data);
      if fields.None? {
        return;
      }
      var f := fields.value;
      var body := session.OpenPacket(open, f.counter, f.sealed, f.aad);
      if body.None? {
        return;
      }
      Dispatch(kind.value, f.sequence, body.value, now);
    }

    method Dispatch(kind: Kind, sequence: U16, body: Bytes, now: int)
      requires Valid()
      modifies this`recvInit, this`recvSeq, this`recvBits, this`ackDirty, this`inbound, this`lastRecvMs, sendBuf
      ensures Model() == T.Accept(old(Model()), kind, sequence, body, now)
    {
      match kind {
        case Unreliable =>
          lastRecvMs := T.AdvanceClock(lastRecvMs, now);
          if |body| > 0 { TryQueueInbound(body); }
        case Reliable =>
          lastRecvMs := T.AdvanceClock(lastRecvMs, now);
          var deliver := UpdateRecvTracking(sequence);
          if deliver && |body| > 0 { TryQueueInbound(body); }
        case Ack =>
          var ack := TryDecodeAckBody(body);
          if ack.Some? {
            lastRecvMs := T.AdvanceClock(lastRecvMs, now);
            ProcessAck(ack.value.ackSeq, ack.value.ackBits);
          }
        case Disconnect =>
      }
    }

    method TryQueueInbound(payload: Bytes)
      requires Valid()
      modifies this`inbound
      ensures Model() == T.TryQueue(old(Model()), payload)
    {
      if !closed {
        inbound := inbound + [payload];
      }
    }

    method UpdateRecvTracking(sequence: U16) returns (deliver: bool)
      requires Valid()
      modifies this`recvInit, this`recvSeq, this`recvBits, this`ackDirty
      ensures var (r, d) := T.Track(old(Model()).recv, sequence);
              Model() == old(Model()).(recv := r) && deliver == d
    {
      hide Or, And, Pow2, T.NewBits, SeqGreaterThan;
      deliver := false;
      if !recvInit {
        recvInit, recvSeq, recvBits := true, sequence, 0;
        deliver := true;
      } else if SeqGreaterThan(sequence, recvSeq) {
        var diff := (sequence - recvSeq) % WRAP16;
        recvBits := T.NewBits(recvBits, diff);
        recvSeq := sequence;
        deliver := true;
      } else {
        var diff := (recvSeq - sequence) % WRAP16;
        if 0 < diff <= 32 {
          var bit := Pow2(diff - 1);
          if And(recvBits, bit) == 0 {
            T.BitsBound(recvBits, diff);
            recvBits := Or(recvBits, bit);
            deliver := true;
          }
        }
      }
      ackDirty := true;
    }

    method MarkAcked(sequence: U16)
      requires Valid()
      modifies sendBuf
      ensures sendBuf[..] == T.MarkAcked(old(sendBuf[..]), sequence)
    {
      var idx := sequence % T.RING_SIZE;
      if sendBuf[idx].Used? && sendBuf[idx].sequence == sequence {
        sendBuf[idx] := T.Free;
      }
    }

    method ProcessAck(ackSeq: U16, ackBits: U32)
      requires Valid()
      modifies sendBuf
      ensures sendBuf[..] == T.Acknowledge(old(sendBuf[..]), ackSeq, ackBits, 32)
    {
      MarkAcked(ackSeq);
      for i := 0 to 32
        invariant sendBuf[..] == T.Acknowledge(old(sendBuf[..]), ackSeq, ackBits, i)
      {
        if And(ackBits, Pow2(i)) != 0 {
          MarkAcked((ackSeq - i - 1) % WRAP16);
        }
      }
    }

    method TryRecv() returns (message: Option<Bytes>)
      requires Valid()
      modifies this`inbound
      ensures if old(inbound) == [] then message.None? && inbound == []
              else message == Some(old(inbound)[0]) && inbound == old(inbound)[1..]
    {
      if |inbound| == 0 {
        return None;
      }
      message := Some(inbound[0]);
      inbound := inbound[1..];
    }

    // ---- Periodic work --------------------------------------------------------

    method Tick(now: int, failAt: nat) returns (alive: bool, sent: seq<Bytes>)
      requires Valid()
      modifies this`lastSendMs, this`ackDirty, this`closed, sendBuf, session
      ensures var t := T.Tick(old(Model()), now, failAt);
              Model() == t.state && alive == t.alive && sent == Packets(token, seal, t.sent)
    {
      hide T.Retransmit, T.FlushAck, T.Keepalive, T.Emit;
      if now - lastRecvMs > T.CONNECTION_TIMEOUT_MS {
        sent := Close();
        return false, sent;
      }
      if closed {
        return false, [];
      }
      ghost var ds;
      var stop;
      stop, sent, ds := RetransmitDue(now, failAt);
      stop, sent, ds := FlushAck(now, failAt, stop, sent, ds);
      stop, sent, ds := KeepAlive(now, failAt, stop, sent, ds);
      alive := stop == T.Completed;
      if !alive {
        ghost var before := Model();
        var last := Close();
        assert sent + last == Packets(token, seal, ds + T.Close(before).1);
        sent := sent + last;
      }
    }

    /** The loop over the ring: resend what is due, stop at the first expired entry or failed write. */
    method RetransmitDue(now: int, failAt: nat) returns (stop: T.Stop, sent: seq<Bytes>, ghost ds: seq<T.Datagram>)
      requires Valid()
      modifies this`lastSendMs, sendBuf, session
      ensures T.Sweep(Model(), ds, stop) == T.Retransmit(old(Model()), now, failAt, 0, [])
      ensures sent == Packets(token, seal, ds)
    {
      stop, sent, ds := T.Completed, [], [];
      var i := 0;
      while i < sendBuf.Length && stop == T.Completed
        invariant 0 <= i <= sendBuf.Length
        invariant sent == Packets(token, seal, ds)
        invariant T.Retransmit(old(Model()), now, failAt, 0, []) ==
                  if stop == T.Completed then T.Retransmit(Model(), now, failAt, i, ds)
                  else T.Sweep(Model(), ds, stop)
      {
        stop, sent, ds := VisitSlot(i, now, failAt, sent, ds);
        i := i + 1;
      }
    }

    method VisitSlot(i: nat, now: int, failAt: nat, sent: seq<Bytes>, ghost ds: seq<T.Datagram>)
      returns (stop: T.Stop, sent': seq<Bytes>, ghost ds': seq<T.Datagram>)
      requires Valid() && i < sendBuf.Length && sent == Packets(token, seal, ds)
      modifies this`lastSendMs, sendBuf, session
      ensures sent' == Packets(token, seal, ds')
      ensures T.Retransmit(old(Model()), now, failAt, i, ds) ==
              if stop == T.Completed then T.Retransmit(Model(), now, failAt, i + 1, ds')
              else T.Sweep(Model(), ds', stop)
    {
      stop, sent', ds' := T.Completed, sent, ds;
      var e := sendBuf[i];
      if e.Free? {
        return;
      }
      if now - e.firstSent > T.RELIABLE_TIMEOUT_MS {
        stop := T.TimedOut;
        return;
      }
      if now - e.lastSent >= T.RETRANSMIT_MS {
        ghost var (s1, d) := T.Emit(Model(), Reliable, e.sequence, e.payload);
        var packet := Emit(Reliable, e.sequence, e.payload);
        if packet.Some? {
          sent' := sent + [packet.value];
          ds' := ds + d;
          PacketsAppend(token, seal, ds, d[0]);
        }
        if packet.None? || |sent| == failAt {
          stop := T.SinkFailed;
          return;
        }
        sendBuf[i] := e.(lastSent := now);
        lastSendMs := T.AdvanceClock(lastSendMs, now);
        assert Model() == T.Resent(s1, i, now);
      }
    }

    method FlushAck(now: int, failAt: nat, stop: T.Stop, sent: seq<Bytes>, ghost ds: seq<T.Datagram>)
      returns (stop': T.Stop, sent': seq<Bytes>, ghost ds': seq<T.Datagram>)
      requires Valid() && sent == Packets(token, seal, ds)
      modifies this`lastSendMs, this`ackDirty, session
      ensures sent' == Packets(token, seal, ds')
      ensures T.Sweep(Model(), ds', stop') == T.FlushAck(T.Sweep(old(Model()), ds, stop), now, failAt)
    {
      stop', sent', ds' := stop, sent, ds;
      if stop != T.Completed || !ackDirty {
        return;
      }
      ackDirty := false;
      ghost var d := T.Emit(Model(), Ack, 0, AckBody(recvSeq, recvBits)).1;
      var packet := Emit(Ack, 0, AckBody(recvSeq, recvBits));
      if packet.Some? {
        sent' := sent + [packet.value];
        ds' := ds + d;
        PacketsAppend(token, seal, ds, d[0]);
      }
      if packet.None? || |sent| == failAt {
        ackDirty := true;
        stop' := T.SinkFailed;
        return;
      }
      lastSendMs := T.AdvanceClock(lastSendMs, now);
    }

    method KeepAlive(now: int, failAt: nat, stop: T.Stop, sent: seq<Bytes>, ghost ds: seq<T.Datagram>)
      returns (stop': T.Stop, sent': seq<Bytes>, ghost ds': seq<T.Datagram>)
      requires Valid() && sent == Packets(token, seal, ds)
      modifies this`lastSendMs, session
      ensures sent' == Packets(token, seal, ds')
      ensures T.Sweep(Model(), ds', stop') == T.Keepalive(T.Sweep(old(Model()), ds, stop), now, failAt)
    {
      stop', sent', ds' := stop, sent, ds;
      if stop != T.Completed || now - lastSendMs <= T.KEEPALIVE_MS {
        return;
      }
      ghost var d := T.Emit(Model(), Unreliable, 0, []).1;
      var packet := Emit(Unreliable, 0, []);
      if packet.Some? {
        sent' := sent + [packet.value];
        ds' := ds + d;
        PacketsAppend(token, seal, ds, d[0]);
      }
      if packet.None? || |sent| == failAt {
        stop' := T.SinkFailed;
        return;
      }
      lastSendMs := T.AdvanceClock(lastSendMs, now);
    }
  }
}
