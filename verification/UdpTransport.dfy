/**
 The UDP transport's protocol core (UdpTransport.cs) as a state machine on
 values: a 256-slot ring of unacknowledged reliable messages keyed by a 16-bit
 sequence, a 32-bit bitmap of what was received, ACK flushing, retransmission
 under fresh AEAD counters, timeouts and teardown. Each public call of the class
 is one function here; `UdpTransportClass` proves the imperative code computes
 these functions, and `UdpRuns` proves what whole runs of two of them keep.

 The clock and the fate of each write are parameters: `sinkOk` and `failAt` say
 which call of the injected `sendRaw` throws.
 */
module UdpTransport {
  import opened Words
  import opened Serial
  import opened UdpProto
  import opened UdpSession

  const RING_SIZE: nat := 256
  const RETRANSMIT_MS: int := 100
  const RELIABLE_TIMEOUT_MS: int := 5000
  const KEEPALIVE_MS: int := 1000
  const CONNECTION_TIMEOUT_MS: int := 10000

  datatype Slot = Free | Used(sequence: U16, payload: Bytes, firstSent: int, lastSent: int)
  type Ring = r: seq<Slot> | |r| == RING_SIZE witness seq(RING_SIZE, _ => Free)

  /** What has been received: the highest sequence, and bit `i` for `highest - 1 - i`. */
  datatype Tracking = Tracking(init: bool, highest: U16, bits: U32, dirty: bool)

  /** A datagram before sealing. */
  datatype Datagram = Datagram(kind: Kind, sequence: U16, counter: U64, body: Bytes)

  /** The bytes handed to `sendRaw`: the header, then the body sealed under it. */
  function Packet(token: U32, seal: Sealer, d: Datagram): Bytes {
    var h := Header(d.kind, token, d.sequence, d.counter);
    h + seal(d.counter, d.body, h)
  }

  datatype State = State(
    sendCounter: U64, window: Window,
    sendSeq: U16, ring: Ring,
    recv: Tracking, inbound: seq<Bytes>,
    lastRecv: int, lastSend: int, closed: bool)

  function Start(now: int): State {
    State(0, Window(0, 0), 0, seq(RING_SIZE, _ => Free), Tracking(false, 0, 0, false), [], now, now, false)
  }

  function AdvanceClock(clock: int, stamp: int): (r: int)
    ensures clock <= r && stamp <= r && (r == clock || r == stamp)
  {
    if stamp <= clock then clock else stamp
  }

  /** `SealPacket`: allocate the next counter; past MAX_COUNTER nothing is sealed. */
  function Emit(s: State, kind: Kind, sequence: U16, body: Bytes): (r: (State, seq<Datagram>))
    ensures r.0 == s.(sendCounter := r.0.sendCounter)
    ensures s.sendCounter < MAX_COUNTER ==>
              r.0.sendCounter == s.sendCounter + 1 && r.1 == [Datagram(kind, sequence, s.sendCounter + 1, body)]
  {
    var counter := (s.sendCounter + 1) % (MAX_U64 + 1);
    (s.(sendCounter := counter), if counter > MAX_COUNTER then [] else [Datagram(kind, sequence, counter, body)])
  }

  // ---- Sending ------------------------------------------------------------

  datatype Result = Ok | Closed | WindowFull | SendFailed
  datatype Outcome = Outcome(state: State, sent: seq<Datagram>, result: Result)

  /** `now` stamps the ring entry, `later` is the clock after the write. */
  function SendReliable(s: State, payload: Bytes, now: int, later: int, sinkOk: bool): Outcome {
    var idx := s.sendSeq % RING_SIZE;
    if s.closed then Outcome(s, [], Closed)
    else if s.ring[idx].Used? then Outcome(s, [], WindowFull)
    else
      var s1 := s.(sendSeq := (s.sendSeq + 1) % WRAP16, ring := s.ring[idx := Used(s.sendSeq, payload, now, now)]);
      var (s2, sent) := Emit(s1, Reliable, s.sendSeq, payload);
      if sent == [] || !sinkOk then Outcome(s2.(ring := s2.ring[idx := Free]), sent, SendFailed)
      else Outcome(s2.(lastSend := AdvanceClock(s2.lastSend, later)), sent, Ok)
  }

  function SendUnreliable(s: State, payload: Bytes, later: int, sinkOk: bool): Outcome {
    if s.closed then Outcome(s, [], Closed)
    else
      var (s1, sent) := Emit(s, Unreliable, 0, payload);
      if sent == [] || !sinkOk then Outcome(s1, sent, SendFailed)
      else Outcome(s1.(lastSend := AdvanceClock(s1.lastSend, later)), sent, Ok)
  }

  function EmptyRing(): Ring {
    seq(RING_SIZE, _ => Free)
  }

  /** The Disconnect is best effort, so the fate of its write changes nothing. */
  function Close(s: State): (r: (State, seq<Datagram>)) {
    if s.closed then (s, []) else Emit(s.(closed := true, ring := EmptyRing()), Disconnect, 0, [])
  }

  // ---- Receiving ----------------------------------------------------------

  /** `UpdateRecvTracking`: the new bitmap, and whether the message is to be delivered. */
  function Track(r: Tracking, sequence: U16): (Tracking, bool) {
    if !r.init then (Tracking(true, sequence, 0, true), true)
    else if SeqGreaterThan(sequence, r.highest) then
      var diff := (sequence - r.highest) % WRAP16;
      (Tracking(true, sequence, NewBits(r.bits, diff), true), true)
    else
      var diff := (r.highest - sequence) % WRAP16;
      if 0 < diff <= 32 && And(r.bits, Pow2(diff - 1)) == 0 then
        BitsBound(r.bits, diff);
        (r.(bits := Or(r.bits, Pow2(diff - 1)), dirty := true), true)
      else (r.(dirty := true), false)
  }

  /** The bitmap after the highest sequence moves up by `diff`. */
  function NewBits(bits: U32, diff: nat): U32 {
    if 1 <= diff <= 32 then
      var shifted := if diff >= 32 then 0 else Shl(bits, diff, 32);
      Pow2Values();
      Pow2Monotone(diff, 32);
      OrBound(shifted, Pow2(diff - 1), 32);
      Or(shifted, Pow2(diff - 1))
    else 0
  }

  lemma BitsBound(bits: U32, diff: nat)
    requires 1 <= diff <= 32
    ensures Or(bits, Pow2(diff - 1)) < 0x1_0000_0000
  {
    Pow2Values();
    Pow2Monotone(diff, 32);
    OrBound(bits, Pow2(diff - 1), 32);
  }

  function MarkAcked(ring: Ring, sequence: U16): Ring {
    var idx := sequence % RING_SIZE;
    if ring[idx].Used? && ring[idx].sequence == sequence then ring[idx := Free] else ring
  }

  /** `ProcessAck` after the first `i` bits: the sequence itself, then one per set bit. */
  function Acknowledge(ring: Ring, ackSeq: U16, ackBits: U32, i: nat): Ring {
    if i == 0 then MarkAcked(ring, ackSeq)
    else
      var before := Acknowledge(ring, ackSeq, ackBits, i - 1);
      if And(ackBits, Pow2(i - 1)) != 0 then MarkAcked(before, (ackSeq - i) % WRAP16) else before
  }

  function TryQueue(s: State, payload: Bytes): State {
    if s.closed then s else s.(inbound := s.inbound + [payload])
  }

  /** What `HandlePacket` does with a body that authenticated; the window is already committed. */
  function Accept(s: State, kind: Kind, sequence: U16, body: Bytes, now: int): State {
    var stamped := s.(lastRecv := AdvanceClock(s.lastRecv, now));
    match kind
    case Unreliable => if |body| == 0 then stamped else TryQueue(stamped, body)
    case Reliable =>
      var (recv, deliver) := Track(s.recv, sequence);
      var tracked := stamped.(recv := recv);
      if deliver && |body| > 0 then TryQueue(tracked, body) else tracked
    case Ack =>
      (match TryDecodeAckBody(body)
       case None => s
       case Some(a) => stamped.(ring := Acknowledge(s.ring, a.ackSeq, a.ackBits, 32)))
    case Disconnect => s
  }

  /** The packet types `HandlePacket` dispatches on; every other first byte is ignored. */
  function KindOf(data: Bytes): Option<Kind> {
    if |data| == 0 then None
    else if data[0] == TypeByte(Unreliable) then Some(Unreliable)
    else if data[0] == TypeByte(Reliable) then Some(Reliable)
    else if data[0] == TypeByte(Ack) then Some(Ack)
    else None
  }

  function HandlePacket(s: State, open: Opener, data: Bytes, now: int): State {
    match KindOf(data)
    case None => s
    case Some(kind) =>
      match TryDecode(kind, data)
      case None => s
      case Some(f) =>
        if f.counter == 0 || !Check(s.window, f.counter) then s
        else
          match open(f.counter, f.sealed, f.aad)
          case None => s
          case Some(body) => Accept(s.(window := Commit(s.window, f.counter)), kind, f.sequence, body, now)
  }

  // ---- Periodic work --------------------------------------------------------

  datatype Stop = Completed | TimedOut | SinkFailed
  datatype Sweep = Sweep(state: State, sent: seq<Datagram>, stop: Stop)

  /** The retransmission loop from slot `i` on; `sent` is what this tick already wrote. */
  function Retransmit(s: State, now: int, failAt: nat, i: nat, sent: seq<Datagram>): Sweep
    requires i <= RING_SIZE
    decreases RING_SIZE - i
  {
    if i == RING_SIZE then Sweep(s, sent, Completed)
    else if s.ring[i].Free? then Retransmit(s, now, failAt, i + 1, sent)
    else
      var e := s.ring[i];
      if now - e.firstSent > RELIABLE_TIMEOUT_MS then Sweep(s, sent, TimedOut)
      else if now - e.lastSent >= RETRANSMIT_MS then
        var (s1, d) := Emit(s, Reliable, e.sequence, e.payload);
        if d == [] || |sent| == failAt then Sweep(s1, sent + d, SinkFailed)
        else Retransmit(Resent(s1, i, now), now, failAt, i + 1, sent + d)
      else Retransmit(s, now, failAt, i + 1, sent)
  }

  function Resent(s: State, i: nat, now: int): State
    requires i < RING_SIZE && s.ring[i].Used?
  {
    s.(ring := s.ring[i := s.ring[i].(lastSent := now)], lastSend := AdvanceClock(s.lastSend, now))
  }

  function FlushAck(w: Sweep, now: int, failAt: nat): Sweep {
    var s := w.state;
    if w.stop != Completed || !s.recv.dirty then w
    else
      var (s1, d) := Emit(s.(recv := s.recv.(dirty := false)), Ack, 0, AckBody(s.recv.highest, s.recv.bits));
      if d == [] || |w.sent| == failAt then Sweep(s1.(recv := s.recv), w.sent + d, SinkFailed)
      else Sweep(s1.(lastSend := AdvanceClock(s1.lastSend, now)), w.sent + d, Completed)
  }

  function Keepalive(w: Sweep, now: int, failAt: nat): Sweep {
    var s := w.state;
    if w.stop != Completed || now - s.lastSend <= KEEPALIVE_MS then w
    else
      var (s1, d) := Emit(s, Unreliable, 0, []);
      if d == [] || |w.sent| == failAt then Sweep(s1, w.sent + d, SinkFailed)
      else Sweep(s1.(lastSend := AdvanceClock(s1.lastSend, now)), w.sent + d, Completed)
  }

  datatype Ticked = Ticked(state: State, sent: seq<Datagram>, alive: bool)

  function Tick(s: State, now: int, failAt: nat): Ticked {
    if now - s.lastRecv > CONNECTION_TIMEOUT_MS then
      var (s1, d) := Close(s);
      Ticked(s1, d, false)
    else if s.closed then Ticked(s, [], false)
    else
      var w := Keepalive(FlushAck(Retransmit(s, now, failAt, 0, []), now, failAt), now, failAt);
      if w.stop == Completed then Ticked(w.state, w.sent, true)
      else
        var (s1, d) := Close(w.state);
        Ticked(s1, w.sent + d, false)
  }

  // ---- What one tick promises -----------------------------------------------

  ghost predicate Punctual(e: Slot, now: int) {
    e.Used? ==> now - e.firstSent <= RELIABLE_TIMEOUT_MS && now - e.lastSent < RETRANSMIT_MS
  }

  /** After the sweep, every slot it passed is punctual and none but send times changed. */
  lemma {:induction false} SweepPunctual(s: State, now: int, failAt: nat, i: nat, sent: seq<Datagram>)
    requires i <= RING_SIZE
    requires forall k :: 0 <= k < i ==> Punctual(s.ring[k], now)
    ensures var w := Retransmit(s, now, failAt, i, sent);
            w.stop == Completed ==> forall k :: 0 <= k < RING_SIZE ==> Punctual(w.state.ring[k], now)
    decreases RING_SIZE - i
  {
    if i < RING_SIZE {
      if s.ring[i].Free? || now - s.ring[i].lastSent < RETRANSMIT_MS {
        if s.ring[i].Free? || now - s.ring[i].firstSent <= RELIABLE_TIMEOUT_MS {
          SweepPunctual(s, now, failAt, i + 1, sent);
        }
      } else if now - s.ring[i].firstSent <= RELIABLE_TIMEOUT_MS {
        var (s1, d) := Emit(s, Reliable, s.ring[i].sequence, s.ring[i].payload);
        if d != [] && |sent| != failAt {
          SweepPunctual(Resent(s1, i, now), now, failAt, i + 1, sent + d);
          assert Retransmit(s, now, failAt, i, sent) == Retransmit(Resent(s1, i, now), now, failAt, i + 1, sent + d);
        }
      }
    }
  }

  /** A tick that reports a live connection leaves no overdue entry and no silence to fill. */
  lemma TickDeadlines(s: State, now: int, failAt: nat)
    ensures var t := Tick(s, now, failAt);
            t.alive ==>
              && (forall k :: 0 <= k < RING_SIZE ==> Punctual(t.state.ring[k], now))
              && now - t.state.lastSend <= KEEPALIVE_MS
              && now - t.state.lastRecv <= CONNECTION_TIMEOUT_MS
              && !t.state.closed && !t.state.recv.dirty
    ensures !Tick(s, now, failAt).alive ==> Tick(s, now, failAt).state.closed
  {
    SweepPunctual(s, now, failAt, 0, []);
    SweepFrame(s, now, failAt, 0, []);
  }

  /** The sweep leaves receiving, closing and the set of outstanding messages alone. */
  lemma {:induction false} SweepFrame(s: State, now: int, failAt: nat, i: nat, sent: seq<Datagram>)
    requires i <= RING_SIZE
    ensures var s' := Retransmit(s, now, failAt, i, sent).state;
            && s'.recv == s.recv && s'.window == s.window && s'.closed == s.closed
            && s'.sendSeq == s.sendSeq && s'.inbound == s.inbound && s'.lastRecv == s.lastRecv
            && forall k :: 0 <= k < RING_SIZE ==> SameMessage(s.ring[k], s'.ring[k])
    decreases RING_SIZE - i
  {
    if i < RING_SIZE {
      if s.ring[i].Free? || now - s.ring[i].lastSent < RETRANSMIT_MS {
        SweepFrame(s, now, failAt, i + 1, sent);
      } else if now - s.ring[i].firstSent <= RELIABLE_TIMEOUT_MS {
        var (s1, d) := Emit(s, Reliable, s.ring[i].sequence, s.ring[i].payload);
        if d != [] && |sent| != failAt {
          SweepFrame(Resent(s1, i, now), now, failAt, i + 1, sent + d);
        }
      }
    }
  }

  ghost predicate SameMessage(e: Slot, e': Slot) {
    && e.Used? == e'.Used?
    && (e.Used? ==> e'.sequence == e.sequence && e'.payload == e.payload && e'.firstSent == e.firstSent)
  }

  // ---- What one call may emit -------------------------------------------------

  ghost predicate Placed(ring: Ring) {
    forall k :: 0 <= k < RING_SIZE && ring[k].Used? ==> ring[k].sequence % RING_SIZE == k
  }

  ghost predicate Numbered(sent: seq<Datagram>, from: nat) {
    forall j :: 0 <= j < |sent| ==> sent[j].counter == from + 1 + j
  }

  /** A datagram that state `s` may send: an outstanding message, the pending ACK, or neither. */
  ghost predicate Legit(s: State, d: Datagram) {
    && (d.kind != Reliable ==> d.sequence == 0)
    && (d.kind == Reliable ==>
          var e := s.ring[d.sequence % RING_SIZE];
          e.Used? && e.sequence == d.sequence && e.payload == d.body)
    && (d.kind == Ack ==> !s.closed && s.recv.dirty && d.body == AckBody(s.recv.highest, s.recv.bits))
  }

  ghost predicate SameRing(r: Ring, r': Ring) {
    forall k :: 0 <= k < RING_SIZE ==> SameMessage(r[k], r'[k])
  }

  ghost predicate SweptFrom(s0: State, s: State, sent: seq<Datagram>) {
    && SameRing(s0.ring, s.ring)
    && s.sendCounter == s0.sendCounter + |sent|
    && Numbered(sent, s0.sendCounter)
    && s.recv == s0.recv && s.closed == s0.closed
    && forall j :: 0 <= j < |sent| ==> Legit(s0, sent[j]) && sent[j].kind == Reliable
  }

  /** Every retransmission carries an outstanding message under the next counter. */
  lemma {:induction false} SweepSent(s0: State, s: State, now: int, failAt: nat, i: nat, sent: seq<Datagram>)
    requires i <= RING_SIZE && |sent| <= i
    requires Placed(s0.ring) && s0.sendCounter + RING_SIZE <= MAX_COUNTER
    requires SweptFrom(s0, s, sent)
    ensures var w := Retransmit(s, now, failAt, i, sent);
            |w.sent| <= RING_SIZE && SweptFrom(s0, w.state, w.sent)
    decreases RING_SIZE - i
  {
    if i < RING_SIZE {
      var e := s.ring[i];
      if e.Free? || now - e.lastSent < RETRANSMIT_MS {
        SweepSent(s0, s, now, failAt, i + 1, sent);
      } else if now - e.firstSent <= RELIABLE_TIMEOUT_MS {
        assert SameMessage(s0.ring[i], e);
        var (s1, d) := Emit(s, Reliable, e.sequence, e.payload);
        assert Legit(s0, d[0]);
        assert SweptFrom(s0, s1, sent + d);
        if |sent| != failAt {
          assert SweptFrom(s0, Resent(s1, i, now), sent + d);
          SweepSent(s0, Resent(s1, i, now), now, failAt, i + 1, sent + d);
        }
      }
    }
  }

  ghost predicate SameReceived(r: Tracking, r': Tracking) {
    r'.init == r.init && r'.highest == r.highest && r'.bits == r.bits && (r'.dirty ==> r.dirty)
  }

  /** The whole account of a call that sends but neither receives nor accepts a message. */
  ghost predicate Emission(s: State, s': State, sent: seq<Datagram>) {
    && s'.sendCounter == s.sendCounter + |sent|
    && Numbered(sent, s.sendCounter)
    && (forall j :: 0 <= j < |sent| ==> Legit(s, sent[j]))
    && s'.sendSeq == s.sendSeq && s'.window == s.window && s'.inbound == s.inbound
    && SameReceived(s.recv, s'.recv)
    && (SameRing(s.ring, s'.ring) || s'.closed)
    && (s'.closed ==> s.closed || (|sent| > 0 && sent[|sent| - 1].kind == Disconnect))
    && (s.closed ==> s'.closed && sent == [] && s'.ring == s.ring)
    && (forall j :: 0 <= j < |sent| && sent[j].kind == Disconnect ==> j == |sent| - 1 && s'.closed)
    && (s'.closed && !s.closed ==> s'.ring == EmptyRing())
  }

  lemma CloseEmission(s: State)
    requires s.sendCounter < MAX_COUNTER
    ensures Emission(s, Close(s).0, Close(s).1)
  {
  }

  /** An open connection after sending `sent`. */
  ghost predicate OpenEmission(s: State, s': State, sent: seq<Datagram>) {
    Emission(s, s', sent) && !s.closed && !s'.closed
  }

  lemma FlushEmission(s: State, w: Sweep, now: int, failAt: nat)
    requires OpenEmission(s, w.state, w.sent) && w.state.sendCounter < MAX_COUNTER
    ensures var w' := FlushAck(w, now, failAt);
            OpenEmission(s, w'.state, w'.sent) && |w'.sent| <= |w.sent| + 1
  {
  }

  lemma KeepaliveEmission(s: State, w: Sweep, now: int, failAt: nat)
    requires OpenEmission(s, w.state, w.sent) && w.state.sendCounter < MAX_COUNTER
    ensures var w' := Keepalive(w, now, failAt);
            OpenEmission(s, w'.state, w'.sent) && |w'.sent| <= |w.sent| + 1
  {
  }

  lemma EmissionThenClose(s: State, s1: State, sent: seq<Datagram>)
    requires OpenEmission(s, s1, sent) && s1.sendCounter < MAX_COUNTER
    ensures Emission(s, Close(s1).0, sent + Close(s1).1)
  {
  }

  lemma TickEmission(s: State, now: int, failAt: nat)
    requires Placed(s.ring) && s.sendCounter + 259 <= MAX_COUNTER
    ensures Emission(s, Tick(s, now, failAt).state, Tick(s, now, failAt).sent)
  {
    if now - s.lastRecv > CONNECTION_TIMEOUT_MS || s.closed {
      CloseEmission(s);
    } else {
      var w1 := Retransmit(s, now, failAt, 0, []);
      SweepSent(s, s, now, failAt, 0, []);
      SweepFrame(s, now, failAt, 0, []);
      FlushEmission(s, w1, now, failAt);
      var w2 := FlushAck(w1, now, failAt);
      KeepaliveEmission(s, w2, now, failAt);
      var w3 := Keepalive(w2, now, failAt);
      EmissionThenClose(s, w3.state, w3.sent);
    }
  }

  // ---- A failed first write ---------------------------------------------------

  /** `n` calls of `SendReliable` whose first write throws. */
  function FailedSends(s: State, payload: Bytes, n: nat): State {
    if n == 0 then s else SendReliable(FailedSends(s, payload, n - 1), payload, 0, 0, false).state
  }

  /** Each failed write gives its slot back but not its sequence. */
  lemma {:induction false} FailedSendsConsume(s: State, payload: Bytes, n: nat)
    requires !s.closed && s.ring == EmptyRing()
    ensures var s' := FailedSends(s, payload, n);
            s'.sendSeq == (s.sendSeq + n) % WRAP16 && s'.ring == s.ring && !s'.closed
    decreases n
  {
    hide SendReliable;
    if n == 0 {
    } else {
      FailedSendsConsume(s, payload, n - 1);
      FailedSendConsumes(FailedSends(s, payload, n - 1), payload);
      WrapStep(s.sendSeq, n);
    }
  }

  lemma WrapStep(sequence: U16, n: nat)
    requires n > 0
    ensures ((sequence + n - 1) % WRAP16 + 1) % WRAP16 == (sequence + n) % WRAP16
  {
  }

  lemma FailedSendConsumes(s: State, payload: Bytes)
    requires !s.closed && s.ring == EmptyRing()
    ensures var s' := SendReliable(s, payload, 0, 0, false).state;
            s'.sendSeq == (s.sendSeq + 1) % WRAP16 && s'.ring == s.ring && !s'.closed
  {
    var s' := SendReliable(s, payload, 0, 0, false).state;
    assert s'.ring == s.ring;
  }

  /** Whether a peer that has everything up to the number before the failures takes the next message. */
  predicate TakesAfter(n: nat, sequence: U16, recv: Tracking) {
    var ahead := (n + 1) % WRAP16;
    || 0 < ahead < HALF16
    || (ahead == HALF16 && sequence > recv.highest)
    || (ahead >= WRAP16 - 32 && !Bit(recv.bits, WRAP16 - 1 - ahead))
  }

  /**
   What any number of failed first writes does to the next message: with `ahead` the
   failures plus one, modulo 65536, it is taken exactly when that is under half the
   range, or at half the range without a wrap, or so close to the whole range that it
   falls on a clear bit of the peer's bitmap.
   */
  lemma FailedWritesExact(s: State, payload: Bytes, n: nat, recv: Tracking)
    requires !s.closed && s.ring == EmptyRing()
    requires recv.init && recv.highest == (s.sendSeq - 1) % WRAP16
    ensures var next := FailedSends(s, payload, n).sendSeq;
            Track(recv, next).1 <==> TakesAfter(n, next, recv)
  {
    hide And, Pow2, Bit, NewBits, FailedSends;
    FailedSendsConsume(s, payload, n);
    var next, ahead := FailedSends(s, payload, n).sendSeq, (n + 1) % WRAP16;
    NextAhead(s.sendSeq, n, recv.highest, next);
    if ahead >= WRAP16 - 32 {
      AndWithPow2(recv.bits, WRAP16 - 1 - ahead);
      Pow2Positive(WRAP16 - 1 - ahead);
    }
  }

  lemma Pow2Positive(k: nat)
    ensures Pow2(k) > 0
  {
  }

  lemma NextAhead(sequence: U16, n: nat, highest: U16, next: U16)
    requires highest == (sequence - 1) % WRAP16 && next == (sequence + n) % WRAP16
    ensures var ahead := (n + 1) % WRAP16;
            && (next - highest) % WRAP16 == ahead && (highest - next) % WRAP16 == (WRAP16 - ahead) % WRAP16
            && (SeqGreaterThan(next, highest) <==> 0 < ahead < HALF16 || (ahead == HALF16 && next > highest))
  {
    assert (next - highest) % WRAP16 == (sequence + n - (sequence - 1)) % WRAP16;
  }

  /** The two ways to lose a message: 40000 failures put it too far behind, 65535 make it look like a duplicate. */
  lemma FailedWritesLose(s: State, payload: Bytes, recv: Tracking)
    requires !s.closed && s.ring == EmptyRing()
    requires recv.init && recv.highest == (s.sendSeq - 1) % WRAP16
    ensures !Track(recv, FailedSends(s, payload, 40000).sendSeq).1
    ensures !Track(recv, FailedSends(s, payload, 65535).sendSeq).1
  {
    hide FailedSends, Track;
    FailedWritesExact(s, payload, 40000, recv);
    FailedWritesExact(s, payload, 65535, recv);
  }
}
