/**
 Two transports over a network that may lose, duplicate, reorder, delay and
 invent datagrams. Each side is the state machine of `UdpTransport` plus history:
 the datagrams it sealed, the messages `SendReliable` numbered (a message's
 index is its unwrapped sequence number), the messages it tracked as received, and what
 it queued for its consumer. History never influences a step.

 The AEAD is ideal: a datagram that opens was sealed by the peer. Given that, the
 16-bit sequence and the 32-bit ACK bitmap are safe however often they wrap,
 because a sender is never more than a ring and a streak of failed writes past what
 was acknowledged, and the replay window refuses any datagram 64 or more behind the
 newest. A first write that throws still uses up its number and may or may not have
 reached the network; 767 of them in a row are allowed.
 */
module UdpRuns {
  import opened Words
  import opened Serial
  import opened UdpProto
  import opened UdpSession
  import T = UdpTransport

  // ---- The system -----------------------------------------------------------

  /** One direction of the link: sealed with `seal` by one side, opened with `open` by the other. */
  datatype Keys = Keys(token: U32, seal: Sealer, open: Opener)

  ghost predicate Correct(k: Keys) {
    forall counter: U64, body: Bytes, aad: Bytes ::
      && |k.seal(counter, body, aad)| >= TAG_SIZE
      && k.open(counter, k.seal(counter, body, aad), aad) == Some(body)
  }

  function Wire(k: Keys, d: T.Datagram): Bytes {
    T.Packet(k.token, k.seal, d)
  }

  /** A sealed datagram with the message it carries and the sender's progress at that moment. */
  datatype Sent = Sent(datagram: T.Datagram, msg: int, total: nat, high: int)

  datatype Arrival = FromReliable(msg: int, payload: Bytes) | FromUnreliable(payload: Bytes)

  datatype Side = Side(
    state: T.State,
    log: seq<Sent>,           // every datagram sealed, in counter order
    issued: seq<Bytes>,       // every message SendReliable numbered and sealed
    failed: set<int>,         // those whose first write threw
    streak: nat,              // how many of them since the last successful write
    got: set<int>,            // messages tracked as received
    high: int,                // the largest of them, -1 before the first
    arrivals: seq<Arrival>,   // everything queued for the consumer
    taken: nat)               // how much of it the consumer took

  function NewSide(now: int): Side {
    Side(T.Start(now), [], [], {}, 0, {}, -1, [], 0)
  }

  datatype Action =
    | SendReliable(payload: Bytes, now: int, later: int, sinkOk: bool)
    | SendUnreliable(payload: Bytes, later: int, sinkOk: bool)
    | Deliver(data: Bytes, now: int)
    | Tick(now: int, failAt: nat)
    | Close
    | Take

  /** The unwrapped number of a sequence at most 65536 messages old. */
  function Unwrap(sequence: U16, total: nat): (n: int)
    ensures total - WRAP16 <= n < total && n % WRAP16 == sequence
  {
    total - 1 - (total - 1 - sequence) % WRAP16
  }

  /** The message a ring slot holds: slots are reused only 256 messages later. */
  function SlotMsg(i: nat, total: nat): (n: int)
    requires i < T.RING_SIZE
    ensures total - T.RING_SIZE <= n < total && n % T.RING_SIZE == i
  {
    total - 1 - (total - 1 - i) % T.RING_SIZE
  }

  function Annotate(sent: seq<T.Datagram>, total: nat, high: int): (r: seq<Sent>)
    ensures |r| == |sent|
    ensures forall j :: 0 <= j < |r| ==>
              r[j] == Sent(sent[j], Unwrap(sent[j].sequence, total), total, high)
  {
    seq(|sent|, j requires 0 <= j < |sent| =>
      Sent(sent[j], Unwrap(sent[j].sequence, total), total, high))
  }

  function Logged(me: Side, s: T.State, sent: seq<T.Datagram>, issued: seq<Bytes>): Side {
    me.(state := s, issued := issued, log := me.log + Annotate(sent, |issued|, me.high))
  }

  /** The datagram of the peer's log that these bytes are, if any. */
  function Origin(k: Keys, log: seq<Sent>, data: Bytes): (r: Option<nat>)
    ensures r.Some? ==> r.value < |log| && Wire(k, log[r.value].datagram) == data
  {
    match T.KindOf(data)
    case None => None
    case Some(kind) =>
      match TryDecode(kind, data)
      case None => None
      case Some(f) =>
        if 1 <= f.counter <= |log| && Wire(k, log[f.counter - 1].datagram) == data then Some(f.counter - 1) else None
  }

  /** History of accepting record `rec`, where the code took `me.state` to `s`. */
  function Received(me: Side, s: T.State, rec: Sent): Side {
    var d := rec.datagram;
    if !Check(me.state.window, d.counter) then me.(state := s)
    else
      var tracked := d.kind == Reliable && T.Track(me.state.recv, d.sequence).1;
      var queued := |s.inbound| > |me.state.inbound|;
      var arrival := if d.kind == Reliable then FromReliable(rec.msg, d.body) else FromUnreliable(d.body);
      me.(state := s,
          got := if tracked then me.got + {rec.msg} else me.got,
          high := if tracked && rec.msg > me.high then rec.msg else me.high,
          arrivals := if queued then me.arrivals + [arrival] else me.arrivals)
  }

  function Step(me: Side, peer: Side, inbound: Keys, act: Action): Side {
    match act
    case SendReliable(payload, now, later, sinkOk) =>
      var o := T.SendReliable(me.state, payload, now, later, sinkOk);
      (match o.result
       case Ok => Logged(me, o.state, o.sent, me.issued + [payload]).(streak := 0)
       case SendFailed => Logged(me, o.state, o.sent, me.issued + [payload])
                          .(failed := me.failed + {|me.issued|}, streak := me.streak + 1)
       case _ => Logged(me, o.state, o.sent, me.issued))
    case SendUnreliable(payload, later, sinkOk) =>
      var o := T.SendUnreliable(me.state, payload, later, sinkOk);
      Logged(me, o.state, o.sent, me.issued)
    case Deliver(data, now) =>
      var s := T.HandlePacket(me.state, inbound.open, data, now);
      (match Origin(inbound, peer.log, data)
       case None => me.(state := s)
       case Some(k) => Received(me, s, peer.log[k]))
    case Tick(now, failAt) =>
      var t := T.Tick(me.state, now, failAt);
      Logged(me, t.state, t.sent, me.issued)
    case Close =>
      var (s, sent) := T.Close(me.state);
      Logged(me, s, sent, me.issued)
    case Take =>
      if |me.state.inbound| == 0 then me
      else me.(state := me.state.(inbound := me.state.inbound[1..]), taken := me.taken + 1)
  }

  /** Bytes that would authenticate at the receiver. */
  predicate Opens(k: Keys, data: Bytes) {
    match T.KindOf(data)
    case None => false
    case Some(kind) =>
      match TryDecode(kind, data)
      case None => false
      case Some(f) => f.counter != 0 && k.open(f.counter, f.sealed, f.aad).Some?
  }

  /** How many reliable sends in a row may throw at their first write. */
  const FAILURES: nat := 767

  /** How far a sender can run ahead of what its peer has seen: a full ring, with failed numbers between. */
  const SPAN: nat := T.RING_SIZE + FAILURES

  /** No forgery, counters left for the at most 259 datagrams one call can seal, and not too many failures in a row. */
  predicate Enabled(me: Side, peer: Side, inbound: Keys, act: Action) {
    && me.state.sendCounter + 259 <= MAX_COUNTER
    && (act.SendReliable? && !act.sinkOk ==> me.streak < FAILURES)
    && (act.Deliver? && Opens(inbound, act.data) ==> Origin(inbound, peer.log, act.data).Some?)
  }

  datatype System = System(a: Side, b: Side)
  datatype Event = Event(atA: bool, act: Action)

  function Apply(sys: System, toA: Keys, toB: Keys, e: Event): System {
    if e.atA then sys.(a := Step(sys.a, sys.b, toA, e.act)) else sys.(b := Step(sys.b, sys.a, toB, e.act))
  }

  function Run(startA: int, startB: int, toA: Keys, toB: Keys, events: seq<Event>): System {
    if |events| == 0 then System(NewSide(startA), NewSide(startB))
    else Apply(Run(startA, startB, toA, toB, events[..|events| - 1]), toA, toB, events[|events| - 1])
  }

  ghost predicate Legal(startA: int, startB: int, toA: Keys, toB: Keys, events: seq<Event>) {
    |events| != 0 ==>
      var before, e := Run(startA, startB, toA, toB, events[..|events| - 1]), events[|events| - 1];
      && Legal(startA, startB, toA, toB, events[..|events| - 1])
      && (if e.atA then Enabled(before.a, before.b, toA, e.act) else Enabled(before.b, before.a, toB, e.act))
  }

  // ---- What every reachable state keeps ---------------------------------------

  /** Slot `i` holds the last issued message congruent to `i`, under its wrapped sequence. */
  ghost predicate SlotOk(me: Side, i: nat)
    requires i < T.RING_SIZE
  {
    var e, n := me.state.ring[i], SlotMsg(i, |me.issued|);
    e.Used? ==> n >= 0 && e.sequence == n % WRAP16 && e.payload == me.issued[n]
  }

  ghost predicate RecordOk(me: Side, k: nat)
    requires k < |me.log|
  {
    var r := me.log[k];
    && r.datagram.counter == k + 1
    && r.total <= |me.issued|
    && (r.datagram.kind != Reliable ==> r.datagram.sequence == 0)
    && (r.datagram.kind == Reliable ==>
          && 0 <= r.msg && r.total - T.RING_SIZE <= r.msg < r.total
          && r.datagram.sequence == r.msg % WRAP16
          && r.datagram.body == me.issued[r.msg])
  }

  ghost predicate SenderOk(me: Side) {
    && me.state.sendSeq == |me.issued| % WRAP16
    && |me.log| == me.state.sendCounter
    && (forall i: nat :: i < T.RING_SIZE ==> SlotOk(me, i))
    && (forall k: nat :: k < |me.log| ==> RecordOk(me, k))
  }

  /** Each datagram sees at most one more issued message than the one before it. */
  ghost predicate TotalsOk(me: Side) {
    && (forall j: nat, k: nat :: j <= k < |me.log| ==> me.log[j].total <= me.log[k].total <= me.log[j].total + k - j)
    && (forall k: nat :: k < |me.log| ==> me.log[k].total <= k + 1)
    && |me.issued| == if |me.log| == 0 then 0 else me.log[|me.log| - 1].total
  }

  function LastHigh(me: Side): int {
    if |me.log| == 0 then -1 else me.log[|me.log| - 1].high
  }

  /** Between two consecutive datagrams a side's newest message moves up by at most the span. */
  ghost predicate HighsOk(me: Side) {
    && (forall j: nat, k: nat :: j <= k < |me.log| ==>
          me.log[j].high <= me.log[k].high <= me.log[j].high + SPAN * (k - j))
    && -1 <= LastHigh(me) <= me.high <= LastHigh(me) + SPAN
  }

  /** The 32-bit bitmap stands for the newest messages of a set of unwrapped numbers. */
  ghost predicate Tracks(r: T.Tracking, got: set<int>, high: int) {
    && -1 <= high
    && (r.init <==> high >= 0)
    && (r.dirty ==> r.init)
    && (forall n :: n in got ==> 0 <= n <= high)
    && (high >= 0 ==> high in got && r.highest == high % WRAP16)
    && (high >= 0 ==> forall i: nat :: i < 32 ==> (Bit(r.bits, i) <==> (high - 1 - i) in got))
  }

  ghost predicate ReceiverOk(me: Side, peer: Side) {
    && Tracks(me.state.recv, me.got, me.high)
    && (forall n :: n in me.got ==> n < |peer.issued|)
    && me.state.window.highest <= |peer.log|
    && (me.high >= 0 ==>
          me.state.window.highest >= 1 && me.high < peer.log[me.state.window.highest - 1].total)
  }

  /** Message `n` was tracked, and if it has a body it was queued for the consumer. */
  ghost predicate Confirmed(me: Side, peer: Side, n: int) {
    && n in me.got && 0 <= n < |peer.issued|
    && (|peer.issued[n]| > 0 ==> FromReliable(n, peer.issued[n]) in me.arrivals)
  }

  /** Every queued reliable message is one the peer issued, unaltered, and queued once. */
  ghost predicate QueuedOnce(me: Side, peer: Side) {
    && (forall j :: 0 <= j < |me.arrivals| && me.arrivals[j].FromReliable? ==>
          var n := me.arrivals[j].msg;
          n in me.got && 0 <= n < |peer.issued| && me.arrivals[j].payload == peer.issued[n])
    && (forall i, j :: 0 <= i < j < |me.arrivals| && me.arrivals[i].FromReliable? && me.arrivals[j].FromReliable? ==>
          me.arrivals[i].msg != me.arrivals[j].msg)
  }

  /** The consumer's queue is what arrived and was not yet taken, in order. */
  ghost predicate QueueOk(me: Side) {
    && me.taken + |me.state.inbound| == |me.arrivals|
    && forall j :: 0 <= j < |me.state.inbound| ==> me.state.inbound[j] == me.arrivals[me.taken + j].payload
  }

  ghost predicate ArrivalsOk(me: Side, peer: Side) {
    && QueuedOnce(me, peer)
    && QueueOk(me)
    && (!me.state.closed ==> forall n :: n in me.got ==> Confirmed(me, peer, n))
  }

  /** An ACK in the log names only confirmed messages, the newest being the sender's `high`. */
  ghost predicate AckRecordOk(me: Side, peer: Side, r: Sent) {
    r.datagram.kind == Ack ==>
      && r.high >= 0
      && Confirmed(me, peer, r.high)
      && var f := TryDecodeAckBody(r.datagram.body);
         && f.Some? && f.value.ackSeq == r.high % WRAP16
         && forall i: nat :: i < 32 && Bit(f.value.ackBits, i) ==> Confirmed(me, peer, r.high - 1 - i)
  }

  ghost predicate AckLogOk(me: Side, peer: Side) {
    forall k: nat :: k < |me.log| ==> AckRecordOk(me, peer, me.log[k])
  }

  /** Message `n` left the ring because a datagram this side issued acknowledged it. */
  ghost predicate Retired(me: Side, peer: Side, n: int) {
    && Confirmed(peer, me, n)
    && 1 <= me.state.window.highest <= |peer.log|
    && n <= peer.log[me.state.window.highest - 1].high
  }

  ghost predicate InRing(me: Side, n: int) {
    |me.issued| - T.RING_SIZE <= n < |me.issued| && me.state.ring[n % T.RING_SIZE].Used?
  }

  /** A message still waits in the ring, was acknowledged, was cleared by closing, or was never written. */
  ghost predicate Accounted(me: Side, peer: Side, n: int) {
    || InRing(me, n)
    || Retired(me, peer, n)
    || (me.state.closed && n >= |me.issued| - T.RING_SIZE)
    || n in me.failed
  }

  ghost predicate ProgressOk(me: Side, peer: Side) {
    forall n :: 0 <= n < |me.issued| ==> Accounted(me, peer, n)
  }

  /** One of the numbers from `n` to `n + FAILURES` was written. */
  ghost predicate SomeWritten(failed: set<int>, n: nat) {
    exists k: nat :: n <= k <= n + FAILURES && k !in failed
  }

  /** `streak` failures since the last written one of `total` numbers, and never too many in a row. */
  ghost predicate StreakOk(total: nat, failed: set<int>, streak: nat) {
    && streak <= FAILURES && streak <= total
    && (streak < total ==> total - 1 - streak !in failed)
    && (forall n :: n in failed ==> 0 <= n < total)
    && (forall n: nat :: n + FAILURES < total ==> SomeWritten(failed, n))
  }

  ghost predicate TeardownOk(me: Side) {
    && (me.state.closed <==> |me.log| > 0 && me.log[|me.log| - 1].datagram.kind == Disconnect)
    && forall k: nat :: k < |me.log| - 1 ==> me.log[k].datagram.kind != Disconnect
  }

  ghost predicate Local(me: Side) {
    SenderOk(me) && TotalsOk(me) && HighsOk(me) && TeardownOk(me) && StreakOk(|me.issued|, me.failed, me.streak)
  }

  ghost predicate Toward(me: Side, peer: Side) {
    ReceiverOk(me, peer) && ArrivalsOk(me, peer) && AckLogOk(me, peer) && ProgressOk(me, peer)
  }

  ghost predicate Inv(sys: System) {
    Local(sys.a) && Local(sys.b) && Toward(sys.a, sys.b) && Toward(sys.b, sys.a)
  }
}
