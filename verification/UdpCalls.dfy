/**
 What single calls of the transport do, told from the state before the call and the
 datagrams alone: which slots an ACK frees, when a tick reports a live connection,
 what it writes and what it leaves behind, and when a reliable send is accepted.
 */
module UdpCalls {
  import opened Words
  import opened Serial
  import opened UdpProto
  import opened UdpSession
  import opened UdpTransport

  // ---- Acknowledgements -------------------------------------------------------

  /** The sequence `j` behind `ackSeq` is `q`, and the ACK's bit for it is set. */
  ghost predicate Position(ackSeq: U16, ackBits: U32, q: U16, j: nat) {
    q == (ackSeq - j) % WRAP16 && (j == 0 || Bit(ackBits, j - 1))
  }

  /** One of the first `i` bits of the ACK, or its own sequence, names `q`. */
  ghost predicate Named(ackSeq: U16, ackBits: U32, q: U16, i: nat) {
    exists j: nat :: j <= i && Position(ackSeq, ackBits, q, j)
  }

  /** The ACK names sequence `q`: the newest one, or one whose bit is set. */
  ghost predicate Names(ackSeq: U16, ackBits: U32, q: U16) {
    Named(ackSeq, ackBits, q, 32)
  }

  ghost predicate Frees(e: Slot, x: nat, ackSeq: U16, ackBits: U32, i: nat) {
    e.Used? && e.sequence % RING_SIZE == x && Named(ackSeq, ackBits, e.sequence, i)
  }

  lemma {:induction false} AcknowledgePrefix(ring: Ring, ackSeq: U16, ackBits: U32, i: nat)
    requires i <= 32
    ensures var ring' := Acknowledge(ring, ackSeq, ackBits, i);
            forall x: nat :: x < RING_SIZE ==>
              ring'[x] == if Frees(ring[x], x, ackSeq, ackBits, i) then Free else ring[x]
    decreases i
  {
    if i == 0 {
      assert Position(ackSeq, ackBits, ackSeq, 0);
    } else {
      AcknowledgePrefix(ring, ackSeq, ackBits, i - 1);
      AndWithPow2(ackBits, i - 1);
      Pow2Positive(i - 1);
      var q := (ackSeq - i) % WRAP16;
      if Bit(ackBits, i - 1) {
        assert Position(ackSeq, ackBits, q, i);
      }
      forall e: U16 ensures Named(ackSeq, ackBits, e, i) <==>
          Named(ackSeq, ackBits, e, i - 1) || (Bit(ackBits, i - 1) && e == q) {
        NamedStep(ackSeq, ackBits, e, i);
      }
    }
  }

  lemma NamedStep(ackSeq: U16, ackBits: U32, q: U16, i: nat)
    requires i > 0
    ensures Named(ackSeq, ackBits, q, i) <==>
              Named(ackSeq, ackBits, q, i - 1) || Position(ackSeq, ackBits, q, i)
  {
  }

  /** An ACK frees exactly the slots whose message it names, and touches no other. */
  lemma AcknowledgeExact(ring: Ring, ackSeq: U16, ackBits: U32, x: nat)
    requires Placed(ring) && x < RING_SIZE
    ensures Acknowledge(ring, ackSeq, ackBits, 32)[x] ==
            if ring[x].Used? && Names(ackSeq, ackBits, ring[x].sequence) then Free else ring[x]
  {
    AcknowledgePrefix(ring, ackSeq, ackBits, 32);
  }

  // ---- What a tick has to write -------------------------------------------------

  predicate Due(e: Slot, now: int) {
    e.Used? && now - e.lastSent >= RETRANSMIT_MS
  }

  predicate Expired(e: Slot, now: int) {
    e.Used? && now - e.firstSent > RELIABLE_TIMEOUT_MS
  }

  /** A datagram before it has a counter. */
  datatype Letter = Letter(kind: Kind, sequence: U16, body: Bytes)

  /** The first expired slot from `lo` on, or the end of the ring. */
  function FirstExpired(ring: Ring, now: int, lo: nat): (n: nat)
    requires lo <= RING_SIZE
    ensures lo <= n <= RING_SIZE && forall k :: lo <= k < n ==> !Expired(ring[k], now)
    ensures n < RING_SIZE ==> Expired(ring[n], now)
    decreases RING_SIZE - lo
  {
    if lo == RING_SIZE || Expired(ring[lo], now) then lo else FirstExpired(ring, now, lo + 1)
  }

  /** The messages in the due slots from `lo` to before `hi`, in slot order. */
  function Resends(ring: Ring, now: int, lo: nat, hi: nat): seq<Letter>
    requires lo <= hi <= RING_SIZE
    decreases hi - lo
  {
    if lo == hi then []
    else (if Due(ring[lo], now) then [Letter(Reliable, ring[lo].sequence, ring[lo].payload)] else [])
         + Resends(ring, now, lo + 1, hi)
  }

  /** What an open transport owes its peer at `now`, up to the first expired entry. */
  function Owed(s: State, now: int): seq<Letter> {
    var n := FirstExpired(s.ring, now, 0);
    var resends := Resends(s.ring, now, 0, n);
    if n < RING_SIZE then resends
    else if s.recv.dirty then resends + [Letter(Ack, 0, AckBody(s.recv.highest, s.recv.bits))]
    else if resends == [] && now - s.lastSend > KEEPALIVE_MS then [Letter(Unreliable, 0, [])]
    else resends
  }

  /** Attempt `j` of a tick fails: its write throws or its counter is past the limit. */
  predicate Fails(counter: U64, failAt: nat, j: nat) {
    j == failAt || (counter + 1 + j) % (MAX_U64 + 1) > MAX_COUNTER
  }

  /** The letters under consecutive counters. */
  function Numbering(letters: seq<Letter>, counter: U64): (r: seq<Datagram>)
    ensures |r| == |letters|
    ensures forall j :: 0 <= j < |r| ==>
              r[j] == Datagram(letters[j].kind, letters[j].sequence, (counter + 1 + j) % (MAX_U64 + 1), letters[j].body)
  {
    seq(|letters|, j requires 0 <= j < |letters| =>
      Datagram(letters[j].kind, letters[j].sequence, (counter + 1 + j) % (MAX_U64 + 1), letters[j].body))
  }

  /** Of these datagrams, the ones whose counter may be used. */
  function Sealable(ds: seq<Datagram>): seq<Datagram> {
    if |ds| == 0 then []
    else Sealable(ds[..|ds| - 1]) + if ds[|ds| - 1].counter <= MAX_COUNTER then [ds[|ds| - 1]] else []
  }

  /** `a` of the letters are attempted: all before the last succeed, and it fails unless it is the very last. */
  ghost predicate Attempted(letters: seq<Letter>, counter: U64, failAt: nat, a: nat) {
    && a <= |letters|
    && (forall j: nat :: j + 1 < a ==> !Fails(counter, failAt, j))
    && (a < |letters| ==> a > 0 && Fails(counter, failAt, a - 1))
  }

  ghost predicate AllWritten(n: nat, counter: U64, failAt: nat) {
    forall j: nat :: j < n ==> !Fails(counter, failAt, j)
  }

  /** The ring after the due slots from `lo` to before `hi` were stamped. */
  function Refreshed(ring: Ring, now: int, lo: nat, hi: nat): (r: Ring)
    ensures forall k :: 0 <= k < RING_SIZE ==>
              r[k] == if lo <= k < hi && Due(ring[k], now) then ring[k].(lastSent := now) else ring[k]
  {
    seq(RING_SIZE, k requires 0 <= k < RING_SIZE =>
      if lo <= k < hi && Due(ring[k], now) then ring[k].(lastSent := now) else ring[k])
  }

  function Stamp(lastSend: int, now: int, written: bool): int {
    if written then AdvanceClock(lastSend, now) else lastSend
  }

  // ---- The sweep -----------------------------------------------------------------

  lemma {:induction false} SameFrom(ring: Ring, ring': Ring, now: int, lo: nat)
    requires lo <= RING_SIZE && forall k :: lo <= k < RING_SIZE ==> ring[k] == ring'[k]
    ensures var n := FirstExpired(ring, now, lo);
            FirstExpired(ring', now, lo) == n && Resends(ring', now, lo, n) == Resends(ring, now, lo, n)
    decreases RING_SIZE - lo
  {
    if lo == RING_SIZE || Expired(ring[lo], now) {
    } else {
      SameFrom(ring, ring', now, lo + 1);
    }
  }

  lemma NextCounter(counter: U64, n: nat)
    ensures ((counter + n) % (MAX_U64 + 1) + 1) % (MAX_U64 + 1) == (counter + 1 + n) % (MAX_U64 + 1)
  {
  }

  lemma NumberingAppend(done: seq<Letter>, l: Letter, counter: U64)
    ensures Numbering(done + [l], counter) ==
            Numbering(done, counter)
            + [Datagram(l.kind, l.sequence, (counter + 1 + |done|) % (MAX_U64 + 1), l.body)]
  {
  }

  lemma {:induction false} SealableAll(letters: seq<Letter>, counter: U64, failAt: nat)
    requires AllWritten(|letters|, counter, failAt)
    ensures Sealable(Numbering(letters, counter)) == Numbering(letters, counter)
    decreases |letters|
  {
    if |letters| == 0 {
    } else {
      var front, l := letters[..|letters| - 1], letters[|letters| - 1];
      assert letters == front + [l];
      NumberingAppend(front, l, counter);
      assert Numbering(letters, counter)[..|front|] == Numbering(front, counter);
      SealableAll(front, counter, failAt);
      assert !Fails(counter, failAt, |front|);
    }
  }

  /** Handing one more letter to the sink, after `done` were written. */
  lemma OneWrite(s: State, l: Letter, done: seq<Letter>, counter: U64, failAt: nat)
    requires s.sendCounter == (counter + |done|) % (MAX_U64 + 1) && AllWritten(|done|, counter, failAt)
    ensures var (s1, d) := Emit(s, l.kind, l.sequence, l.body);
            && s1 == s.(sendCounter := (counter + |done| + 1) % (MAX_U64 + 1))
            && Numbering(done, counter) + d == Sealable(Numbering(done + [l], counter))
            && (d == [] || |done| == failAt <==> Fails(counter, failAt, |done|))
            && (!Fails(counter, failAt, |done|) ==>
                  AllWritten(|done| + 1, counter, failAt)
                  && Numbering(done, counter) + d == Numbering(done + [l], counter))
  {
    hide AdvanceClock;
    NextCounter(counter, |done|);
    NumberingAppend(done, l, counter);
    SealableAll(done, counter, failAt);
    var all := Numbering(done + [l], counter);
    assert all[..|all| - 1] == Numbering(done, counter);
  }

  ghost predicate SweepIs(s: State, now: int, failAt: nat, i: nat, done: seq<Letter>, counter: U64, w: Sweep, a: nat)
    requires i <= RING_SIZE
  {
    var n := FirstExpired(s.ring, now, i);
    var all := done + Resends(s.ring, now, i, n);
    && Attempted(all, counter, failAt, a) && a >= |done|
    && (if AllWritten(|all|, counter, failAt) then
          && a == |all|
          && w == Sweep(s.(sendCounter := (counter + a) % (MAX_U64 + 1), ring := Refreshed(s.ring, now, i, n),
                           lastSend := Stamp(s.lastSend, now, a > |done|)),
                        Numbering(all, counter), if n < RING_SIZE then TimedOut else Completed)
        else
          && a > |done| && Fails(counter, failAt, a - 1)
          && w == Sweep(s.(sendCounter := (counter + a) % (MAX_U64 + 1), ring := w.state.ring,
                           lastSend := Stamp(s.lastSend, now, a - 1 > |done|)),
                        Sealable(Numbering(all[..a], counter)), SinkFailed))
  }

  lemma SweepSkips(s: State, now: int, failAt: nat, i: nat, done: seq<Letter>, counter: U64, w: Sweep, a: nat)
    requires i < RING_SIZE && !Expired(s.ring[i], now) && !Due(s.ring[i], now)
    requires SweepIs(s, now, failAt, i + 1, done, counter, w, a)
    ensures SweepIs(s, now, failAt, i, done, counter, w, a)
  {
    hide Numbering, Sealable, AdvanceClock, Attempted, AllWritten, Fails, Stamp;
    var n := FirstExpired(s.ring, now, i);
    assert Resends(s.ring, now, i, n) == Resends(s.ring, now, i + 1, n);
    assert Refreshed(s.ring, now, i, n) == Refreshed(s.ring, now, i + 1, n);
  }

  lemma SweepResends(s: State, s2: State, now: int, failAt: nat, i: nat, done: seq<Letter>, counter: U64, w: Sweep,
                     a: nat)
    requires i < RING_SIZE && !Expired(s.ring[i], now) && Due(s.ring[i], now)
    requires s2 == s.(sendCounter := s2.sendCounter, ring := s.ring[i := s.ring[i].(lastSent := now)],
                      lastSend := AdvanceClock(s.lastSend, now))
    requires var l := Letter(Reliable, s.ring[i].sequence, s.ring[i].payload);
             SweepIs(s2, now, failAt, i + 1, done + [l], counter, w, a)
    ensures SweepIs(s, now, failAt, i, done, counter, w, a)
  {
    hide Numbering, Sealable, Attempted, AllWritten, Fails, Expired, Refreshed, AdvanceClock, Stamp;
    hide FirstExpired, Resends;
    var l := Letter(Reliable, s.ring[i].sequence, s.ring[i].payload);
    ResendsStep(s.ring, s2.ring, now, i);
    var n := FirstExpired(s.ring, now, i);
    assert done + [l] + Resends(s2.ring, now, i + 1, n) == done + Resends(s.ring, now, i, n);
    RefreshedStep(s.ring, now, i, n);
    StampTwice(s.lastSend, now);
  }

  lemma ResendsStep(ring: Ring, ring': Ring, now: int, i: nat)
    requires i < RING_SIZE && !Expired(ring[i], now) && Due(ring[i], now)
    requires forall k :: i < k < RING_SIZE ==> ring[k] == ring'[k]
    ensures var n := FirstExpired(ring, now, i);
            && i < n == FirstExpired(ring', now, i + 1)
            && Resends(ring, now, i, n) ==
               [Letter(Reliable, ring[i].sequence, ring[i].payload)] + Resends(ring', now, i + 1, n)
  {
    SameFrom(ring, ring', now, i + 1);
  }

  lemma RefreshedStep(ring: Ring, now: int, i: nat, n: nat)
    requires i < n <= RING_SIZE && Due(ring[i], now)
    ensures Refreshed(ring[i := ring[i].(lastSent := now)], now, i + 1, n) == Refreshed(ring, now, i, n)
  {
  }

  lemma StampTwice(lastSend: int, now: int)
    ensures Stamp(lastSend, now, true) == AdvanceClock(lastSend, now)
    ensures forall b :: Stamp(AdvanceClock(lastSend, now), now, b) == AdvanceClock(lastSend, now)
  {
  }

  lemma SweepStops(s: State, now: int, failAt: nat, i: nat, done: seq<Letter>, counter: U64)
    requires i < RING_SIZE && !Expired(s.ring[i], now) && Due(s.ring[i], now)
    requires s.sendCounter == (counter + |done|) % (MAX_U64 + 1) && AllWritten(|done|, counter, failAt)
    requires Fails(counter, failAt, |done|)
    ensures var w := Retransmit(s, now, failAt, i, Numbering(done, counter));
            SweepIs(s, now, failAt, i, done, counter, w, |done| + 1)
  {
    hide Numbering, Sealable, AdvanceClock, Emit, Fails, FirstExpired, Refreshed, AllWritten, Attempted, Expired;
    var l := Letter(Reliable, s.ring[i].sequence, s.ring[i].payload);
    OneWrite(s, l, done, counter, failAt);
    StopsAtFailure(s, now, failAt, i, Numbering(done, counter));
    hide Retransmit;
    var n := FirstExpired(s.ring, now, i);
    var rest := Resends(s.ring, now, i + 1, n);
    assert done + Resends(s.ring, now, i, n) == done + [l] + rest;
    assert (done + [l] + rest)[..|done| + 1] == done + [l];
    FailedAttempt(done + [l], rest, counter, failAt, |done| + 1);
  }

  lemma StopsAtFailure(s: State, now: int, failAt: nat, i: nat, sent: seq<Datagram>)
    requires i < RING_SIZE && !Expired(s.ring[i], now) && Due(s.ring[i], now)
    ensures var (s1, d) := Emit(s, Reliable, s.ring[i].sequence, s.ring[i].payload);
            d == [] || |sent| == failAt ==> Retransmit(s, now, failAt, i, sent) == Sweep(s1, sent + d, SinkFailed)
  {
  }

  /** Attempt `a` fails after all before it succeeded, whatever else was still to be written. */
  lemma FailedAttempt(letters: seq<Letter>, more: seq<Letter>, counter: U64, failAt: nat, a: nat)
    requires 0 < a <= |letters| && AllWritten(a - 1, counter, failAt) && Fails(counter, failAt, a - 1)
    ensures Attempted(letters + more, counter, failAt, a) && !AllWritten(|letters + more|, counter, failAt)
  {
    hide Fails;
  }

  lemma AttemptFails(letters: seq<Letter>, counter: U64, failAt: nat, a: nat)
    requires Attempted(letters, counter, failAt, a)
    ensures a <= |letters| && (a > 0 ==> AllWritten(a - 1, counter, failAt))
  {
    hide Fails;
  }

  lemma {:induction false} SweepExact(s: State, now: int, failAt: nat, i: nat, done: seq<Letter>, counter: U64)
    returns (a: nat)
    requires i <= RING_SIZE && s.sendCounter == (counter + |done|) % (MAX_U64 + 1)
    requires AllWritten(|done|, counter, failAt)
    ensures SweepIs(s, now, failAt, i, done, counter, Retransmit(s, now, failAt, i, Numbering(done, counter)), a)
    decreases RING_SIZE - i
  {
    if i == RING_SIZE || Expired(s.ring[i], now) {
      a := |done|;
      SweepEnds(s, now, failAt, i, done, counter);
    } else if !Due(s.ring[i], now) {
      hide SweepIs, Numbering, Fails, AllWritten;
      a := SweepExact(s, now, failAt, i + 1, done, counter);
      SweepSkips(s, now, failAt, i, done, counter, Retransmit(s, now, failAt, i + 1, Numbering(done, counter)), a);
    } else if Fails(counter, failAt, |done|) {
      hide SweepIs, Numbering;
      a := |done| + 1;
      SweepStops(s, now, failAt, i, done, counter);
    } else {
      hide SweepIs, Numbering, Emit, AdvanceClock, Fails, AllWritten;
      var l := Letter(Reliable, s.ring[i].sequence, s.ring[i].payload);
      OneWrite(s, l, done, counter, failAt);
      var s2 := Resent(Emit(s, l.kind, l.sequence, l.body).0, i, now);
      a := SweepExact(s2, now, failAt, i + 1, done + [l], counter);
      SweepResends(s, s2, now, failAt, i, done, counter,
                   Retransmit(s2, now, failAt, i + 1, Numbering(done + [l], counter)), a);
    }
  }

  lemma SweepEnds(s: State, now: int, failAt: nat, i: nat, done: seq<Letter>, counter: U64)
    requires i <= RING_SIZE && (i == RING_SIZE || Expired(s.ring[i], now))
    requires s.sendCounter == (counter + |done|) % (MAX_U64 + 1) && AllWritten(|done|, counter, failAt)
    ensures SweepIs(s, now, failAt, i, done, counter, Retransmit(s, now, failAt, i, Numbering(done, counter)), |done|)
  {
    hide Numbering, Fails;
    assert done + Resends(s.ring, now, i, i) == done;
    assert Refreshed(s.ring, now, i, i) == s.ring;
  }

  // ---- The whole tick --------------------------------------------------------------

  /** Open, heard from within ten seconds, nothing expired, and every owed datagram can be written. */
  ghost predicate Live(s: State, now: int, failAt: nat) {
    && !s.closed && now - s.lastRecv <= CONNECTION_TIMEOUT_MS
    && (forall x :: 0 <= x < RING_SIZE ==> !Expired(s.ring[x], now))
    && AllWritten(|Owed(s, now)|, s.sendCounter, failAt)
  }

  /** The state after everything owed was written. */
  ghost predicate Settled(s: State, s': State, now: int) {
    var owed := Owed(s, now);
    s' == s.(sendCounter := (s.sendCounter + |owed|) % (MAX_U64 + 1),
             ring := Refreshed(s.ring, now, 0, RING_SIZE),
             recv := s.recv.(dirty := false),
             lastSend := Stamp(s.lastSend, now, owed != []))
  }

  const BYE: Letter := Letter(Disconnect, 0, [])

  /** The state and datagrams after `a` attempts, `written` of them successful, and a farewell. */
  ghost predicate TornDown(s: State, t: Ticked, now: int, a: nat, written: nat)
    requires a <= |Owed(s, now)|
  {
    && t.state == s.(sendCounter := (s.sendCounter + a + 1) % (MAX_U64 + 1), ring := EmptyRing(), closed := true,
                     lastSend := Stamp(s.lastSend, now, written > 0))
    && t.sent == Sealable(Numbering(Owed(s, now)[..a] + [BYE], s.sendCounter))
  }

  /** The three stages of an open tick, before any teardown. */
  function Stages(s: State, now: int, failAt: nat): Sweep {
    Keepalive(FlushAck(Retransmit(s, now, failAt, 0, []), now, failAt), now, failAt)
  }

  /** An open tick writes what is owed up to the first failure. */
  ghost predicate StagesAre(s: State, now: int, failAt: nat, w: Sweep, a: nat) {
    var owed := Owed(s, now);
    && Attempted(owed, s.sendCounter, failAt, a)
    && (if AllWritten(|owed|, s.sendCounter, failAt) then
          && a == |owed| && w.sent == Numbering(owed, s.sendCounter)
          && (if FirstExpired(s.ring, now, 0) == RING_SIZE then w.stop == Completed && Settled(s, w.state, now)
              else w.stop == TimedOut && Halted(s, w.state, now, a, a))
        else
          && a > 0 && Fails(s.sendCounter, failAt, a - 1)
          && w.stop == SinkFailed && w.sent == Sealable(Numbering(owed[..a], s.sendCounter))
          && Halted(s, w.state, now, a, a - 1))
  }

  ghost predicate Halted(s: State, s': State, now: int, a: nat, written: nat) {
    s' == s.(sendCounter := (s.sendCounter + a) % (MAX_U64 + 1), ring := s'.ring,
             lastSend := Stamp(s.lastSend, now, written > 0))
  }

  /** The debt starts with the due slots before the first expired one. */
  lemma OwedStarts(s: State, now: int) returns (more: seq<Letter>)
    ensures var n := FirstExpired(s.ring, now, 0);
            Owed(s, now) == Resends(s.ring, now, 0, n) + more && (n < RING_SIZE ==> more == [])
  {
    hide FirstExpired, Resends;
    var resends := Resends(s.ring, now, 0, FirstExpired(s.ring, now, 0));
    more := Owed(s, now)[|resends|..];
  }

  lemma StagesHalted(s: State, now: int, failAt: nat, w: Sweep, a: nat)
    requires SweepIs(s, now, failAt, 0, [], s.sendCounter, w, a)
    requires var n := FirstExpired(s.ring, now, 0);
             n < RING_SIZE || !AllWritten(|Resends(s.ring, now, 0, n)|, s.sendCounter, failAt)
    ensures StagesAre(s, now, failAt, Keepalive(FlushAck(w, now, failAt), now, failAt), a)
  {
    hide Fails, Numbering, Sealable, AdvanceClock, Refreshed, AllWritten, Attempted, Expired, Resends, Emit, Owed;
    hide FirstExpired, Stamp;
    var resends := Resends(s.ring, now, 0, FirstExpired(s.ring, now, 0));
    assert [] + resends == resends;
    assert Keepalive(FlushAck(w, now, failAt), now, failAt) == w;
    hide FlushAck, Keepalive;
    var more := OwedStarts(s, now);
    AttemptFails(resends, s.sendCounter, failAt, a);
    if AllWritten(|resends|, s.sendCounter, failAt) {
      assert resends + more == resends;
    } else {
      assert (resends + more)[..a] == resends[..a];
      FailedAttempt(resends, more, s.sendCounter, failAt, a);
    }
  }

  /** The sweep completed and the last owed datagram is `l`. */
  lemma StagesLast(s: State, now: int, failAt: nat, w: Sweep, l: Letter)
    requires SweepIs(s, now, failAt, 0, [], s.sendCounter, w, |Resends(s.ring, now, 0, RING_SIZE)|)
    requires FirstExpired(s.ring, now, 0) == RING_SIZE && Owed(s, now) == Resends(s.ring, now, 0, RING_SIZE) + [l]
    requires AllWritten(|Owed(s, now)| - 1, s.sendCounter, failAt)
    ensures var owed := Owed(s, now);
            var (s1, d) := Emit(w.state, l.kind, l.sequence, l.body);
            && w.stop == Completed && w.sent == Numbering(owed[..|owed| - 1], s.sendCounter)
            && w.state == s.(sendCounter := w.state.sendCounter, ring := Refreshed(s.ring, now, 0, RING_SIZE),
                             lastSend := Stamp(s.lastSend, now, |owed| > 1))
            && s1 == w.state.(sendCounter := (s.sendCounter + |owed|) % (MAX_U64 + 1))
            && w.sent + d == Sealable(Numbering(owed, s.sendCounter))
            && (d == [] || |w.sent| == failAt <==> Fails(s.sendCounter, failAt, |owed| - 1))
            && (!Fails(s.sendCounter, failAt, |owed| - 1) ==>
                  w.sent + d == Numbering(owed, s.sendCounter) && AllWritten(|owed|, s.sendCounter, failAt))
  {
    hide Fails, Numbering, Sealable, AdvanceClock, Refreshed, Emit, Owed;
    var resends := Resends(s.ring, now, 0, RING_SIZE);
    assert [] + resends == resends;
    assert Owed(s, now)[..|resends|] == resends;
    OneWrite(w.state, l, resends, s.sendCounter, failAt);
  }

  lemma StagesAck(s: State, now: int, failAt: nat, w: Sweep)
    requires SweepIs(s, now, failAt, 0, [], s.sendCounter, w, |Resends(s.ring, now, 0, RING_SIZE)|)
    requires FirstExpired(s.ring, now, 0) == RING_SIZE && s.recv.dirty
    requires AllWritten(|Owed(s, now)| - 1, s.sendCounter, failAt)
    ensures StagesAre(s, now, failAt, Keepalive(FlushAck(w, now, failAt), now, failAt), |Owed(s, now)|)
  {
    hide Fails, Numbering, Sealable, Refreshed, SweepIs, Resends, FirstExpired;
    var owed := Owed(s, now);
    StagesLast(s, now, failAt, w, Letter(Ack, 0, AckBody(s.recv.highest, s.recv.bits)));
    assert owed[..|owed|] == owed;
  }

  lemma StagesQuiet(s: State, now: int, failAt: nat, w: Sweep) returns (a: nat)
    requires SweepIs(s, now, failAt, 0, [], s.sendCounter, w, |Resends(s.ring, now, 0, RING_SIZE)|)
    requires FirstExpired(s.ring, now, 0) == RING_SIZE && !s.recv.dirty
    requires AllWritten(|Resends(s.ring, now, 0, RING_SIZE)|, s.sendCounter, failAt)
    ensures StagesAre(s, now, failAt, Keepalive(FlushAck(w, now, failAt), now, failAt), a)
  {
    hide Fails, Numbering, Sealable, Refreshed, FirstExpired, Resends;
    var owed, resends := Owed(s, now), Resends(s.ring, now, 0, RING_SIZE);
    a := |owed|;
    assert [] + resends == resends;
    assert owed[..|owed|] == owed;
    if resends == [] && now - s.lastSend > KEEPALIVE_MS {
      StagesLast(s, now, failAt, w, Letter(Unreliable, 0, []));
    }
  }

  lemma StagesExact(s: State, now: int, failAt: nat) returns (a: nat)
    ensures StagesAre(s, now, failAt, Stages(s, now, failAt), a)
  {
    hide Fails, Sealable, Refreshed, SweepIs, StagesAre, Retransmit, FlushAck, Keepalive;
    assert Numbering([], s.sendCounter) == [];
    hide Numbering;
    a := SweepExact(s, now, failAt, 0, [], s.sendCounter);
    var n := FirstExpired(s.ring, now, 0);
    var resends := Resends(s.ring, now, 0, n);
    var w := Retransmit(s, now, failAt, 0, []);
    if n < RING_SIZE || !AllWritten(|resends|, s.sendCounter, failAt) {
      StagesHalted(s, now, failAt, w, a);
    } else {
      SweepAll(s, now, failAt, w, a);
      if s.recv.dirty {
        a := |Owed(s, now)|;
        StagesAck(s, now, failAt, w);
      } else {
        a := StagesQuiet(s, now, failAt, w);
      }
    }
  }

  lemma SweepAll(s: State, now: int, failAt: nat, w: Sweep, a: nat)
    requires SweepIs(s, now, failAt, 0, [], s.sendCounter, w, a)
    requires AllWritten(|Resends(s.ring, now, 0, FirstExpired(s.ring, now, 0))|, s.sendCounter, failAt)
    ensures a == |Resends(s.ring, now, 0, FirstExpired(s.ring, now, 0))|
  {
    hide Fails, Numbering, Sealable, Refreshed;
    var resends := Resends(s.ring, now, 0, FirstExpired(s.ring, now, 0));
    assert [] + resends == resends;
  }

  lemma FarewellExact(s: State, s1: State, sent: seq<Datagram>, now: int, a: nat, written: nat)
    requires !s.closed && a <= |Owed(s, now)| && Halted(s, s1, now, a, written)
    requires sent == Sealable(Numbering(Owed(s, now)[..a], s.sendCounter))
    ensures TornDown(s, Ticked(Close(s1).0, sent + Close(s1).1, false), now, a, written)
  {
    hide Owed, AdvanceClock;
    var letters := Owed(s, now)[..a];
    NumberingAppend(letters, BYE, s.sendCounter);
    NextCounter(s.sendCounter, a);
    var all := Numbering(letters + [BYE], s.sendCounter);
    assert all[..|all| - 1] == Numbering(letters, s.sendCounter);
  }

  lemma SilentExact(s: State, now: int)
    requires !s.closed
    ensures TornDown(s, Ticked(Close(s).0, Close(s).1, false), now, 0, 0)
  {
    FarewellExact(s, s, [], now, 0, 0);
    assert [] + Close(s).1 == Close(s).1;
  }

  /**
   A tick, exactly. It reports a live connection if and only if the transport is open,
   heard from its peer within ten seconds, holds no entry older than five, and every
   datagram it owes can be written. Then it wrote just those, under consecutive
   counters, and stamped what it resent. Otherwise it is closed: after a silence it only
   says goodbye, and else it writes what it owes up to the first expired entry or the
   first failing write, and then says goodbye.
   */
  lemma TickExact(s: State, now: int, failAt: nat) returns (a: nat)
    ensures var t, owed := Tick(s, now, failAt), Owed(s, now);
            && (t.alive <==> Live(s, now, failAt))
            && (t.alive ==> t.sent == Numbering(owed, s.sendCounter) && Settled(s, t.state, now))
            && (s.closed ==> t == Ticked(s, [], false))
            && (!s.closed && now - s.lastRecv > CONNECTION_TIMEOUT_MS ==> TornDown(s, t, now, 0, 0))
            && (!s.closed && now - s.lastRecv <= CONNECTION_TIMEOUT_MS && !t.alive ==>
                  && Attempted(owed, s.sendCounter, failAt, a)
                  && TornDown(s, t, now, a, if AllWritten(|owed|, s.sendCounter, failAt) then a else a - 1))
  {
    hide Owed, Numbering, Sealable, Refreshed, Retransmit, FlushAck, Keepalive, TornDown, AllWritten, Fails;
    a := StagesExact(s, now, failAt);
    var w, n := Stages(s, now, failAt), FirstExpired(s.ring, now, 0);
    if s.closed {
    } else if now - s.lastRecv > CONNECTION_TIMEOUT_MS {
      SilentExact(s, now);
    } else if AllWritten(|Owed(s, now)|, s.sendCounter, failAt) {
      if n < RING_SIZE {
        var owed := Owed(s, now);
        assert owed[..a] == owed;
        SealableAll(owed, s.sendCounter, failAt);
        FarewellExact(s, w.state, w.sent, now, a, a);
      }
    } else {
      FarewellExact(s, w.state, w.sent, now, a, a - 1);
    }
  }

  // ---- What a live tick sends, slot by slot ---------------------------------------------

  /** The datagram carries the message of this slot. */
  ghost predicate Carries(d: Datagram, e: Slot) {
    e.Used? && d.kind == Reliable && d.sequence == e.sequence && d.body == e.payload
  }

  /** Letter `l` is the message of a due slot between `lo` and `hi`. */
  ghost predicate FromDue(l: Letter, ring: Ring, now: int, lo: nat, hi: nat)
    requires hi <= RING_SIZE
  {
    var x := l.sequence % RING_SIZE;
    lo <= x < hi && Due(ring[x], now) && l == Letter(Reliable, ring[x].sequence, ring[x].payload)
  }

  ghost predicate Listed(letters: seq<Letter>, x: nat) {
    exists j :: 0 <= j < |letters| && letters[j].sequence % RING_SIZE == x
  }

  /** The letters are the messages of the due slots between `lo` and `hi`, in slot order. */
  ghost predicate ListsDue(letters: seq<Letter>, ring: Ring, now: int, lo: nat, hi: nat)
    requires hi <= RING_SIZE
  {
    && (forall j :: 0 <= j < |letters| ==> FromDue(letters[j], ring, now, lo, hi))
    && (forall j, k :: 0 <= j < k < |letters| ==>
          letters[j].sequence % RING_SIZE < letters[k].sequence % RING_SIZE)
    && (forall x: nat :: lo <= x < hi && Due(ring[x], now) ==> Listed(letters, x))
  }

  lemma {:induction false} ResendsExact(ring: Ring, now: int, lo: nat, hi: nat)
    requires Placed(ring) && lo <= hi <= RING_SIZE
    ensures ListsDue(Resends(ring, now, lo, hi), ring, now, lo, hi)
    decreases hi - lo
  {
    hide ListsDue, Placed;
    if lo == hi {
      ListsDueNone(ring, now, lo);
    } else {
      ResendsExact(ring, now, lo + 1, hi);
      var rest := Resends(ring, now, lo + 1, hi);
      if Due(ring[lo], now) {
        ListsDueStep(rest, ring, now, lo, hi);
      } else {
        assert Resends(ring, now, lo, hi) == rest;
        ListsDueSkip(rest, ring, now, lo, hi);
      }
    }
  }

  lemma ListsDueNone(ring: Ring, now: int, lo: nat)
    requires lo <= RING_SIZE
    ensures ListsDue([], ring, now, lo, lo)
  {
  }

  lemma ListsDueSkip(rest: seq<Letter>, ring: Ring, now: int, lo: nat, hi: nat)
    requires lo < hi <= RING_SIZE && !Due(ring[lo], now) && ListsDue(rest, ring, now, lo + 1, hi)
    ensures ListsDue(rest, ring, now, lo, hi)
  {
    hide Due, Listed;
    forall j | 0 <= j < |rest|
      ensures FromDue(rest[j], ring, now, lo, hi)
    {
      assert FromDue(rest[j], ring, now, lo + 1, hi);
    }
  }

  lemma ListsDueStep(rest: seq<Letter>, ring: Ring, now: int, lo: nat, hi: nat)
    requires Placed(ring) && lo < hi <= RING_SIZE && ring[lo].Used? && Due(ring[lo], now)
    requires ListsDue(rest, ring, now, lo + 1, hi)
    ensures ListsDue([Letter(Reliable, ring[lo].sequence, ring[lo].payload)] + rest, ring, now, lo, hi)
  {
    hide Due;
    var letters := [Letter(Reliable, ring[lo].sequence, ring[lo].payload)] + rest;
    forall j | 0 <= j < |letters|
      ensures FromDue(letters[j], ring, now, lo, hi)
    {
      if j > 0 {
        assert FromDue(rest[j - 1], ring, now, lo + 1, hi);
      }
    }
    forall x: nat | lo <= x < hi && Due(ring[x], now)
      ensures Listed(letters, x)
    {
      if x == lo {
        assert letters[0].sequence % RING_SIZE == x;
      } else {
        assert Listed(rest, x);
        var j :| 0 <= j < |rest| && rest[j].sequence % RING_SIZE == x;
        assert letters[j + 1].sequence % RING_SIZE == x;
      }
    }
  }

  ghost predicate SendsFor(sent: seq<Datagram>, e: Slot) {
    exists j :: 0 <= j < |sent| && Carries(sent[j], e)
  }

  ghost predicate SendsKind(sent: seq<Datagram>, kind: Kind) {
    exists j :: 0 <= j < |sent| && sent[j].kind == kind
  }

  /** Exactly the due slots are resent, each once, and nothing else is sent as reliable. */
  ghost predicate ResendsDue(s: State, now: int, sent: seq<Datagram>) {
    && (forall x :: 0 <= x < RING_SIZE && s.ring[x].Used? ==> (SendsFor(sent, s.ring[x]) <==> Due(s.ring[x], now)))
    && (forall j :: 0 <= j < |sent| && sent[j].kind == Reliable ==>
          Carries(sent[j], s.ring[sent[j].sequence % RING_SIZE]))
    && (forall j, k :: 0 <= j < k < |sent| && sent[j].kind == Reliable && sent[k].kind == Reliable ==>
          sent[j].sequence != sent[k].sequence)
  }

  ghost predicate NothingDue(s: State, now: int) {
    forall x :: 0 <= x < RING_SIZE ==> !Due(s.ring[x], now)
  }

  /**
   What a live tick sends, read off the state before it: one copy of every message last
   sent at least 100 ms ago and of no other, one ACK if and only if something arrived
   since the last one, and a keepalive if and only if there is neither and nothing was
   sent for more than a second.
   */
  lemma TickSends(s: State, now: int, failAt: nat)
    requires Placed(s.ring) && Tick(s, now, failAt).alive
    ensures var sent := Tick(s, now, failAt).sent;
            && ResendsDue(s, now, sent)
            && (SendsKind(sent, Ack) <==> s.recv.dirty)
            && (forall j :: 0 <= j < |sent| && sent[j].kind == Ack ==>
                  j == |sent| - 1 && sent[j].body == AckBody(s.recv.highest, s.recv.bits))
            && (SendsKind(sent, Unreliable) <==>
                  !s.recv.dirty && NothingDue(s, now) && now - s.lastSend > KEEPALIVE_MS)
            && (forall j :: 0 <= j < |sent| && sent[j].kind == Unreliable ==> |sent| == 1 && sent[j].body == [])
            && !SendsKind(sent, Disconnect)
  {
    hide Tick, AdvanceClock, Refreshed, Fails;
    var a := TickExact(s, now, failAt);
    var sent, owed := Tick(s, now, failAt).sent, Owed(s, now);
    LiveOwed(s, now);
    SentRest(s, now, sent, owed);
    SentResends(s, now, sent, owed);
  }

  /** With nothing expired the debt is the due slots, then the ACK or the keepalive. */
  lemma LiveOwed(s: State, now: int)
    requires forall x :: 0 <= x < RING_SIZE ==> !Expired(s.ring[x], now)
    ensures var resends := Resends(s.ring, now, 0, RING_SIZE);
            Owed(s, now) ==
            if s.recv.dirty then resends + [Letter(Ack, 0, AckBody(s.recv.highest, s.recv.bits))]
            else if resends == [] && now - s.lastSend > KEEPALIVE_MS then [Letter(Unreliable, 0, [])]
            else resends
  {
  }

  /** The datagrams are the letters, counters aside. */
  ghost predicate Sends(sent: seq<Datagram>, letters: seq<Letter>) {
    && |sent| == |letters|
    && forall j :: 0 <= j < |sent| ==> letters[j] == Letter(sent[j].kind, sent[j].sequence, sent[j].body)
  }

  /** The debt as `LiveOwed` gives it: the due slots, and behind them at most one other datagram. */
  ghost predicate DueThenOther(s: State, now: int, owed: seq<Letter>) {
    var resends := Resends(s.ring, now, 0, RING_SIZE);
    && |resends| <= |owed| <= |resends| + 1 && owed[..|resends|] == resends
    && (|owed| > |resends| ==> owed[|resends|].kind != Reliable)
  }

  /** A reliable datagram among them is one of the resends. */
  lemma SentResend(s: State, now: int, sent: seq<Datagram>, owed: seq<Letter>, j: nat)
    requires DueThenOther(s, now, owed) && Sends(sent, owed) && j < |sent| && sent[j].kind == Reliable
    ensures var resends := Resends(s.ring, now, 0, RING_SIZE);
            j < |resends| && resends[j] == Letter(Reliable, sent[j].sequence, sent[j].body)
  {
    hide Resends;
    var resends := Resends(s.ring, now, 0, RING_SIZE);
    assert owed[j] == Letter(sent[j].kind, sent[j].sequence, sent[j].body);
    assert j < |resends|;
    assert owed[..|resends|][j] == resends[j];
  }

  lemma SentResends(s: State, now: int, sent: seq<Datagram>, owed: seq<Letter>)
    requires Placed(s.ring) && DueThenOther(s, now, owed) && Sends(sent, owed)
    ensures ResendsDue(s, now, sent)
  {
    hide Resends, Sends, DueThenOther;
    var resends := Resends(s.ring, now, 0, RING_SIZE);
    ResendsExact(s.ring, now, 0, RING_SIZE);
    forall j: nat | j < |sent| && sent[j].kind == Reliable
      ensures j < |resends| && resends[j] == Letter(Reliable, sent[j].sequence, sent[j].body)
      ensures Carries(sent[j], s.ring[sent[j].sequence % RING_SIZE])
    {
      SentResend(s, now, sent, owed, j);
      assert FromDue(resends[j], s.ring, now, 0, RING_SIZE);
    }
    forall x: nat | x < RING_SIZE && s.ring[x].Used?
      ensures SendsFor(sent, s.ring[x]) <==> Due(s.ring[x], now)
    {
      SentIffDue(s, now, sent, owed, x);
    }
  }

  lemma SentIffDue(s: State, now: int, sent: seq<Datagram>, owed: seq<Letter>, x: nat)
    requires Placed(s.ring) && DueThenOther(s, now, owed) && Sends(sent, owed)
    requires x < RING_SIZE && s.ring[x].Used?
    ensures SendsFor(sent, s.ring[x]) <==> Due(s.ring[x], now)
  {
    hide Resends;
    var resends := Resends(s.ring, now, 0, RING_SIZE);
    ResendsExact(s.ring, now, 0, RING_SIZE);
    if SendsFor(sent, s.ring[x]) {
      var j: nat :| j < |sent| && Carries(sent[j], s.ring[x]);
      SentResend(s, now, sent, owed, j);
      assert FromDue(resends[j], s.ring, now, 0, RING_SIZE);
    }
    if Due(s.ring[x], now) {
      assert Listed(resends, x);
      var j :| 0 <= j < |resends| && resends[j].sequence % RING_SIZE == x;
      assert FromDue(resends[j], s.ring, now, 0, RING_SIZE);
      assert owed[..|resends|][j] == resends[j];
      assert Carries(sent[j], s.ring[x]);
    }
  }

  lemma SentRest(s: State, now: int, sent: seq<Datagram>, owed: seq<Letter>)
    requires Sends(sent, owed) && Placed(s.ring)
    requires var resends := Resends(s.ring, now, 0, RING_SIZE);
             owed ==
             if s.recv.dirty then resends + [Letter(Ack, 0, AckBody(s.recv.highest, s.recv.bits))]
             else if resends == [] && now - s.lastSend > KEEPALIVE_MS then [Letter(Unreliable, 0, [])]
             else resends
    ensures DueThenOther(s, now, owed)
    ensures SendsKind(sent, Ack) <==> s.recv.dirty
    ensures forall j :: 0 <= j < |sent| && sent[j].kind == Ack ==>
              j == |sent| - 1 && sent[j].body == AckBody(s.recv.highest, s.recv.bits)
    ensures SendsKind(sent, Unreliable) <==>
              !s.recv.dirty && NothingDue(s, now) && now - s.lastSend > KEEPALIVE_MS
    ensures forall j :: 0 <= j < |sent| && sent[j].kind == Unreliable ==> |sent| == 1 && sent[j].body == []
    ensures !SendsKind(sent, Disconnect)
  {
    hide Resends, Due;
    var resends := Resends(s.ring, now, 0, RING_SIZE);
    ResendsExact(s.ring, now, 0, RING_SIZE);
    if resends != [] {
      assert FromDue(resends[0], s.ring, now, 0, RING_SIZE);
    }
    forall j | 0 <= j < |sent| && j < |resends|
      ensures sent[j].kind == Reliable
    {
      assert FromDue(resends[j], s.ring, now, 0, RING_SIZE);
    }
    if s.recv.dirty {
      assert sent[|resends|].kind == Ack;
    } else if resends == [] && now - s.lastSend > KEEPALIVE_MS {
      assert sent[0].kind == Unreliable;
    }
    assert NothingDue(s, now) <==> resends == [] by {
      if !NothingDue(s, now) {
        var x :| 0 <= x < RING_SIZE && Due(s.ring[x], now);
        assert Listed(resends, x);
      }
    }
  }

  // ---- A reliable send, and the tick after it --------------------------------------------

  /**
   An accepted message is written at once. The next tick sends it again exactly when
   100 ms have passed, and never reports a live connection once 5 s have.
   */
  lemma SentThenTicked(s: State, payload: Bytes, now: int, later: int, tick: int, failAt: nat)
    requires Placed(s.ring) && SendReliable(s, payload, now, later, true).result == Ok
    ensures var o := SendReliable(s, payload, now, later, true);
            var t := Tick(o.state, tick, failAt);
            var e := Used(s.sendSeq, payload, now, now);
            && |o.sent| == 1 && Carries(o.sent[0], e)
            && (t.alive ==> (SendsFor(t.sent, e) <==> tick - now >= RETRANSMIT_MS))
            && (tick - now > RELIABLE_TIMEOUT_MS ==> !t.alive)
  {
    hide Tick, Owed, AllWritten, Settled, Numbering, Attempted, TornDown;
    var s' := SendReliable(s, payload, now, later, true).state;
    var idx := s.sendSeq % RING_SIZE;
    assert s'.ring[idx] == Used(s.sendSeq, payload, now, now);
    var a := TickExact(s', tick, failAt);
    if Tick(s', tick, failAt).alive {
      TickSends(s', tick, failAt);
    }
    assert tick - now > RELIABLE_TIMEOUT_MS ==> Expired(s'.ring[idx], tick);
  }

  /**
   When a reliable send is accepted, and what a refused one costs: closed or full
   transports change nothing, a failed write only uses up the number and the counter.
   */
  lemma SendAccepted(s: State, payload: Bytes, now: int, later: int, sinkOk: bool)
    ensures var o := SendReliable(s, payload, now, later, sinkOk);
            var fails := Fails(s.sendCounter, if sinkOk then 1 else 0, 0);
            var free := !s.closed && s.ring[s.sendSeq % RING_SIZE].Free?;
            && (o.result == Ok <==> free && !fails)
            && (o.result == SendFailed <==> free && fails)
            && (o.result == Closed <==> s.closed)
            && (!free ==> o.state == s && o.sent == [])
            && (o.result == SendFailed ==>
                  o.state == s.(sendSeq := (s.sendSeq + 1) % WRAP16,
                                sendCounter := (s.sendCounter + 1) % (MAX_U64 + 1)))
            && (o.result == Ok ==> o.state.lastSend == AdvanceClock(s.lastSend, later))
  {
    var o := SendReliable(s, payload, now, later, sinkOk);
    if o.result == SendFailed {
      assert o.state.ring == s.ring;
    }
  }

  /** An unreliable send is one datagram under the next counter, unless closed or out of counters. */
  lemma UnreliableSent(s: State, payload: Bytes, later: int, sinkOk: bool)
    ensures var o, fails := SendUnreliable(s, payload, later, sinkOk), Fails(s.sendCounter, if sinkOk then 1 else 0, 0);
            var counter := (s.sendCounter + 1) % (MAX_U64 + 1);
            && (o.result == Ok <==> !s.closed && !fails)
            && (o.result == SendFailed <==> !s.closed && fails)
            && (o.result == Closed <==> s.closed)
            && (s.closed ==> o.state == s && o.sent == [])
            && (!s.closed ==>
                  && o.sent == Sealable([Datagram(Unreliable, 0, counter, payload)])
                  && o.state == s.(sendCounter := counter,
                                   lastSend := if o.result == Ok then AdvanceClock(s.lastSend, later) else s.lastSend))
  {
    var d := Datagram(Unreliable, 0, (s.sendCounter + 1) % (MAX_U64 + 1), payload);
    assert [d][..0] == [];
    assert Sealable([d]) == Sealable([]) + if d.counter <= MAX_COUNTER then [d] else [];
  }

  /**
   A transport opened at `start` that hears nothing: its tick is live for ten seconds, owes
   nothing in the first and one keepalive after that, and then only says goodbye.
   */
  lemma StartTicks(start: int, now: int)
    ensures var t := Tick(Start(start), now, 1);
            && (t.alive <==> now - start <= CONNECTION_TIMEOUT_MS)
            && (t.alive ==>
                  t.sent == if now - start > KEEPALIVE_MS then [Datagram(Unreliable, 0, 1, [])] else [])
            && (!t.alive ==> t.sent == [Datagram(Disconnect, 0, 1, [])])
  {
    hide Tick, Owed, Numbering, Sealable, Refreshed, Attempted, AllWritten;
    var s := Start(start);
    var a := TickExact(s, now, 1);
    StartOwed(start, now);
    OneCounter(|Owed(s, now)|);
    assert Owed(s, now)[..0] + [BYE] == [BYE];
    FirstDatagram(BYE);
    FirstDatagram(Letter(Unreliable, 0, []));
    assert Numbering([], 0) == [];
  }

  lemma StartOwed(start: int, now: int)
    ensures Owed(Start(start), now) == if now - start > KEEPALIVE_MS then [Letter(Unreliable, 0, [])] else []
  {
    hide Owed, Resends;
    LiveOwed(Start(start), now);
    NoneDue(Start(start), now, 0);
  }

  lemma OneCounter(n: nat)
    requires n <= 1
    ensures AllWritten(n, 0, 1)
  {
  }

  lemma FirstDatagram(l: Letter)
    ensures var d := Datagram(l.kind, l.sequence, 1, l.body); Numbering([l], 0) == [d] == Sealable(Numbering([l], 0))
  {
    var ds := Numbering([l], 0);
    assert ds[..0] == [];
    assert Sealable(ds) == Sealable([]) + [ds[0]];
  }

  lemma {:induction false} NoneDue(s: State, now: int, lo: nat)
    requires lo <= RING_SIZE && forall k :: 0 <= k < RING_SIZE ==> s.ring[k].Free?
    ensures Resends(s.ring, now, lo, RING_SIZE) == []
    decreases RING_SIZE - lo
  {
    if lo == RING_SIZE {
    } else {
      NoneDue(s, now, lo + 1);
    }
  }
}
