/**
 The invariant of `UdpRuns` holds in every reachable state, and what follows from
 it: reliable messages reach the peer's consumer at most once and unaltered, and
 an acknowledgement retires only what the peer received.
 */
module UdpSafety {
  import opened Words
  import opened Serial
  import opened Endian
  import opened UdpProto
  import opened UdpSession
  import opened UdpRuns
  import C = UdpCalls
  import T = UdpTransport

  // ---- History only grows -----------------------------------------------------

  ghost predicate Grows(me: Side, me': Side) {
    && me.log <= me'.log && me.issued <= me'.issued
    && me.got <= me'.got && me.arrivals <= me'.arrivals
  }

  lemma PeerKeeps(me: Side, me': Side, peer: Side)
    requires Toward(peer, me) && Grows(me, me')
    ensures Toward(peer, me')
  {
    assert forall n :: Confirmed(peer, me, n) ==> Confirmed(peer, me', n);
    assert forall n :: Confirmed(me, peer, n) ==> Confirmed(me', peer, n);
    assert forall k: nat :: k < |me.log| ==> me'.log[k] == me.log[k];
    assert forall n :: Retired(peer, me, n) ==> Retired(peer, me', n);
    assert forall n :: Accounted(peer, me, n) ==> Accounted(peer, me', n);
  }

  // ---- Sending ------------------------------------------------------------------

  lemma RingPlaced(me: Side)
    requires SenderOk(me)
    ensures T.Placed(me.state.ring)
  {
    forall i: nat | i < T.RING_SIZE && me.state.ring[i].Used?
      ensures me.state.ring[i].sequence % T.RING_SIZE == i
    {
      hide RecordOk, SlotMsg;
      assert SlotOk(me, i);
      LowBits(SlotMsg(i, |me.issued|));
    }
  }

  /** A datagram the ring allows carries the message its wrapped sequence stands for. */
  lemma LegitRecord(me: Side, d: T.Datagram)
    requires SenderOk(me) && T.Legit(me.state, d) && d.kind == Reliable
    ensures var n := Unwrap(d.sequence, |me.issued|);
            && 0 <= n && |me.issued| - T.RING_SIZE <= n < |me.issued|
            && d.sequence == n % WRAP16 && d.body == me.issued[n]
  {
    var i := d.sequence % T.RING_SIZE;
    assert SlotOk(me, i);
    UnwrapUnique(d.sequence, SlotMsg(i, |me.issued|), |me.issued|);
  }

  lemma UnwrapUnique(r: U16, n: int, total: nat)
    requires n % WRAP16 == r && total - WRAP16 <= n < total
    ensures Unwrap(r, total) == n
  {
  }

  lemma EmissionLocal(me: Side, s: T.State, sent: seq<T.Datagram>)
    requires Local(me) && T.Emission(me.state, s, sent)
    ensures Local(Logged(me, s, sent, me.issued))
  {
    hide TotalsOk, HighsOk;
    var me' := Logged(me, s, sent, me.issued);
    forall i: nat | i < T.RING_SIZE ensures SlotOk(me', i) {
      assert SlotOk(me, i);
    }
    forall k: nat | k < |me'.log| ensures RecordOk(me', k) {
      if k < |me.log| {
        assert RecordOk(me, k);
      } else if me'.log[k].datagram.kind == Reliable {
        LegitRecord(me, sent[k - |me.log|]);
      }
    }
    assert TotalsOk(me') by { EmissionTotals(me, s, sent); }
    assert HighsOk(me') by { EmissionHighs(me, s, sent); }
  }

  lemma EmissionTotals(me: Side, s: T.State, sent: seq<T.Datagram>)
    requires TotalsOk(me)
    ensures TotalsOk(Logged(me, s, sent, me.issued))
  {
    var me' := Logged(me, s, sent, me.issued);
    forall j: nat, k: nat | j <= k < |me'.log|
      ensures me'.log[j].total <= me'.log[k].total <= me'.log[j].total + k - j
    {
      if j < |me.log| <= k {
        var last := |me.log| - 1;
        assert me.log[j].total <= me.log[last].total <= me.log[j].total + last - j;
      }
    }
  }

  lemma EmissionHighs(me: Side, s: T.State, sent: seq<T.Datagram>)
    requires HighsOk(me)
    ensures HighsOk(Logged(me, s, sent, me.issued))
  {
    var me' := Logged(me, s, sent, me.issued);
    forall j: nat, k: nat | j <= k < |me'.log|
      ensures me'.log[j].high <= me'.log[k].high <= me'.log[j].high + SPAN * (k - j)
    {
      if j < |me.log| <= k {
        var last := |me.log| - 1;
        assert me.log[j].high <= me.log[last].high <= me.log[j].high + SPAN * (last - j);
      }
    }
  }

  lemma EmissionToward(me: Side, peer: Side, s: T.State, sent: seq<T.Datagram>)
    requires Local(me) && Toward(me, peer) && T.Emission(me.state, s, sent)
    ensures Toward(Logged(me, s, sent, me.issued), peer)
  {
    hide Local, Bit;
    var me' := Logged(me, s, sent, me.issued);
    assert forall n :: Confirmed(me, peer, n) <==> Confirmed(me', peer, n);
    forall k: nat | k < |me'.log| ensures AckRecordOk(me', peer, me'.log[k]) {
      if k < |me.log| {
        assert AckRecordOk(me, peer, me.log[k]);
      } else if me'.log[k].datagram.kind == Ack {
        AckIsConfirmed(me, peer, sent[k - |me.log|]);
      }
    }
    forall n | 0 <= n < |me'.issued|
      ensures Accounted(me', peer, n)
    {
      assert Accounted(me, peer, n);
      if InRing(me, n) && !s.closed {
        assert T.SameMessage(me.state.ring[n % T.RING_SIZE], s.ring[n % T.RING_SIZE]);
      }
    }
  }

  lemma AckIsConfirmed(me: Side, peer: Side, d: T.Datagram)
    requires ReceiverOk(me, peer) && ArrivalsOk(me, peer) && T.Legit(me.state, d) && d.kind == Ack
    ensures me.high >= 0 && Confirmed(me, peer, me.high)
    ensures var f := TryDecodeAckBody(d.body);
            && f.Some? && f.value.ackSeq == me.high % WRAP16
            && forall i: nat :: i < 32 && Bit(f.value.ackBits, i) ==> Confirmed(me, peer, me.high - 1 - i)
  {
    AckBodyRoundTrip(me.state.recv.highest, me.state.recv.bits);
  }

  // ---- Accepting a message --------------------------------------------------------

  /** A numbered `SendReliable`: the message takes the slot of the one 256 before it, unless its write threw. */
  ghost predicate Admits(me: Side, me': Side, payload: Bytes, ok: bool) {
    var s, s', idx := me.state, me'.state, me.state.sendSeq % T.RING_SIZE;
    && !s.closed && s.ring[idx].Free?
    && me' == me.(state := s', issued := me.issued + [payload], log := me'.log,
                  failed := if ok then me.failed else me.failed + {|me.issued|},
                      streak := if ok then 0 else me.streak + 1)
    && me'.log == me.log + [Sent(T.Datagram(Reliable, s.sendSeq, s'.sendCounter, payload),
                                 |me.issued|, |me.issued| + 1, me.high)]
    && s'.sendCounter == s.sendCounter + 1
    && s'.sendSeq == (s.sendSeq + 1) % WRAP16
    && s' == s.(sendCounter := s'.sendCounter, sendSeq := s'.sendSeq, ring := s'.ring, lastSend := s'.lastSend)
    && (if ok then
          && s'.ring[idx].Used? && s'.ring == s.ring[idx := s'.ring[idx]]
          && s'.ring[idx].sequence == s.sendSeq && s'.ring[idx].payload == payload
        else s'.ring == s.ring)
  }

  /** The call was given a number: it was neither closed nor blocked by a full window. */
  predicate Numbers(o: T.Outcome) {
    o.result == T.Ok || o.result == T.SendFailed
  }

  lemma SendReliableAdmits(me: Side, peer: Side, k: Keys, payload: Bytes, now: int, later: int, sinkOk: bool)
    requires SenderOk(me) && me.state.sendCounter < MAX_COUNTER
    requires Numbers(T.SendReliable(me.state, payload, now, later, sinkOk))
    ensures Admits(me, Step(me, peer, k, SendReliable(payload, now, later, sinkOk)), payload, sinkOk)
  {
    UnwrapUnique(me.state.sendSeq, |me.issued|, |me.issued| + 1);
  }

  lemma AdmitsLocal(me: Side, me': Side, payload: Bytes, ok: bool)
    requires Local(me) && Admits(me, me', payload, ok) && (!ok ==> me.streak < FAILURES)
    ensures Local(me')
  {
    hide StreakOk, TotalsOk, HighsOk;
    forall i: nat | i < T.RING_SIZE ensures SlotOk(me', i) {
      AdmitsSlot(me, me', payload, ok, i);
    }
    forall k: nat | k < |me'.log| ensures RecordOk(me', k) {
      AdmitsRecord(me, me', payload, ok, k);
    }
    AdmitsProgress(me, me', payload, ok);
    AdmitsStreak(|me.issued|, me.failed, me.streak, ok);
  }

  lemma AdmitsStreak(total: nat, failed: set<int>, streak: nat, ok: bool)
    requires StreakOk(total, failed, streak) && (!ok ==> streak < FAILURES)
    ensures StreakOk(total + 1, if ok then failed else failed + {total}, if ok then 0 else streak + 1)
  {
    var failed' := if ok then failed else failed + {total};
    forall n: nat | n + FAILURES < total + 1 ensures SomeWritten(failed', n) {
      if n + FAILURES < total {
        assert SomeWritten(failed, n);
        var k: nat :| n <= k <= n + FAILURES && k !in failed;
        assert k !in failed';
      } else if ok {
        assert total !in failed';
      } else {
        assert total - 1 - streak !in failed';
      }
    }
  }

  lemma AdmitsSlot(me: Side, me': Side, payload: Bytes, ok: bool, i: nat)
    requires SenderOk(me) && Admits(me, me', payload, ok) && i < T.RING_SIZE
    ensures SlotOk(me', i)
  {
    assert SlotOk(me, i);
    NextSlot(i, |me.issued|);
    LowBits(|me.issued|);
  }

  lemma AdmitsRecord(me: Side, me': Side, payload: Bytes, ok: bool, k: nat)
    requires SenderOk(me) && Admits(me, me', payload, ok) && k < |me'.log|
    ensures RecordOk(me', k)
  {
    if k < |me.log| { assert RecordOk(me, k); }
  }

  lemma AdmitsProgress(me: Side, me': Side, payload: Bytes, ok: bool)
    requires TotalsOk(me) && HighsOk(me) && Admits(me, me', payload, ok)
    ensures TotalsOk(me') && HighsOk(me')
  {
    forall j: nat, k: nat | j <= k < |me'.log|
      ensures me'.log[j].total <= me'.log[k].total <= me'.log[j].total + k - j
      ensures me'.log[j].high <= me'.log[k].high <= me'.log[j].high + SPAN * (k - j)
    {
      if j < |me.log| == k {
        var last := |me.log| - 1;
        assert me.log[j].total <= me.log[last].total <= me.log[j].total + last - j;
        assert me.log[j].high <= me.log[last].high <= me.log[j].high + SPAN * (last - j);
      }
    }
  }

  /** A slot index can be read off the wrapped sequence. */
  lemma LowBits(n: nat)
    ensures n % WRAP16 % T.RING_SIZE == n % T.RING_SIZE
    ensures n >= T.RING_SIZE ==> (n - T.RING_SIZE) % T.RING_SIZE == n % T.RING_SIZE
  {
  }

  /** The next message goes to its own slot and leaves every other slot's message as it was. */
  lemma NextSlot(i: nat, total: nat)
    requires i < T.RING_SIZE
    ensures SlotMsg(i, total + 1) == if total % T.RING_SIZE == i then total else SlotMsg(i, total)
  {
  }

  lemma AdmitsToward(me: Side, me': Side, peer: Side, payload: Bytes, ok: bool)
    requires Local(me) && Toward(me, peer) && Admits(me, me', payload, ok)
    ensures Toward(me', peer)
  {
    assert forall n :: Confirmed(me, peer, n) <==> Confirmed(me', peer, n);
    forall k: nat | k < |me'.log| ensures AckRecordOk(me', peer, me'.log[k]) {
      if k < |me.log| { assert AckRecordOk(me, peer, me.log[k]); }
    }
    forall n | 0 <= n < |me'.issued| ensures Accounted(me', peer, n) {
      AdmitsKeepsRing(me, me', peer, payload, ok, n);
    }
  }

  lemma AdmitsKeepsRing(me: Side, me': Side, peer: Side, payload: Bytes, ok: bool, n: int)
    requires Local(me) && ProgressOk(me, peer) && Admits(me, me', payload, ok)
    requires 0 <= n < |me'.issued|
    ensures Accounted(me', peer, n)
  {
    var total := |me.issued|;
    LowBits(total);
    if n < total {
      LowBits(n);
    }
    assert n < total ==> Accounted(me, peer, n);
    if n == total || n in me.failed {
    } else if Retired(me, peer, n) {
      assert Confirmed(peer, me', n);
    } else {
      assert InRing(me, n);
      // The slot found free belonged to message total - 256, so n is later than that.
      assert n != total - T.RING_SIZE;
    }
  }

  // ---- How far the two sides can be apart --------------------------------------

  /** Some message 257 to 257 + FAILURES back was written, so it was acknowledged. */
  lemma RetiredBehind(me: Side, peer: Side) returns (n: nat)
    requires SenderOk(me) && StreakOk(|me.issued|, me.failed, me.streak) && ProgressOk(me, peer) && |me.issued| > SPAN
    ensures |me.issued| - 1 - SPAN <= n <= |me.issued| - 1 - T.RING_SIZE && Retired(me, peer, n)
  {
    hide SenderOk, Retired;
    var from := |me.issued| - 1 - SPAN;
    assert SomeWritten(me.failed, from);
    n :| from <= n <= from + FAILURES && n !in me.failed;
    assert Accounted(me, peer, n);
  }

  /** A sender is at most one span and one message past the newest one its peer had when it last sent. */
  lemma SenderNotFarAhead(me: Side, peer: Side)
    requires Local(peer) && ProgressOk(me, peer) && SenderOk(me) && StreakOk(|me.issued|, me.failed, me.streak)
    ensures |me.issued| - 1 - SPAN <= LastHigh(peer)
  {
    if |me.issued| > SPAN {
      var n := RetiredBehind(me, peer);
      var k := me.state.window.highest - 1;
      assert peer.log[k].high <= peer.log[|peer.log| - 1].high;
    }
  }

  /** Any reliable datagram the replay window admits is close to the receiver's newest message. */
  lemma SequenceWindow(me: Side, peer: Side, k: nat)
    requires Local(me) && Local(peer) && Toward(me, peer) && Toward(peer, me)
    requires k < |peer.log| && peer.log[k].datagram.kind == Reliable
    requires Check(me.state.window, peer.log[k].datagram.counter)
    ensures me.high - 318 <= peer.log[k].msg <= LastHigh(me) + SPAN <= me.high + SPAN
  {
    assert RecordOk(peer, k);
    SenderNotFarAhead(peer, me);
    if me.high >= 0 {
      var top := me.state.window.highest - 1;
      if k <= top {
        assert peer.log[top].total <= peer.log[k].total + top - k;
      } else {
        assert peer.log[top].total <= peer.log[k].total;
      }
    }
  }

  /** An acknowledgement the replay window admits is never old enough to wrap. */
  lemma AckWindow(me: Side, peer: Side, k: nat)
    requires Local(me) && Local(peer) && Toward(me, peer) && Toward(peer, me)
    requires k < |peer.log| && Check(me.state.window, peer.log[k].datagram.counter)
    ensures |me.issued| - 1 - 64 * SPAN <= peer.log[k].high || |me.issued| <= SPAN
    ensures peer.log[k].high < |me.issued|
  {
    assert RecordOk(peer, k);
    assert peer.log[k].high <= peer.log[|peer.log| - 1].high <= peer.high;
    if |me.issued| > SPAN {
      var n := RetiredBehind(me, peer);
      var top := me.state.window.highest - 1;
      if k <= top {
        assert peer.log[top].high <= peer.log[k].high + SPAN * (top - k);
      } else {
        assert peer.log[top].high <= peer.log[k].high;
      }
    }
  }

  // ---- Tracking what arrives ------------------------------------------------------

  /** Within half the range, the bitmap delivers exactly the unseen messages at most 32 behind. */
  lemma TrackRefines(r: T.Tracking, got: set<int>, high: int, n: int)
    requires Tracks(r, got, high) && 0 <= n && high - HALF16 < n < high + HALF16
    ensures var (r', deliver) := T.Track(r, n % WRAP16);
            && (deliver <==> n !in got && n >= high - 32)
            && Tracks(r', if deliver then got + {n} else got, if deliver && n > high then n else high)
            && r'.dirty
  {
    hide Bit, Or, And, Pow2, T.NewBits, T.Track;
    TrackCases(r, high, n);
    if high < 0 {
      forall i: nat ensures !Bit(0, i) { BitOfZero(i); }
    } else if n > high {
      TrackNewer(r.bits, got, high, n, n - high);
    } else if high - 32 <= n < high {
      TrackOlder(r.bits, got, high, n, high - n);
    }
  }

  /** The wrapped tests decide as the unwrapped numbers do. */
  lemma TrackCases(r: T.Tracking, high: int, n: int)
    requires -1 <= high && (r.init <==> high >= 0) && (high >= 0 ==> r.highest == high % WRAP16)
    requires 0 <= n && high - HALF16 < n < high + HALF16
    ensures var t, diff := T.Track(r, n % WRAP16), high - n;
            if high < 0 then t == (T.Tracking(true, n % WRAP16, 0, true), true)
            else if n > high then t == (T.Tracking(true, n % WRAP16, T.NewBits(r.bits, n - high), true), true)
            else if 0 < diff <= 32 && And(r.bits, Pow2(diff - 1)) == 0 then
              t.1 && t.0.bits == Or(r.bits, Pow2(diff - 1)) && t.0 == r.(bits := t.0.bits, dirty := true)
            else t == (r.(dirty := true), false)
  {
    hide Or, And, Pow2, T.NewBits, SeqGreaterThan;
    if high >= 0 {
      SeqGreaterUnwrapped(n, high);
      SeqGreaterUnwrapped(high, n);
    }
  }

  lemma TrackOlder(bits: U32, got: set<int>, high: int, n: int, diff: nat)
    requires 0 <= n < high && diff == high - n <= 32
    requires forall i: nat :: i < 32 ==> (Bit(bits, i) <==> (high - 1 - i) in got)
    ensures And(bits, Pow2(diff - 1)) == 0 <==> n !in got
    ensures var bits' := Or(bits, Pow2(diff - 1));
            forall i: nat :: i < 32 ==> (Bit(bits', i) <==> (high - 1 - i) in got + {n})
  {
    AndWithPow2(bits, diff - 1);
    assert high - 1 - (diff - 1) == n;
    var bit := Pow2(diff - 1);
    forall i: nat | i < 32 ensures Bit(Or(bits, bit), i) <==> (high - 1 - i) in got + {n} {
      BitOfOr(bits, bit, i);
      BitOfPow2(diff - 1, i);
    }
  }

  lemma NewBit(bits: U32, diff: nat, i: nat)
    requires 1 <= diff && i < 32
    ensures Bit(T.NewBits(bits, diff), i) <==> diff <= 32 && (i == diff - 1 || (i >= diff && Bit(bits, i - diff)))
  {
    BitOfZero(i);
    if diff <= 32 {
      var shifted := if diff >= 32 then 0 else Shl(bits, diff, 32);
      BitOfOr(shifted, Pow2(diff - 1), i);
      BitOfPow2(diff - 1, i);
      BitOfShl(bits, diff, 32, i);
    }
  }

  lemma TrackNewer(bits: U32, got: set<int>, high: int, n: int, diff: nat)
    requires 0 <= high < n && diff == n - high
    requires high in got && forall m :: m in got ==> m <= high
    requires forall i: nat :: i < 32 ==> (Bit(bits, i) <==> (high - 1 - i) in got)
    ensures var bits' := T.NewBits(bits, diff);
            forall i: nat :: i < 32 ==> (Bit(bits', i) <==> (n - 1 - i) in got + {n})
  {
    var bits' := T.NewBits(bits, diff);
    forall i: nat | i < 32 ensures Bit(bits', i) <==> (n - 1 - i) in got + {n} {
      NewBit(bits, diff, i);
      if i >= diff {
        assert n - 1 - i == high - 1 - (i - diff);
      }
    }
  }

  // ---- Receiving --------------------------------------------------------------------

  /** `HandlePacket` on a datagram the peer sealed, in terms of what was sealed. */
  function Receive(s: T.State, d: T.Datagram, now: int): T.State {
    if d.kind == Disconnect || d.counter == 0 || !Check(s.window, d.counter) then s
    else T.Accept(s.(window := Commit(s.window, d.counter)), d.kind, d.sequence, d.body, now)
  }

  /** The bytes on the wire carry the datagram: decoding and opening recover it exactly. */
  lemma HandleWire(k: Keys, s: T.State, d: T.Datagram, now: int)
    requires Correct(k) && (d.kind != Reliable ==> d.sequence == 0)
    ensures T.HandlePacket(s, k.open, Wire(k, d), now) == Receive(s, d, now)
  {
    hide TryDecode, Header, T.Accept, Commit, Check;
    var h := Header(d.kind, k.token, d.sequence, d.counter);
    DecodeInvertsEncode(d.kind, k.token, d.sequence, d.counter, k.seal(d.counter, d.body, h));
  }

  lemma HandleForeign(k: Keys, s: T.State, data: Bytes, now: int)
    requires !Opens(k, data)
    ensures T.HandlePacket(s, k.open, data, now) == s
  {
  }

  /** Record `i` of the peer's log was new to the replay window and took `me` to `me'`. */
  ghost predicate Admitted(me: Side, me': Side, peer: Side, i: nat, now: int)
    requires i < |peer.log|
  {
    && peer.log[i].datagram.kind != Disconnect
    && Check(me.state.window, peer.log[i].datagram.counter)
    && me' == Received(me, Receive(me.state, peer.log[i].datagram, now), peer.log[i])
  }

  lemma OriginIsData(k: Keys, log: seq<Sent>, data: Bytes)
    requires Origin(k, log, data).Some?
    ensures log[Origin(k, log, data).value].datagram.kind != Disconnect
  {
    hide Le, Be, TryDecode;
    var d := log[Origin(k, log, data).value].datagram;
    assert data[0] == Header(d.kind, k.token, d.sequence, d.counter)[0];
  }

  /** A delivery the code refuses changes neither state nor history; any other admits a record. */
  lemma DeliverCases(me: Side, peer: Side, k: Keys, data: Bytes, now: int) returns (i: nat)
    requires Correct(k) && SenderOk(peer) && Enabled(me, peer, k, Deliver(data, now))
    ensures var me' := Step(me, peer, k, Deliver(data, now));
            me' == me || (i < |peer.log| && Admitted(me, me', peer, i, now))
  {
    i := 0;
    var origin := Origin(k, peer.log, data);
    if origin.None? {
      HandleForeign(k, me.state, data, now);
    } else {
      i := origin.value;
      assert RecordOk(peer, i);
      HandleWire(k, me.state, peer.log[i].datagram, now);
      OriginIsData(k, peer.log, data);
      DeliverKnown(me, peer, k, data, now, i);
      RefusedOrAdmitted(me, peer, i, now);
    }
  }

  lemma DeliverKnown(me: Side, peer: Side, k: Keys, data: Bytes, now: int, i: nat)
    requires Origin(k, peer.log, data) == Some(i)
    ensures var s := T.HandlePacket(me.state, k.open, data, now);
            Step(me, peer, k, Deliver(data, now)) == Received(me, s, peer.log[i])
  {
  }

  lemma RefusedOrAdmitted(me: Side, peer: Side, i: nat, now: int)
    requires i < |peer.log| && peer.log[i].datagram.kind != Disconnect && peer.log[i].datagram.counter != 0
    ensures var me' := Received(me, Receive(me.state, peer.log[i].datagram, now), peer.log[i]);
            me' == me || Admitted(me, me', peer, i, now)
  {
  }

  // ---- Receiving keeps the invariant ----------------------------------------------

  /** What no receipt touches, and how far the replay window moves. */
  ghost predicate ReceiptFrame(me: Side, me': Side, peer: Side) {
    var s, s' := me.state, me'.state;
    && me'.log == me.log && me'.issued == me.issued && me'.failed == me.failed && me'.streak == me.streak
    && s'.sendCounter == s.sendCounter && s'.sendSeq == s.sendSeq && s'.closed == s.closed
    && s.window.highest <= s'.window.highest <= |peer.log|
  }

  lemma AdmittedFrame(me: Side, me': Side, peer: Side, i: nat, now: int)
    requires i < |peer.log| && RecordOk(peer, i) && Admitted(me, me', peer, i, now) && ReceiverOk(me, peer)
    ensures ReceiptFrame(me, me', peer) && me'.state.window.highest > i
  {
  }

  lemma ReceiptLocal(me: Side, me': Side, peer: Side)
    requires Local(me) && ReceiptFrame(me, me', peer)
    requires me.high <= me'.high <= LastHigh(me) + SPAN
    requires forall k :: 0 <= k < T.RING_SIZE ==> me'.state.ring[k] == me.state.ring[k] || me'.state.ring[k].Free?
    ensures Local(me')
  {
    ReceiptSender(me, me', peer);
  }

  lemma ReceiptSender(me: Side, me': Side, peer: Side)
    requires SenderOk(me) && ReceiptFrame(me, me', peer)
    requires forall k :: 0 <= k < T.RING_SIZE ==> me'.state.ring[k] == me.state.ring[k] || me'.state.ring[k].Free?
    ensures SenderOk(me')
  {
    forall k: nat | k < T.RING_SIZE ensures SlotOk(me', k) { assert SlotOk(me, k); }
    forall k: nat | k < |me'.log| ensures RecordOk(me', k) { assert RecordOk(me, k); }
  }

  lemma ReceiptAcks(me: Side, me': Side, peer: Side)
    requires AckLogOk(me, peer) && ReceiptFrame(me, me', peer) && Grows(me, me')
    ensures AckLogOk(me', peer)
  {
    assert forall n :: Confirmed(me, peer, n) ==> Confirmed(me', peer, n);
    forall k: nat | k < |me'.log| ensures AckRecordOk(me', peer, me'.log[k]) {
      assert AckRecordOk(me, peer, me.log[k]);
    }
  }

  lemma RetiredStays(me: Side, me': Side, peer: Side, n: int)
    requires HighsOk(peer) && ReceiptFrame(me, me', peer) && Retired(me, peer, n)
    ensures Retired(me', peer, n)
  {
    assert Confirmed(peer, me', n);
    assert peer.log[me.state.window.highest - 1].high <= peer.log[me'.state.window.highest - 1].high;
  }

  lemma ReceiptProgress(me: Side, me': Side, peer: Side)
    requires HighsOk(peer) && ReceiptFrame(me, me', peer) && ProgressOk(me, peer)
    requires me'.state.ring == me.state.ring
    ensures ProgressOk(me', peer)
  {
    forall n | 0 <= n < |me'.issued|
      ensures Accounted(me', peer, n)
    {
      assert Accounted(me, peer, n);
      if Retired(me, peer, n) { RetiredStays(me, me', peer, n); }
    }
  }

  /** The state after a reliable datagram, in terms of the message it carries. */
  ghost predicate ReliableReceipt(me: Side, me': Side, msg: int, body: Bytes, deliver: bool) {
    var queue := deliver && |body| > 0 && !me.state.closed;
    && me'.state.ring == me.state.ring && me'.taken == me.taken
    && me'.got == (if deliver then me.got + {msg} else me.got)
    && me'.high == (if deliver && msg > me.high then msg else me.high)
    && me'.arrivals == (if queue then me.arrivals + [FromReliable(msg, body)] else me.arrivals)
    && me'.state.inbound == (if queue then me.state.inbound + [body] else me.state.inbound)
  }

  lemma AdmittedReliable(me: Side, me': Side, peer: Side, i: nat, now: int)
    requires i < |peer.log| && RecordOk(peer, i) && Admitted(me, me', peer, i, now)
    requires peer.log[i].datagram.kind == Reliable
    ensures var (recv, deliver) := T.Track(me.state.recv, peer.log[i].msg % WRAP16);
            && me'.state.recv == recv
            && ReliableReceipt(me, me', peer.log[i].msg, peer.log[i].datagram.body, deliver)
  {
  }

  lemma ReliableQueuedOnce(me: Side, me': Side, peer: Side, msg: int, deliver: bool)
    requires QueuedOnce(me, peer) && 0 <= msg < |peer.issued| && (deliver ==> msg !in me.got)
    requires ReliableReceipt(me, me', msg, peer.issued[msg], deliver)
    ensures QueuedOnce(me', peer)
  {
  }

  lemma ReliableQueue(me: Side, me': Side, peer: Side, msg: int, deliver: bool)
    requires QueueOk(me) && 0 <= msg < |peer.issued| && ReliableReceipt(me, me', msg, peer.issued[msg], deliver)
    ensures QueueOk(me')
  {
  }

  lemma ReliableArrivals(me: Side, me': Side, peer: Side, msg: int, deliver: bool)
    requires ArrivalsOk(me, peer) && ReceiptFrame(me, me', peer)
    requires 0 <= msg < |peer.issued| && (deliver ==> msg !in me.got)
    requires ReliableReceipt(me, me', msg, peer.issued[msg], deliver)
    ensures ArrivalsOk(me', peer)
  {
    hide QueuedOnce, QueueOk;
    ReliableQueuedOnce(me, me', peer, msg, deliver);
    ReliableQueue(me, me', peer, msg, deliver);
    forall n | n in me'.got && !me'.state.closed ensures Confirmed(me', peer, n) {
      if n in me.got {
        assert Confirmed(me, peer, n);
      } else if |peer.issued[n]| > 0 {
        assert me'.arrivals[|me.arrivals|] == FromReliable(n, peer.issued[n]);
      }
    }
  }

  lemma ReliableReceiver(me: Side, me': Side, peer: Side, i: nat, deliver: bool)
    requires TotalsOk(peer) && ReceiverOk(me, peer) && ReceiptFrame(me, me', peer)
    requires i < |peer.log| && i < me'.state.window.highest && RecordOk(peer, i)
        && peer.log[i].datagram.kind == Reliable
    requires ReliableReceipt(me, me', peer.log[i].msg, peer.log[i].datagram.body, deliver)
    requires Tracks(me'.state.recv, me'.got, me'.high)
    ensures ReceiverOk(me', peer)
  {
    var top := me'.state.window.highest - 1;
    assert peer.log[i].total <= peer.log[top].total;
    if me.high >= 0 {
      assert peer.log[me.state.window.highest - 1].total <= peer.log[top].total;
    }
  }

  lemma ReliableKeeps(me: Side, me': Side, peer: Side, i: nat, now: int)
    requires Local(me) && Local(peer) && Toward(me, peer) && Toward(peer, me)
    requires i < |peer.log| && peer.log[i].datagram.kind == Reliable && Admitted(me, me', peer, i, now)
    ensures Local(me') && Toward(me', peer) && Grows(me, me')
  {
    var msg := peer.log[i].msg;
    var deliver := T.Track(me.state.recv, msg % WRAP16).1;
    assert RecordOk(peer, i);
    SequenceWindow(me, peer, i);
    AdmittedFrame(me, me', peer, i, now);
    AdmittedReliable(me, me', peer, i, now);
    TrackRefines(me.state.recv, me.got, me.high, msg);
    ReliableReceiver(me, me', peer, i, deliver);
    ReliableArrivals(me, me', peer, msg, deliver);
    ReceiptLocal(me, me', peer);
    ReceiptAcks(me, me', peer);
    ReceiptProgress(me, me', peer);
  }

  lemma AdmittedUnreliable(me: Side, me': Side, peer: Side, i: nat, now: int)
    requires i < |peer.log| && RecordOk(peer, i) && Admitted(me, me', peer, i, now)
    requires peer.log[i].datagram.kind == Unreliable && QueueOk(me)
    ensures me'.state.recv == me.state.recv && me'.state.ring == me.state.ring
    ensures me'.got == me.got && me'.high == me.high && QueueOk(me')
    ensures var body := peer.log[i].datagram.body;
            me'.arrivals == me.arrivals || me'.arrivals == me.arrivals + [FromUnreliable(body)]
  {
  }

  lemma UnreliableKeeps(me: Side, me': Side, peer: Side, i: nat, now: int)
    requires Local(me) && Local(peer) && Toward(me, peer)
    requires i < |peer.log| && peer.log[i].datagram.kind == Unreliable && Admitted(me, me', peer, i, now)
    ensures Local(me') && Toward(me', peer) && Grows(me, me')
  {
    assert RecordOk(peer, i);
    AdmittedFrame(me, me', peer, i, now);
    AdmittedUnreliable(me, me', peer, i, now);
    ReceiptLocal(me, me', peer);
    ReceiptAcks(me, me', peer);
    ReceiptProgress(me, me', peer);
    ReceiptReceiver(me, me', peer);
    assert forall n :: Confirmed(me, peer, n) ==> Confirmed(me', peer, n);
  }

  lemma ReceiptReceiver(me: Side, me': Side, peer: Side)
    requires TotalsOk(peer) && ReceiverOk(me, peer) && ReceiptFrame(me, me', peer)
    requires me'.state.recv == me.state.recv && me'.got == me.got && me'.high == me.high
    ensures ReceiverOk(me', peer)
  {
    if me.high >= 0 {
      assert peer.log[me.state.window.highest - 1].total <= peer.log[me'.state.window.highest - 1].total;
    }
  }

  // ---- Acknowledgements -------------------------------------------------------------

  /** A slot an admitted ACK frees held exactly a message the peer confirmed. */
  lemma AckIsExact(me: Side, peer: Side, k: nat, x: nat)
    requires Local(me) && Local(peer) && Toward(me, peer) && Toward(peer, me)
    requires k < |peer.log| && peer.log[k].datagram.kind == Ack
    requires Check(me.state.window, peer.log[k].datagram.counter)
    requires x < T.RING_SIZE && me.state.ring[x].Used?
    requires var f := TryDecodeAckBody(peer.log[k].datagram.body);
             f.Some? && C.Names(f.value.ackSeq, f.value.ackBits, me.state.ring[x].sequence)
    ensures var n := SlotMsg(x, |me.issued|);
            Confirmed(peer, me, n) && n <= peer.log[k].high
  {
    hide TotalsOk, HighsOk, Check, Tracks, RecordOk, QueuedOnce, QueueOk, ReceiverOk, ProgressOk;
    var r := peer.log[k];
    var f := TryDecodeAckBody(r.datagram.body).value;
    assert AckRecordOk(peer, me, r);
    assert SlotOk(me, x);
    AckWindow(me, peer, k);
    var j: nat :| j <= 32 && C.Position(f.ackSeq, f.ackBits, me.state.ring[x].sequence, j);
    if j > 0 {
      assert Confirmed(peer, me, r.high - 1 - (j - 1));
    }
    AckCongruent(r.high, j, SlotMsg(x, |me.issued|), |me.issued|);
  }

  lemma AckCongruent(high: int, j: nat, n: int, total: nat)
    requires j <= 32 && 0 <= n && total - 256 <= n < total
    requires 0 <= high - j && high < total && (total <= SPAN || total - 1 - 64 * SPAN <= high)
    requires n % WRAP16 == (high % WRAP16 - j) % WRAP16
    ensures n == high - j
  {
    assert (high % WRAP16 - j) % WRAP16 == (high - j) % WRAP16;
  }

  lemma AdmittedAck(me: Side, me': Side, peer: Side, i: nat, now: int)
    requires i < |peer.log| && RecordOk(peer, i) && Admitted(me, me', peer, i, now)
    requires peer.log[i].datagram.kind == Ack
    ensures me'.state.recv == me.state.recv && me'.state.inbound == me.state.inbound
    ensures me'.got == me.got && me'.high == me.high && me'.arrivals == me.arrivals
    ensures var f := TryDecodeAckBody(peer.log[i].datagram.body);
            me'.state.ring == if f.None? then me.state.ring
                              else T.Acknowledge(me.state.ring, f.value.ackSeq, f.value.ackBits, 32)
  {
  }

  lemma AckProgress(me: Side, me': Side, peer: Side, i: nat, now: int)
    requires Local(me) && Local(peer) && Toward(me, peer) && Toward(peer, me)
    requires i < |peer.log| && peer.log[i].datagram.kind == Ack && Admitted(me, me', peer, i, now)
    ensures ProgressOk(me', peer)
    ensures forall k :: 0 <= k < T.RING_SIZE ==> me'.state.ring[k] == me.state.ring[k] || me'.state.ring[k].Free?
  {
    assert RecordOk(peer, i);
    AdmittedFrame(me, me', peer, i, now);
    AdmittedAck(me, me', peer, i, now);
    assert AckRecordOk(peer, me, peer.log[i]);
    var f := TryDecodeAckBody(peer.log[i].datagram.body).value;
    C.AcknowledgePrefix(me.state.ring, f.ackSeq, f.ackBits, 32);
    forall n | 0 <= n < |me'.issued|
      ensures Accounted(me', peer, n)
    {
      assert Accounted(me, peer, n);
      if Retired(me, peer, n) {
        RetiredStays(me, me', peer, n);
      } else if InRing(me, n) && !InRing(me', n) {
        AckRetires(me, me', peer, i, n);
      }
    }
  }

  lemma SlotHolds(n: int, total: nat)
    requires total - T.RING_SIZE <= n < total
    ensures SlotMsg(n % T.RING_SIZE, total) == n
  {
  }

  lemma AckRetires(me: Side, me': Side, peer: Side, i: nat, n: int)
    requires Local(me) && Local(peer) && Toward(me, peer) && Toward(peer, me)
    requires i < |peer.log| && peer.log[i].datagram.kind == Ack
    requires Check(me.state.window, peer.log[i].datagram.counter)
    requires ReceiptFrame(me, me', peer) && i < me'.state.window.highest
    requires 0 <= n && InRing(me, n)
    requires var f := TryDecodeAckBody(peer.log[i].datagram.body);
             f.Some? && C.Names(f.value.ackSeq, f.value.ackBits, me.state.ring[n % T.RING_SIZE].sequence)
    ensures Retired(me', peer, n)
  {
    var x := n % T.RING_SIZE;
    AckIsExact(me, peer, i, x);
    SlotHolds(n, |me.issued|);
    assert peer.log[i].high <= peer.log[me'.state.window.highest - 1].high;
    assert Confirmed(peer, me', n);
  }

  lemma AckKeeps(me: Side, me': Side, peer: Side, i: nat, now: int)
    requires Local(me) && Local(peer) && Toward(me, peer) && Toward(peer, me)
    requires i < |peer.log| && peer.log[i].datagram.kind == Ack && Admitted(me, me', peer, i, now)
    ensures Local(me') && Toward(me', peer) && Grows(me, me')
  {
    hide TotalsOk, TeardownOk, AckRecordOk, InRing, SlotOk, Bit;
    assert RecordOk(peer, i);
    AdmittedFrame(me, me', peer, i, now);
    AdmittedAck(me, me', peer, i, now);
    AckProgress(me, me', peer, i, now);
    ReceiptLocal(me, me', peer);
    ReceiptAcks(me, me', peer);
    ReceiptReceiver(me, me', peer);
    assert forall n :: Confirmed(me, peer, n) ==> Confirmed(me', peer, n);
  }

  // ---- Every reachable state ------------------------------------------------------------

  lemma DeliverKeeps(me: Side, peer: Side, k: Keys, data: Bytes, now: int)
    requires Correct(k) && Local(me) && Local(peer) && Toward(me, peer) && Toward(peer, me)
    requires Enabled(me, peer, k, Deliver(data, now))
    ensures var me' := Step(me, peer, k, Deliver(data, now));
            Local(me') && Toward(me', peer) && Grows(me, me')
  {
    var me' := Step(me, peer, k, Deliver(data, now));
    var i := DeliverCases(me, peer, k, data, now);
    if me' != me {
      match peer.log[i].datagram.kind
      case Reliable => ReliableKeeps(me, me', peer, i, now);
      case Unreliable => UnreliableKeeps(me, me', peer, i, now);
      case Ack => AckKeeps(me, me', peer, i, now);
    }
  }

  lemma EmissionKeeps(me: Side, peer: Side, s: T.State, sent: seq<T.Datagram>)
    requires Local(me) && Toward(me, peer) && T.Emission(me.state, s, sent)
    ensures var me' := Logged(me, s, sent, me.issued);
            Local(me') && Toward(me', peer) && Grows(me, me')
  {
    EmissionLocal(me, s, sent);
    EmissionToward(me, peer, s, sent);
  }

  lemma SendReliableKeeps(me: Side, peer: Side, k: Keys, payload: Bytes, now: int, later: int, sinkOk: bool)
    requires Local(me) && Toward(me, peer) && me.state.sendCounter < MAX_COUNTER && (!sinkOk ==> me.streak < FAILURES)
    ensures var me' := Step(me, peer, k, SendReliable(payload, now, later, sinkOk));
            Local(me') && Toward(me', peer) && Grows(me, me')
  {
    var o := T.SendReliable(me.state, payload, now, later, sinkOk);
    if Numbers(o) {
      var me' := Step(me, peer, k, SendReliable(payload, now, later, sinkOk));
      SendReliableAdmits(me, peer, k, payload, now, later, sinkOk);
      AdmitsLocal(me, me', payload, sinkOk);
      AdmitsToward(me, me', peer, payload, sinkOk);
    } else {
      assert T.Emission(me.state, o.state, o.sent);
      EmissionKeeps(me, peer, o.state, o.sent);
    }
  }

  lemma StepKeeps(me: Side, peer: Side, k: Keys, act: Action)
    requires Correct(k) && Local(me) && Local(peer) && Toward(me, peer) && Toward(peer, me)
    requires Enabled(me, peer, k, act)
    ensures var me' := Step(me, peer, k, act);
            Local(me') && Toward(me', peer) && Toward(peer, me') && Grows(me, me')
  {
    hide Local, Toward, Grows, T.SendReliable, T.SendUnreliable, T.Tick, T.Close, T.HandlePacket, T.Emission,
         Received, Origin, Logged, Correct, T.Placed;
    var me' := Step(me, peer, k, act);
    LocalPlaced(me);
    match act {
      case SendReliable(payload, now, later, sinkOk) =>
        SendReliableKeeps(me, peer, k, payload, now, later, sinkOk);
      case SendUnreliable(payload, later, sinkOk) =>
        var o := T.SendUnreliable(me.state, payload, later, sinkOk);
        UnreliableEmission(me, payload, later, sinkOk);
        EmissionKeeps(me, peer, o.state, o.sent);
      case Deliver(data, now) =>
        DeliverKeeps(me, peer, k, data, now);
      case Tick(now, failAt) =>
        T.TickEmission(me.state, now, failAt);
        EmissionKeeps(me, peer, T.Tick(me.state, now, failAt).state, T.Tick(me.state, now, failAt).sent);
      case Close =>
        T.CloseEmission(me.state);
        EmissionKeeps(me, peer, T.Close(me.state).0, T.Close(me.state).1);
      case Take =>
        TakeKeeps(me, peer, k);
    }
    PeerKeeps(me, me', peer);
  }

  lemma LocalPlaced(me: Side)
    requires Local(me)
    ensures T.Placed(me.state.ring)
  {
    hide TotalsOk, HighsOk, TeardownOk, SlotOk, RecordOk;
    RingPlaced(me);
  }

  lemma UnreliableEmission(me: Side, payload: Bytes, later: int, sinkOk: bool)
    requires me.state.sendCounter < MAX_COUNTER
    ensures var o := T.SendUnreliable(me.state, payload, later, sinkOk); T.Emission(me.state, o.state, o.sent)
  {
  }

  lemma TakeKeeps(me: Side, peer: Side, k: Keys)
    requires Local(me) && Local(peer) && Toward(me, peer)
    ensures var me' := Step(me, peer, k, Take);
            Local(me') && Toward(me', peer) && Grows(me, me')
  {
    hide TotalsOk, TeardownOk, AckRecordOk, InRing, SlotOk, Bit;
    var me' := Step(me, peer, k, Take);
    assert ReceiptFrame(me, me', peer);
    ReceiptLocal(me, me', peer);
    ReceiptAcks(me, me', peer);
    ReceiptProgress(me, me', peer);
    ReceiptReceiver(me, me', peer);
    assert forall n :: Confirmed(me, peer, n) ==> Confirmed(me', peer, n);
  }

  lemma StartInv(startA: int, startB: int)
    ensures Inv(System(NewSide(startA), NewSide(startB)))
  {
  }

  /** The invariant holds after every legal run. */
  lemma {:induction false} Reachable(startA: int, startB: int, toA: Keys, toB: Keys, events: seq<Event>)
    requires Correct(toA) && Correct(toB) && Legal(startA, startB, toA, toB, events)
    ensures Inv(Run(startA, startB, toA, toB, events))
    decreases |events|
  {
    if |events| == 0 {
      StartInv(startA, startB);
    } else {
      var prefix, e := events[..|events| - 1], events[|events| - 1];
      Reachable(startA, startB, toA, toB, prefix);
      var before := Run(startA, startB, toA, toB, prefix);
      if e.atA {
        StepKeeps(before.a, before.b, toA, e.act);
      } else {
        StepKeeps(before.b, before.a, toB, e.act);
      }
    }
  }

  // ---- What follows --------------------------------------------------------------------

  /**
   In every run each side queues a reliable message of the other at most once and
   unaltered, and its consumer takes them in the order they were queued.
   */
  lemma DeliveredAtMostOnce(startA: int, startB: int, toA: Keys, toB: Keys, events: seq<Event>)
    requires Correct(toA) && Correct(toB) && Legal(startA, startB, toA, toB, events)
    ensures var sys := Run(startA, startB, toA, toB, events);
            QueuedOnce(sys.a, sys.b) && QueuedOnce(sys.b, sys.a) && QueueOk(sys.a) && QueueOk(sys.b)
  {
    Reachable(startA, startB, toA, toB, events);
  }

  /** Record `i` of the peer's log is an ACK that names the sequence in slot `x`. */
  ghost predicate AckedBy(me: Side, peer: Side, i: nat, x: nat)
    requires i < |peer.log| && x < T.RING_SIZE
  {
    && peer.log[i].datagram.kind == Ack && me.state.ring[x].Used?
    && var f := TryDecodeAckBody(peer.log[i].datagram.body);
       f.Some? && C.Names(f.value.ackSeq, f.value.ackBits, me.state.ring[x].sequence)
  }

  /** Slot `x` kept its message, or the transport closed, or an ACK freed it for good reason. */
  ghost predicate KeptOrReceived(me: Side, me': Side, peer: Side, act: Action, x: nat)
    requires x < T.RING_SIZE
  {
    var n := SlotMsg(x, |me.issued|);
    me.state.ring[x].Used? ==>
      || T.SameMessage(me.state.ring[x], me'.state.ring[x])
      || me'.state.closed
      || (&& act.Deliver? && me'.state.ring[x].Free?
          && (exists i: nat :: i < |peer.log| && AckedBy(me, peer, i, x))
          && 0 <= n < |me.issued| && me.state.ring[x].payload == me.issued[n]
          && n in peer.got
          && (|me.issued[n]| > 0 ==> FromReliable(n, me.issued[n]) in peer.arrivals))
  }

  /**
   An issued message stays in the ring, whatever the network does, until the
   transport closes or an ACK names it; and an ACK names it only if the peer has
   already received that very message and queued it if it has a body.
   */
  lemma RingKept(me: Side, peer: Side, k: Keys, act: Action, x: nat)
    requires Correct(k) && Local(me) && Local(peer) && Toward(me, peer) && Toward(peer, me)
    requires Enabled(me, peer, k, act) && x < T.RING_SIZE
    ensures KeptOrReceived(me, Step(me, peer, k, act), peer, act, x)
  {
    var me' := Step(me, peer, k, act);
    if me.state.ring[x].Used? {
      if act.Deliver? {
        var i := DeliverCases(me, peer, k, act.data, act.now);
        if me' != me {
          DeliveredRing(me, me', peer, i, act.now, x);
        }
      } else {
        RingPlaced(me);
        EmitKeepsSlot(me, peer, k, act, x);
      }
    }
  }

  lemma DeliveredRing(me: Side, me': Side, peer: Side, i: nat, now: int, x: nat)
    requires Local(me) && Local(peer) && Toward(me, peer) && Toward(peer, me)
    requires i < |peer.log| && Admitted(me, me', peer, i, now) && x < T.RING_SIZE && me.state.ring[x].Used?
    ensures || me'.state.ring[x] == me.state.ring[x]
            || (&& me'.state.ring[x].Free? && AckedBy(me, peer, i, x)
                && Confirmed(peer, me, SlotMsg(x, |me.issued|))
                && me.state.ring[x].payload == me.issued[SlotMsg(x, |me.issued|)])
  {
    assert RecordOk(peer, i);
    assert SlotOk(me, x);
    match peer.log[i].datagram.kind
    case Reliable => AdmittedReliable(me, me', peer, i, now);
    case Unreliable => AdmittedUnreliable(me, me', peer, i, now);
    case Ack =>
      AdmittedAck(me, me', peer, i, now);
      assert AckRecordOk(peer, me, peer.log[i]);
      var f := TryDecodeAckBody(peer.log[i].datagram.body).value;
      C.AcknowledgePrefix(me.state.ring, f.ackSeq, f.ackBits, 32);
      if me'.state.ring[x] != me.state.ring[x] {
        AckIsExact(me, peer, i, x);
      }
  }

  /** `RingKept` for every event of every run, at the side where it happens. */
  lemma RetiredOnlyIfReceived(startA: int, startB: int, toA: Keys, toB: Keys, events: seq<Event>, e: Event, x: nat)
    requires Correct(toA) && Correct(toB) && Legal(startA, startB, toA, toB, events) && x < T.RING_SIZE
    ensures var sys := Run(startA, startB, toA, toB, events);
            var sys' := Apply(sys, toA, toB, e);
            if e.atA then Enabled(sys.a, sys.b, toA, e.act) ==> KeptOrReceived(sys.a, sys'.a, sys.b, e.act, x)
            else Enabled(sys.b, sys.a, toB, e.act) ==> KeptOrReceived(sys.b, sys'.b, sys.a, e.act, x)
  {
    Reachable(startA, startB, toA, toB, events);
    var sys := Run(startA, startB, toA, toB, events);
    if e.atA {
      if Enabled(sys.a, sys.b, toA, e.act) { RingKept(sys.a, sys.b, toA, e.act, x); }
    } else {
      if Enabled(sys.b, sys.a, toB, e.act) { RingKept(sys.b, sys.a, toB, e.act, x); }
    }
  }

  lemma EmitKeepsSlot(me: Side, peer: Side, k: Keys, act: Action, x: nat)
    requires SenderOk(me) && T.Placed(me.state.ring) && !act.Deliver? && Enabled(me, peer, k, act)
    requires x < T.RING_SIZE && me.state.ring[x].Used?
    ensures var me' := Step(me, peer, k, act);
            me'.state.closed || T.SameMessage(me.state.ring[x], me'.state.ring[x])
  {
    if act.Tick? { T.TickEmission(me.state, act.now, act.failAt); }
  }

  /** Counters are 1, 2, 3, ... in the order of sealing, and nothing is sealed after a Disconnect. */
  ghost predicate Orderly(me: Side) {
    && (forall k: nat :: k < |me.log| ==> me.log[k].datagram.counter == k + 1)
    && (forall k: nat :: k < |me.log| && me.log[k].datagram.kind == Disconnect ==> k == |me.log| - 1 && me.state.closed)
    && (me.state.closed ==> |me.log| > 0 && me.log[|me.log| - 1].datagram.kind == Disconnect)
  }

  lemma LocalCounters(me: Side)
    requires Local(me)
    ensures Orderly(me)
  {
    forall k: nat | k < |me.log| ensures me.log[k].datagram.counter == k + 1 {
      assert RecordOk(me, k);
    }
  }

  /** An outstanding entry sits at its sequence modulo 256, 1 to 256 behind the next one modulo 65536. */
  ghost predicate WellPlaced(me: Side) {
    forall x: nat :: x < T.RING_SIZE && me.state.ring[x].Used? ==>
      && me.state.ring[x].sequence % T.RING_SIZE == x
      && 1 <= (me.state.sendSeq - me.state.ring[x].sequence) % WRAP16 <= T.RING_SIZE
  }

  lemma LocalRing(me: Side)
    requires Local(me)
    ensures WellPlaced(me)
  {
    forall x: nat | x < T.RING_SIZE && me.state.ring[x].Used?
      ensures me.state.ring[x].sequence % T.RING_SIZE == x
      ensures 1 <= (me.state.sendSeq - me.state.ring[x].sequence) % WRAP16 <= T.RING_SIZE
    {
      assert SlotOk(me, x);
      var n, total := SlotMsg(x, |me.issued|), |me.issued|;
      LowBits(n);
      WrappedGap(n, total);
    }
  }

  lemma WrappedGap(n: nat, total: nat)
    requires total - T.RING_SIZE <= n < total
    ensures (total % WRAP16 - n % WRAP16) % WRAP16 == total - n
  {
  }

  /** Over every run both sides seal under 1, 2, 3, ..., end with a Disconnect, and keep the ring in shape. */
  lemma CountersAndTeardown(startA: int, startB: int, toA: Keys, toB: Keys, events: seq<Event>)
    requires Correct(toA) && Correct(toB) && Legal(startA, startB, toA, toB, events)
    ensures var sys := Run(startA, startB, toA, toB, events);
            Orderly(sys.a) && Orderly(sys.b) && WellPlaced(sys.a) && WellPlaced(sys.b)
  {
    Reachable(startA, startB, toA, toB, events);
    var sys := Run(startA, startB, toA, toB, events);
    LocalCounters(sys.a);
    LocalCounters(sys.b);
    LocalRing(sys.a);
    LocalRing(sys.b);
  }
}
