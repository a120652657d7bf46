/**
 The prediction buffer under any calls with any numbers, consecutive or not: inputs leave
 only from the front, so what is pending is always the newest part of what was taken, and
 every input taken is pending, acknowledged or evicted.
 */
module PredictionCalls {
  import opened Words
  import opened Serial
  import opened Prediction

  datatype Call<I> = Put(sequence: U32, input: I) | Through(ack: U32) | Clear(seed: Option<U32>)

  function After<I>(s: State<I>, capacity: nat, call: Call<I>): State<I>
    requires capacity > 0
  {
    match call
    case Put(sequence, input) =>
      var r := Record(s, capacity, sequence, input);
      if r.Taken? then r.state else s
    case Through(ack) => Acknowledge(s, ack)
    case Clear(seed) => State([], seed, 0)
  }

  function Called<I>(capacity: nat, calls: seq<Call<I>>): State<I>
    requires capacity > 0
    decreases |calls|
  {
    if calls == [] then State([], None, 0)
    else After(Called(capacity, calls[..|calls| - 1]), capacity, calls[|calls| - 1])
  }

  // ---- The acknowledgement -------------------------------------------------------------------

  /** The serially latest acknowledgement since the last reset, which may seed one. */
  function LatestAck<I>(calls: seq<Call<I>>): Option<U32>
    decreases |calls|
  {
    if calls == [] then None
    else
      var n := |calls| - 1;
      match calls[n]
      case Put(_, _) => LatestAck(calls[..n])
      case Through(ack) => Later(LatestAck(calls[..n]), ack)
      case Clear(seed) => seed
  }

  lemma {:induction false} AckIsLatest<I>(capacity: nat, calls: seq<Call<I>>)
    requires capacity > 0
    ensures Called(capacity, calls).ack == LatestAck(calls)
    decreases |calls|
  {
    hide IsNewer, Covered;
    if calls == [] {
    } else {
      AckIsLatest(capacity, calls[..|calls| - 1]);
    }
  }

  /** An acknowledgement covers an entry of its own number or an older one. */
  predicate Covers(ack: U32, sequence: U32) {
    sequence == ack || IsNewer(ack, sequence)
  }

  /** An acknowledgement in order removes the covered entries at the front and stops at the first it does not cover. */
  lemma {:induction false} CoveredPrefix<I>(pending: seq<Pending<I>>, ack: U32)
    ensures var n := Covered(pending, ack);
            && (forall i :: 0 <= i < n ==> Covers(ack, pending[i].sequence))
            && (n < |pending| ==> !Covers(ack, pending[n].sequence))
    decreases |pending|
  {
    hide IsNewer;
    if pending == [] || !Covers(ack, pending[0].sequence) {
    } else {
      CoveredPrefix(pending[1..], ack);
      var n := Covered(pending, ack);
      forall i | 0 <= i < n
        ensures Covers(ack, pending[i].sequence)
      {
        if i > 0 { assert pending[i] == pending[1..][i - 1]; }
      }
    }
  }

  // ---- Every input taken -----------------------------------------------------------------------

  /** Since the last reset: the inputs taken, and how many of them were evicted or acknowledged. */
  datatype Ledger<I> = Ledger(taken: seq<Pending<I>>, evicted: nat, acknowledged: nat)

  ghost function Account<I>(capacity: nat, calls: seq<Call<I>>): Ledger<I>
    requires capacity > 0
    decreases |calls|
  {
    if calls == [] then Ledger([], 0, 0)
    else
      var n := |calls| - 1;
      var l, s := Account(capacity, calls[..n]), Called(capacity, calls[..n]);
      match calls[n]
      case Put(sequence, input) =>
        var r := Record(s, capacity, sequence, input);
        if r.Refused? then l
        else l.(taken := l.taken + [Pending(sequence, input)], evicted := l.evicted + if r.evicted.Some? then 1 else 0)
      case Through(ack) => l.(acknowledged := l.acknowledged + |s.pending| - |Acknowledge(s, ack).pending|)
      case Clear(_) => Ledger([], 0, 0)
  }

  ghost predicate Balanced<I>(s: State<I>, l: Ledger<I>, capacity: nat) {
    && |s.pending| <= capacity && s.dropped == l.evicted
    && |l.taken| == l.evicted + l.acknowledged + |s.pending|
    && s.pending == l.taken[l.evicted + l.acknowledged..]
    && forall i :: 0 <= i < |s.pending| - 1 ==> IsNewer(s.pending[i + 1].sequence, s.pending[i].sequence)
  }

  lemma PutBalances<I>(s: State<I>, l: Ledger<I>, capacity: nat, sequence: U32, input: I)
    requires capacity > 0 && Balanced(s, l, capacity)
    ensures var r := Record(s, capacity, sequence, input);
            var l' := l.(taken := l.taken + [Pending(sequence, input)],
                         evicted := l.evicted + if r.Taken? && r.evicted.Some? then 1 else 0);
            r.Taken? ==> Balanced(r.state, l', capacity)
  {
    hide IsNewer;
  }

  lemma AckBalances<I>(s: State<I>, l: Ledger<I>, capacity: nat, ack: U32)
    requires Balanced(s, l, capacity)
    ensures var s' := Acknowledge(s, ack);
            && |s'.pending| <= |s.pending|
            && Balanced(s', l.(acknowledged := l.acknowledged + |s.pending| - |s'.pending|), capacity)
  {
    hide IsNewer, Covered;
  }

  /**
   After any calls: pending is the part of the taken inputs behind those evicted and
   acknowledged, in order, within capacity and in serial order, and the drop counter is
   the number evicted.
   */
  lemma {:induction false} AlwaysBalanced<I>(capacity: nat, calls: seq<Call<I>>)
    requires capacity > 0
    ensures Balanced(Called(capacity, calls), Account(capacity, calls), capacity)
    decreases |calls|
  {
    hide Balanced, Record, Acknowledge;
    if calls == [] {
      NothingTaken<I>(None, capacity);
    } else {
      var n := |calls| - 1;
      AlwaysBalanced(capacity, calls[..n]);
      var s, l := Called(capacity, calls[..n]), Account(capacity, calls[..n]);
      match calls[n]
      case Put(sequence, input) => PutBalances(s, l, capacity, sequence, input);
      case Through(ack) => AckBalances(s, l, capacity, ack);
      case Clear(seed) => NothingTaken<I>(seed, capacity);
    }
  }

  lemma NothingTaken<I>(seed: Option<U32>, capacity: nat)
    ensures Balanced<I>(State([], seed, 0), Ledger([], 0, 0), capacity)
  {
  }

  /**
   After any calls, an input is refused exactly when its number is not newer than the
   latest acknowledgement or than the newest pending input. A taken one becomes the newest,
   and it evicts the oldest pending input, and reports it, exactly when the buffer was full.
   */
  lemma RecordAnswers<I>(capacity: nat, calls: seq<Call<I>>, sequence: U32, input: I)
    requires capacity > 0
    ensures var s := Called(capacity, calls);
            var r, n := Record(s, capacity, sequence, input), |s.pending|;
            && (r.Refused? <==> || (LatestAck(calls).Some? && !IsNewer(sequence, LatestAck(calls).value))
                                || (n > 0 && !IsNewer(sequence, s.pending[n - 1].sequence)))
            && (r.Taken? ==>
                  && (r.evicted.Some? <==> n == capacity)
                  && (r.evicted.Some? ==> r.evicted == Some(s.pending[0]))
                  && (if r.evicted.Some? then [r.evicted.value] else []) + r.state.pending
                     == s.pending + [Pending(sequence, input)]
                  && r.state.dropped - s.dropped == n + 1 - |r.state.pending| && r.state.ack == s.ack)
  {
    hide IsNewer;
    AckIsLatest(capacity, calls);
    var s := Called(capacity, calls);
    if |s.pending| == capacity {
      assert s.pending == [s.pending[0]] + s.pending[1..];
    }
  }

  /**
   After any calls, an acknowledgement that is not newer than the latest changes nothing.
   A newer one removes from the front exactly as long as it covers, and nothing else.
   */
  lemma AcknowledgeAnswers<I>(capacity: nat, calls: seq<Call<I>>, ack: U32)
    requires capacity > 0
    ensures var s := Called(capacity, calls);
            var s' := Acknowledge(s, ack);
            var removed := |s.pending| - |s'.pending|;
            if LatestAck(calls).Some? && !IsNewer(ack, LatestAck(calls).value) then s' == s
            else
              && s'.ack == Some(ack) && s'.dropped == s.dropped
              && 0 <= removed && s'.pending == s.pending[removed..]
              && (forall i :: 0 <= i < removed ==> Covers(ack, s.pending[i].sequence))
              && (s'.pending != [] ==> !Covers(ack, s'.pending[0].sequence))
  {
    hide IsNewer, Covered, Covers, Called, LatestAck;
    AckIsLatest(capacity, calls);
    CoveredPrefix(Called(capacity, calls).pending, ack);
  }
}
