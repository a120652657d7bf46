/**
 PredictionBuffer.cs: inputs sent but not yet acknowledged. The reference is the
 whole list of inputs ever issued, numbered consecutively from `base` without
 wrapping, and how many of them are acknowledged; the buffer holds exactly the
 newest of the rest, whatever the 32-bit numbers do.
 */
module Prediction {
  import opened Words
  import opened Serial

  datatype Pending<I> = Pending(sequence: U32, input: I)

  datatype State<I> = State(pending: seq<Pending<I>>, ack: Option<U32>, dropped: nat)

  datatype Recorded<I> = Refused | Taken(state: State<I>, evicted: Option<Pending<I>>)

  function Record<I>(s: State<I>, capacity: nat, sequence: U32, input: I): Recorded<I>
    requires capacity > 0
  {
    var n := |s.pending|;
    if s.ack.Some? && !IsNewer(sequence, s.ack.value) then Refused
    else if n > 0 && !IsNewer(sequence, s.pending[n - 1].sequence) then Refused
    else if n == capacity then
      Taken(State(s.pending[1..] + [Pending(sequence, input)], s.ack, s.dropped + 1), Some(s.pending[0]))
    else Taken(s.(pending := s.pending + [Pending(sequence, input)]), None)
  }

  /** How many leading entries an acknowledgement covers. */
  function Covered<I>(pending: seq<Pending<I>>, ack: U32): (n: nat)
    ensures n <= |pending|
  {
    if pending == [] || (pending[0].sequence != ack && !IsNewer(ack, pending[0].sequence)) then 0
    else 1 + Covered(pending[1..], ack)
  }

  function Acknowledge<I>(s: State<I>, ack: U32): State<I> {
    if s.ack.Some? && !IsNewer(ack, s.ack.value) then s
    else State(s.pending[Covered(s.pending, ack)..], Some(ack), s.dropped)
  }

  function Replayed<S, I>(state: S, f: (S, I, U32) -> S, pending: seq<Pending<I>>): S
    decreases |pending|
  {
    if pending == [] then state
    else Replayed(f(state, pending[0].input, pending[0].sequence), f, pending[1..])
  }

  // ---- The object ------------------------------------------------------------------------

  class PredictionBuffer<!I> {
    const capacity: nat
    var pending: seq<Pending<I>>
    var ack: Option<U32>
    var dropped: nat

    ghost function Now(): State<I>
      reads this
    {
      State(pending, ack, dropped)
    }

    constructor (capacity: nat)
      requires capacity > 0
      ensures this.capacity == capacity && Now() == State([], None, 0)
    {
      this.capacity, pending, ack, dropped := capacity, [], None, 0;
    }

    method TryRecord(sequence: U32, input: I) returns (ok: bool, evicted: Option<Pending<I>>)
      requires capacity > 0
      modifies this
      ensures var r := Record(old(Now()), capacity, sequence, input);
              if r.Refused? then !ok && evicted.None? && Now() == old(Now())
              else ok && evicted == r.evicted && Now() == r.state
    {
      if ack.Some? && !IsNewer(sequence, ack.value) {
        return false, None;
      }
      if |pending| > 0 && !IsNewer(sequence, pending[|pending| - 1].sequence) {
        return false, None;
      }
      evicted := None;
      if |pending| == capacity {
        evicted := Some(pending[0]);
        pending := pending[1..];
        dropped := dropped + 1;
      }
      pending := pending + [Pending(sequence, input)];
      ok := true;
    }

    method AcknowledgeThrough(sequence: U32) returns (removed: nat)
      modifies this
      ensures Now() == Acknowledge(old(Now()), sequence)
      ensures removed == |old(pending)| - |pending|
    {
      if ack.Some? && !IsNewer(sequence, ack.value) {
        return 0;
      }
      ack := Some(sequence);
      removed := 0;
      while removed < |pending|
        invariant removed <= |pending| && pending == old(pending) && ack == Some(sequence) && dropped == old(dropped)
        invariant Covered(pending, sequence) == removed + Covered(pending[removed..], sequence)
      {
        var s := pending[removed].sequence;
        assert pending[removed..][0] == pending[removed] && pending[removed..][1..] == pending[removed + 1..];
        if s != sequence && !IsNewer(sequence, s) {
          break;
        }
        removed := removed + 1;
      }
      pending := pending[removed..];
    }

    method Replay<S>(authoritative: S, f: (S, I, U32) -> S) returns (state: S)
      ensures state == Replayed(authoritative, f, pending)
    {
      state := authoritative;
      var i := 0;
      assert pending[0..] == pending;
      while i < |pending|
        invariant i <= |pending|
        invariant Replayed(authoritative, f, pending) == Replayed(state, f, pending[i..])
      {
        assert pending[i..][1..] == pending[i + 1..];
        state := f(state, pending[i].input, pending[i].sequence);
        i := i + 1;
      }
    }

    method Reconcile<S>(authoritative: S, sequence: U32, f: (S, I, U32) -> S) returns (state: S)
      modifies this
      ensures Now() == Acknowledge(old(Now()), sequence)
      ensures state == Replayed(authoritative, f, pending)
    {
      var removed := AcknowledgeThrough(sequence);
      state := Replay(authoritative, f);
    }

    method Reset(sequence: Option<U32>)
      modifies this
      ensures Now() == State([], sequence, 0)
    {
      pending, ack, dropped := [], sequence, 0;
    }
  }

  // ---- Whole histories ---------------------------------------------------------------------

  /** The buffer beside the full history: input `i` carries number `base + i`; the first `acked` are acknowledged. */
  datatype Session<I> = Session(state: State<I>, issued: seq<I>, acked: nat)

  function Wire(base: nat, i: int): U32 {
    (base + i) % WRAP32
  }

  function Numbered<I>(base: nat, issued: seq<I>, lo: nat): seq<Pending<I>>
    requires lo <= |issued|
  {
    seq(|issued| - lo, i requires 0 <= i < |issued| - lo => Pending(Wire(base, lo + i), issued[lo + i]))
  }

  /** Where the unacknowledged inputs the buffer can still hold begin. */
  function Oldest<I>(m: Session<I>, capacity: nat): nat {
    if m.acked + capacity >= |m.issued| then m.acked else |m.issued| - capacity
  }

  /** Exactly the unacknowledged inputs, or the newest `capacity` of them. */
  ghost predicate Exact<I>(m: Session<I>, base: nat, capacity: nat) {
    && m.acked <= |m.issued|
    && m.state.pending == Numbered(base, m.issued, Oldest(m, capacity))
    && (if m.state.ack.Some? then m.state.ack.value == Wire(base, m.acked - 1) && |m.issued| - m.acked < HALF32
        else m.acked == 0)
  }

  datatype Action<I> = Issue(input: I) | Ack(k: nat)

  /** Issue the next input, or acknowledge issued input number `k`. */
  function Step<I>(m: Session<I>, base: nat, capacity: nat, a: Action<I>): Session<I>
    requires capacity > 0
  {
    match a
    case Issue(input) =>
      var r := Record(m.state, capacity, Wire(base, |m.issued|), input);
      Session(if r.Taken? then r.state else m.state, m.issued + [input], m.acked)
    case Ack(k) =>
      Session(Acknowledge(m.state, Wire(base, k)), m.issued, if k + 1 > m.acked then k + 1 else m.acked)
  }

  /** Only issued inputs are acknowledged, and the unacknowledged span stays under half the serial range. */
  predicate Enabled<I>(m: Session<I>, a: Action<I>) {
    match a
    case Issue(_) => m.state.ack.Some? ==> |m.issued| - m.acked + 1 < HALF32
    case Ack(k) => k < |m.issued| && |m.issued| - k <= HALF32
  }

  lemma IssueExact<I>(m: Session<I>, base: nat, capacity: nat, input: I)
    requires 0 < capacity < HALF32 && Exact(m, base, capacity) && Enabled(m, Issue(input))
    ensures Record(m.state, capacity, Wire(base, |m.issued|), input).Taken?
    ensures Exact(Step(m, base, capacity, Issue(input)), base, capacity)
  {
    hide IsNewer;
    var n := |m.issued|;
    var lo := Oldest(m, capacity);
    if m.state.ack.Some? {
      NewerUnwrapped(base + n, base + m.acked - 1);
    }
    if |m.state.pending| > 0 {
      NewerUnwrapped(base + n, base + n - 1);
      assert m.state.pending[|m.state.pending| - 1].sequence == Wire(base, n - 1);
    }
    var m' := Step(m, base, capacity, Issue(input));
    assert m.state.pending + [Pending(Wire(base, n), input)] == Numbered(base, m'.issued, lo);
  }

  lemma {:induction false} CoveredCount<I>(base: nat, issued: seq<I>, lo: nat, k: nat)
    requires lo <= |issued| && k < |issued| && |issued| - k <= HALF32 && |issued| - lo < HALF32
    ensures Covered(Numbered(base, issued, lo), Wire(base, k)) == if k + 1 > lo then k + 1 - lo else 0
    decreases |issued| - lo
  {
    hide IsNewer;
    if lo < |issued| {
      NewerUnwrapped(base + k, base + lo);
      assert Numbered(base, issued, lo)[0].sequence == Wire(base, lo);
      assert Numbered(base, issued, lo)[1..] == Numbered(base, issued, lo + 1);
      CoveredCount(base, issued, lo + 1, k);
    }
  }

  lemma AckExact<I>(m: Session<I>, base: nat, capacity: nat, k: nat)
    requires 0 < capacity < HALF32 && Exact(m, base, capacity) && Enabled(m, Ack(k))
    ensures Exact(Step(m, base, capacity, Ack(k)), base, capacity)
  {
    hide IsNewer, Covered;
    var lo := Oldest(m, capacity);
    CoveredCount(base, m.issued, lo, k);
    var c := if k + 1 > lo then k + 1 - lo else 0;
    assert m.state.pending[c..] == Numbered(base, m.issued, lo + c);
    if m.state.ack.Some? {
      NewerUnwrapped(base + k, base + m.acked - 1);
    }
  }

  function Run<I>(base: nat, capacity: nat, seed: Option<U32>, actions: seq<Action<I>>): Session<I>
    requires capacity > 0
    decreases |actions|
  {
    if actions == [] then Session(State([], seed, 0), [], 0)
    else Step(Run(base, capacity, seed, actions[..|actions| - 1]), base, capacity, actions[|actions| - 1])
  }

  ghost predicate Legal<I>(base: nat, capacity: nat, seed: Option<U32>, actions: seq<Action<I>>)
    requires capacity > 0
  {
    && (seed.Some? ==> seed.value == Wire(base, -1))
    && forall i | 0 <= i < |actions| :: Enabled(Run(base, capacity, seed, actions[..i]), actions[i])
  }

  /** In every run, from a fresh or a seeded reset, the buffer is the newest part of the unacknowledged suffix. */
  lemma {:induction false} PendingIsSuffix<I>(base: nat, capacity: nat, seed: Option<U32>, actions: seq<Action<I>>)
    requires 0 < capacity < HALF32 && Legal(base, capacity, seed, actions)
    ensures Exact(Run(base, capacity, seed, actions), base, capacity)
    decreases |actions|
  {
    hide Enabled, Step;
    if actions == [] {
    } else {
      var n := |actions| - 1;
      var earlier := actions[..n];
      assert forall i | 0 <= i < n :: earlier[..i] == actions[..i];
      PendingIsSuffix(base, capacity, seed, earlier);
      var m := Run(base, capacity, seed, earlier);
      match actions[n]
      case Issue(input) => IssueExact(m, base, capacity, input);
      case Ack(k) => AckExact(m, base, capacity, k);
    }
  }

  // ---- Reconciliation ------------------------------------------------------------------------

  /** The state after every input from `i` on. */
  function Folded<S, I>(state: S, f: (S, I, U32) -> S, base: nat, issued: seq<I>, i: nat): S
    requires i <= |issued|
    decreases |issued| - i
  {
    if i == |issued| then state
    else Folded(f(state, issued[i], Wire(base, i)), f, base, issued, i + 1)
  }

  lemma {:induction false} ReplayFolds<S, I>(state: S, f: (S, I, U32) -> S, base: nat, issued: seq<I>, lo: nat)
    requires lo <= |issued|
    ensures Replayed(state, f, Numbered(base, issued, lo)) == Folded(state, f, base, issued, lo)
    decreases |issued| - lo
  {
    if lo < |issued| {
      var p := Numbered(base, issued, lo);
      assert p[0] == Pending(Wire(base, lo), issued[lo]) && p[1..] == Numbered(base, issued, lo + 1);
      ReplayFolds(f(state, issued[lo], Wire(base, lo)), f, base, issued, lo + 1);
    }
  }

  /** What reconciling on the state after input `k` replays, in every case. */
  lemma ReconcileReplays<S, I>(m: Session<I>, base: nat, capacity: nat, k: nat, authoritative: S, f: (S, I, U32) -> S)
    requires 0 < capacity < HALF32 && Exact(m, base, capacity) && Enabled(m, Ack(k))
    ensures var m' := Step(m, base, capacity, Ack(k));
            Replayed(authoritative, f, m'.state.pending)
            == Folded(authoritative, f, base, m.issued, Oldest(m', capacity))
  {
    hide Acknowledge, Numbered;
    AckExact(m, base, capacity, k);
    ReplayFolds(authoritative, f, base, m.issued, Oldest(Step(m, base, capacity, Ack(k)), capacity));
  }

  function Prefix<S, I>(state: S, f: (S, I, U32) -> S, base: nat, issued: seq<I>, n: nat): S
    requires n <= |issued|
  {
    if n == 0 then state else f(Prefix(state, f, base, issued, n - 1), issued[n - 1], Wire(base, n - 1))
  }

  lemma {:induction false} PrefixThenRest<S, I>(state: S, f: (S, I, U32) -> S, base: nat, issued: seq<I>, n: nat)
    requires n <= |issued|
    ensures Folded(Prefix(state, f, base, issued, n), f, base, issued, n) == Prefix(state, f, base, issued, |issued|)
    decreases |issued| - n
  {
    if n < |issued| { PrefixThenRest(state, f, base, issued, n + 1); }
  }

  /**
   The server's state after input `k`, reconciled, is the state after all issued inputs:
   nothing lost, nothing twice.
   */
  lemma ReconcileIsExact<S, I>(m: Session<I>, base: nat, capacity: nat, k: nat, start: S, f: (S, I, U32) -> S)
    requires 0 < capacity < HALF32 && Exact(m, base, capacity) && Enabled(m, Ack(k))
    requires m.acked <= k + 1 && |m.issued| <= k + 1 + capacity
    ensures Replayed(Prefix(start, f, base, m.issued, k + 1), f, Step(m, base, capacity, Ack(k)).state.pending)
         == Prefix(start, f, base, m.issued, |m.issued|)
  {
    hide Acknowledge, Numbered, Exact;
    ReconcileReplays(m, base, capacity, k, Prefix(start, f, base, m.issued, k + 1), f);
    PrefixThenRest(start, f, base, m.issued, k + 1);
  }

  /** The condition is needed: replayed into a log, the inputs come back whole exactly when it holds. */
  lemma ReconcileNeedsRoom<I>(m: Session<I>, base: nat, capacity: nat, k: nat)
    requires 0 < capacity < HALF32 && Exact(m, base, capacity) && Enabled(m, Ack(k))
    ensures var f := (log: seq<I>, input: I, n: U32) => log + [input];
            Replayed(m.issued[..k + 1], f, Step(m, base, capacity, Ack(k)).state.pending) == m.issued
            <==> m.acked <= k + 1 && |m.issued| <= k + 1 + capacity
  {
    hide Acknowledge, Numbered, Exact;
    var f := (log: seq<I>, input: I, n: U32) => log + [input];
    ReconcileReplays(m, base, capacity, k, m.issued[..k + 1], f);
    var lo := Oldest(Step(m, base, capacity, Ack(k)), capacity);
    OldestWithin(m, base, capacity, k);
    LogFolds(m.issued[..k + 1], f, base, m.issued, lo);
    assert |m.issued[..k + 1] + m.issued[lo..]| == |m.issued| <==> lo == k + 1;
  }

  lemma OldestWithin<I>(m: Session<I>, base: nat, capacity: nat, k: nat)
    requires 0 < capacity && Exact(m, base, capacity) && k < |m.issued|
    ensures k + 1 <= Oldest(Step(m, base, capacity, Ack(k)), capacity) <= |m.issued|
  {
  }

  lemma {:induction false} LogFolds<I>(log: seq<I>, f: (seq<I>, I, U32) -> seq<I>, base: nat, issued: seq<I>, lo: nat)
    requires lo <= |issued| && forall l, x, n :: f(l, x, n) == l + [x]
    ensures Folded(log, f, base, issued, lo) == log + issued[lo..]
    decreases |issued| - lo
  {
    if lo < |issued| {
      LogFolds(log + [issued[lo]], f, base, issued, lo + 1);
      assert log + [issued[lo]] + issued[lo + 1..] == log + issued[lo..];
    }
  }
}
