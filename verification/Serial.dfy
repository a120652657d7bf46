/**
 Serial-number comparison on wrapping counters (section 3.2 of RFC 1982). The
 32-bit test is written out separately in PredictionBuffer.cs,
 InterpolationCore.cs, ReconciliationGate.cs, AdaptivePlaybackController.cs and
 the generated decoder; it is one definition here.
 */
module Serial {
  import opened Words

  const WRAP16: int := 0x1_0000
  const HALF16: int := 0x8000
  const WRAP32: int := 0x1_0000_0000
  const HALF32: int := 0x8000_0000

  /** `unchecked(to - from)` on 32-bit words. */
  function Distance(from: U32, to: U32): (d: U32)
    ensures (from + d) % WRAP32 == to
  {
    (to - from) % WRAP32
  }

  predicate IsNewer(candidate: U32, reference: U32) {
    var distance := Distance(reference, candidate);
    distance != 0 && distance < HALF32
  }

  /** `UdpProto.SeqGreaterThan`: s1 > s2 accounting for 16-bit wrap. */
  predicate SeqGreaterThan(s1: U16, s2: U16) {
    || (s1 > s2 && s1 - s2 <= HALF16)
    || (s1 < s2 && s2 - s1 > HALF16)
  }

  /** While two unwrapped numbers stay within half the range, the wrapped test orders them. */
  lemma NewerUnwrapped(m: int, n: int)
    requires -HALF32 <= m - n < HALF32
    ensures IsNewer(m % WRAP32, n % WRAP32) <==> m > n
    ensures m >= n ==> Distance(n % WRAP32, m % WRAP32) == m - n
    ensures m % WRAP32 == n % WRAP32 <==> m == n
  {
    assert (m % WRAP32 - n % WRAP32) % WRAP32 == (m - n) % WRAP32;
  }

  lemma SeqGreaterUnwrapped(m: int, n: int)
    requires -HALF16 < m - n < HALF16
    ensures SeqGreaterThan(m % WRAP16, n % WRAP16) <==> m > n
    ensures m >= n ==> (m % WRAP16 - n % WRAP16) % WRAP16 == m - n
    ensures m % WRAP16 == n % WRAP16 <==> m == n
  {
    assert (m % WRAP16 - n % WRAP16) % WRAP16 == (m - n) % WRAP16;
  }

  /** A serial order is never symmetric, and half a range apart is unordered both ways. */
  lemma NewerAsymmetric(a: U32, b: U32)
    ensures !(IsNewer(a, b) && IsNewer(b, a))
    ensures !IsNewer(a, b) && !IsNewer(b, a) <==> a == b || Distance(a, b) == HALF32
  {
    assert Distance(a, b) == 0 <==> a == b;
    assert a != b ==> Distance(a, b) == WRAP32 - Distance(b, a);
  }

  // ---- The latest of several ---------------------------------------------------

  /** The later of two in serial order; the recorded one on a tie or when unordered. */
  function Later(recorded: Option<U32>, candidate: U32): Option<U32> {
    if recorded.Some? && !IsNewer(candidate, recorded.value) then recorded else Some(candidate)
  }

  /** The running serial maximum. */
  function Latest(start: Option<U32>, candidates: seq<U32>): Option<U32>
    decreases |candidates|
  {
    if candidates == [] then start else Latest(Later(start, candidates[0]), candidates[1..])
  }

  lemma {:induction false} LatestConcat(start: Option<U32>, a: seq<U32>, b: seq<U32>)
    ensures Latest(start, a + b) == Latest(Latest(start, a), b)
    decreases |a|
  {
    if a == [] {
      assert a + b == b;
    } else {
      assert (a + b)[0] == a[0] && (a + b)[1..] == a[1..] + b;
      LatestConcat(Later(start, a[0]), a[1..], b);
    }
  }

  /** All numbers lie in one half of the range, the one that begins at `low`. */
  predicate Near(low: U32, candidates: seq<U32>) {
    forall i | 0 <= i < |candidates| :: Distance(low, candidates[i]) < HALF32
  }

  lemma LaterIsMax(low: U32, a: U32, b: U32)
    requires Distance(low, a) < HALF32 && Distance(low, b) < HALF32
    ensures Later(Some(a), b) == Some(if Distance(low, b) > Distance(low, a) then b else a)
  {
    var x, y := Distance(low, a), Distance(low, b);
    NewerUnwrapped(low + y, low + x);
  }

  /** Within one half of the range the running maximum is the maximum: it never falls and is one of the candidates. */
  lemma {:induction false} LatestIsMax(low: U32, start: U32, candidates: seq<U32>)
    requires Near(low, [start] + candidates)
    ensures var r := Latest(Some(start), candidates);
            && r.Some? && r.value in [start] + candidates
            && (forall c :: c in [start] + candidates ==> Distance(low, c) <= Distance(low, r.value))
    decreases |candidates|
  {
    hide IsNewer, Distance;
    var all := [start] + candidates;
    if candidates == [] {
      assert Latest(Some(start), candidates) == Some(start);
    } else {
      assert Distance(low, all[0]) < HALF32 && Distance(low, all[1]) < HALF32;
      LaterIsMax(low, start, candidates[0]);
      var next := Later(Some(start), candidates[0]).value;
      var rest := [next] + candidates[1..];
      forall i | 0 <= i < |rest| ensures Distance(low, rest[i]) < HALF32 {
        assert i > 0 ==> rest[i] == all[i + 1];
      }
      LatestIsMax(low, next, candidates[1..]);
      assert all == [start, candidates[0]] + candidates[1..];
    }
  }
}
