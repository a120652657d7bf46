/**
 ClockSync.cs: the offset between server and client clocks is the largest of the last
 40 readings since the latest reset, kept in a ring that is overwritten in place.
 */
module Clock {

  const WINDOW := 40

  ghost predicate IsMax(x: real, s: seq<real>) {
    x in s && forall y :: y in s ==> y <= x
  }

  /** The readings still in the window. */
  ghost function Recent(history: seq<real>): seq<real> {
    if |history| > WINDOW then history[|history| - WINDOW..] else history
  }

  /** The window holds one reading for every place of the ring. */
  lemma SlotReading(n: nat, j: nat)
    requires j < WINDOW && j < n
    ensures exists i: nat :: i < n && n - WINDOW <= i && i % WINDOW == j
  {
    var i := if n <= WINDOW then j else n - WINDOW + (j - n) % WINDOW;
    if n > WINDOW {
      SlotOf(n, j);
    }
    assert i < n && n - WINDOW <= i && i % WINDOW == j;
  }

  lemma SlotOf(n: nat, j: nat)
    requires j < WINDOW < n
    ensures (n - WINDOW + (j - n) % WINDOW) % WINDOW == j
  {
    var q := (j - n) / WINDOW;
    assert j - n == q * WINDOW + (j - n) % WINDOW;
    assert n - WINDOW + (j - n) % WINDOW == j + WINDOW * (-1 - q);
  }

  /** The ring holds the recent readings, each at its number modulo the window. */
  ghost predicate InRing(ring: seq<real>, history: seq<real>) {
    |ring| == WINDOW && forall i: nat :: |history| - WINDOW <= i < |history| ==> ring[i % WINDOW] == history[i]
  }

  /** Overwriting the slot of the next reading loses only the oldest one. */
  lemma NextReading(ring: seq<real>, history: seq<real>, x: real)
    requires InRing(ring, history)
    ensures InRing(ring[|history| % WINDOW := x], history + [x])
    ensures (|history| + 1) % WINDOW == (|history| % WINDOW + 1) % WINDOW
  {
    var n := |history|;
    forall i: nat | n + 1 - WINDOW <= i < n + 1
      ensures ring[n % WINDOW := x][i % WINDOW] == (history + [x])[i]
    {
      if i < n { OtherSlot(n, i); }
    }
  }

  lemma OtherSlot(n: nat, i: nat)
    requires n - WINDOW < i < n
    ensures i % WINDOW != n % WINDOW
  {
  }

  lemma RecentCount(history: seq<real>)
    ensures |Recent(history)| == if |history| > WINDOW then WINDOW else |history|
  {
  }

  lemma Single(x: real)
    ensures IsMax(x, Recent([x]))
  {
  }

  class ClockSync {
    const instants: array<real>
    var idx: nat
    var count: nat
    var offset: real
    var initialized: bool
    ghost var history: seq<real>   // the readings since the latest reset

    ghost predicate Valid()
      reads this, instants
    {
      var n := |history|;
      && InRing(instants[..], history) && idx == n % WINDOW && count == |Recent(history)|
      && (initialized <==> n > 0)
      && (if n > 0 then IsMax(offset, Recent(history)) else offset == 0.0)
    }

    constructor ()
      ensures Valid() && history == [] && fresh(instants)
    {
      instants := new real[WINDOW](_ => 0.0);
      idx, count, offset, initialized, history := 0, 0, 0.0, false, [];
    }

    /** The offset is always the maximum of the last 40 readings since the reset. */
    method Observe(serverTime: real, clientNow: real) returns (r: real)
      requires Valid()
      modifies this, instants
      ensures Valid() && history == old(history) + [serverTime - clientNow]
      ensures initialized && r == offset && IsMax(r, Recent(history))
    {
      hide InRing, IsMax, Recent;
      RecentCount(history);
      var instant := serverTime - clientNow;
      NextReading(instants[..], history, instant);
      Sized();
      instants[idx] := instant;
      assert instants[..] == old(instants[..])[old(idx) := instant];
      idx := (idx + 1) % WINDOW;
      if count < WINDOW {
        count := count + 1;
      }
      history := history + [instant];
      RecentCount(history);
      if !initialized {
        offset := instant;
        initialized := true;
        Single(instant);
        assert history == [instant];
        return offset;
      }
      r := Largest();
      offset := r;
    }

    lemma Ready()
      requires Valid()
      ensures initialized <==> history != []
    {
      hide InRing, IsMax, Recent;
    }

    lemma Sized()
      requires InRing(instants[..], history)
      ensures instants.Length == WINDOW
    {
    }

    /** The scan over the filled part of the ring. */
    method Largest() returns (max: real)
      requires InRing(instants[..], history) && |history| > 0 && count == |Recent(history)|
      ensures IsMax(max, Recent(history))
    {
      hide InRing, Recent;
      SameReadings();
      max := instants[0];
      ghost var at := 0;
      for i := 0 to count
        invariant 0 <= at < count && max == instants[at] && forall k | 0 <= k < i :: instants[k] <= max
      {
        if instants[i] > max {
          max, at := instants[i], i;
        }
      }
      assert instants[..count][at] == max;
    }

    lemma SameReadings()
      requires InRing(instants[..], history) && |history| > 0 && count == |Recent(history)|
      ensures 0 < count <= instants.Length == WINDOW
      ensures forall x :: x in instants[..count] <==> x in Recent(history)
    {
      var n, recent := |history|, Recent(history);
      forall j | 0 <= j < count ensures instants[j] in recent {
        SlotReading(n, j);
        var i: nat :| i < n && n - WINDOW <= i && i % WINDOW == j;
        assert recent[i - (n - count)] == history[i];
      }
      forall k | 0 <= k < count ensures recent[k] in instants[..count] {
        var i := n - count + k;
        assert recent[k] == history[i] && instants[i % WINDOW] == history[i];
        assert instants[..count][i % WINDOW] == history[i];
      }
    }

    method Reset()
      requires Valid()
      modifies this, instants
      ensures Valid() && history == []
    {
      for i := 0 to WINDOW
        modifies instants
      {
        instants[i] := 0.0;
      }
      idx, count, offset, initialized, history := 0, 0, 0.0, false, [];
    }
  }
}
