/**
 One UDP session's send counter and 64-entry replay window (UdpSession.cs). The
 window is a 64-bit bitmap whose bit `i` stands for the counter `highest - i`.
 It is shown to refine the plain set of counters accepted so far.
 */
module UdpSession {
  import opened Words

  const REPLAY_WINDOW: nat := 64
  const MAX_U64: nat := 0xFFFF_FFFF_FFFF_FFFF
  const MAX_COUNTER: nat := MAX_U64 - 1024

  /** The AEAD of one direction, as functions of counter, body or sealed body, and header. */
  type Sealer = (U64, Bytes, Bytes) -> Bytes
  type Opener = (U64, Bytes, Bytes) -> Option<Bytes>

  datatype Window = Window(highest: U64, bitmap: U64)

  /** `ReplayCheckLocked`. */
  predicate Check(w: Window, counter: U64) {
    || counter > w.highest
    || (w.highest - counter < REPLAY_WINDOW && And(w.bitmap, Pow2(w.highest - counter)) == 0)
  }

  /** `ReplayCommitLocked`. */
  function Commit(w: Window, counter: U64): (w': Window)
    ensures w'.highest == if counter > w.highest then counter else w.highest
  {
    Pow2Values();
    if counter > w.highest then
      var shift := counter - w.highest;
      var shifted := if shift >= REPLAY_WINDOW then 0 else Shl(w.bitmap, shift, 64);
      OrBound(shifted, 1, 64);
      Window(counter, Or(shifted, 1))
    else
      var diff := w.highest - counter;
      if diff < REPLAY_WINDOW then
        Pow2Monotone(diff + 1, 64);
        OrBound(w.bitmap, Pow2(diff), 64);
        Window(w.highest, Or(w.bitmap, Pow2(diff)))
      else w
  }

  /** The window stands for the set of counters accepted so far. */
  ghost predicate Represents(w: Window, seen: set<U64>) {
    && 0 !in seen
    && (forall c :: c in seen ==> c <= w.highest)
    && (w.highest != 0 ==> w.highest in seen)
    && (forall i: nat :: i < REPLAY_WINDOW && i < w.highest ==> (Bit(w.bitmap, i) <==> (w.highest - i) in seen))
    && (forall i: nat :: w.highest <= i ==> !Bit(w.bitmap, i))
  }

  lemma EmptyWindow()
    ensures Represents(Window(0, 0), {})
  {
    forall i: nat ensures !Bit(0, i) { BitOfZero(i); }
  }

  /** The bitmap test accepts exactly the unseen counters fewer than 64 behind the highest. */
  lemma CheckRefines(w: Window, seen: set<U64>, counter: U64)
    requires Represents(w, seen) && counter != 0
    ensures Check(w, counter) <==> counter !in seen && w.highest < counter + REPLAY_WINDOW
  {
    if counter <= w.highest {
      AndWithPow2(w.bitmap, w.highest - counter);
      assert w.highest - (w.highest - counter) == counter;
    }
  }

  lemma CommitRefines(w: Window, seen: set<U64>, counter: U64)
    requires Represents(w, seen) && counter != 0
    requires w.highest < counter + REPLAY_WINDOW
    ensures Represents(Commit(w, counter), seen + {counter})
  {
    var w', seen' := Commit(w, counter), seen + {counter};
    assert Pow2(0) == 1;
    if counter > w.highest {
      var shift := counter - w.highest;
      var shifted := if shift >= REPLAY_WINDOW then 0 else Shl(w.bitmap, shift, 64);
      forall i: nat
        ensures Bit(w'.bitmap, i) <==> i == 0 || (shift < REPLAY_WINDOW && shift <= i < 64 && Bit(w.bitmap, i - shift))
      {
        BitOfOr(shifted, 1, i);
        BitOfPow2(0, i);
        BitOfZero(i);
        BitOfShl(w.bitmap, shift, 64, i);
      }
      forall i: nat | i < REPLAY_WINDOW && i < w'.highest
        ensures Bit(w'.bitmap, i) <==> (w'.highest - i) in seen'
      {
        if i >= shift {
          assert w'.highest - i == w.highest - (i - shift);
        }
      }
    } else {
      var diff := w.highest - counter;
      forall i: nat ensures Bit(w'.bitmap, i) <==> Bit(w.bitmap, i) || i == diff {
        BitOfOr(w.bitmap, Pow2(diff), i);
        BitOfPow2(diff, i);
      }
    }
  }

  /** One call of `OpenPacket`: the counter it carried and whether the tag verified. */
  datatype Attempt = Attempt(counter: U64, authentic: bool)

  /** `OpenPacket` on the window: check, authenticate, and only then record. */
  function Open(w: Window, a: Attempt): (r: (Window, bool))
  {
    if a.counter == 0 || !Check(w, a.counter) || !a.authentic then (w, false)
    else (Commit(w, a.counter), true)
  }

  function OpenAll(attempts: seq<Attempt>): Window {
    if |attempts| == 0 then Window(0, 0)
    else Open(OpenAll(attempts[..|attempts| - 1]), attempts[|attempts| - 1]).0
  }

  /** The reference: accept a counter iff it is new and fewer than 64 behind every accepted one. */
  ghost predicate Admissible(seen: set<U64>, a: Attempt) {
    && a.counter != 0
    && a.authentic
    && a.counter !in seen
    && forall c :: c in seen ==> c < a.counter + REPLAY_WINDOW
  }

  ghost function Accepted(attempts: seq<Attempt>): set<U64> {
    if |attempts| == 0 then {}
    else
      var seen, a := Accepted(attempts[..|attempts| - 1]), attempts[|attempts| - 1];
      if Admissible(seen, a) then seen + {a.counter} else seen
  }

  /** Over every run of `OpenPacket` calls the bitmap decides exactly as the set does. */
  lemma {:induction false} ReplayRefinesSet(attempts: seq<Attempt>, a: Attempt)
    ensures Represents(OpenAll(attempts), Accepted(attempts))
    ensures Open(OpenAll(attempts), a).1 <==> Admissible(Accepted(attempts), a)
    ensures !a.authentic ==> Open(OpenAll(attempts), a).0 == OpenAll(attempts)
    decreases |attempts|
  {
    var w, seen := OpenAll(attempts), Accepted(attempts);
    if |attempts| == 0 {
      EmptyWindow();
    } else {
      var last := attempts[|attempts| - 1];
      ReplayRefinesSet(attempts[..|attempts| - 1], last);
      OpenRefines(OpenAll(attempts[..|attempts| - 1]), Accepted(attempts[..|attempts| - 1]), last);
    }
    OpenRefines(w, seen, a);
  }

  lemma OpenRefines(w: Window, seen: set<U64>, a: Attempt)
    requires Represents(w, seen)
    ensures Open(w, a).1 <==> Admissible(seen, a)
    ensures Represents(Open(w, a).0, if Admissible(seen, a) then seen + {a.counter} else seen)
  {
    if a.counter != 0 {
      CheckRefines(w, seen, a.counter);
      if Open(w, a).1 {
        CommitRefines(w, seen, a.counter);
      }
    }
  }

  /** The session object: its counters and window are updated in place. */
  class Session {
    var sendCounter: U64
    var replayHighest: U64
    var replayBitmap: U64

    constructor ()
      ensures sendCounter == 0 && Replay() == Window(0, 0)
    {
      sendCounter, replayHighest, replayBitmap := 0, 0, 0;
    }

    ghost function Replay(): Window
      reads this
    {
      Window(replayHighest, replayBitmap)
    }

    /** Allocates the counter itself; `None` when the counter space is used up. */
    method SealPacket(seal: Sealer, body: Bytes, buildHeader: U64 -> Bytes) returns (packet: Option<Bytes>)
      modifies this
      ensures Replay() == old(Replay())
      ensures sendCounter == (old(sendCounter) + 1) % (MAX_U64 + 1)
      ensures packet == if sendCounter > MAX_COUNTER then None
                        else Some(buildHeader(sendCounter) + seal(sendCounter, body, buildHeader(sendCounter)))
    {
      sendCounter := if sendCounter == MAX_U64 then 0 else sendCounter + 1;
      if sendCounter > MAX_COUNTER {
        return None;
      }
      var header := buildHeader(sendCounter);
      packet := Some(header + seal(sendCounter, body, header));
    }

    /** A counter is recorded only after its packet authenticated. */
    method OpenPacket(open: Opener, counter: U64, sealed: Bytes, aad: Bytes) returns (plaintext: Option<Bytes>)
      modifies this
      ensures sendCounter == old(sendCounter)
      ensures var a := Attempt(counter, open(counter, sealed, aad).Some?);
              && Replay() == Open(old(Replay()), a).0
              && plaintext == if Open(old(Replay()), a).1 then open(counter, sealed, aad) else None
    {
      if counter == 0 {
        return None;
      }
      if counter <= replayHighest {
        var diff := replayHighest - counter;
        if diff >= REPLAY_WINDOW || And(replayBitmap, Pow2(diff)) != 0 {
          return None;
        }
      }
      plaintext := open(counter, sealed, aad);
      if plaintext.None? {
        return;
      }
      Record(counter);
    }

    method Record(counter: U64)
      modifies this
      ensures sendCounter == old(sendCounter)
      ensures Replay() == Commit(old(Replay()), counter)
    {
      Pow2Values();
      if counter > replayHighest {
        var shift := counter - replayHighest;
        var shifted := if shift >= REPLAY_WINDOW then 0 else Shl(replayBitmap, shift, 64);
        OrBound(shifted, 1, 64);
        replayBitmap := Or(shifted, 1);
        replayHighest := counter;
      } else {
        var diff := replayHighest - counter;
        if diff < REPLAY_WINDOW {
          Pow2Monotone(diff + 1, 64);
          OrBound(replayBitmap, Pow2(diff), 64);
          replayBitmap := Or(replayBitmap, Pow2(diff));
        }
      }
    }
  }
}
