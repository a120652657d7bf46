/**
 How the playback controller's numbers move, exactly: the delay target and the excess go
 a fixed fraction of the way to what is asked, the pressure is the worst gap so far faded
 by the healthy frames since, and a render advances the cursor by the elapsed time and its
 correction. While nothing new is measured the target approaches its goal geometrically.
 */
module PlaybackTargets {
  import opened Words
  import opened Reals
  import opened Playback

  // ---- One frame ------------------------------------------------------------------------

  function Power(k: real, n: nat): real {
    if n == 0 then 1.0 else Times(k, Power(k, n - 1))
  }

  /** The delay the measurements ask for: never below the minimum, and cut at the maximum. */
  function Wanted(c: Config, t: Timing): real {
    Min(c.maxDelay, c.minDelay + t.excess + Times(c.jitterFactor, t.jitter) + t.pressure)
  }

  /** The share of the way taken: one factor for rising, one for falling. */
  function Factor(c: Config, from: real, to: real): real {
    if to > from then c.attack else c.decay
  }

  lemma MixMoves(from: real, to: real, k: real)
    requires 0.0 <= k <= 1.0
    ensures var x := Mix(from, to, k);
            && x - from == Times(k, to - from) && to - x == Times(1.0 - k, to - from)
            && (k > 0.0 && to != from ==> Abs(to - x) < Abs(to - from))
  {
    hide Times;
    Complement(k, to - from);
    TimesConvex(k, to - from);
    if k > 0.0 { TimesStrict(k, to - from); }
  }

  lemma Complement(k: real, d: real)
    ensures Times(1.0 - k, d) == d - Times(k, d)
  {
    assert (1.0 - k) * d == d - k * d;
  }

  lemma TimesStrict(k: real, d: real)
    requires k > 0.0
    ensures (d > 0.0 ==> Times(k, d) > 0.0) && (d < 0.0 ==> Times(k, d) < 0.0)
  {
    if d > 0.0 {
      Positive(k, d);
    } else if d < 0.0 {
      Positive(k, -d);
      assert k * -d == -(k * d);
    }
  }

  /** The target covers the factor's share of the way to the wanted delay, and nothing else changes. */
  lemma TargetMoves(c: Config, t: Timing)
    requires Sane(c) && InBounds(c, t)
    ensures var u, raw := Retarget(c, t), Wanted(c, t);
            var k := Factor(c, t.target, raw);
            && u == t.(target := u.target) && c.minDelay <= raw <= c.maxDelay
            && u.target - t.target == Times(k, raw - t.target)
            && raw - u.target == Times(1.0 - k, raw - t.target)
            && (k > 0.0 && raw != t.target ==> Abs(raw - u.target) < Abs(raw - t.target))
  {
    hide Mix, Times;
    var sum := c.minDelay + t.excess + Times(c.jitterFactor, t.jitter) + t.pressure;
    ScaledTimes(c.jitterFactor, t.jitter);
    assert Clamp(sum, c.minDelay, c.maxDelay) == Wanted(c, t);
    var raw := Wanted(c, t);
    var k := Factor(c, t.target, raw);
    MixMoves(t.target, raw, k);
    MixBetween(t.target, raw, k);
    RetargetIs(c, t);
  }

  lemma ScaledTimes(k: real, x: real)
    requires k >= 0.0 && x >= 0.0
    ensures Times(k, x) >= 0.0
  {
    Scaled(k, x);
  }

  lemma RetargetIs(c: Config, t: Timing)
    ensures var raw := Clamp(c.minDelay + t.excess + Times(c.jitterFactor, t.jitter) + t.pressure, c.minDelay,
                             c.maxDelay);
            Retarget(c, t) == t.(target := Clamp(Mix(t.target, raw, Factor(c, t.target, raw)), c.minDelay, c.maxDelay))
  {
    hide Mix, Clamp;
    var sum := c.minDelay + t.excess + Times(c.jitterFactor, t.jitter) + t.pressure;
    assert sum == c.minDelay + t.excess + c.jitterFactor * t.jitter + t.pressure;
    var raw := Clamp(sum, c.minDelay, c.maxDelay);
    assert Toward(c, t.target, raw) == Mix(t.target, raw, Factor(c, t.target, raw));
    assert Retarget(c, t) == t.(target := Clamp(Toward(c, t.target, raw), c.minDelay, c.maxDelay));
  }

  /** A stamp moves the excess the factor's share of the way to what it measured. */
  lemma ExcessMoves(c: Config, t: Timing, s: Stamp)
    requires Sane(c) && InBounds(c, t)
    ensures var u, raw := Stamped(c, t, s), Max(0.0, s.offset - s.instant);
            var k := Factor(c, t.excess, raw);
            && u.excess - t.excess == Times(k, raw - t.excess)
            && raw - u.excess == Times(1.0 - k, raw - t.excess)
            && (k > 0.0 && raw != t.excess ==> Abs(raw - u.excess) < Abs(raw - t.excess))
  {
    hide Mix, Times;
    var raw := Max(0.0, s.offset - s.instant);
    MixMoves(t.excess, raw, Factor(c, t.excess, raw));
  }

  // ---- The pressure of a whole run -----------------------------------------------------------

  /** The time a gap costs, up to the whole range of delays. */
  function Cost(c: Config, gap: nat): real {
    Min(c.maxDelay - c.minDelay, Times(gap as real, c.tick))
  }

  /** The gaps of the frames of a run, in order. */
  function GapsOf(events: seq<Event>): seq<nat>
    decreases |events|
  {
    if events == [] then []
    else
      var n := |events| - 1;
      GapsOf(events[..n]) + if events[n].Frame? then [events[n].gap] else []
  }

  /** How many frames came without a gap before them. */
  function Healthy(gaps: seq<nat>): nat
    decreases |gaps|
  {
    if gaps == [] then 0
    else Healthy(gaps[..|gaps| - 1]) + if gaps[|gaps| - 1] == 0 then 1 else 0
  }

  /** What is left of the gap before frame `j`: 85 percent for every healthy frame since. */
  function Faded(c: Config, gaps: seq<nat>, j: nat): real
    requires j < |gaps|
  {
    Times(Power(0.85, Healthy(gaps[j + 1..])), Cost(c, gaps[j]))
  }

  /** The pressure is the largest of the faded gaps, or zero before the first. */
  ghost predicate WorstOf(c: Config, pressure: real, gaps: seq<nat>) {
    && pressure >= 0.0
    && (forall j :: 0 <= j < |gaps| && gaps[j] > 0 ==> pressure >= Faded(c, gaps, j))
    && (pressure == 0.0 || exists j :: 0 <= j < |gaps| && gaps[j] > 0 && pressure == Faded(c, gaps, j))
  }

  lemma FadedLater(c: Config, gaps: seq<nat>, gap: nat, j: nat)
    requires j < |gaps|
    ensures Faded(c, gaps + [gap], j) == if gap == 0 then Times(0.85, Faded(c, gaps, j)) else Faded(c, gaps, j)
  {
    var rest := gaps[j + 1..];
    assert (gaps + [gap])[j + 1..] == rest + [gap];
    assert (rest + [gap])[..|rest|] == rest;
    var p, x := Power(0.85, Healthy(rest)), Cost(c, gaps[j]);
    assert (0.85 * p) * x == 0.85 * (p * x);
  }

  lemma FadedNow(c: Config, gaps: seq<nat>, gap: nat)
    requires gap > 0
    ensures Faded(c, gaps + [gap], |gaps|) == Cost(c, gap)
  {
    assert (gaps + [gap])[|gaps| + 1..] == [];
    assert Power(0.85, 0) == 1.0;
  }

  lemma CostPositive(c: Config, gap: nat)
    requires Sane(c)
    ensures Cost(c, gap) >= 0.0
  {
    Scaled(c.tick, gap as real);
  }

  lemma PressedIs(c: Config, pressure: real, gap: nat)
    requires pressure >= 0.0
    ensures Pressed(c, pressure, gap) == if gap > 0 then Max(pressure, Cost(c, gap)) else Times(0.85, pressure)
  {
  }

  lemma WorstStep(c: Config, pressure: real, gaps: seq<nat>, gap: nat)
    requires Sane(c) && WorstOf(c, pressure, gaps)
    ensures WorstOf(c, Pressed(c, pressure, gap), gaps + [gap])
  {
    hide Faded, Cost, Pressed, Times;
    PressedIs(c, pressure, gap);
    CostPositive(c, gap);
    var gaps', p := gaps + [gap], Pressed(c, pressure, gap);
    ScaledTimes(0.85, pressure);
    forall j: nat | j < |gaps| && gaps[j] > 0
      ensures p >= Faded(c, gaps', j)
    {
      FadedLater(c, gaps, gap, j);
      Monotone(0.85, Faded(c, gaps, j), pressure);
    }
    if gap > 0 {
      FadedNow(c, gaps, gap);
    }
    if gap > 0 && p == Cost(c, gap) {
      assert gaps'[|gaps|] > 0 && p == Faded(c, gaps', |gaps|);
    } else if pressure != 0.0 {
      var j: nat :| j < |gaps| && gaps[j] > 0 && pressure == Faded(c, gaps, j);
      FadedLater(c, gaps, gap, j);
      assert gaps'[j] > 0 && p == Faded(c, gaps', j);
    } else {
      Zeroed(0.85);
    }
  }

  lemma Zeroed(k: real)
    ensures Times(k, 0.0) == 0.0
  {
  }

  lemma Monotone(k: real, a: real, b: real)
    requires 0.0 <= k && a <= b
    ensures Times(k, a) <= Times(k, b)
  {
    Scaled(k, b - a);
    assert k * (b - a) == k * b - k * a;
  }

  /** In every run the loss pressure is the worst gap so far, faded by the healthy frames since. */
  lemma {:induction false} PressureIsWorst(c: Config, events: seq<Event>)
    requires Sane(c)
    ensures WorstOf(c, Run(c, events).timing.pressure, GapsOf(events))
    decreases |events|
  {
    hide WorstOf, Pressed, Rendered, Retarget, Stamped;
    if events == [] {
      NoPressure(c);
    } else {
      var n := |events| - 1;
      PressureIsWorst(c, events[..n]);
      if events[n].Frame? {
        var t := Run(c, events[..n]).timing;
        WorstStep(c, t.pressure, GapsOf(events[..n]), events[n].gap);
        TimedPressure(c, t, events[n].gap, events[n].forget, events[n].stamp);
      } else {
        assert GapsOf(events[..n]) + [] == GapsOf(events[..n]);
      }
    }
  }

  lemma NoPressure(c: Config)
    ensures WorstOf(c, 0.0, [])
  {
  }

  lemma TimedPressure(c: Config, t: Timing, gap: nat, forget: bool, stamp: Option<Stamp>)
    ensures Timed(c, t, gap, forget, stamp).pressure == Pressed(c, t.pressure, gap)
  {
    hide Pressed, Toward;
  }

  // ---- A whole frame --------------------------------------------------------------------------

  /** What a stamped frame does to the jitter: an eighth of the way to the change in transit time, if one is known. */
  ghost predicate JitterMoves(t: Timing, u: Timing, forget: bool, raw: real) {
    if forget || t.previous.None? then u.jitter == t.jitter
    else 8.0 * (u.jitter - t.jitter) == Abs(raw - t.previous.value) - t.jitter
  }

  /** One frame in any state: every number of the controller after it. */
  lemma FrameExact(c: Config, t: Timing, gap: nat, forget: bool, stamp: Option<Stamp>)
    requires Sane(c) && InBounds(c, t)
    ensures var u := Timed(c, t, gap, forget, stamp);
            && u.pressure == (if gap > 0 then Max(t.pressure, Cost(c, gap)) else Times(0.85, t.pressure))
            && (stamp.None? ==>
                  u.excess == t.excess && u.jitter == t.jitter && u.previous == if forget then None else t.previous)
            && (stamp.Some? ==>
                  var raw := Max(0.0, stamp.value.offset - stamp.value.instant);
                  && u.previous == Some(raw) && JitterMoves(t, u, forget, raw)
                  && u.excess - t.excess == Times(Factor(c, t.excess, raw), raw - t.excess))
            && u.target - t.target == Times(Factor(c, t.target, Wanted(c, u)), Wanted(c, u) - t.target)
  {
    hide Times, Mix, Pressed, Cost, Toward, Wanted;
    PressedIs(c, t.pressure, gap);
    MeasuredInBounds(c, t, gap, forget, stamp);
    var t2 := Measured(c, t, gap, forget, stamp);
    TargetMoves(c, t2);
    WantedSame(c, t2, Retarget(c, t2));
    if stamp.Some? {
      ExcessMoves(c, t.(pressure := Pressed(c, t.pressure, gap), previous := if forget then None else t.previous),
          stamp.value);
    }
  }

  /** The measurements of a frame, before the target moves. */
  function Measured(c: Config, t: Timing, gap: nat, forget: bool, stamp: Option<Stamp>): Timing {
    var t1 := t.(pressure := Pressed(c, t.pressure, gap), previous := if forget then None else t.previous);
    if stamp.Some? then Stamped(c, t1, stamp.value) else t1
  }

  lemma MeasuredInBounds(c: Config, t: Timing, gap: nat, forget: bool, stamp: Option<Stamp>)
    requires Sane(c) && InBounds(c, t)
    ensures InBounds(c, Measured(c, t, gap, forget, stamp))
    ensures var t1 := t.(pressure := Pressed(c, t.pressure, gap), previous := if forget then None else t.previous);
            InBounds(c, t1)
    ensures Timed(c, t, gap, forget, stamp) == Retarget(c, Measured(c, t, gap, forget, stamp))
  {
    hide Toward, Retarget;
    PressureMoves(c, t.pressure, gap);
    PressureRange(c, t.pressure, gap);
    if stamp.Some? {
      TowardBetween(c, t.excess, Max(0.0, stamp.value.offset - stamp.value.instant));
    }
  }

  lemma PressureRange(c: Config, pressure: real, gap: nat)
    requires Sane(c) && 0.0 <= pressure <= c.maxDelay - c.minDelay
    ensures 0.0 <= Pressed(c, pressure, gap) <= c.maxDelay - c.minDelay
  {
    Convex(0.85, pressure);
  }

  lemma WantedSame(c: Config, t: Timing, u: Timing)
    requires u == t.(target := u.target)
    ensures Wanted(c, u) == Wanted(c, t)
  {
  }

  // ---- Frames that measure nothing new ------------------------------------------------------------

  /** The controller after `n` healthy frames without stamps. */
  function Quiet(c: Config, t: Timing, n: nat): Timing {
    if n == 0 then t else Timed(c, Quiet(c, t, n - 1), 0, false, None)
  }

  lemma QuietStep(c: Config, t: Timing)
    requires Sane(c) && InBounds(c, t) && t.pressure == 0.0
    ensures var u, goal := Timed(c, t, 0, false, None), Wanted(c, t);
            && InBounds(c, u) && u == t.(target := u.target)
            && goal - u.target == Times(1.0 - Factor(c, t.target, goal), goal - t.target)
  {
    hide Times, Mix, Wanted;
    Zeroed(0.85);
    PressedIs(c, t.pressure, 0);
    assert t.(pressure := Pressed(c, t.pressure, 0), previous := t.previous) == t;
    TargetMoves(c, t);
    TimedInBounds(c, t, 0, false, None);
  }

  /** The target stays on its side of the goal, so its factor stays the same until it arrives. */
  lemma SameSide(c: Config, from: real, to: real, goal: real)
    requires Sane(c) && goal - to == Times(1.0 - Factor(c, from, goal), goal - from)
    ensures to == goal || Factor(c, to, goal) == Factor(c, from, goal)
  {
    hide Times;
    TimesConvex(1.0 - Factor(c, from, goal), goal - from);
  }

  /**
   With no loss and nothing measured, each frame leaves the same share of the distance to
   the wanted delay: after `n` frames the share to the power `n`, never overshooting.
   */
  lemma {:induction false} QuietApproach(c: Config, t: Timing, n: nat)
    requires Sane(c) && InBounds(c, t) && t.pressure == 0.0
    ensures var u, goal := Quiet(c, t, n), Wanted(c, t);
            && InBounds(c, u) && u == t.(target := u.target)
            && goal - u.target == Times(Power(1.0 - Factor(c, t.target, goal), n), goal - t.target)
            && (u.target == goal || Factor(c, u.target, goal) == Factor(c, t.target, goal))
    decreases n
  {
    hide Times, Wanted, Timed, InBounds, Sane;
    var goal := Wanted(c, t);
    var k := 1.0 - Factor(c, t.target, goal);
    if n == 0 {
      Unit(goal - t.target);
    } else {
      QuietApproach(c, t, n - 1);
      var u := Quiet(c, t, n - 1);
      WantedSame(c, t, u);
      QuietStep(c, u);
      var v := Quiet(c, t, n);
      if u.target == goal {
        Zeroed(1.0 - Factor(c, u.target, goal));
        Associate(k, Power(k, n - 1), goal - t.target);
        Zeroed(k);
      } else {
        SameSide(c, u.target, v.target, goal);
        Associate(k, Power(k, n - 1), goal - t.target);
      }
    }
  }

  lemma Associate(a: real, b: real, x: real)
    ensures Times(a, Times(b, x)) == Times(Times(a, b), x)
  {
    assert a * (b * x) == (a * b) * x;
  }

  // ---- A render -------------------------------------------------------------------------------------

  /** The first render puts the delay exactly on the target, at normal speed. */
  lemma FirstRender(c: Config, target: real, v: View, now: real, server: real)
    requires Sane(c) && !Started(v)
    ensures var v' := Rendered(c, target, v, now, Some(server));
            && Started(v') && server - v'.cursor.value == target && v'.current == target
            && v'.lastClient.value == now && v'.rate == 1.0
  {
  }

  /**
   Every later render: with `e` the delay error left after moving at normal speed, the
   cursor moves by the elapsed time corrected by the gain, as far as the server's time
   allows; the reported delay and rate are those of that move.
   */
  lemma RenderExact(c: Config, target: real, v: View, now: real, server: real)
    requires Sane(c) && Started(v)
    ensures var v' := Rendered(c, target, v, now, Some(server));
            var dt := Max(0.0, now - v.lastClient.value);
            var e := server - (v.cursor.value + dt) - target;
            var asked := if e >= 0.0 then dt + Gain(c, e, dt) else dt - Gain(c, e, dt);
            && Started(v') && v'.lastClient.value == v.lastClient.value + dt
            && v'.cursor.value - v.cursor.value == Min(asked, Max(0.0, server - v.cursor.value))
            && Times(dt, c.minRate) <= asked <= Times(dt, c.maxRate)
            && v'.current == Max(0.0, server - v'.cursor.value)
            && (dt > 0.0 ==> Times(v'.rate, dt) == v'.cursor.value - v.cursor.value)
  {
    hide Gain, Asked, Rate;
    var dt := Max(0.0, now - v.lastClient.value);
    var e := server - (v.cursor.value + dt) - target;
    AskedGain(c, e, dt);
    AskedLimits(c, e, dt);
    var v' := Rendered(c, target, v, now, Some(server));
    if dt > 0.0 {
      Quotient(v'.cursor.value - v.cursor.value, dt);
    }
  }

  lemma Quotient(x: real, y: real)
    requires y > 0.0
    ensures Times(x / y, y) == x
  {
  }

  lemma AskedLimits(c: Config, e: real, dt: real)
    requires Sane(c) && dt >= 0.0
    ensures Times(dt, c.minRate) <= Asked(c, dt, e) <= Times(dt, c.maxRate)
  {
    var rate := Rate(c, e);
    Scaled(dt, rate - c.minRate);
    Scaled(dt, c.maxRate - rate);
    assert dt * (rate - c.minRate) == dt * rate - dt * c.minRate;
    assert dt * (c.maxRate - rate) == dt * c.maxRate - dt * rate;
  }

  // ---- Configuration and gaps ------------------------------------------------------------------------

  /** Options that are within their limits are kept as they are. */
  lemma SaneIsKept(c: Config)
    requires Sane(c) && c.tick >= 0.001 && c.minRate >= 0.01
    ensures Configured(Options(Some(c.tick), Some(c.minDelay), Some(c.maxDelay), Some(c.minRate), Some(c.maxRate),
                               Some(c.window), Some(c.attack), Some(c.decay), Some(c.jitterFactor))) == c
  {
  }

  lemma Defaults()
    ensures Configured(Options(None, None, None, None, None, None, None, None, None)) ==
            Config(50.0, 100.0, 300.0, 0.9, 1.1, 1000.0, 0.5, 0.05, 2.0)
  {
  }

  /** The gap that raises the pressure is the number of frames just counted as lost. */
  lemma GapIsLoss(c: Counts, newStream: bool, sequence: U32)
    ensures var (c', gap) := Count(c, newStream, sequence); gap == c'.lost - c.lost
  {
  }
}
