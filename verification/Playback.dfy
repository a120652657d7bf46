/**
 AdaptivePlaybackController.cs over real numbers: frame accounting, the bounded delay
 target and the render cursor that never rewinds. A time that is missing or not
 finite is `None`.
 */
module Playback {
  import opened Words
  import opened Serial
  import opened Reals

  // ---- Configuration -----------------------------------------------------------------------

  datatype Config = Config(tick: real, minDelay: real, maxDelay: real, minRate: real, maxRate: real,
                           window: real, attack: real, decay: real, jitterFactor: real)

  datatype Options = Options(tick: Option<real>, minDelay: Option<real>, maxDelay: Option<real>, minRate: Option<real>,
                             maxRate: Option<real>, window: Option<real>, attack: Option<real>, decay: Option<real>,
                             jitterFactor: Option<real>)

  function Or(x: Option<real>, fallback: real): real {
    if x.Some? then x.value else fallback
  }

  predicate Sane(c: Config) {
    && c.tick > 0.0 && 0.0 <= c.minDelay <= c.maxDelay && 0.0 < c.minRate <= 1.0 <= c.maxRate && c.window >= 1.0
    && 0.0 <= c.attack <= 1.0 && 0.0 <= c.decay <= 1.0 && c.jitterFactor >= 0.0
  }

  /** The constructor's defaults and limits: every option gives a sane configuration. */
  function Configured(o: Options): (c: Config)
    ensures Sane(c)
  {
    var low := Max(0.0, Or(o.minDelay, 100.0));
    Config(Max(0.001, Or(o.tick, 50.0)), low, Max(low, Or(o.maxDelay, 300.0)), Clamp(Or(o.minRate, 0.9), 0.01, 1.0),
           Max(1.0, Or(o.maxRate, 1.1)), Max(1.0, Or(o.window, 1000.0)), Clamp(Or(o.attack, 0.5), 0.0, 1.0),
           Clamp(Or(o.decay, 0.05), 0.0, 1.0), Max(0.0, Or(o.jitterFactor, 2.0)))
  }

  // ---- Frame accounting --------------------------------------------------------------------

  datatype Counts = Counts(last: Option<U32>, received: nat, lost: nat, duplicate: nat, outOfOrder: nat)

  /** One frame; a new stream forgets the last sequence number. The second result is the gap before the frame. */
  function Count(c: Counts, newStream: bool, sequence: U32): (Counts, nat) {
    if newStream || c.last.None? then (c.(last := Some(sequence), received := c.received + 1), 0)
    else
      var d := Distance(c.last.value, sequence);
      if d == 0 then (c.(duplicate := c.duplicate + 1), 0)
      else if d < HALF32 then (c.(last := Some(sequence), received := c.received + 1, lost := c.lost + (d - 1)), d - 1)
      else (c.(outOfOrder := c.outOfOrder + 1), 0)
  }

  datatype Arrival = Arrival(sequence: nat, newStream: bool)

  /** Frames by their unwrapped numbers. */
  function Counted(frames: seq<Arrival>): Counts
    decreases |frames|
  {
    if frames == [] then Counts(None, 0, 0, 0, 0)
    else
      var f := frames[|frames| - 1];
      Count(Counted(frames[..|frames| - 1]), f.newStream, f.sequence % WRAP32).0
  }

  /** The highest number of the current stream. */
  ghost function Highest(frames: seq<Arrival>): nat
    requires frames != []
    decreases |frames|
  {
    var n := |frames| - 1;
    if n == 0 || frames[n].newStream || frames[n].sequence > Highest(frames[..n]) then frames[n].sequence
    else Highest(frames[..n])
  }

  /** Within a stream no frame is half the serial range from the highest so far. */
  ghost predicate InRange(frames: seq<Arrival>) {
    forall i | 0 < i < |frames| && !frames[i].newStream ::
      -HALF32 <= frames[i].sequence - Highest(frames[..i]) < HALF32
  }

  ghost function Spans(frames: seq<Arrival>): nat
    decreases |frames|
  {
    if frames == [] then 0
    else
      var n := |frames| - 1;
      if n > 0 && frames[n].newStream then Spans(frames[..n]) + 1
      else if n == 0 then 1
      else Spans(frames[..n]) + (Highest(frames) - Highest(frames[..n]))
  }

  /** Every frame is counted once; received and lost together are the numbers the streams spanned. */
  lemma {:induction false} CountsAreExact(frames: seq<Arrival>)
    requires InRange(frames)
    ensures var c := Counted(frames);
            && c.received + c.duplicate + c.outOfOrder == |frames|
            && c.received + c.lost == Spans(frames)
            && (frames != [] ==> c.last == Some(Highest(frames) % WRAP32))
    decreases |frames|
  {
    hide Distance, IsNewer;
    if frames == [] {
    } else {
      var n := |frames| - 1;
      var earlier := frames[..n];
      assert forall i | 0 < i < n :: earlier[..i] == frames[..i];
      CountsAreExact(earlier);
      if n > 0 && !frames[n].newStream {
        var m, h := frames[n].sequence, Highest(earlier);
        NewerUnwrapped(m, h);
        if m < h { BehindDistance(m, h); }
      }
    }
  }

  lemma BehindDistance(m: nat, h: nat)
    requires m < h && h - m <= HALF32
    ensures Distance(h % WRAP32, m % WRAP32) >= HALF32
  {
    assert (m % WRAP32 - h % WRAP32) % WRAP32 == (m - h) % WRAP32;
  }

  /** One stream: received plus lost is exactly last minus first plus one. */
  lemma {:induction false} OneStream(frames: seq<Arrival>)
    requires frames != [] && InRange(frames) && forall i | 0 < i < |frames| :: !frames[i].newStream
    ensures Counted(frames).received + Counted(frames).lost == Highest(frames) - frames[0].sequence + 1
  {
    hide InRange, Counted;
    CountsAreExact(frames);
    SpanOfOne(frames);
  }

  lemma {:induction false} SpanOfOne(frames: seq<Arrival>)
    requires frames != [] && forall i | 0 < i < |frames| :: !frames[i].newStream
    ensures Highest(frames) >= frames[0].sequence && Spans(frames) == Highest(frames) - frames[0].sequence + 1
    decreases |frames|
  {
    var n := |frames| - 1;
    if n == 0 {
    } else {
      SpanOfOne(frames[..n]);
    }
  }

  // ---- The delay target ------------------------------------------------------------------------

  datatype Timing = Timing(target: real, jitter: real, excess: real, previous: Option<real>, pressure: real)

  /** What the clock said about a stamped frame: its own reading and the resulting offset. */
  datatype Stamp = Stamp(instant: real, offset: real)

  function Pressed(c: Config, pressure: real, gap: nat): real {
    if gap > 0 then Max(pressure, Min(c.maxDelay - c.minDelay, gap as real * c.tick)) else pressure * 0.85
  }

  /** An exponential average with separate factors for rising and falling. */
  function Toward(c: Config, from: real, to: real): real {
    Mix(from, to, if to > from then c.attack else c.decay)
  }

  function Stamped(c: Config, t: Timing, s: Stamp): Timing {
    var raw := Max(0.0, s.offset - s.instant);
    t.(jitter := if t.previous.Some? then t.jitter + (Abs(raw - t.previous.value) - t.jitter) / 8.0 else t.jitter,
       previous := Some(raw), excess := Toward(c, t.excess, raw))
  }

  function Retarget(c: Config, t: Timing): Timing {
    var raw := Clamp(c.minDelay + t.excess + c.jitterFactor * t.jitter + t.pressure, c.minDelay, c.maxDelay);
    t.(target := Clamp(Toward(c, t.target, raw), c.minDelay, c.maxDelay))
  }

  /** The timing part of one frame: `forget` drops the previous excess when the stream changed. */
  function Timed(c: Config, t: Timing, gap: nat, forget: bool, stamp: Option<Stamp>): Timing {
    var t1 := t.(pressure := Pressed(c, t.pressure, gap), previous := if forget then None else t.previous);
    Retarget(c, if stamp.Some? then Stamped(c, t1, stamp.value) else t1)
  }

  predicate InBounds(c: Config, t: Timing) {
    && c.minDelay <= t.target <= c.maxDelay && t.jitter >= 0.0 && t.excess >= 0.0
    && 0.0 <= t.pressure <= c.maxDelay - c.minDelay
  }

  /** An average lies between its two arguments. */
  lemma TowardBetween(c: Config, from: real, to: real)
    requires Sane(c)
    ensures Min(from, to) <= Toward(c, from, to) <= Max(from, to)
  {
    hide Mix;
    MixBetween(from, to, if to > from then c.attack else c.decay);
  }

  lemma TimedInBounds(c: Config, t: Timing, gap: nat, forget: bool, stamp: Option<Stamp>)
    requires Sane(c) && InBounds(c, t)
    ensures InBounds(c, Timed(c, t, gap, forget, stamp))
  {
    hide Toward;
    Convex(0.85, t.pressure);
    Scaled(c.tick, gap as real);
    if stamp.Some? {
      TowardBetween(c, t.excess, Max(0.0, stamp.value.offset - stamp.value.instant));
    }
  }

  /** Lost frames raise the pressure by at least their time, up to the range; a healthy frame only lowers it. */
  lemma PressureMoves(c: Config, pressure: real, gap: nat)
    requires Sane(c) && 0.0 <= pressure <= c.maxDelay - c.minDelay
    ensures var p := Pressed(c, pressure, gap);
            && (gap > 0 ==> p >= pressure && p >= Min(c.maxDelay - c.minDelay, Times(gap as real, c.tick)))
            && (gap == 0 ==> 0.0 <= p <= pressure && (pressure > 0.0 ==> p < pressure))
  {
    Convex(0.85, pressure);
  }

  /** A stamp moves excess and jitter toward what it measured, never past it, jitter by an eighth of the way. */
  lemma StampMoves(c: Config, t: Timing, s: Stamp)
    requires Sane(c) && InBounds(c, t) && s.instant <= s.offset
    ensures var u, raw := Stamped(c, t, s), s.offset - s.instant;
            && u.previous == Some(raw) && u.target == t.target && u.pressure == t.pressure
            && Min(t.excess, raw) <= u.excess <= Max(t.excess, raw)
            && (t.previous.None? ==> u.jitter == t.jitter)
            && (t.previous.Some? ==>
                  var variation := Abs(raw - t.previous.value);
                  variation - u.jitter == 7.0 * (u.jitter - t.jitter))
  {
    hide Toward;
    TowardBetween(c, t.excess, s.offset - s.instant);
  }

  /** The target moves toward what the frame asks for and never past it. */
  lemma TargetBetween(c: Config, t: Timing)
    requires Sane(c) && InBounds(c, t)
    ensures var raw := Clamp(c.minDelay + t.excess + c.jitterFactor * t.jitter + t.pressure, c.minDelay, c.maxDelay);
            Min(t.target, raw) <= Retarget(c, t).target <= Max(t.target, raw)
  {
    hide Toward;
    TowardBetween(c, t.target, Clamp(c.minDelay + t.excess + c.jitterFactor * t.jitter + t.pressure, c.minDelay,
        c.maxDelay));
  }

  // ---- The render cursor -------------------------------------------------------------------------

  datatype View = View(cursor: Option<real>, lastClient: Option<real>, current: real, rate: real)

  /** `RenderTime` at a client time, given the estimated server time if the clock has one. */
  function Rendered(c: Config, target: real, v: View, now: real, server: Option<real>): View
    requires Sane(c)
  {
    if server.None? then v
    else if v.cursor.None? || v.lastClient.None? then View(Some(server.value - target), Some(now), target, 1.0)
    else
      var elapsed := Max(0.0, now - v.lastClient.value);
      var error := server.value - (v.cursor.value + elapsed) - target;
      var applied := Min(Asked(c, elapsed, error), Max(0.0, server.value - v.cursor.value));
      var cursor := v.cursor.value + applied;
      View(Some(cursor), Some(Max(v.lastClient.value, now)), Max(0.0, server.value - cursor),
           if elapsed > 0.0 then applied / elapsed else Rate(c, error))
  }

  /** The playback rate a delay error asks for. */
  function Rate(c: Config, error: real): real
    requires Sane(c)
  {
    Clamp(1.0 + error / c.window, c.minRate, c.maxRate)
  }

  /** The advance that rate asks for over the elapsed time. */
  function Asked(c: Config, elapsed: real, error: real): real
    requires Sane(c)
  {
    elapsed * Rate(c, error)
  }

  predicate Started(v: View) {
    v.cursor.Some? && v.lastClient.Some?
  }

  /** The cursor never moves back, and never past the later of where it was and the server's time. */
  lemma CursorMoves(c: Config, target: real, v: View, now: real, server: Option<real>)
    requires Sane(c) && target >= 0.0
    ensures var v' := Rendered(c, target, v, now, server);
            && (Started(v) ==> Started(v') && v.cursor.value <= v'.cursor.value)
            && (Started(v) && server.Some? ==> v'.cursor.value <= Max(v.cursor.value, server.value))
            && (!Started(v) && server.Some? ==> Started(v') && v'.cursor.value <= server.value)
            && (server.None? ==> v' == v)
  {
    if Started(v) && server.Some? {
      var elapsed := Max(0.0, now - v.lastClient.value);
      var error := server.value - (v.cursor.value + elapsed) - target;
      Scaled(elapsed, Rate(c, error));
      assert Asked(c, elapsed, error) >= 0.0;
    }
  }

  // ---- Every interleaving --------------------------------------------------------------------------

  datatype Controller = Controller(timing: Timing, view: View)

  datatype Event =
    | Frame(gap: nat, forget: bool, stamp: Option<Stamp>)
    | Render(now: real, server: Option<real>)

  function NewController(c: Config): Controller {
    Controller(Timing(c.minDelay, 0.0, 0.0, None, 0.0), View(None, None, c.minDelay, 1.0))
  }

  function Step(c: Config, s: Controller, e: Event): Controller
    requires Sane(c)
  {
    match e
    case Frame(gap, forget, stamp) => s.(timing := Timed(c, s.timing, gap, forget, stamp))
    case Render(now, server) => s.(view := Rendered(c, s.timing.target, s.view, now, server))
  }

  function Run(c: Config, events: seq<Event>): Controller
    requires Sane(c)
    decreases |events|
  {
    if events == [] then NewController(c) else Step(c, Run(c, events[..|events| - 1]), events[|events| - 1])
  }

  lemma {:induction false} AlwaysInBounds(c: Config, events: seq<Event>)
    requires Sane(c)
    ensures InBounds(c, Run(c, events).timing)
    decreases |events|
  {
    hide Timed, Rendered, InBounds;
    if events == [] {
      NewInBounds(c);
    } else {
      var n := |events| - 1;
      AlwaysInBounds(c, events[..n]);
      var s := Run(c, events[..n]);
      if events[n].Frame? {
        TimedInBounds(c, s.timing, events[n].gap, events[n].forget, events[n].stamp);
      }
    }
  }

  lemma NewInBounds(c: Config)
    requires Sane(c)
    ensures InBounds(c, NewController(c).timing)
  {
  }

  /** In every run, whatever frames and clock readings come in between, the cursor never rewinds. */
  lemma {:induction false} NeverRewinds(c: Config, events: seq<Event>, i: nat)
    requires Sane(c) && i <= |events| && Started(Run(c, events[..i]).view)
    ensures Started(Run(c, events).view) && Run(c, events[..i]).view.cursor.value <= Run(c, events).view.cursor.value
    decreases |events|
  {
    hide Timed, Rendered;
    if i == |events| {
      assert events[..i] == events;
    } else {
      var n := |events| - 1;
      assert events[..n][..i] == events[..i];
      NeverRewinds(c, events[..n], i);
      var s := Run(c, events[..n]);
      AlwaysInBounds(c, events[..n]);
      if events[n].Render? {
        CursorMoves(c, s.timing.target, s.view, events[n].now, events[n].server);
      }
    }
  }

  // ---- Convergence -----------------------------------------------------------------------------------

  /** How far the delay is from the target when the server clock reads `client time + offset`. */
  function Error(v: View, target: real, offset: real): real
    requires Started(v)
  {
    v.lastClient.value + offset - v.cursor.value - target
  }

  /** The error keeps its sign and never grows. */
  predicate Closer(before: real, after: real) {
    if before >= 0.0 then 0.0 <= after <= before else before <= after <= 0.0
  }

  /** One render with fixed offset and target, at most one convergence window after the last. */
  lemma ErrorShrinks(c: Config, target: real, v: View, now: real, offset: real)
    requires Sane(c) && target >= 0.0 && Started(v)
    requires 0.0 <= now - v.lastClient.value <= c.window
    ensures var v' := Rendered(c, target, v, now, Some(now + offset));
            Started(v') && Closer(Error(v, target, offset), Error(v', target, offset))
  {
    hide Asked;
    var dt, e := now - v.lastClient.value, Error(v, target, offset);
    assert now + offset - (v.cursor.value + dt) - target == e;
    AskedBetween(c, e, dt);
    AdvanceCloser(e, target, dt, Asked(c, dt, e));
  }

  /** The advance asked for covers the elapsed time and at most the error besides. */
  lemma AskedBetween(c: Config, e: real, dt: real)
    requires Sane(c) && 0.0 <= dt <= c.window
    ensures if e >= 0.0 then dt <= Asked(c, dt, e) <= dt + e else dt + e <= Asked(c, dt, e) <= dt
  {
    hide Rate;
    RateBetween(c, e);
    Stretched(dt, Rate(c, e), e / c.window, c.window, e, Asked(c, dt, e));
  }

  lemma AdvanceCloser(e: real, target: real, dt: real, requested: real)
    requires target >= 0.0 && dt >= 0.0
    requires if e >= 0.0 then dt <= requested <= dt + e else dt + e <= requested <= dt
    ensures Closer(e, e + dt - Min(requested, Max(0.0, e + target + dt)))
  {
  }

  lemma RateBetween(c: Config, e: real)
    requires Sane(c)
    ensures if e >= 0.0 then 0.0 <= Rate(c, e) - 1.0 <= e / c.window else e / c.window <= Rate(c, e) - 1.0 <= 0.0
    ensures e / c.window >= 0.0 <==> e >= 0.0
  {
  }

  lemma Stretched(dt: real, rate: real, q: real, w: real, e: real, p: real)
    requires 0.0 <= dt <= w && e == q * w && p == dt * rate
    requires if e >= 0.0 then 0.0 <= rate - 1.0 <= q else q <= rate - 1.0 <= 0.0
    ensures if e >= 0.0 then dt <= p <= dt + e else dt + e <= p <= dt
  {
    var r := rate - 1.0;
    assert dt * rate == dt + dt * r;
    Scaled(dt, r);
    Scaled(w - dt, r);
    assert (w - dt) * r == w * r - dt * r;
    Scaled(w, q - r);
    assert w * (q - r) == w * q - w * r;
  }

  /** The share of the error, per millisecond, that the rate limits let the cursor make up. */
  function Limit(c: Config, e: real): real {
    if e >= 0.0 then c.maxRate - 1.0 else 1.0 - c.minRate
  }

  /** What one render makes up at least: the rate limit or the error spread over the window, whichever is less. */
  function Gain(c: Config, e: real, dt: real): real
    requires Sane(c)
  {
    Times(dt, Min(Limit(c, e), Abs(e) / c.window))
  }

  lemma GainPositive(c: Config, e: real, dt: real)
    requires Sane(c) && dt >= 0.0
    ensures Gain(c, e, dt) >= 0.0
    ensures dt > 0.0 && e != 0.0 && Limit(c, e) > 0.0 ==> Gain(c, e, dt) > 0.0
  {
    var m := Min(Limit(c, e), Abs(e) / c.window);
    assert Abs(e) / c.window >= 0.0 && (e != 0.0 ==> Abs(e) / c.window > 0.0);
    Scaled(dt, m);
    if dt > 0.0 && m > 0.0 { Positive(dt, m); }
  }

  lemma Positive(a: real, b: real)
    requires a > 0.0 && b > 0.0
    ensures Times(a, b) > 0.0
  {
  }

  /** Each render shrinks the error by at least its gain, so strictly unless a rate limit of 1 forbids it. */
  lemma ErrorContracts(c: Config, target: real, v: View, now: real, offset: real)
    requires Sane(c) && target >= 0.0 && Started(v)
    requires 0.0 <= now - v.lastClient.value <= c.window
    ensures var dt, e := now - v.lastClient.value, Error(v, target, offset);
            var v' := Rendered(c, target, v, now, Some(now + offset));
            && Started(v') && Abs(Error(v', target, offset)) <= Abs(e) - Gain(c, e, dt)
            && (dt > 0.0 && e != 0.0 && Limit(c, e) > 0.0 ==> Abs(Error(v', target, offset)) < Abs(e))
  {
    hide Asked, Gain;
    var dt, e := now - v.lastClient.value, Error(v, target, offset);
    assert now + offset - (v.cursor.value + dt) - target == e;
    AskedBetween(c, e, dt);
    AskedGain(c, e, dt);
    GainPositive(c, e, dt);
    AdvanceGains(e, target, dt, Asked(c, dt, e), Gain(c, e, dt));
  }

  /** The advance asked for differs from the elapsed time by exactly the gain. */
  lemma AskedGain(c: Config, e: real, dt: real)
    requires Sane(c) && dt >= 0.0
    ensures Asked(c, dt, e) == if e >= 0.0 then dt + Gain(c, e, dt) else dt - Gain(c, e, dt)
  {
    var m, q := Min(Limit(c, e), Abs(e) / c.window), e / c.window;
    if e >= 0.0 {
      assert q >= 0.0 && Abs(e) / c.window == q;
      assert Rate(c, e) == 1.0 + m;
      assert dt * (1.0 + m) == dt + dt * m;
    } else {
      assert q <= 0.0 && Abs(e) / c.window == -q;
      assert Rate(c, e) == 1.0 - m;
      assert dt * (1.0 - m) == dt - dt * m;
    }
  }

  lemma AdvanceGains(e: real, target: real, dt: real, requested: real, gain: real)
    requires target >= 0.0 && dt >= 0.0
    requires if e >= 0.0 then dt <= requested <= dt + e else dt + e <= requested <= dt
    requires requested == if e >= 0.0 then dt + gain else dt - gain
    ensures Abs(e + dt - Min(requested, Max(0.0, e + target + dt))) <= Abs(e) - gain
  {
  }

  function RenderAll(c: Config, target: real, v: View, offset: real, times: seq<real>): View
    requires Sane(c)
    decreases |times|
  {
    if times == [] then v
    else
      var n := |times| - 1;
      Rendered(c, target, RenderAll(c, target, v, offset, times[..n]), times[n], Some(times[n] + offset))
  }

  /** Client times that do not run backwards and are at most one window apart. */
  ghost predicate Paced(c: Config, start: real, times: seq<real>) {
    forall i | 0 <= i < |times| :: 0.0 <= times[i] - Before(start, times, i) <= c.window
  }

  function Before(start: real, times: seq<real>, i: nat): real
    requires i <= |times|
  {
    if i == 0 then start else times[i - 1]
  }

  /** While offset and target stay fixed, every later error is closer to zero than every earlier one. */
  lemma {:induction false} Converges(c: Config, target: real, v: View, offset: real, times: seq<real>)
    requires Sane(c) && target >= 0.0 && Started(v) && Paced(c, v.lastClient.value, times)
    ensures var v' := RenderAll(c, target, v, offset, times);
            && Started(v') && Closer(Error(v, target, offset), Error(v', target, offset))
            && v'.lastClient.value == if times == [] then v.lastClient.value else times[|times| - 1]
    decreases |times|
  {
    hide Error, Rendered;
    if times == [] {
      SelfClose(Error(v, target, offset));
    } else {
      var n := |times| - 1;
      var earlier := times[..n];
      assert forall i | 0 <= i < n :: Before(v.lastClient.value, earlier, i) == Before(v.lastClient.value, times, i);
      Converges(c, target, v, offset, earlier);
      var w := RenderAll(c, target, v, offset, earlier);
      assert Before(v.lastClient.value, times, n) == w.lastClient.value;
      ErrorShrinks(c, target, w, times[n], offset);
      ClientTime(c, target, w, times[n], Some(times[n] + offset));
    }
  }

  lemma SelfClose(e: real)
    ensures Closer(e, e)
  {
  }

  lemma ClientTime(c: Config, target: real, v: View, now: real, server: Option<real>)
    requires Sane(c) && Started(v) && server.Some? && v.lastClient.value <= now
    ensures Rendered(c, target, v, now, server).lastClient == Some(now)
  {
  }

  // ---- How fast ------------------------------------------------------------------------------------

  /** What a render `dt` after the last one leaves of an error within the rate limits. */
  function Kept(c: Config, dt: real): real
    requires Sane(c)
  {
    1.0 - dt / c.window
  }

  /** What a series of renders leaves of it. */
  function Remaining(c: Config, start: real, times: seq<real>): real
    requires Sane(c)
    decreases |times|
  {
    if times == [] then 1.0
    else
      var n := |times| - 1;
      Times(Kept(c, times[n] - Before(start, times, n)), Remaining(c, start, times[..n]))
  }

  /** No rate limit binds at this error. */
  predicate Free(c: Config, e: real) {
    Abs(e) <= Times(c.window, Min(c.maxRate - 1.0, 1.0 - c.minRate))
  }

  /** One render where no limit binds: the fraction `dt / window` of the error is taken off. */
  lemma FreeRender(c: Config, target: real, v: View, now: real, offset: real)
    requires Sane(c) && target >= 0.0 && Started(v) && Free(c, Error(v, target, offset))
    requires 0.0 <= now - v.lastClient.value <= c.window
    ensures var dt, e := now - v.lastClient.value, Error(v, target, offset);
            var v' := Rendered(c, target, v, now, Some(now + offset));
            Started(v') && Abs(Error(v', target, offset)) <= Times(Kept(c, dt), Abs(e))
  {
    hide Rendered, Error, Times, Kept, Gain;
    ErrorContracts(c, target, v, now, offset);
    FreeGain(c, Error(v, target, offset), now - v.lastClient.value);
  }

  /** Where no rate limit binds the error shrinks geometrically, by `dt / window` of what is left at each render. */
  lemma {:induction false} ConvergesGeometrically(c: Config, target: real, v: View, offset: real, times: seq<real>)
    requires Sane(c) && target >= 0.0 && Started(v) && Paced(c, v.lastClient.value, times)
    requires Free(c, Error(v, target, offset))
    ensures var v' := RenderAll(c, target, v, offset, times);
            && Started(v')
            && Abs(Error(v', target, offset)) <= Times(Remaining(c, v.lastClient.value, times), Abs(Error(v, target,
                offset)))
    decreases |times|
  {
    hide Error, Rendered, Times, Abs, Kept, Free, Closer, Sane;
    var start, e0 := v.lastClient.value, Error(v, target, offset);
    if times == [] {
      Unit(Abs(e0));
    } else {
      var n := |times| - 1;
      var earlier := times[..n];
      assert forall i | 0 <= i < n :: Before(start, earlier, i) == Before(start, times, i);
      Converges(c, target, v, offset, earlier);
      ConvergesGeometrically(c, target, v, offset, earlier);
      var w := RenderAll(c, target, v, offset, earlier);
      assert Before(start, times, n) == w.lastClient.value;
      var dt, e := times[n] - w.lastClient.value, Error(w, target, offset);
      StaysFree(c, e0, e);
      FreeRender(c, target, w, times[n], offset);
      KeptScales(c, dt, Abs(e), Remaining(c, start, earlier), Abs(e0));
    }
  }

  lemma Unit(x: real)
    ensures Times(1.0, x) == x
  {
  }

  lemma StaysFree(c: Config, before: real, after: real)
    requires Free(c, before) && Closer(before, after)
    ensures Free(c, after)
  {
    hide Times;
  }

  /** Below the limits the gain is the error times `dt / window`. */
  lemma FreeGain(c: Config, e: real, dt: real)
    requires Sane(c) && Free(c, e)
    ensures Abs(e) - Gain(c, e, dt) == Times(Kept(c, dt), Abs(e))
  {
    var k, a, w := Min(c.maxRate - 1.0, 1.0 - c.minRate), Abs(e), c.window;
    var q := a / w;
    assert q * w == a;
    AtMost(q, k, w);
    assert Min(Limit(c, e), q) == q;
    var t := dt / w;
    assert t * w == dt;
    assert dt * q == t * (w * q) == t * a;
    assert (1.0 - t) * a == a - t * a;
  }

  lemma AtMost(q: real, k: real, w: real)
    requires w >= 1.0 && q * w <= w * k
    ensures q <= k
  {
    assert (q - k) * w == q * w - w * k;
    if q > k { Positive(q - k, w); }
  }

  lemma KeptScales(c: Config, dt: real, e: real, r: real, e0: real)
    requires Sane(c) && 0.0 <= dt <= c.window && e <= Times(r, e0)
    ensures Times(Kept(c, dt), e) <= Times(Times(Kept(c, dt), r), e0)
  {
    var k := Kept(c, dt);
    assert 0.0 <= dt / c.window <= 1.0;
    Scaled(k, Times(r, e0) - e);
    assert k * (r * e0 - e) == k * (r * e0) - k * e;
    assert k * (r * e0) == (k * r) * e0;
  }
}
