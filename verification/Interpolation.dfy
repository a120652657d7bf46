/**
 InterpolationCore.cs over real numbers: the epoch-aware sample ring, and the position
 and orientation it gives at a render time. The half turn `pi` is any positive number
 and the interpolation of two quaternions any function.
 */
module Interpolation {
  import opened Words
  import opened Serial
  import opened Reals

  datatype Quat = Quat(x: real, y: real, z: real, w: real)

  datatype Sample = Sample(x: real, y: real, z: Option<real>, velX: real, velY: real, velZ: Option<real>,
                           rotation: real, quat: Option<Quat>, at: real, epoch: Option<U32>)

  datatype Status = Accepted(reset: bool) | StaleTime | OlderEpoch

  datatype Ring = Ring(samples: seq<Sample>, epoch: Option<U32>)

  // ---- The ring ----------------------------------------------------------------------------

  predicate MovesBack(samples: seq<Sample>, at: real) {
    |samples| > 0 && at < samples[|samples| - 1].at
  }

  function Append(samples: seq<Sample>, s: Sample, size: nat): seq<Sample>
    requires size > 0
  {
    if |samples| + 1 > size then samples[1..] + [s] else samples + [s]
  }

  /** The newer authority takes over; a clock that moved back discards the old timeline. */
  function TakeOver(r: Ring, s: Sample, size: nat): (Ring, Status)
    requires size > 0
  {
    var back := MovesBack(r.samples, s.at);
    (Ring(Append(if back then [] else r.samples, s, size), s.epoch), Accepted(back))
  }

  /** `PushSampleWithStatus`. */
  function Push(r: Ring, s: Sample, size: nat): (Ring, Status)
    requires size > 0
  {
    if s.epoch.Some? && r.epoch.Some? && s.epoch != r.epoch then
      if IsNewer(s.epoch.value, r.epoch.value) then TakeOver(r, s, size) else (r, OlderEpoch)
    else if s.epoch.Some? && r.epoch.None? then TakeOver(r, s, size)
    else if MovesBack(r.samples, s.at) then (r, StaleTime)
    else (r.(samples := Append(r.samples, s, size)), Accepted(false))
  }

  /** The list and the epoch the caller owns, changed in place. */
  class SampleRing {
    var samples: seq<Sample>
    var epoch: Option<U32>

    ghost function Now(): Ring
      reads this
    {
      Ring(samples, epoch)
    }

    constructor ()
      ensures Now() == Ring([], None)
    {
      samples, epoch := [], None;
    }

    method AppendSample(s: Sample, size: nat)
      requires size > 0
      modifies this`samples
      ensures samples == Append(old(samples), s, size)
    {
      samples := samples + [s];
      if |samples| > size {
        samples := samples[1..];
      }
    }

    /** `None` stands for the exception on a ring size that is not positive. */
    method PushSample(s: Sample, size: int) returns (status: Option<Status>)
      modifies this
      ensures if size <= 0 then status.None? && Now() == old(Now())
              else status.Some? && (Now(), status.value) == Push(old(Now()), s, size)
    {
      if size <= 0 {
        return None;
      }
      if s.epoch.Some? && epoch.Some? {
        if s.epoch.value != epoch.value {
          if !IsNewer(s.epoch.value, epoch.value) {
            return Some(OlderEpoch);
          }
          epoch := s.epoch;
          var back := |samples| > 0 && s.at < samples[|samples| - 1].at;
          if back {
            samples := [];
          }
          AppendSample(s, size);
          return Some(Accepted(back));
        }
      } else if s.epoch.Some? {
        epoch := s.epoch;
        var back := |samples| > 0 && s.at < samples[|samples| - 1].at;
        if back {
          samples := [];
        }
        AppendSample(s, size);
        return Some(Accepted(back));
      }
      if |samples| > 0 && s.at < samples[|samples| - 1].at {
        return Some(StaleTime);
      }
      AppendSample(s, size);
      return Some(Accepted(false));
    }
  }

  ghost predicate Sorted(samples: seq<Sample>) {
    forall i, j | 0 <= i < j < |samples| :: samples[i].at <= samples[j].at
  }

  lemma AppendSorted(samples: seq<Sample>, s: Sample, size: nat)
    requires size > 0 && Sorted(samples) && |samples| <= size && !MovesBack(samples, s.at)
    ensures Sorted(Append(samples, s, size)) && |Append(samples, s, size)| <= size
  {
  }

  function Pushed(size: nat, pushes: seq<Sample>): Ring
    requires size > 0
    decreases |pushes|
  {
    if pushes == [] then Ring([], None) else Push(Pushed(size, pushes[..|pushes| - 1]), pushes[|pushes| - 1], size).0
  }

  /** In every run the ring is sorted by time and within its size. */
  lemma {:induction false} AlwaysSorted(size: nat, pushes: seq<Sample>)
    requires size > 0
    ensures Sorted(Pushed(size, pushes).samples) && |Pushed(size, pushes).samples| <= size
    decreases |pushes|
  {
    hide IsNewer, Append, Sorted;
    if pushes == [] {
      EmptySorted();
    } else {
      var n := |pushes| - 1;
      AlwaysSorted(size, pushes[..n]);
      var r, s := Pushed(size, pushes[..n]), pushes[n];
      EmptySorted();
      AppendSorted([], s, size);
      if !MovesBack(r.samples, s.at) { AppendSorted(r.samples, s, size); }
    }
  }

  lemma EmptySorted()
    ensures Sorted([])
  {
  }

  /** One push never moves the epoch back; only a sample of a newer epoch, or the first with one, moves it at all. */
  lemma EpochAdvances(r: Ring, s: Sample, size: nat)
    requires size > 0
    ensures var (t, status) := Push(r, s, size);
            && (t.epoch == r.epoch || (t.epoch == s.epoch && s.epoch.Some?
                && (r.epoch.None? || IsNewer(s.epoch.value, r.epoch.value))))
            && (!status.Accepted? ==> t == r)
            && (status.Accepted? ==> |t.samples| > 0 && t.samples[|t.samples| - 1] == s)
  {
    hide IsNewer;
  }

  /** The epochs the pushed samples carry, in order. */
  function Epochs(pushes: seq<Sample>): seq<U32>
    decreases |pushes|
  {
    if pushes == [] then []
    else
      var n := |pushes| - 1;
      Epochs(pushes[..n]) + (if pushes[n].epoch.Some? then [pushes[n].epoch.value] else [])
  }

  /** In every run the ring's epoch is the running serial maximum of the epochs pushed, whatever the times. */
  lemma {:induction false} EpochIsLatest(size: nat, pushes: seq<Sample>)
    requires size > 0
    ensures Pushed(size, pushes).epoch == Latest(None, Epochs(pushes))
    decreases |pushes|
  {
    hide IsNewer, Append, MovesBack;
    if pushes == [] {
      assert Epochs(pushes) == [];
    } else {
      var n := |pushes| - 1;
      EpochIsLatest(size, pushes[..n]);
      var s := pushes[n];
      if s.epoch.Some? {
        LatestConcat(None, Epochs(pushes[..n]), [s.epoch.value]);
        assert [s.epoch.value][1..] == [];
      } else {
        assert Epochs(pushes[..n]) + [] == Epochs(pushes[..n]);
      }
    }
  }

  /** Once set, the epoch never moves back in any later state of any run, counted within one half of the range. */
  lemma EpochNeverFalls(size: nat, earlier: seq<Sample>, later: seq<Sample>, low: U32)
    requires size > 0 && Pushed(size, earlier).epoch.Some?
    requires Near(low, [Pushed(size, earlier).epoch.value] + Epochs(later))
    ensures var e, t := Pushed(size, earlier).epoch.value, Pushed(size, earlier + later).epoch;
            && t.Some? && Distance(low, e) <= Distance(low, t.value)
            && forall c :: c in Epochs(later) ==> Distance(low, c) <= Distance(low, t.value)
  {
    hide Pushed, Distance, Latest, Near;
    EpochIsLatest(size, earlier);
    EpochIsLatest(size, earlier + later);
    EpochsConcat(earlier, later);
    LatestConcat(None, Epochs(earlier), Epochs(later));
    var e := Pushed(size, earlier).epoch.value;
    LatestIsMax(low, e, Epochs(later));
    assert ([e] + Epochs(later))[0] == e;
  }

  lemma {:induction false} EpochsConcat(a: seq<Sample>, b: seq<Sample>)
    ensures Epochs(a + b) == Epochs(a) + Epochs(b)
    decreases |b|
  {
    if b == [] {
      assert a + b == a;
    } else {
      var n := |b| - 1;
      assert (a + b)[..|a| + n] == a + b[..n];
      EpochsConcat(a, b[..n]);
    }
  }

  // ---- What the ring holds ------------------------------------------------------------------

  /** The authority a run is under: the serially latest epoch pushed so far. */
  function Authority(pushes: seq<Sample>): Option<U32> {
    Latest(None, Epochs(pushes))
  }

  /** The sample takes over: it carries an epoch, and that is the first or a newer one. */
  predicate Leads(authority: Option<U32>, s: Sample) {
    s.epoch.Some? && (authority.None? || IsNewer(s.epoch.value, authority.value))
  }

  /** How a push is answered, given the authority and the samples so far. */
  function Answer(authority: Option<U32>, timeline: seq<Sample>, s: Sample): Status {
    var back := timeline != [] && s.at < timeline[|timeline| - 1].at;
    if Leads(authority, s) then Accepted(back)
    else if s.epoch.Some? && s.epoch != authority then OlderEpoch
    else if back then StaleTime
    else Accepted(false)
  }

  /** All samples taken since time last went back, however many. */
  function Timeline(pushes: seq<Sample>): seq<Sample>
    decreases |pushes|
  {
    if pushes == [] then []
    else
      var n := |pushes| - 1;
      var earlier := Timeline(pushes[..n]);
      match Answer(Authority(pushes[..n]), earlier, pushes[n])
      case Accepted(reset) => if reset then [pushes[n]] else earlier + [pushes[n]]
      case _ => earlier
  }

  function Last(samples: seq<Sample>, size: nat): seq<Sample> {
    if |samples| > size then samples[|samples| - size..] else samples
  }

  lemma PushAnswered(r: Ring, timeline: seq<Sample>, s: Sample, size: nat)
    requires size > 0 && r.samples == Last(timeline, size)
    ensures var (t, status) := Push(r, s, size);
            && status == Answer(r.epoch, timeline, s)
            && t.samples == Last(match status
                                 case Accepted(reset) => if reset then [s] else timeline + [s]
                                 case _ => timeline, size)
  {
    if r.epoch.Some? && s.epoch.Some? { NewerAsymmetric(s.epoch.value, r.epoch.value); }
    hide IsNewer;
    assert (timeline != []) == (r.samples != []);
    assert timeline != [] ==> r.samples[|r.samples| - 1] == timeline[|timeline| - 1];
  }

  /** In every run the ring holds the newest samples of the timeline, and answers a push as the history says. */
  lemma {:induction false} RingIsNewest(size: nat, pushes: seq<Sample>, s: Sample)
    requires size > 0
    ensures Pushed(size, pushes).samples == Last(Timeline(pushes), size)
    ensures Push(Pushed(size, pushes), s, size).1 == Answer(Authority(pushes), Timeline(pushes), s)
    decreases |pushes|
  {
    hide Push, Answer, Last, Authority;
    EpochIsAuthority(size, pushes);
    if pushes == [] {
      NothingPushed(size);
    } else {
      var n := |pushes| - 1;
      RingIsNewest(size, pushes[..n], pushes[n]);
      EpochIsAuthority(size, pushes[..n]);
      PushAnswered(Pushed(size, pushes[..n]), Timeline(pushes[..n]), pushes[n], size);
    }
    PushAnswered(Pushed(size, pushes), Timeline(pushes), s, size);
  }

  lemma EpochIsAuthority(size: nat, pushes: seq<Sample>)
    requires size > 0
    ensures Pushed(size, pushes).epoch == Authority(pushes)
  {
    EpochIsLatest(size, pushes);
  }

  lemma NothingPushed(size: nat)
    ensures Last([], size) == []
  {
  }

  // ---- Staleness ---------------------------------------------------------------------------

  /** The epoch-aware `IsStaleSample`. */
  predicate IsStale(r: Ring, at: real, incoming: Option<U32>) {
    if incoming.Some? && r.epoch.Some? && incoming != r.epoch then !IsNewer(incoming.value, r.epoch.value)
    else MovesBack(r.samples, at)
  }

  /** The predicate agrees with the push except for a first epoch arriving with an older time. */
  lemma StaleIffRejected(r: Ring, s: Sample, size: nat)
    requires size > 0
    ensures (IsStale(r, s.at, s.epoch) <==> !Push(r, s, size).1.Accepted?)
            <==> !(r.epoch.None? && s.epoch.Some? && MovesBack(r.samples, s.at))
  {
    hide IsNewer;
  }

  /** The exception is real: called stale, yet accepted. */
  lemma StaleYetAccepted()
    ensures exists r: Ring, s: Sample :: IsStale(r, s.at, s.epoch) && Push(r, s, 8).1.Accepted?
  {
    var first := Sample(0.0, 0.0, None, 0.0, 0.0, None, 0.0, None, 10.0, None);
    var r := Ring([first], None);
    var s := first.(at := 5.0, epoch := Some(1));
    assert IsStale(r, s.at, s.epoch) && Push(r, s, 8).1.Accepted?;
  }

  // ---- Interpolation -----------------------------------------------------------------------

  datatype Mode = Hold | Interpolate | Extrapolate

  datatype Result = Result(x: real, y: real, z: Option<real>, rotation: real, quat: Option<Quat>,
                           mode: Mode, extrapolated: real)

  datatype Turning = Turning(pi: real, slerp: (Quat, Quat, real) -> Quat)

  function Lerp(a: real, b: real, t: real): real {
    Mix(a, b, t)
  }

  /** The pair of neighbours the loop settles on: the last inner sample not after the render time. */
  function Bracket(samples: seq<Sample>, time: real, n: nat): (k: nat)
    requires 1 <= n < |samples|
    ensures k < n
  {
    if n == 1 then 0 else if samples[n - 1].at <= time then n - 1 else Bracket(samples, time, n - 1)
  }

  function Held(s: Sample): Result {
    Result(s.x, s.y, s.z, s.rotation, s.quat, Hold, 0.0)
  }

  /** A coordinate after `span` milliseconds at a velocity per second. */
  function Along(x: real, vel: real, span: real): real {
    x + vel * (span / 1000.0)
  }

  /** The newest sample carried on along its velocity, no further than the cap. */
  function Extended(s: Sample, time: real, cap: real): Result {
    var asked := Max(0.0, time - s.at);
    var span := Min(asked, Max(0.0, cap));
    Result(Along(s.x, s.velX, span), Along(s.y, s.velY, span),
           if s.z.Some? then Some(Along(s.z.value, if s.velZ.Some? then s.velZ.value else 0.0, span)) else None,
           s.rotation, s.quat, if span > 0.0 && asked <= cap then Extrapolate else Hold, span)
  }

  function Blended(turn: Turning, a: Sample, b: Sample, t: real): Result
    requires turn.pi > 0.0
  {
    Result(Lerp(a.x, b.x, t), Lerp(a.y, b.y, t),
           if a.z.Some? && b.z.Some? then Some(Lerp(a.z.value, b.z.value, t)) else None,
           AngleBetween(a.rotation, b.rotation, t, turn.pi),
           if a.quat.Some? && b.quat.Some? then Some(turn.slerp(a.quat.value, b.quat.value, t)) else None,
           Interpolate, 0.0)
  }

  // ---- Angles ------------------------------------------------------------------------------

  /** How many full turns an angle is away from the nearest half turn. */
  function Turns(diff: real, pi: real): nat
    requires pi > 0.0
  {
    var n := ((diff + pi) / (2.0 * pi)).Floor;
    if n < 0 then -n else n
  }

  lemma OneTurn(diff: real, pi: real)
    requires pi > 0.0
    ensures diff > pi ==> Turns(diff - 2.0 * pi, pi) < Turns(diff, pi)
    ensures diff < -pi ==> Turns(diff + 2.0 * pi, pi) < Turns(diff, pi)
  {
    var x, full := (diff + pi) / (2.0 * pi), 2.0 * pi;
    assert x * full == diff + pi;
    Same(diff - full + pi, full, x - 1.0);
    Same(diff + full + pi, full, x + 1.0);
    if diff > pi { Above(x, full, 1.0); }
    if diff < -pi { Above(0.0, full, x); }
  }

  lemma Same(y: real, full: real, x: real)
    requires full > 0.0 && x * full == y
    ensures y / full == x
  {
  }

  lemma Above(x: real, full: real, bound: real)
    requires full > 0.0 && x * full > bound * full
    ensures x > bound
  {
  }

  /** The angle taken off or added by full turns until it is at most half a turn. */
  function ShortWay(diff: real, pi: real): (r: real)
    requires pi > 0.0
    ensures -pi <= r <= pi
    decreases Turns(diff, pi)
  {
    OneTurn(diff, pi);
    if diff > pi then ShortWay(diff - 2.0 * pi, pi)
    else if diff < -pi then ShortWay(diff + 2.0 * pi, pi)
    else diff
  }

  /** It is the same angle: a whole number of turns away. */
  lemma {:induction false} ShortWayTurns(diff: real, pi: real) returns (k: int)
    requires pi > 0.0
    ensures ShortWay(diff, pi) == diff + Times(k as real, 2.0 * pi)
    decreases Turns(diff, pi)
  {
    OneTurn(diff, pi);
    if diff > pi {
      k := ShortWayTurns(diff - 2.0 * pi, pi);
      k := k - 1;
    } else if diff < -pi {
      k := ShortWayTurns(diff + 2.0 * pi, pi);
      k := k + 1;
    } else {
      k := 0;
    }
  }

  function AngleBetween(a: real, b: real, t: real, pi: real): real
    requires pi > 0.0
  {
    a + Times(t, ShortWay(b - a, pi))
  }

  /** `LerpAngle`: the two loops. */
  method LerpAngle(a: real, b: real, t: real, pi: real) returns (r: real)
    requires pi > 0.0
    ensures r == AngleBetween(a, b, t, pi)
  {
    var diff := b - a;
    while diff > pi
      invariant ShortWay(b - a, pi) == ShortWay(diff, pi)
      decreases Turns(diff, pi)
    {
      OneTurn(diff, pi);
      diff := diff - pi * 2.0;
    }
    while diff < -pi
      invariant diff <= pi && ShortWay(b - a, pi) == ShortWay(diff, pi)
      decreases Turns(diff, pi)
    {
      OneTurn(diff, pi);
      diff := diff + pi * 2.0;
    }
    r := a + Times(t, diff);
  }

  /** The rotation turns the short way round: at most half a turn, ending at the second angle up to full turns. */
  lemma RotationIsShort(a: real, b: real, t: real, pi: real) returns (k: int)
    requires pi > 0.0 && 0.0 <= t <= 1.0
    ensures -pi <= AngleBetween(a, b, t, pi) - a <= pi
    ensures AngleBetween(a, b, 1.0, pi) == b + Times(k as real, 2.0 * pi)
    ensures AngleBetween(a, b, 0.0, pi) == a
  {
    k := ShortWayTurns(b - a, pi);
    TimesConvex(t, ShortWay(b - a, pi));
  }

  // ---- The ring at a time --------------------------------------------------------------------

  /** Motion between two samples starts no earlier than one render delay before the second. */
  function Begin(a: Sample, b: Sample, delay: real): real {
    Max(a.at, b.at - delay)
  }

  function At(turn: Turning, samples: seq<Sample>, time: real, cap: real, delay: real): Option<Result>
    requires turn.pi > 0.0
  {
    if |samples| == 0 then None
    else if |samples| == 1 then Some(Held(samples[0]))
    else
      var k := Bracket(samples, time, |samples| - 1);
      var a, b := samples[k], samples[k + 1];
      var begin := Begin(a, b, delay);
      if time <= begin then Some(Held(a))
      else if time >= b.at then Some(Extended(b, time, cap))
      else Some(Blended(turn, a, b, (time - begin) / (b.at - begin)))
  }

  /** `InterpolateRing`: no input makes it divide by zero. */
  method InterpolateRing(turn: Turning, samples: seq<Sample>, time: real, cap: real, delay: real)
    returns (r: Option<Result>)
    requires turn.pi > 0.0
    ensures r == At(turn, samples, time, cap, delay)
  {
    var n := |samples|;
    if n == 0 {
      return None;
    }
    if n == 1 {
      return Some(Held(samples[0]));
    }
    var k := 0;
    for i := 1 to n - 1
      invariant 0 <= k < n - 1 && k == Bracket(samples, time, i)
    {
      if samples[i].at <= time {
        k := i;
      }
    }
    var a, b := samples[k], samples[k + 1];
    var begin := Max(a.at, b.at - delay);
    if time <= begin {
      return Some(Held(a));
    }
    if time >= b.at {
      return Some(Extended(b, time, cap));
    }
    var t := (time - begin) / (b.at - begin);
    var rotation := LerpAngle(a.rotation, b.rotation, t, turn.pi);
    r := Some(Result(Lerp(a.x, b.x, t), Lerp(a.y, b.y, t),
                     if a.z.Some? && b.z.Some? then Some(Lerp(a.z.value, b.z.value, t)) else None,
                     rotation,
                     if a.quat.Some? && b.quat.Some? then Some(turn.slerp(a.quat.value, b.quat.value, t)) else None,
                     Interpolate, 0.0));
  }

  lemma {:induction false} BracketIs(samples: seq<Sample>, time: real, n: nat)
    requires 1 <= n < |samples| && Sorted(samples)
    ensures var k := Bracket(samples, time, n);
            && (k > 0 ==> samples[k].at <= time)
            && (forall i | k < i < n :: samples[i].at > time)
  {
    if n > 1 && samples[n - 1].at > time { BracketIs(samples, time, n - 1); }
  }

  lemma Within(a: real, b: real, t: real)
    requires 0.0 <= t <= 1.0
    ensures Min(a, b) <= Lerp(a, b, t) <= Max(a, b)
  {
    hide Mix;
    MixBetween(a, b, t);
  }

  /** The two samples bracket the render time, and the position lies between theirs. */
  ghost predicate Between(samples: seq<Sample>, k: nat, time: real, r: Result) {
    && k + 1 < |samples| && samples[k].at < time < samples[k + 1].at
    && Min(samples[k].x, samples[k + 1].x) <= r.x <= Max(samples[k].x, samples[k + 1].x)
    && Min(samples[k].y, samples[k + 1].y) <= r.y <= Max(samples[k].y, samples[k + 1].y)
    && (r.z.Some? <==> samples[k].z.Some? && samples[k + 1].z.Some?)
    && (r.z.Some? ==>
          Min(samples[k].z.value, samples[k + 1].z.value) <= r.z.value <= Max(samples[k].z.value,
              samples[k + 1].z.value))
  }

  /**
   On a sorted ring: extrapolation only past the newest sample and within the cap,
   interpolation only between neighbours.
   */
  lemma InterpolationIsSafe(turn: Turning, samples: seq<Sample>, time: real, cap: real, delay: real)
    requires turn.pi > 0.0 && Sorted(samples) && |samples| > 0
    ensures var r := At(turn, samples, time, cap, delay).value;
            && 0.0 <= r.extrapolated <= Max(0.0, cap)
            && (r.extrapolated > 0.0 ==> time > samples[|samples| - 1].at)
            && (r.extrapolated > 0.0 ==> r.extrapolated <= time - samples[|samples| - 1].at)
            && (r.mode == Extrapolate ==> r.extrapolated > 0.0 && r.extrapolated == time - samples[|samples| - 1].at)
            && (r.mode == Interpolate ==> exists k: nat :: Between(samples, k, time, r))
            && (r.mode == Hold && r.extrapolated == 0.0 ==> exists k | 0 <= k < |samples| :: r == Held(samples[k]))
  {
    hide Lerp, Between, AngleBetween;
    if |samples| == 1 {
      assert At(turn, samples, time, cap, delay).value == Held(samples[0]);
    } else {
      var k := Bracket(samples, time, |samples| - 1);
      BracketIs(samples, time, |samples| - 1);
      var a, b := samples[k], samples[k + 1];
      var begin := Begin(a, b, delay);
      if begin < time < b.at {
        Fraction(time - begin, b.at - begin);
        BlendBetween(turn, samples, k, time, (time - begin) / (b.at - begin));
      } else if begin < time {
        NewestReached(samples, time, k);
        ExtendedIs(b, time, cap);
      }
    }
  }

  /**
   Between two samples each coordinate moves at constant speed from the first at `begin` to
   the second at its time.
   */
  lemma BlendIsLinear(a: real, b: real, begin: real, end: real, time: real)
    requires begin < time < end
    ensures (end - begin) * (Lerp(a, b, (time - begin) / (end - begin)) - a) == (time - begin) * (b - a)
  {
    var p, q := time - begin, end - begin;
    var t := p / q;
    assert q * t == p;
    calc {
      q * (t * (b - a));
      (q * t) * (b - a);
      p * (b - a);
    }
    assert Lerp(a, b, t) - a == t * (b - a);
  }

  /** Past the newest sample each coordinate follows its velocity for the extrapolated time. */
  lemma ExtensionIsLinear(s: Sample, time: real, cap: real)
    ensures var r := Extended(s, time, cap);
            && 1000.0 * (r.x - s.x) == s.velX * r.extrapolated && 1000.0 * (r.y - s.y) == s.velY * r.extrapolated
            && (r.z.Some? <==> s.z.Some?)
            && (s.z.Some? && s.velZ.Some? ==> 1000.0 * (r.z.value - s.z.value) == s.velZ.value * r.extrapolated)
  {
    hide Along;
    var r := Extended(s, time, cap);
    AlongIsLinear(s.x, s.velX, r.extrapolated);
    AlongIsLinear(s.y, s.velY, r.extrapolated);
    if s.z.Some? && s.velZ.Some? { AlongIsLinear(s.z.value, s.velZ.value, r.extrapolated); }
  }

  lemma AlongIsLinear(x: real, vel: real, span: real)
    ensures 1000.0 * (Along(x, vel, span) - x) == vel * span
  {
    var q := span / 1000.0;
    assert 1000.0 * q == span;
    assert 1000.0 * (vel * q) == vel * (1000.0 * q);
  }

  lemma Fraction(p: real, q: real)
    requires 0.0 < p < q
    ensures 0.0 <= p / q <= 1.0
  {
  }

  lemma BlendBetween(turn: Turning, samples: seq<Sample>, k: nat, time: real, t: real)
    requires turn.pi > 0.0 && k + 1 < |samples| && samples[k].at < time < samples[k + 1].at && 0.0 <= t <= 1.0
    ensures Between(samples, k, time, Blended(turn, samples[k], samples[k + 1], t))
  {
    hide Lerp, AngleBetween;
    var a, b := samples[k], samples[k + 1];
    Within(a.x, b.x, t);
    Within(a.y, b.y, t);
    if a.z.Some? && b.z.Some? { Within(a.z.value, b.z.value, t); }
  }

  /** A time at or past the second of the pair is past every sample. */
  lemma NewestReached(samples: seq<Sample>, time: real, k: nat)
    requires Sorted(samples) && k + 1 < |samples| && samples[k + 1].at <= time
    requires forall i | k < i < |samples| - 1 :: samples[i].at > time
    ensures k + 1 == |samples| - 1
  {
  }

  lemma ExtendedIs(s: Sample, time: real, cap: real)
    requires time >= s.at
    ensures var r := Extended(s, time, cap);
            && 0.0 <= r.extrapolated <= Max(0.0, cap) && r.extrapolated <= time - s.at && r.mode != Interpolate
            && (r.mode == Extrapolate ==> r.extrapolated == time - s.at && r.extrapolated > 0.0)
            && (r.extrapolated == 0.0 ==> r == Held(s))
  {
    hide Along;
    var r := Extended(s, time, cap);
    if r.extrapolated == 0.0 {
      Still(s.x, s.velX, r.extrapolated);
      Still(s.y, s.velY, r.extrapolated);
      if s.z.Some? { Still(s.z.value, if s.velZ.Some? then s.velZ.value else 0.0, r.extrapolated); }
      assert r.x == s.x && r.y == s.y && r.z == s.z;
    }
  }

  lemma Still(x: real, vel: real, span: real)
    requires span == 0.0
    ensures Along(x, vel, span) == x
  {
    assert span / 1000.0 == 0.0;
  }

  // ---- Exactly where it is ---------------------------------------------------------------------

  /** The pair at `k` is the one to use: the last inner sample not after the render time, or the first of all. */
  ghost predicate Chosen(samples: seq<Sample>, time: real, k: nat) {
    && k + 1 < |samples| && (k > 0 ==> samples[k].at <= time)
    && forall i :: k < i < |samples| - 1 ==> samples[i].at > time
  }

  lemma {:induction false} BracketChosen(samples: seq<Sample>, time: real, n: nat, k: nat)
    requires k < n < |samples| && (k > 0 ==> samples[k].at <= time)
    requires forall i :: k < i < n ==> samples[i].at > time
    ensures Bracket(samples, time, n) == k
    decreases n
  {
    if n == 1 || samples[n - 1].at <= time {
    } else {
      BracketChosen(samples, time, n - 1, k);
    }
  }

  /** A value that starts at `from` when `begin` strikes and has covered `way` at `end`, at constant speed. */
  ghost predicate OnTheWay(value: real, from: real, way: real, begin: real, end: real, time: real) {
    (end - begin) * (value - from) == (time - begin) * way
  }

  lemma PartOfWay(from: real, way: real, begin: real, end: real, time: real)
    requires begin < end
    ensures OnTheWay(from + Times((time - begin) / (end - begin), way), from, way, begin, end, time)
  {
    var p, q := time - begin, end - begin;
    var t := p / q;
    assert q * t == p;
    assert q * (t * way) == (q * t) * way;
  }

  /** Every part of the pose is as far along from `a` to `b` as the time is from `begin` to the second sample. */
  ghost predicate Moving(turn: Turning, a: Sample, b: Sample, begin: real, time: real, r: Result)
    requires turn.pi > 0.0
  {
    && r.mode == Interpolate && r.extrapolated == 0.0
    && OnTheWay(r.x, a.x, b.x - a.x, begin, b.at, time) && OnTheWay(r.y, a.y, b.y - a.y, begin, b.at, time)
    && (r.z.Some? <==> a.z.Some? && b.z.Some?)
    && (r.z.Some? ==> OnTheWay(r.z.value, a.z.value, b.z.value - a.z.value, begin, b.at, time))
    && OnTheWay(r.rotation, a.rotation, ShortWay(b.rotation - a.rotation, turn.pi), begin, b.at, time)
    && (r.quat.Some? <==> a.quat.Some? && b.quat.Some?)
    && (r.quat.Some? ==> exists t :: OnTheWay(t, 0.0, 1.0, begin, b.at, time)
                                     && r.quat.value == turn.slerp(a.quat.value, b.quat.value, t))
  }

  /** The newest sample carried along its velocity for the time past it, as far as the cap allows. */
  ghost predicate Coasting(s: Sample, time: real, cap: real, r: Result) {
    && r.extrapolated == Min(Max(0.0, time - s.at), Max(0.0, cap))
    && 1000.0 * (r.x - s.x) == s.velX * r.extrapolated && 1000.0 * (r.y - s.y) == s.velY * r.extrapolated
    && (r.z.Some? <==> s.z.Some?)
    && (s.z.Some? ==>
          1000.0 * (r.z.value - s.z.value) == (if s.velZ.Some? then s.velZ.value else 0.0) * r.extrapolated)
    && r.rotation == s.rotation && r.quat == s.quat
    && r.mode == if 0.0 < r.extrapolated == time - s.at then Extrapolate else Hold
  }

  lemma BlendMoves(turn: Turning, a: Sample, b: Sample, begin: real, time: real)
    requires turn.pi > 0.0 && begin < time < b.at
    ensures Moving(turn, a, b, begin, time, Blended(turn, a, b, (time - begin) / (b.at - begin)))
  {
    hide Times, OnTheWay;
    var t := (time - begin) / (b.at - begin);
    PartOfWay(a.x, b.x - a.x, begin, b.at, time);
    PartOfWay(a.y, b.y - a.y, begin, b.at, time);
    if a.z.Some? && b.z.Some? { PartOfWay(a.z.value, b.z.value - a.z.value, begin, b.at, time); }
    PartOfWay(a.rotation, ShortWay(b.rotation - a.rotation, turn.pi), begin, b.at, time);
    PartOfWay(0.0, 1.0, begin, b.at, time);
    assert 0.0 + Times(t, 1.0) == t by { Whole(t); }
  }

  lemma Whole(t: real)
    ensures Times(t, 1.0) == t
  {
  }

  lemma ExtensionCoasts(s: Sample, time: real, cap: real)
    ensures Coasting(s, time, cap, Extended(s, time, cap))
  {
    hide Along;
    var r := Extended(s, time, cap);
    AlongIsLinear(s.x, s.velX, r.extrapolated);
    AlongIsLinear(s.y, s.velY, r.extrapolated);
    if s.z.Some? { AlongIsLinear(s.z.value, if s.velZ.Some? then s.velZ.value else 0.0, r.extrapolated); }
  }

  /** A sample as it is. */
  ghost predicate Resting(s: Sample, r: Result) {
    && r.x == s.x && r.y == s.y && r.z == s.z && r.rotation == s.rotation && r.quat == s.quat
    && r.mode == Hold && r.extrapolated == 0.0
  }

  /**
   What the ring gives at any time, from its samples: nothing when empty, a lone sample as it
   is, else by the pair chosen for the time. Until motion begins that is the first of the pair
   as it is, from its second sample on that one coasting, and between them the pose on the way.
   */
  lemma PoseIsExact(turn: Turning, samples: seq<Sample>, time: real, cap: real, delay: real, k: nat)
    requires turn.pi > 0.0 && (|samples| > 1 ==> Chosen(samples, time, k))
    ensures var p := At(turn, samples, time, cap, delay);
            && (p.None? <==> samples == [])
            && (|samples| == 1 ==> Resting(samples[0], p.value))
            && (|samples| > 1 ==>
                  var a, b := samples[k], samples[k + 1];
                  var begin := if a.at >= b.at - delay then a.at else b.at - delay;
                  if time <= begin then Resting(a, p.value)
                  else if time < b.at then Moving(turn, a, b, begin, time, p.value)
                  else Coasting(b, time, cap, p.value))
  {
    hide Blended, Extended, Moving, Coasting;
    if |samples| > 1 {
      BracketChosen(samples, time, |samples| - 1, k);
      var a, b := samples[k], samples[k + 1];
      var begin := Begin(a, b, delay);
      if begin < time < b.at {
        BlendMoves(turn, a, b, begin, time);
      } else if begin < time {
        ExtensionCoasts(b, time, cap);
      }
    }
  }

  /** A sorted or unsorted ring of two or more samples always has a chosen pair. */
  lemma SomePairChosen(samples: seq<Sample>, time: real) returns (k: nat)
    requires |samples| > 1
    ensures Chosen(samples, time, k)
  {
    k := |samples| - 2;
    while k > 0 && samples[k].at > time
      invariant k + 1 < |samples| && forall i :: k < i < |samples| - 1 ==> samples[i].at > time
    {
      k := k - 1;
    }
  }
}
