/** The controller object of AdaptivePlaybackController.cs, with the clock it feeds. */
module PlaybackController {
  import opened Words
  import opened Reals
  import opened Clock
  import opened Playback

  /** One frame's timing; `produced` is missing for an empty frame. */
  datatype Observation = Observation(sequence: U32, restart: bool, streamChanged: Option<bool>,
                                     arrival: Option<real>, produced: Option<real>)

  predicate NewStream(o: Observation) {
    if o.streamChanged.Some? then o.streamChanged.value else o.restart
  }

  predicate IsStamped(o: Observation) {
    o.produced.Some? && o.arrival.Some?
  }

  function Reading(o: Observation): real
    requires IsStamped(o)
  {
    o.produced.value - o.arrival.value
  }

  class AdaptivePlaybackController {
    const config: Config
    const clock: ClockSync
    var counts: Counts
    var timing: Timing
    var view: View
    var reanchor: bool

    ghost predicate Valid()
      reads this, clock, clock.instants
    {
      Sane(config) && clock.Valid() && InBounds(config, timing) && !reanchor
    }

    constructor (options: Options, clock: ClockSync)
      requires clock.Valid()
      ensures Valid() && config == Configured(options) && this.clock == clock
      ensures Controller(timing, view) == NewController(config) && counts == Counts(None, 0, 0, 0, 0)
    {
      var c := Configured(options);
      config, this.clock := c, clock;
      counts, reanchor := Counts(None, 0, 0, 0, 0), false;
      timing, view := Timing(c.minDelay, 0.0, 0.0, None, 0.0), View(None, None, c.minDelay, 1.0);
    }

    /** Counts the frame, feeds the clock and moves the target; a new stream starts the clock afresh. */
    method ObserveFrame(o: Observation)
      requires Valid()
      modifies this, clock, clock.instants
      ensures Valid() && view == old(view)
      ensures clock.history == (if NewStream(o) then [] else old(clock.history))
          + (if IsStamped(o) then [Reading(o)] else [])
      ensures var (c, gap) := Count(old(counts), NewStream(o), o.sequence);
              && counts == c
              && timing == Timed(config, old(timing), gap, NewStream(o),
                                 if IsStamped(o) then Some(Stamp(Reading(o), clock.offset)) else None)
    {
      hide Timed, Retarget, Stamped, Pressed, InBounds, Sane, Count, ClockSync.Valid;
      if NewStream(o) {
        reanchor := true;
        if !IsStamped(o) {
          clock.Reset();
          timing := timing.(previous := None);
          reanchor := false;
        }
      }
      var counted := Count(counts, NewStream(o), o.sequence);
      counts := counted.0;
      var gap := counted.1;
      timing := timing.(pressure := Pressed(config, timing.pressure, gap));
      var stamp := None;
      if IsStamped(o) {
        if reanchor {
          clock.Reset();
          timing := timing.(previous := None);
          reanchor := false;
        }
        var offset := clock.Observe(o.produced.value, o.arrival.value);
        stamp := Some(Stamp(Reading(o), offset));
        timing := Stamped(config, timing, stamp.value);
      }
      timing := Retarget(config, timing);
      TimedParts(config, old(timing), gap, NewStream(o), stamp);
      TimedInBounds(config, old(timing), gap, NewStream(o), stamp);
    }

    lemma TimedParts(c: Config, t: Timing, gap: nat, forget: bool, stamp: Option<Stamp>)
      ensures var t1 := t.(pressure := Pressed(c, t.pressure, gap), previous := if forget then None else t.previous);
              Timed(c, t, gap, forget, stamp) == Retarget(c, if stamp.Some? then Stamped(c, t1, stamp.value) else t1)
    {
    }

    /** Moves the cursor; nothing happens before the clock has a reading or at a time that is not finite. */
    method RenderTime(now: Option<real>) returns (r: Option<real>)
      requires Valid()
      modifies this`view
      ensures Valid()
      ensures var server := if now.Some? && clock.history != [] then Some(now.value + clock.offset) else None;
              && (server.None? ==> view == old(view) && r.None?)
              && (server.Some? ==> view == Rendered(config, timing.target, old(view), now.value, server))
              && (server.Some? ==> r == view.cursor)
    {
      hide Asked, Rate, Sane, InBounds, ClockSync.Valid;
      clock.Ready();
      if now.None? {
        return None;
      }
      if !clock.initialized {
        return None;
      }
      var server := now.value + clock.offset;
      if view.cursor.None? || view.lastClient.None? {
        view := View(Some(server - timing.target), Some(now.value), timing.target, 1.0);
        return view.cursor;
      }
      var elapsed := Max(0.0, now.value - view.lastClient.value);
      var error := server - (view.cursor.value + elapsed) - timing.target;
      var applied := Min(Asked(config, elapsed, error), Max(0.0, server - view.cursor.value));
      var cursor := view.cursor.value + applied;
      var rate := if elapsed > 0.0 then applied / elapsed else Rate(config, error);
      var last := if now.value > view.lastClient.value then now.value else view.lastClient.value;
      view := View(Some(cursor), Some(last), Max(0.0, server - cursor), rate);
      r := view.cursor;
    }
  }
}
