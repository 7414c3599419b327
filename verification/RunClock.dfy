/** The pause-aware clocks of a client run (`run_test` in `src/client.rs`): the
    response timeout, the local end of the test and the elapsed time shown.
    Times are in nanoseconds. */
module RunClock {
  import opened Basics

  const SECOND: nat := 1_000_000_000
  const MILLISECOND: nat := 1_000_000
  const CONTROL_CANCEL_RESULT_TIMEOUT: nat := 3 * SECOND

  /** The test's duration, zero for no end, and whether a local clock paces
      the progress shown (UDP download and bidirectional tests). */
  datatype Config = Config(duration: nat, metronome: bool) {
    function ResponseTimeout(): nat {
      if duration == 0 then 365 * 24 * 3600 * SECOND else duration + 30 * SECOND
    }
  }

  /** What the control loop can be woken by, and when. */
  datatype Event =
    | Pause(at: nat)            // the pause request became true
    | Resume(at: nat)           // the pause request became false
    | CancelRequest(at: nat)    // the user asked to cancel
    | Cancelled(at: nat)        // the server acknowledged a cancel
    | LocalEnd(at: nat)         // the local end of the test was reached
    | Tick(at: nat)             // the local progress clock
    | ResponseTimeout(at: nat)  // the server did not answer in time
    | Finished(at: nat)         // a result, an error or the end of the channel
  {
    predicate IsCancel() {
      CancelRequest? || Cancelled?
    }
  }

  datatype State = State(
    deadline: nat,
    localEnd: Option<nat>,
    localStopSent: bool,
    pauseStartedAt: Option<nat>,
    progressStart: nat,
    pausedTotal: nat,
    done: bool)

  /** The clocks are read three times while the run is set up. */
  function Start(config: Config, t1: nat, t2: nat, t3: nat): State {
    State(t1 + config.ResponseTimeout(),
          if config.duration == 0 then None else Some(t2 + config.duration),
          false, None, t3, 0, false)
  }

  /** Which arms of the loop can fire. */
  predicate Enabled(config: Config, s: State, e: Event) {
    && !s.done
    && match e
       case LocalEnd(at) =>
         !s.localStopSent && s.localEnd.Some? && s.pauseStartedAt.None? && s.localEnd.value <= at
       case Tick(_) => config.metronome && !s.localStopSent && s.pauseStartedAt.None?
       case ResponseTimeout(at) => s.pauseStartedAt.None? && s.deadline <= at
       case _ => true
  }

  function Step(s: State, e: Event): State {
    match e
    case Pause(at) => if s.pauseStartedAt.None? then s.(pauseStartedAt := Some(at)) else s
    case Resume(at) =>
      (match s.pauseStartedAt
       case None => s
       case Some(started) =>
         var pausedFor := SatSub(at, started);
         s.(deadline := s.deadline + pausedFor,
            localEnd := if s.localEnd.Some? then Some(s.localEnd.value + pausedFor) else None,
            pauseStartedAt := None,
            pausedTotal := s.pausedTotal + pausedFor))
    case CancelRequest(at) => s.(deadline := at + CONTROL_CANCEL_RESULT_TIMEOUT, pauseStartedAt := None)
    case Cancelled(at) => s.(deadline := at + CONTROL_CANCEL_RESULT_TIMEOUT, pauseStartedAt := None)
    case LocalEnd(_) => s.(localStopSent := true)
    case Tick(_) => s
    case ResponseTimeout(_) => s.(done := true)
    case Finished(_) => s.(done := true)
  }

  /** The elapsed time shown at a tick, in milliseconds. */
  function Elapsed(s: State, at: nat): nat {
    SatSub(SatSub(at, s.progressStart), s.pausedTotal) / MILLISECOND
  }

  class Clock {
    const config: Config
    var deadline: nat
    var localEnd: Option<nat>
    var localStopSent: bool
    var pauseStartedAt: Option<nat>
    const progressStart: nat
    var pausedTotal: nat
    var done: bool

    ghost function Clocks(): State
      reads this
    {
      State(deadline, localEnd, localStopSent, pauseStartedAt, progressStart, pausedTotal, done)
    }

    constructor (config: Config, t1: nat, t2: nat, t3: nat)
      ensures this.config == config && Clocks() == Start(config, t1, t2, t3)
      // 365 days for a test without an end, otherwise half a minute more than it.
      ensures deadline == t1 + if config.duration == 0 then 31_536_000_000_000_000 else config.duration + 30_000_000_000
    {
      this.config := config;
      deadline := t1 + config.ResponseTimeout();
      localEnd := if config.duration == 0 then None else Some(t2 + config.duration);
      localStopSent := false;
      pauseStartedAt := None;
      progressStart := t3;
      pausedTotal := 0;
      done := false;
    }

    method PauseRequested(paused: bool, now: nat)
      modifies this
      ensures Clocks() == Step(old(Clocks()), if paused then Pause(now) else Resume(now))
    {
      if paused {
        if pauseStartedAt.None? {
          pauseStartedAt := Some(now);
        }
      } else if pauseStartedAt.Some? {
        var pausedFor := SatSub(now, pauseStartedAt.value);
        pauseStartedAt := None;
        deadline := deadline + pausedFor;
        if localEnd.Some? {
          localEnd := Some(localEnd.value + pausedFor);
        }
        pausedTotal := pausedTotal + pausedFor;
      }
    }

    /** For a cancel request and for the server's acknowledgement alike. */
    method StartControlCancelWait(now: nat)
      modifies this
      ensures Clocks() == Step(old(Clocks()), CancelRequest(now)) == Step(old(Clocks()), Cancelled(now))
    {
      deadline := now + CONTROL_CANCEL_RESULT_TIMEOUT;
      pauseStartedAt := None;
    }

    /** The timers at `now`: the local end, the progress clock, the response timeout. */
    method LocalEndReached(now: nat) returns (fired: bool)
      modifies this
      ensures fired <==> Enabled(config, old(Clocks()).(done := false), LocalEnd(now))
      ensures Clocks() == if fired then Step(old(Clocks()), LocalEnd(now)) else old(Clocks())
    {
      if !localStopSent && localEnd.Some? && pauseStartedAt.None? && localEnd.value <= now {
        localStopSent := true;
        return true;
      }
      return false;
    }

    method TickReached(now: nat) returns (elapsed: Option<nat>)
      ensures elapsed.Some? <==> Enabled(config, Clocks().(done := false), Tick(now))
      ensures elapsed.Some? <==> config.metronome && !localStopSent && pauseStartedAt.None?
      ensures elapsed.Some? ==> elapsed.value == Elapsed(Clocks(), now)
    {
      if config.metronome && !localStopSent && pauseStartedAt.None? {
        return Some(SatSub(SatSub(now, progressStart), pausedTotal) / MILLISECOND);
      }
      return None;
    }

    method ResponseTimedOut(now: nat) returns (fired: bool)
      modifies this
      ensures fired <==> Enabled(config, old(Clocks()).(done := false), ResponseTimeout(now))
      ensures Clocks() == if fired then Step(old(Clocks()), ResponseTimeout(now)) else old(Clocks())
    {
      if pauseStartedAt.None? && deadline <= now {
        done := true;
        return true;
      }
      return false;
    }
  }

  // ----- runs -----

  function After(s: State, events: seq<Event>): State {
    if events == [] then s else Step(After(s, events[..|events| - 1]), events[|events| - 1])
  }

  function Now(now: nat, events: seq<Event>): nat {
    if events == [] then now else events[|events| - 1].at
  }

  /** Events that can happen in turn from state `s` at time `now`. */
  predicate IsRun(config: Config, s: State, now: nat, events: seq<Event>) {
    events == [] ||
    (var n := |events| - 1;
     && IsRun(config, s, now, events[..n])
     && Now(now, events[..n]) <= events[n].at
     && Enabled(config, After(s, events[..n]), events[n]))
  }

  lemma {:induction false} AfterAppend(s: State, a: seq<Event>, b: seq<Event>)
    ensures After(s, a + b) == After(After(s, a), b)
  {
    if b == [] {
      assert a + b == a;
    } else {
      assert (a + b)[..|a + b| - 1] == a + b[..|b| - 1];
      AfterAppend(s, a, b[..|b| - 1]);
    }
  }

  lemma {:induction false} RunSplits(config: Config, s: State, now: nat, a: seq<Event>, b: seq<Event>)
    requires IsRun(config, s, now, a + b)
    ensures IsRun(config, s, now, a) && IsRun(config, After(s, a), Now(now, a), b)
  {
    if b == [] {
      assert a + b == a;
    } else {
      var b' := b[..|b| - 1];
      assert (a + b)[..|a + b| - 1] == a + b';
      RunSplits(config, s, now, a, b');
      AfterAppend(s, a, b');
    }
  }

  /** The pauses credited since time `since`, when `total` had been credited,
      fit into the time passed; an open pause began after them. */
  predicate CreditFits(s: State, now: nat, since: nat, total: nat) {
    && total <= s.pausedTotal && since <= now
    && (if s.pauseStartedAt.Some?
        then s.pausedTotal - total + since <= s.pauseStartedAt.value <= now
        else s.pausedTotal - total + since <= now)
  }

  lemma {:induction false} CreditKeepsFitting(config: Config, s: State, now: nat, events: seq<Event>, since: nat, total: nat)
    requires IsRun(config, s, now, events) && CreditFits(s, now, since, total)
    ensures CreditFits(After(s, events), Now(now, events), since, total)
  {
    if events != [] {
      CreditKeepsFitting(config, s, now, events[..|events| - 1], since, total);
    }
  }

  /** How one event moves the pause-aware clocks: by the same amount, if at all. */
  lemma {:induction false} ClocksMoveTogether(s: State, e: Event)
    ensures var s' := Step(s, e);
      && s'.pausedTotal >= s.pausedTotal && s'.progressStart == s.progressStart
      && s'.localEnd == (if s.localEnd.None? then None
                         else Some(s.localEnd.value + (s'.pausedTotal - s.pausedTotal)))
      && (!e.IsCancel() ==> s'.deadline == s.deadline + (s'.pausedTotal - s.pausedTotal))
      && (e.IsCancel() ==> s'.pausedTotal == s.pausedTotal && s'.pauseStartedAt.None?)
  {
  }

  /** After any run whatever: the local end is its start plus the duration
      plus the pauses credited, and those pauses lie within the time the
      progress clock has been running, so elapsed time never saturates. */
  lemma {:induction false} LocalEndTracksPauses(config: Config, t1: nat, t2: nat, t3: nat, events: seq<Event>)
    requires IsRun(config, Start(config, t1, t2, t3), t3, events)
    ensures var s := After(Start(config, t1, t2, t3), events);
      && s.localEnd == (if config.duration == 0 then None else Some(t2 + config.duration + s.pausedTotal))
      && s.progressStart == t3
      && s.pausedTotal <= Now(t3, events) - t3
  {
    CreditKeepsFitting(config, Start(config, t1, t2, t3), t3, events, t3, 0);
    if events != [] {
      var n := |events| - 1;
      LocalEndTracksPauses(config, t1, t2, t3, events[..n]);
      ClocksMoveTogether(After(Start(config, t1, t2, t3), events[..n]), events[n]);
    }
  }

  /** The local stop fires at most once, only in a timed test that is not
      paused, and exactly once the time that was not credited as a pause
      reaches the duration. */
  lemma {:induction false} LocalStopMeasuresUnpausedTime(config: Config, t1: nat, t2: nat, t3: nat,
                                                         events: seq<Event>, at: nat)
    requires IsRun(config, Start(config, t1, t2, t3), t3, events)
    ensures var s := After(Start(config, t1, t2, t3), events);
      Enabled(config, s, LocalEnd(at))
      <==> !s.done && config.duration != 0 && Pauses(events).0.None? && at >= t2 + config.duration + Pauses(events).1
           && !(exists k :: 0 <= k < |events| && events[k].LocalEnd?)
  {
    LocalEndTracksPauses(config, t1, t2, t3, events);
    PausesAreRecorded(Start(config, t1, t2, t3), events);
    StoppedIff(Start(config, t1, t2, t3), events);
  }

  lemma {:induction false} StoppedIff(s: State, events: seq<Event>)
    ensures After(s, events).localStopSent
       <==> s.localStopSent || exists k :: 0 <= k < |events| && events[k].LocalEnd?
  {
    if events != [] {
      var n := |events| - 1;
      StoppedIff(s, events[..n]);
      if exists k :: 0 <= k < n && events[..n][k].LocalEnd? {
        var k :| 0 <= k < n && events[..n][k].LocalEnd?;
        assert events[k].LocalEnd?;
      }
      if events[n].LocalEnd? {
      } else if exists k :: 0 <= k < |events| && events[k].LocalEnd? {
        var k :| 0 <= k < |events| && events[k].LocalEnd?;
        assert events[..n][k].LocalEnd?;
      }
    }
  }

  /** Successive ticks of a run show elapsed times that never decrease, each
      the exact time since the start that was not credited as a pause. */
  lemma {:induction false} ElapsedNeverDecreases(config: Config, t1: nat, t2: nat, t3: nat,
                                                 events: seq<Event>, i: nat, j: nat)
    requires IsRun(config, Start(config, t1, t2, t3), t3, events)
    requires i <= j < |events| && events[i].Tick? && events[j].Tick?
    ensures var first := After(Start(config, t1, t2, t3), events[..i]);
            var second := After(Start(config, t1, t2, t3), events[..j]);
      && Elapsed(first, events[i].at) <= Elapsed(second, events[j].at)
      && t3 + second.pausedTotal <= events[j].at
      && Elapsed(second, events[j].at) == (events[j].at - t3 - second.pausedTotal) / 1_000_000
  {
    AtTick(config, t1, t2, t3, events, i);
    AtTick(config, t1, t2, t3, events, j);
    if i < j {
      CreditBetweenTicks(config, t1, t2, t3, events, i, j);
      DivisionKeepsOrder(events[i].at - t3 - After(Start(config, t1, t2, t3), events[..i]).pausedTotal,
                         events[j].at - t3 - After(Start(config, t1, t2, t3), events[..j]).pausedTotal);
    }
  }

  lemma {:induction false} AtTick(config: Config, t1: nat, t2: nat, t3: nat, events: seq<Event>, i: nat)
    requires IsRun(config, Start(config, t1, t2, t3), t3, events) && i < |events| && events[i].Tick?
    ensures var s := After(Start(config, t1, t2, t3), events[..i]);
      && s.progressStart == t3 && t3 + s.pausedTotal <= events[i].at
      && Elapsed(s, events[i].at) == (events[i].at - t3 - s.pausedTotal) / MILLISECOND
  {
    RunReaches(config, Start(config, t1, t2, t3), t3, events, i);
    LocalEndTracksPauses(config, t1, t2, t3, events[..i]);
  }

  lemma {:induction false} CutBetween(events: seq<Event>, i: nat, j: nat)
    requires i < j <= |events|
    ensures events[..j] == events[..i + 1] + events[i + 1..j] && events[..i + 1][..i] == events[..i]
  {
  }

  /** Between two ticks no more is credited than the time between them. */
  lemma {:induction false} CreditBetweenTicks(config: Config, t1: nat, t2: nat, t3: nat, events: seq<Event>, i: nat, j: nat)
    requires IsRun(config, Start(config, t1, t2, t3), t3, events)
    requires i < j < |events| && events[i].Tick? && events[j].Tick?
    ensures var s0 := Start(config, t1, t2, t3);
      After(s0, events[..j]).pausedTotal - After(s0, events[..i]).pausedTotal <= events[j].at - events[i].at
  {
    var s0 := Start(config, t1, t2, t3);
    RunReaches(config, s0, t3, events, i);
    RunReaches(config, s0, t3, events, j);
    var first, between := After(s0, events[..i]), events[i + 1..j];
    CutBetween(events, i, j);
    RunSplits(config, s0, t3, events[..i + 1], between);
    AfterAppend(s0, events[..i + 1], between);
    CreditKeepsFitting(config, first, events[i].at, between, events[i].at, first.pausedTotal);
  }

  lemma {:induction false} DivisionKeepsOrder(a: nat, b: nat)
    requires a <= b
    ensures a / MILLISECOND <= b / MILLISECOND
  {
  }

  /** Every prefix of a run is a run, and its next event can happen then. */
  lemma {:induction false} RunReaches(config: Config, s: State, now: nat, events: seq<Event>, n: nat)
    requires IsRun(config, s, now, events) && n <= |events|
    ensures IsRun(config, s, now, events[..n])
    ensures n < |events| ==> Now(now, events[..n]) <= events[n].at && Enabled(config, After(s, events[..n]), events[n])
  {
    assert events == events[..n] + events[n..];
    RunSplits(config, s, now, events[..n], events[n..]);
    if n < |events| {
      assert events == events[..n + 1] + events[n + 1..];
      RunSplits(config, s, now, events[..n + 1], events[n + 1..]);
      assert events[..n + 1][..n] == events[..n];
    }
  }

  predicate NoCancel(events: seq<Event>) {
    forall k :: 0 <= k < |events| ==> !events[k].IsCancel()
  }

  /** Without a cancel the response timeout is extended by every pause
      credited, and by nothing else. */
  lemma {:induction false} DeadlineMovesWithPauses(s: State, events: seq<Event>)
    requires NoCancel(events)
    ensures After(s, events).pausedTotal >= s.pausedTotal
    ensures After(s, events).deadline == s.deadline + (After(s, events).pausedTotal - s.pausedTotal)
  {
    if events != [] {
      var n := |events| - 1;
      DeadlineMovesWithPauses(s, events[..n]);
      ClocksMoveTogether(After(s, events[..n]), events[n]);
    }
  }

  /** From the last cancel on the response timeout is three seconds after it,
      plus whatever pauses were credited since: exactly three seconds if and
      only if no pause was. */
  lemma {:induction false} DeadlineAfterCancel(s: State, before: seq<Event>, cancel: Event, since: seq<Event>)
    requires cancel.IsCancel() && NoCancel(since)
    ensures var mid := After(s, before + [cancel]);
            var end := After(s, before + [cancel] + since);
      && end.deadline == cancel.at + CONTROL_CANCEL_RESULT_TIMEOUT + (end.pausedTotal - mid.pausedTotal)
      && (end.deadline == cancel.at + CONTROL_CANCEL_RESULT_TIMEOUT <==> end.pausedTotal == mid.pausedTotal)
  {
    AfterAppend(s, before + [cancel], since);
    assert (before + [cancel])[..|before|] == before;
    DeadlineMovesWithPauses(After(s, before + [cancel]), since);
  }

  /** A cancel ends an open pause and credits it to nothing: neither the local
      end nor the pauses credited move, whatever happened while it was open,
      and a resume that follows credits nothing either. */
  lemma {:induction false} CancelledPauseIsNotCredited(s: State, open: seq<Event>, cancel: Event, resume: Event)
    requires s.pauseStartedAt.Some? && cancel.IsCancel() && resume.Resume?
    requires forall k :: 0 <= k < |open| ==> !open[k].Resume?
    ensures var end := After(s, open + [cancel, resume]);
      end.pausedTotal == s.pausedTotal && end.localEnd == s.localEnd && end.pauseStartedAt.None?
      && end.deadline == cancel.at + CONTROL_CANCEL_RESULT_TIMEOUT
  {
    NoCreditWithoutResume(s, open);
    AfterAppend(s, open, [cancel, resume]);
    assert [cancel, resume][..1] == [cancel] && [cancel][..0] == [];
    assert After(After(s, open), [cancel]) == Step(After(s, open), cancel);
  }

  lemma {:induction false} NoCreditWithoutResume(s: State, events: seq<Event>)
    requires forall k :: 0 <= k < |events| ==> !events[k].Resume?
    ensures After(s, events).pausedTotal == s.pausedTotal && After(s, events).localEnd == s.localEnd
  {
    if events != [] {
      NoCreditWithoutResume(s, events[..|events| - 1]);
    }
  }

  /** The wait after a cancel is bounded when no pause is requested after it:
      whatever else happens, the response timeout can fire from exactly three
      seconds after the cancel on. */
  lemma {:induction false} CancelWaitIsBounded(config: Config, s: State, before: seq<Event>, cancel: Event,
                                               since: seq<Event>, at: nat)
    requires cancel.IsCancel() && NoCancel(since)
    requires forall k :: 0 <= k < |since| ==> !since[k].Pause?
    requires !After(s, before + [cancel] + since).done
    ensures Enabled(config, After(s, before + [cancel] + since), ResponseTimeout(at))
       <==> at >= cancel.at + 3_000_000_000
  {
    AfterAppend(s, before + [cancel], since);
    assert (before + [cancel])[..|before|] == before;
    NoPauseNoCredit(After(s, before + [cancel]), since);
    DeadlineAfterCancel(s, before, cancel, since);
  }

  lemma {:induction false} NoPauseNoCredit(s: State, events: seq<Event>)
    requires s.pauseStartedAt.None?
    requires forall k :: 0 <= k < |events| ==> !events[k].Pause?
    ensures After(s, events).pauseStartedAt.None? && After(s, events).pausedTotal == s.pausedTotal
  {
    if events != [] {
      NoPauseNoCredit(s, events[..|events| - 1]);
    }
  }

  /** The pauses asked for in these events, read off the events alone: when
      the one still open began, and how long those that ended were. */
  function Pauses(events: seq<Event>): (Option<nat>, nat) {
    if events == [] then (None, 0)
    else
      var (open, total) := Pauses(events[..|events| - 1]);
      match events[|events| - 1]
      case Pause(at) => (if open.None? then Some(at) else open, total)
      case Resume(at) => (None, if open.Some? then total + SatSub(at, open.value) else total)
      case CancelRequest(_) => (None, total)
      case Cancelled(_) => (None, total)
      case _ => (open, total)
  }

  lemma {:induction false} PausesAreRecorded(s: State, events: seq<Event>)
    requires s.pauseStartedAt.None?
    ensures After(s, events).pauseStartedAt == Pauses(events).0
    ensures After(s, events).pausedTotal == s.pausedTotal + Pauses(events).1
  {
    if events != [] {
      PausesAreRecorded(s, events[..|events| - 1]);
    }
  }

  /** Until a cancel the response timeout can fire exactly when no pause is
      open, half a minute after the duration (or a year on, without one), the
      pauses that ended not counting. */
  lemma {:induction false} TimeoutBeforeCancel(config: Config, t1: nat, t2: nat, t3: nat, events: seq<Event>, at: nat)
    requires NoCancel(events)
    ensures var s := After(Start(config, t1, t2, t3), events);
      Enabled(config, s, ResponseTimeout(at)) <==>
        && !s.done && Pauses(events).0.None?
        && at >= t1 + (if config.duration == 0 then 31_536_000_000_000_000 else config.duration + 30_000_000_000)
                 + Pauses(events).1
  {
    DeadlineMovesWithPauses(Start(config, t1, t2, t3), events);
    PausesAreRecorded(Start(config, t1, t2, t3), events);
  }

  /** A pause stays open exactly when one was asked for and no resume followed. */
  lemma {:induction false} OpenIffNotResumed(events: seq<Event>)
    requires NoCancel(events)
    ensures Pauses(events).0.Some? <==> exists k :: 0 <= k < |events| && events[k].Pause? && NotResumed(events, k)
  {
    if events != [] {
      var n := |events| - 1;
      var fewer := events[..n];
      OpenIffNotResumed(fewer);
      if events[n].Pause? {
        assert NotResumed(events, n);
      } else if !events[n].Resume? {
        forall k | 0 <= k < n && fewer[k].Pause?
          ensures NotResumed(fewer, k) <==> NotResumed(events, k)
        {
          assert forall j :: k < j < n ==> fewer[j] == events[j];
        }
      }
    }
  }

  predicate NotResumed(events: seq<Event>, k: nat) {
    forall j :: k < j < |events| ==> !events[j].Resume?
  }

  /** A pause that ends counts with its length, from the request that began it
      to the resume, however often it is asked for meanwhile. */
  lemma {:induction false} PauseCountsItsLength(before: seq<Event>, pause: Event, during: seq<Event>, resume: Event)
    requires Pauses(before).0.None? && pause.Pause? && resume.Resume? && resume.at >= pause.at
    requires forall k :: 0 <= k < |during| ==> !during[k].Resume? && !during[k].IsCancel()
    ensures Pauses(before + [pause] + during + [resume]) == (None, Pauses(before).1 + (resume.at - pause.at))
  {
    StaysOpen(before, pause, during);
    assert (before + [pause] + during + [resume])[..|before| + 1 + |during|] == before + [pause] + during;
  }

  lemma {:induction false} StaysOpen(before: seq<Event>, pause: Event, during: seq<Event>)
    requires Pauses(before).0.None? && pause.Pause?
    requires forall k :: 0 <= k < |during| ==> !during[k].Resume? && !during[k].IsCancel()
    ensures Pauses(before + [pause] + during) == (Some(pause.at), Pauses(before).1)
  {
    if during == [] {
      assert before + [pause] + during == before + [pause] && (before + [pause])[..|before|] == before;
    } else {
      var n := |during| - 1;
      StaysOpen(before, pause, during[..n]);
      assert (before + [pause] + during)[..|before| + 1 + n] == before + [pause] + during[..n];
    }
  }

  /** The exact condition for the three seconds: whatever happened before the
      cancel, and whatever but another cancel happens after it, the response
      timeout can fire from exactly three seconds after it on, if and only if
      no pause is open and those asked for since took no time. */
  lemma {:induction false} ThreeSecondsIff(config: Config, s: State, before: seq<Event>, cancel: Event, since: seq<Event>)
    requires cancel.IsCancel() && NoCancel(since) && !After(s, before + [cancel] + since).done
    ensures (forall at: nat :: Enabled(config, After(s, before + [cancel] + since), ResponseTimeout(at))
                               <==> at >= cancel.at + 3_000_000_000)
        <==> Pauses(since) == (None, 0)
  {
    AfterCancel(s, before, cancel, since);
    var end := After(s, before + [cancel] + since);
    if Pauses(since) != (None, 0) {
      assert !Enabled(config, end, ResponseTimeout(cancel.at + CONTROL_CANCEL_RESULT_TIMEOUT));
    }
  }

  lemma {:induction false} AfterCancel(s: State, before: seq<Event>, cancel: Event, since: seq<Event>)
    requires cancel.IsCancel() && NoCancel(since)
    ensures var end := After(s, before + [cancel] + since);
      && end.pauseStartedAt == Pauses(since).0
      && end.deadline == cancel.at + CONTROL_CANCEL_RESULT_TIMEOUT + Pauses(since).1
  {
    AfterAppend(s, before + [cancel], since);
    assert (before + [cancel])[..|before|] == before;
    PausesAreRecorded(After(s, before + [cancel]), since);
    DeadlineAfterCancel(s, before, cancel, since);
  }

  /** A pause asked for after the cancel lifts that bound: however the run goes
      on, as long as it is neither resumed nor cancelled again the response
      timeout cannot fire, however late it is. */
  lemma {:induction false} PauseAfterCancelWaits(config: Config, s: State, before: seq<Event>, cancel: Event,
                                                 since: seq<Event>, k: nat, late: nat)
    requires cancel.IsCancel() && NoCancel(since)
    requires k < |since| && since[k].Pause? && NotResumed(since, k)
    ensures !Enabled(config, After(s, before + [cancel] + since), ResponseTimeout(late))
  {
    OpenIffNotResumed(since);
    AfterCancel(s, before, cancel, since);
  }
}
