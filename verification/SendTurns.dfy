/** What one QUIC send loop (`send_quic_data` in `src/quic.rs`) does. What the
    loop cannot choose (what arrives on its channels, the clock, the transport,
    and the other loops acting on the shared counter) is a script of turns;
    everything the loop does is a function of it. How a turn ends is also read
    off the script, and a cancel is shown to end the loop whenever it comes. */
module SendTurns {
  import opened Basics
  import opened Budget
  import opened PauseWait
  import opened SendMachine

  const SEND_TEARDOWN_GRACE: nat := 250_000_000 // nanoseconds

  /** `budgeted`: the test has a byte budget; `paced`: it has a target bitrate. */
  datatype Config = Config(want: nat, duration: nat, budgeted: bool, paced: bool)

  datatype WriteResult = Took(n: nat) | Refused(peerClosed: bool, now: nat)

  /** What a `select!` is woken by: signals, the clock, and whether the write
      has completed. The first is its first poll. */
  datatype Wakeup = Wakeup(at: nat, signals: seq<Signal>, write: Option<WriteResult>)

  /** A wake-up of the pacing sleep, and whether the sleep is over. */
  datatype PaceWakeup = PaceWakeup(signals: seq<Signal>, over: bool)

  datatype Turn = Turn(
    arrived: seq<Signal>,             // on the channels since the last turn
    now: nat,                         // the clock at the loop head
    wait: seq<Burst>,                 // what arrives during a pause
    atLoad: nat,                      // the counter the other loops left when `claim` loads it
    rivals: seq<Rival>,               // what they do during `claim`
    race: seq<Wakeup>,                // the write against cancel, pause and deadline
    atRefund: nat,                    // the counter they left when the remainder goes back
    pace: Option<seq<PaceWakeup>>)    // the pacing sleep, if the write was ahead of the bitrate

  predicate TurnOk(t: Turn) {
    && InOrder(t.now, t.wait)
    && t.atLoad <= U64_MAX && t.atRefund <= U64_MAX
    && forall k :: 0 <= k < |t.rivals| ==> t.rivals[k].left <= U64_MAX
  }

  // ----- what a turn does -----

  /** An atomic step of one stream: with the counter before and after, when it
      touches the counter. */
  datatype Step = Touch(before: nat, event: Event, after: nat) | Local(event: Event)

  /** The loop between two turns: its channels, its deadline, the counter as it
      last left it, and the bytes it has sent. */
  datatype Loop = Loop(chans: Chans, deadline: nat, remaining: nat, sent: nat)

  /** How a turn ends: the loop goes on, is left, or is still at something when
      the turn's script ends. */
  datatype End = Going | Ended(exit: Exit) | Stuck

  /** `write` is the size of the write the turn starts, if it starts one. */
  datatype Result = Result(after: Loop, end: End, write: Option<nat>, steps: seq<Step>)

  datatype Arm =
    | CancelFired(stop: bool)
    | PauseToggled
    | DeadlineFired
    | WriteDone(n: nat)
    | WriteFailed(peerClosed: bool, cancelled: bool, now: nat)

  /** A `select!`: what ended it, the channels it left, and the wake-ups it took. */
  type Selected<T> = (Option<T>, Chans, nat)

  function Later<T>(k: nat, s: Selected<T>): Selected<T> {
    (s.0, s.1, k + s.2)
  }

  /** The first arm a wake-up makes ready, in the order of the `select!`;
      `watched` is whether the pause channel was open when the `select!` began. */
  function ReadyArm(here: Chans, watched: bool, finite: bool, deadline: nat, w: Wakeup): (Option<Arm>, Chans) {
    if here.cancel.Stirs() then
      (Some(CancelFired(here.cancel.unseen == 0 || here.cancel.value)), here.(cancel := here.cancel.Seen()))
    else if watched && here.pause.Stirs() then (Some(PauseToggled), here.(pause := here.pause.Seen()))
    else if finite && w.at >= deadline then (Some(DeadlineFired), here)
    else match w.write
      case Some(Took(n)) => (Some(WriteDone(n)), here)
      case Some(Refused(peerClosed, now)) => (Some(WriteFailed(peerClosed, here.cancel.value, now)), here)
      case None => (None, here)
  }

  /** The arm of the first wake-up that makes one ready. */
  function Select(c: Chans, watched: bool, finite: bool, deadline: nat, race: seq<Wakeup>): (s: Selected<Arm>)
    ensures s.2 <= |race|
    decreases |race|
  {
    if race == [] then (None, c, 0)
    else
      var (arm, left) := ReadyArm(c.ReceivedAll(race[0].signals), watched, finite, deadline, race[0]);
      if arm.Some? then (arm, left, 1) else Later(1, Select(left, watched, finite, deadline, race[1..]))
  }

  /** Whether a wake-up ends a pacing sleep: cancelled by any change of the
      cancel channel, cut short by a pause, or slept out. */
  function SleepEnds(here: Chans, watched: bool, over: bool): (Option<bool>, Chans) {
    if here.cancel.Stirs() then (Some(true), here.(cancel := here.cancel.Seen()))
    else if watched && here.pause.Stirs() then (Some(false), here.(pause := here.pause.Seen()))
    else (if over then Some(false) else None, here)
  }

  function Pace(c: Chans, watched: bool, wakeups: seq<PaceWakeup>): (s: Selected<bool>)
    ensures s.2 <= |wakeups|
    decreases |wakeups|
  {
    if wakeups == [] then (None, c, 0)
    else
      var (stop, left) := SleepEnds(c.ReceivedAll(wakeups[0].signals), watched, wakeups[0].over);
      if stop.Some? then (stop, left, 1) else Later(1, Pace(left, watched, wakeups[1..]))
  }

  /** The pacing after a write, if there is any. */
  function PaceTurn(cfg: Config, c: Chans, t: Turn): Selected<bool> {
    if cfg.paced && t.pace.Some? then Pace(c, c.pause.open, t.pace.value) else (Some(false), c, 0)
  }

  /** A write error is part of the teardown when the loop is cancelled or past
      its deadline, or when the peer closed close to it. */
  predicate Teardown(cfg: Config, deadline: nat, arm: Arm)
    requires arm.WriteFailed?
  {
    || arm.cancelled
    || (cfg.duration > 0 && arm.now >= deadline)
    || (arm.peerClosed && cfg.duration > 0 && arm.now + SEND_TEARDOWN_GRACE >= deadline)
  }

  function Written(arm: Arm, claimed: nat): (n: nat)
    ensures n <= claimed
  {
    if arm.WriteDone? then Min(arm.n, claimed) else 0
  }

  /** The exit each arm takes, before any pacing. */
  function ArmEnd(cfg: Config, deadline: nat, arm: Arm): End {
    match arm
    case CancelFired(stop) => if stop then Ended(Cancelled) else Going
    case PauseToggled => Going
    case DeadlineFired => Ended(DeadlinePassed)
    case WriteDone(_) => Going
    case WriteFailed(_, _, _) => Ended(if Teardown(cfg, deadline, arm) then Cancelled else Failed)
  }

  /** The automaton steps of an arm: the remainder goes back at the counter
      value the script says. */
  function ArmSteps(cfg: Config, deadline: nat, arm: Arm, claimed: nat, atRefund: nat): seq<Step> {
    var all := WrapAdd(atRefund, claimed);
    match arm
    case CancelFired(stop) => [Touch(atRefund, CancelArm(stop), all)]
    case PauseToggled => [Touch(atRefund, PauseArm, all)]
    case DeadlineFired => [Touch(atRefund, DeadlineArm, all)]
    case WriteFailed(_, _, _) => [Touch(atRefund, WriteError(Teardown(cfg, deadline, arm)), all)]
    case WriteDone(n) =>
      [Local(Write(Min(n, claimed))), Touch(atRefund, HandBack, WrapAdd(atRefund, claimed - Min(n, claimed))), Local(Count)]
  }

  /** A turn that has claimed `claimed` bytes: the write, and the pacing after it. */
  function RaceTurn(cfg: Config, l: Loop, t: Turn, claimed: nat, steps: seq<Step>): Result {
    match Select(l.chans, l.chans.pause.open, cfg.duration > 0, l.deadline, t.race)
    case (None, c, _) => Result(l.(chans := c), Stuck, Some(claimed), steps)
    case (Some(arm), c, _) => ArmTurn(cfg, l.(chans := c), t, arm, claimed, steps)
  }

  /** The same once an arm is ready. */
  function ArmTurn(cfg: Config, l: Loop, t: Turn, arm: Arm, claimed: nat, steps: seq<Step>): Result {
    var n := Written(arm, claimed);
    var l' := l.(sent := l.sent + n,
                 remaining := if cfg.budgeted then WrapAdd(t.atRefund, claimed - n) else l.remaining);
    var steps' := steps + ArmSteps(cfg, l.deadline, arm, claimed, t.atRefund);
    if !arm.WriteDone? then Result(l', ArmEnd(cfg, l.deadline, arm), Some(claimed), steps')
    else
      match PaceTurn(cfg, l.chans, t)
      case (None, c, _) => Result(l'.(chans := c), Stuck, Some(claimed), steps')
      case (Some(stop), c, _) =>
        Result(l'.(chans := c), if stop then Ended(Cancelled) else Going, Some(claimed), steps' + [Local(Paced(stop))])
  }

  /** The exchange steps of a claim. */
  function ClaimSteps(current: nat, want: nat, rivals: seq<Rival>): seq<Step>
    decreases |rivals|
  {
    if Min(current, want) == 0 then [Local(Exchange(false))]
    else if rivals == [] then []
    else
      var before, e := rivals[0].left, Exchange(rivals[0].spurious);
      match TryClaim(current, before, want, rivals[0].spurious)
      case Won(_, left) => [Touch(before, e, left)]
      case _ => [Touch(before, e, before)] + ClaimSteps(before, want, rivals[1..])
  }

  /** What a claim grants and leaves: the full size without a budget. */
  function ClaimOf(cfg: Config, l: Loop, t: Turn): (Option<nat>, nat) {
    if cfg.budgeted then ClaimOutcome(t.atLoad, t.atLoad, cfg.want, t.rivals) else (Some(cfg.want), l.remaining)
  }

  /** A turn past the deadline check. */
  function WriteTurn(cfg: Config, l: Loop, t: Turn): Result {
    var (granted, left) := ClaimOf(cfg, l, t);
    var l' := l.(remaining := left);
    var steps := [Touch(t.atLoad, Load, t.atLoad)] + ClaimSteps(t.atLoad, cfg.want, t.rivals);
    match granted
    case None => Result(l', Stuck, None, steps)
    case Some(claimed) =>
      if claimed == 0 then Result(l', Ended(BudgetSpent), None, steps) else RaceTurn(cfg, l', t, claimed, steps)
  }

  /** A turn that meets a pause: the time waited out goes onto the deadline. */
  function PausedTurn(l: Loop, t: Turn): Result {
    var (wait, used, c) := WaitOutcome(l.chans, t.wait);
    match wait
    case StillWaiting => Result(l.(chans := c), Stuck, None, [])
    case CancelSeen => Result(l.(chans := c), Ended(Cancelled), None, [Local(Stop(Cancelled))])
    case Resumed => Result(l.(chans := c, deadline := l.deadline + Waited(l.chans, t)), Going, None, [Local(Resume)])
  }

  /** The time a wait took. */
  function Waited(c: Chans, t: Turn): nat {
    var used := WaitOutcome(c, t.wait).1;
    if used == 0 then 0 else SatSub(t.wait[used - 1].at, t.now)
  }

  function TakeTurn(cfg: Config, l: Loop, t: Turn): Result {
    var l' := l.(chans := l.chans.ReceivedAll(t.arrived));
    if l'.chans.cancel.value then Result(l', Ended(Cancelled), None, [Local(Stop(Cancelled))])
    else if l'.chans.pause.Paused() then PausedTurn(l', t)
    else if cfg.duration > 0 && t.now >= l.deadline then
      Result(l', Ended(DeadlinePassed), None, [Local(Stop(DeadlinePassed))])
    else WriteTurn(cfg, l', t)
  }

  // ----- what a run of turns does -----

  /** The loop after these turns. */
  function LoopAfter(cfg: Config, l: Loop, turns: seq<Turn>): Loop {
    if turns == [] then l
    else TakeTurn(cfg, LoopAfter(cfg, l, turns[..|turns| - 1]), turns[|turns| - 1]).after
  }

  /** What turn `k` does, after those before it. */
  function TurnAt(cfg: Config, l: Loop, turns: seq<Turn>, k: nat): Result
    requires k < |turns|
  {
    TakeTurn(cfg, LoopAfter(cfg, l, turns[..k]), turns[k])
  }

  /** The loop takes these turns and no more: each but the last goes on, and
      the last ends as `end` says. */
  predicate Takes(cfg: Config, l: Loop, turns: seq<Turn>, end: End) {
    && (forall k: nat :: k + 1 < |turns| ==> TurnAt(cfg, l, turns, k).end.Going?)
    && end == if turns == [] then Going else TurnAt(cfg, l, turns, |turns| - 1).end
  }

  /** A write handed to the transport: when it starts, and how long it is. */
  datatype WriteStart = WriteStart(now: nat, size: nat)

  /** The writes these turns start, in order. */
  function Writes(cfg: Config, l: Loop, turns: seq<Turn>): seq<WriteStart> {
    if turns == [] then []
    else
      var n := |turns| - 1;
      var write := TurnAt(cfg, l, turns, n).write;
      Writes(cfg, l, turns[..n]) + if write.Some? then [WriteStart(turns[n].now, write.value)] else []
  }

  /** The automaton steps of these turns. */
  function Trace(cfg: Config, l: Loop, turns: seq<Turn>): seq<Step> {
    if turns == [] then []
    else
      var n := |turns| - 1;
      Trace(cfg, l, turns[..n]) + TurnAt(cfg, l, turns, n).steps
  }

  /** The length of the pauses waited out in these turns. */
  function PausedIn(cfg: Config, l: Loop, turns: seq<Turn>): nat {
    if turns == [] then 0
    else
      var n := |turns| - 1;
      PausedIn(cfg, l, turns[..n]) + PauseOf(LoopAfter(cfg, l, turns[..n]), turns[n])
  }

  /** The pause a turn waits out, if it is not cancelled meanwhile. */
  function PauseOf(l: Loop, t: Turn): nat {
    var c := l.chans.ReceivedAll(t.arrived);
    if !c.cancel.value && c.pause.Paused() && WaitOutcome(c, t.wait).0.Resumed? then Waited(c, t) else 0
  }

  /** The deadline moves by exactly the pauses waited out. */
  lemma {:induction false} DeadlineMovesByPauses(cfg: Config, l: Loop, turns: seq<Turn>)
    ensures LoopAfter(cfg, l, turns).deadline == l.deadline + PausedIn(cfg, l, turns)
  {
    if turns != [] {
      var n := |turns| - 1;
      DeadlineMovesByPauses(cfg, l, turns[..n]);
    }
  }

  /** A turn that waits out a pause moves the deadline by the time of the burst
      that ended it less the time of the turn; no other turn moves it. */
  lemma {:induction false} TurnMovesDeadline(cfg: Config, l: Loop, t: Turn)
    requires InOrder(t.now, t.wait)
    ensures var c := l.chans.ReceivedAll(t.arrived);
      var (wait, used, _) := WaitOutcome(c, t.wait);
      var waitsOut := !c.cancel.value && c.pause.value && c.pause.open && wait.Resumed?;
      && (waitsOut ==> used > 0)
      && TakeTurn(cfg, l, t).after.deadline == l.deadline + PauseOf(l, t)
      && PauseOf(l, t) == if waitsOut then t.wait[used - 1].at - t.now else 0
  {
    var c := l.chans.ReceivedAll(t.arrived);
    if c.pause.Paused() {
      WaitEndsAtTheFirst(c, t.wait);
      LookDecides(c);
    }
  }

  /** No write starts once the time not spent waiting out pauses has reached a
      finite duration. */
  lemma {:induction false} NoWriteAfterTheEnd(cfg: Config, l: Loop, start: nat, turns: seq<Turn>, k: nat)
    requires l.deadline == start + cfg.duration && k < |turns| && TurnAt(cfg, l, turns, k).write.Some?
    ensures cfg.duration > 0 ==> turns[k].now < start + cfg.duration + PausedIn(cfg, l, turns[..k])
  {
    DeadlineMovesByPauses(cfg, l, turns[..k]);
  }

  /** A turn starts a write exactly when it meets no cancel, no pause, no passed
      deadline and is granted bytes; the write is what it was granted, and a
      test without a budget always writes full buffers. */
  lemma {:induction false} WritesExactlyWhen(cfg: Config, l: Loop, t: Turn)
    requires cfg.want > 0
    ensures var c := l.chans.ReceivedAll(t.arrived);
      TakeTurn(cfg, l, t).write.Some? <==>
        && !c.cancel.value && !c.pause.Paused() && !(cfg.duration > 0 && t.now >= l.deadline)
        && (cfg.budgeted ==> ClaimOutcome(t.atLoad, t.atLoad, cfg.want, t.rivals).0.Some?
                             && ClaimOutcome(t.atLoad, t.atLoad, cfg.want, t.rivals).0.value > 0)
    ensures var write := TakeTurn(cfg, l, t).write;
      write.Some? ==> 0 < write.value <= cfg.want && (!cfg.budgeted ==> write.value == cfg.want)
  {
    GrantWithinWant(t.atLoad, t.atLoad, cfg.want, t.rivals);
  }

  lemma {:induction false} GrantWithinWant(current: nat, remaining: nat, want: nat, rivals: seq<Rival>)
    ensures var granted := ClaimOutcome(current, remaining, want, rivals).0; granted.Some? ==> granted.value <= want
    decreases |rivals|
  {
    if Min(current, want) != 0 && rivals != [] {
      GrantWithinWant(rivals[0].left, rivals[0].left, want, rivals[1..]);
    }
  }

  lemma {:induction false} OneMoreTurn(cfg: Config, l: Loop, turns: seq<Turn>, n: nat)
    requires n < |turns|
    ensures LoopAfter(cfg, l, turns[..n + 1]) == TurnAt(cfg, l, turns, n).after
    ensures var write := TurnAt(cfg, l, turns, n).write;
      Writes(cfg, l, turns[..n + 1])
      == Writes(cfg, l, turns[..n]) + if write.Some? then [WriteStart(turns[n].now, write.value)] else []
  {
    assert turns[..n + 1][..n] == turns[..n];
  }

  // ----- the write race -----

  function RaceSignals(race: seq<Wakeup>): seq<Signal>
    decreases |race|
  {
    if race == [] then [] else race[0].signals + RaceSignals(race[1..])
  }

  function PaceSignals(wakeups: seq<PaceWakeup>): seq<Signal>
    decreases |wakeups|
  {
    if wakeups == [] then [] else wakeups[0].signals + PaceSignals(wakeups[1..])
  }

  /** The channels at wake-up `k`, everything sent so far having arrived. */
  function RaceAt(c: Chans, race: seq<Wakeup>, k: nat): Chans
    requires k < |race|
  {
    c.ReceivedAll(RaceSignals(race[..k + 1]))
  }

  function PaceAt(c: Chans, wakeups: seq<PaceWakeup>, k: nat): Chans
    requires k < |wakeups|
  {
    c.ReceivedAll(PaceSignals(wakeups[..k + 1]))
  }

  predicate CancelReady(c: Chans) {
    c.cancel.unseen > 0 || !c.cancel.open
  }

  predicate PauseReady(c: Chans, watched: bool) {
    watched && (c.pause.unseen > 0 || !c.pause.open)
  }

  predicate SomeArmReady(c: Chans, watched: bool, finite: bool, deadline: nat, race: seq<Wakeup>, k: nat)
    requires k < |race|
  {
    var here := RaceAt(c, race, k);
    CancelReady(here) || PauseReady(here, watched) || (finite && race[k].at >= deadline) || race[k].write.Some?
  }

  predicate PaceOver(c: Chans, watched: bool, wakeups: seq<PaceWakeup>, k: nat)
    requires k < |wakeups|
  {
    var here := PaceAt(c, wakeups, k);
    CancelReady(here) || PauseReady(here, watched) || wakeups[k].over
  }

  /** The arm that wake-up `w` makes ready, with no arm before it in the order
      of the `select!`. */
  predicate AnsweredBy(here: Chans, watched: bool, finite: bool, deadline: nat, w: Wakeup, arm: Arm) {
    match arm
    case CancelFired(stop) => CancelReady(here) && (stop <==> here.cancel.value || here.cancel.unseen == 0)
    case PauseToggled => !CancelReady(here) && PauseReady(here, watched)
    case DeadlineFired =>
      !CancelReady(here) && !PauseReady(here, watched) && finite && w.at >= deadline
    case WriteDone(n) =>
      && !CancelReady(here) && !PauseReady(here, watched) && !(finite && w.at >= deadline)
      && w.write == Some(Took(n))
    case WriteFailed(peerClosed, cancelled, now) =>
      && !CancelReady(here) && !PauseReady(here, watched) && !(finite && w.at >= deadline)
      && w.write == Some(Refused(peerClosed, now)) && (cancelled <==> here.cancel.value)
  }

  /** And the channels it leaves. */
  predicate Answers(here: Chans, watched: bool, finite: bool, deadline: nat, w: Wakeup, arm: Arm, end: Chans) {
    && AnsweredBy(here, watched, finite, deadline, w, arm)
    && Agree(end, here)
    && end.cancel.unseen == (if arm.CancelFired? then 0 else here.cancel.unseen)
    && end.pause.unseen == (if arm.PauseToggled? then 0 else here.pause.unseen)
  }

  /** A `select!` answers at the first wake-up that makes an arm ready, with the
      first such arm, and goes on only while there is none. */
  predicate FirstReady(c: Chans, watched: bool, finite: bool, deadline: nat, race: seq<Wakeup>, s: Selected<Arm>) {
    var (arm, end, used) := s;
    && used <= |race|
    && (arm.None? ==> used == |race| && forall k :: 0 <= k < |race| ==> !SomeArmReady(c, watched, finite, deadline, race, k))
    && (arm.Some? ==>
          && used > 0 && (forall k :: 0 <= k < used - 1 ==> !SomeArmReady(c, watched, finite, deadline, race, k))
          && Answers(RaceAt(c, race, used - 1), watched, finite, deadline, race[used - 1], arm.value, end))
    && Agree(end, c.ReceivedAll(RaceSignals(race[..used])))
  }

  lemma {:induction false} RaceLater(c: Chans, race: seq<Wakeup>, k: nat)
    requires k < |race|
    ensures c.ReceivedAll(RaceSignals(race[..k + 1]))
         == c.ReceivedAll(race[0].signals).ReceivedAll(RaceSignals(race[1..][..k]))
  {
    assert race[..k + 1][1..] == race[1..][..k];
    ReceivedConcat(c, race[0].signals, RaceSignals(race[1..][..k]));
  }

  lemma {:induction false} ReadyLater(c: Chans, watched: bool, finite: bool, deadline: nat, race: seq<Wakeup>, k: nat)
    requires 0 < k < |race|
    ensures var here := c.ReceivedAll(race[0].signals);
      && RaceAt(c, race, k) == RaceAt(here, race[1..], k - 1)
      && (SomeArmReady(c, watched, finite, deadline, race, k)
          <==> SomeArmReady(here, watched, finite, deadline, race[1..], k - 1))
  {
    RaceLater(c, race, k);
  }

  lemma {:induction false} FirstReadyLater(c: Chans, watched: bool, finite: bool, deadline: nat, race: seq<Wakeup>,
                                           s: Selected<Arm>)
    requires race != [] && !SomeArmReady(c, watched, finite, deadline, race, 0)
    requires FirstReady(c.ReceivedAll(race[0].signals), watched, finite, deadline, race[1..], s)
    ensures FirstReady(c, watched, finite, deadline, race, Later(1, s))
  {
    RaceLater(c, race, s.2);
    if s.0.Some? {
      ReadyLater(c, watched, finite, deadline, race, s.2);
    }
    forall k | 0 <= k < |race| && (s.0.Some? ==> k < s.2)
      ensures !SomeArmReady(c, watched, finite, deadline, race, k)
    {
      if k > 0 {
        ReadyLater(c, watched, finite, deadline, race, k);
      }
    }
  }

  lemma {:induction false} SelectIsFirst(c: Chans, watched: bool, finite: bool, deadline: nat, race: seq<Wakeup>)
    ensures FirstReady(c, watched, finite, deadline, race, Select(c, watched, finite, deadline, race))
    decreases |race|
  {
    if race == [] {
      assert race[..0] == [];
    } else {
      var here, rest := c.ReceivedAll(race[0].signals), race[1..];
      RaceLater(c, race, 0);
      assert rest[..0] == [];
      assert RaceAt(c, race, 0) == here;
      if !SomeArmReady(c, watched, finite, deadline, race, 0) {
        SelectIsFirst(here, watched, finite, deadline, rest);
        FirstReadyLater(c, watched, finite, deadline, race, Select(here, watched, finite, deadline, rest));
      }
    }
  }

  lemma {:induction false} PaceLater(c: Chans, wakeups: seq<PaceWakeup>, k: nat)
    requires k < |wakeups|
    ensures c.ReceivedAll(PaceSignals(wakeups[..k + 1]))
         == c.ReceivedAll(wakeups[0].signals).ReceivedAll(PaceSignals(wakeups[1..][..k]))
  {
    assert wakeups[..k + 1][1..] == wakeups[1..][..k];
    ReceivedConcat(c, wakeups[0].signals, PaceSignals(wakeups[1..][..k]));
  }

  /** So does a pacing sleep; it is cancelled exactly by a change of the cancel
      channel, whatever the value, or by its end. */
  predicate FirstOver(c: Chans, watched: bool, wakeups: seq<PaceWakeup>, s: Selected<bool>) {
    var (stop, end, used) := s;
    && used <= |wakeups|
    && (stop.None? ==> used == |wakeups| && forall k :: 0 <= k < |wakeups| ==> !PaceOver(c, watched, wakeups, k))
    && (stop.Some? ==>
          && used > 0 && (forall k :: 0 <= k < used - 1 ==> !PaceOver(c, watched, wakeups, k))
          && PaceOver(c, watched, wakeups, used - 1)
          && (stop.value <==> CancelReady(PaceAt(c, wakeups, used - 1))))
    && Agree(end, c.ReceivedAll(PaceSignals(wakeups[..used])))
  }

  lemma {:induction false} FirstOverLater(c: Chans, watched: bool, wakeups: seq<PaceWakeup>, s: Selected<bool>)
    requires wakeups != [] && !PaceOver(c, watched, wakeups, 0)
    requires FirstOver(c.ReceivedAll(wakeups[0].signals), watched, wakeups[1..], s)
    ensures FirstOver(c, watched, wakeups, Later(1, s))
  {
    PaceLater(c, wakeups, s.2);
    forall k | 0 < k < |wakeups|
      ensures PaceAt(c, wakeups, k) == PaceAt(c.ReceivedAll(wakeups[0].signals), wakeups[1..], k - 1)
    {
      PaceLater(c, wakeups, k);
    }
    forall k | 0 <= k < |wakeups| && (s.0.Some? ==> k < s.2)
      ensures !PaceOver(c, watched, wakeups, k)
    {
      if k > 0 {
        assert !PaceOver(c.ReceivedAll(wakeups[0].signals), watched, wakeups[1..], k - 1);
      }
    }
  }

  lemma {:induction false} PaceIsFirst(c: Chans, watched: bool, wakeups: seq<PaceWakeup>)
    ensures FirstOver(c, watched, wakeups, Pace(c, watched, wakeups))
    decreases |wakeups|
  {
    if wakeups == [] {
      assert wakeups[..0] == [];
    } else {
      var here, rest := c.ReceivedAll(wakeups[0].signals), wakeups[1..];
      PaceLater(c, wakeups, 0);
      assert rest[..0] == [];
      assert PaceAt(c, wakeups, 0) == here;
      if !PaceOver(c, watched, wakeups, 0) {
        PaceIsFirst(here, watched, rest);
        FirstOverLater(c, watched, wakeups, Pace(here, watched, rest));
      }
    }
  }

  // ----- the end of a turn -----

  /** The channels at the loop head. */
  function Head(l: Loop, t: Turn): Chans {
    l.chans.ReceivedAll(t.arrived)
  }

  /** What a turn claims, if it gets that far. */
  function Granted(cfg: Config, t: Turn): Option<nat> {
    if cfg.budgeted then ClaimOutcome(t.atLoad, t.atLoad, cfg.want, t.rivals).0 else Some(cfg.want)
  }

  /** A turn gets to its claim with no cancel on, no pause, and time left. */
  predicate GetsToClaim(cfg: Config, l: Loop, t: Turn) {
    var c := Head(l, t);
    !c.cancel.value && !(c.pause.value && c.pause.open) && (cfg.duration == 0 || t.now < l.deadline)
  }

  predicate GetsToWrite(cfg: Config, l: Loop, t: Turn) {
    GetsToClaim(cfg, l, t) && Granted(cfg, t).Some? && Granted(cfg, t).value > 0
  }

  predicate GetsToPause(l: Loop, t: Turn) {
    var c := Head(l, t);
    !c.cancel.value && c.pause.value && c.pause.open
  }

  /** The race of the write, from the loop head. */
  function RaceOf(cfg: Config, l: Loop, t: Turn): Selected<Arm> {
    var c := Head(l, t);
    Select(c, c.pause.open, cfg.duration > 0, l.deadline, t.race)
  }

  predicate WriteWins(cfg: Config, l: Loop, t: Turn) {
    GetsToWrite(cfg, l, t) && RaceOf(cfg, l, t).0.Some? && RaceOf(cfg, l, t).0.value.WriteDone?
  }

  /** A write is followed by a pacing sleep when it was ahead of a target bitrate. */
  predicate SleepsAfter(cfg: Config, l: Loop, t: Turn) {
    WriteWins(cfg, l, t) && cfg.paced && t.pace.Some?
  }

  function SleepOf(cfg: Config, l: Loop, t: Turn): Selected<bool>
    requires t.pace.Some?
  {
    var c := RaceOf(cfg, l, t).1;
    Pace(c, c.pause.open, t.pace.value)
  }

  /** An error on the write is no error of the test once it is cancelled, past
      its deadline, or closed by the peer within 250 ms of it. */
  predicate FailsInTeardown(cfg: Config, deadline: nat, arm: Arm) {
    arm.WriteFailed? &&
    (|| arm.cancelled
     || (cfg.duration > 0 && (arm.now >= deadline || (arm.peerClosed && arm.now + 250_000_000 >= deadline))))
  }

  predicate FailsOutright(cfg: Config, deadline: nat, arm: Arm) {
    arm.WriteFailed? && !FailsInTeardown(cfg, deadline, arm)
  }

  /** The write's race is decided for `arm` at wake-up `k`. */
  predicate DecidedAt(cfg: Config, l: Loop, t: Turn, k: nat, arm: Arm)
    requires k < |t.race|
  {
    var c, finite := Head(l, t), cfg.duration > 0;
    && (forall j :: 0 <= j < k ==> !SomeArmReady(c, c.pause.open, finite, l.deadline, t.race, j))
    && SomeArmReady(c, c.pause.open, finite, l.deadline, t.race, k)
    && AnsweredBy(RaceAt(c, t.race, k), c.pause.open, finite, l.deadline, t.race[k], arm)
  }

  /** The turn writes, and its race is decided for `arm`. */
  predicate TakesArm(cfg: Config, l: Loop, t: Turn, arm: Arm) {
    GetsToWrite(cfg, l, t) && exists k :: 0 <= k < |t.race| && DecidedAt(cfg, l, t, k, arm)
  }

  lemma {:induction false} RaceIsDecided(cfg: Config, l: Loop, t: Turn, arm: Arm)
    ensures TakesArm(cfg, l, t, arm) <==> GetsToWrite(cfg, l, t) && RaceOf(cfg, l, t).0 == Some(arm)
  {
    var s := RaceOf(cfg, l, t);
    if s.0 == Some(arm) {
      var c := Head(l, t);
      SelectIsFirst(c, c.pause.open, cfg.duration > 0, l.deadline, t.race);
      assert DecidedAt(cfg, l, t, s.2 - 1, arm);
    } else {
      forall k | 0 <= k < |t.race|
        ensures !DecidedAt(cfg, l, t, k, arm)
      {
        DecidedOnce(cfg, l, t, k, arm);
      }
    }
  }

  lemma {:induction false} DecidedOnce(cfg: Config, l: Loop, t: Turn, k: nat, arm: Arm)
    requires k < |t.race|
    ensures DecidedAt(cfg, l, t, k, arm) ==> RaceOf(cfg, l, t).0 == Some(arm)
  {
    var c, s := Head(l, t), RaceOf(cfg, l, t);
    SelectIsFirst(c, c.pause.open, cfg.duration > 0, l.deadline, t.race);
    if s.0.Some? {
      assert SomeArmReady(c, c.pause.open, cfg.duration > 0, l.deadline, t.race, s.2 - 1);
    }
  }

  /** A turn ends as its race, sleep or wait does. */
  predicate EndsByRace(cfg: Config, l: Loop, t: Turn, end: End) {
    var c, arm, wait := Head(l, t), RaceOf(cfg, l, t).0, WaitOutcome(Head(l, t), t.wait).0;
    var writes := GetsToWrite(cfg, l, t);
    && (end == Ended(Cancelled) <==>
          || c.cancel.value
          || (GetsToPause(l, t) && wait.CancelSeen?)
          || (writes && arm == Some(CancelFired(true)))
          || (writes && arm.Some? && FailsInTeardown(cfg, l.deadline, arm.value))
          || (SleepsAfter(cfg, l, t) && SleepOf(cfg, l, t).0 == Some(true)))
    && (end == Ended(DeadlinePassed) <==>
          || (!c.cancel.value && !GetsToPause(l, t) && cfg.duration > 0 && t.now >= l.deadline)
          || (writes && arm == Some(DeadlineFired)))
    && (end == Ended(BudgetSpent) <==> GetsToClaim(cfg, l, t) && Granted(cfg, t) == Some(0))
    && (end == Ended(Failed) <==> writes && arm.Some? && FailsOutright(cfg, l.deadline, arm.value))
    && (end == Going <==>
          || (GetsToPause(l, t) && wait.Resumed?)
          || (writes && (arm == Some(CancelFired(false)) || arm == Some(PauseToggled)))
          || (WriteWins(cfg, l, t) && (SleepsAfter(cfg, l, t) ==> SleepOf(cfg, l, t).0 == Some(false))))
  }

  lemma {:induction false} TurnEndsByRace(cfg: Config, l: Loop, t: Turn)
    ensures EndsByRace(cfg, l, t, TakeTurn(cfg, l, t).end)
  {
  }

  /** How a turn ends, read off its script: a cancel on at its head ends it, or
      one seen in a pause, in the race or in the sleep after the write, or an
      error of the write in the teardown; and so on for every other end. */
  ghost predicate EndsAsItShould(cfg: Config, l: Loop, t: Turn, end: End) {
    var c, wait := Head(l, t), WaitOutcome(Head(l, t), t.wait).0;
    && (end == Ended(Cancelled) <==>
          || c.cancel.value
          || (GetsToPause(l, t) && wait.CancelSeen?)
          || TakesArm(cfg, l, t, CancelFired(true))
          || (exists arm: Arm :: TakesArm(cfg, l, t, arm) && FailsInTeardown(cfg, l.deadline, arm))
          || (SleepsAfter(cfg, l, t) && SleepOf(cfg, l, t).0 == Some(true)))
    && (end == Ended(DeadlinePassed) <==>
          || (!c.cancel.value && !(c.pause.value && c.pause.open) && cfg.duration > 0 && t.now >= l.deadline)
          || TakesArm(cfg, l, t, DeadlineFired))
    && (end == Ended(BudgetSpent) <==> GetsToClaim(cfg, l, t) && Granted(cfg, t) == Some(0))
    && (end == Ended(Failed) <==> exists arm: Arm :: TakesArm(cfg, l, t, arm) && FailsOutright(cfg, l.deadline, arm))
    && (end == Going <==>
          || (GetsToPause(l, t) && wait.Resumed?)
          || TakesArm(cfg, l, t, CancelFired(false)) || TakesArm(cfg, l, t, PauseToggled)
          || (exists n: nat :: TakesArm(cfg, l, t, WriteDone(n)) &&
                (cfg.paced && t.pace.Some? ==> SleepOf(cfg, l, t).0 == Some(false))))
  }

  /** The exact end of every turn, budgeted or not. */
  lemma {:induction false} HowTurnsEnd(cfg: Config, l: Loop, t: Turn)
    ensures EndsAsItShould(cfg, l, t, TakeTurn(cfg, l, t).end)
  {
    TurnEndsByRace(cfg, l, t);
    EndsRight(cfg, l, t, TakeTurn(cfg, l, t).end);
  }

  lemma {:induction false} EndsRight(cfg: Config, l: Loop, t: Turn, end: End)
    requires EndsByRace(cfg, l, t, end)
    ensures EndsAsItShould(cfg, l, t, end)
  {
    forall arm: Arm
      ensures TakesArm(cfg, l, t, arm) <==> GetsToWrite(cfg, l, t) && RaceOf(cfg, l, t).0 == Some(arm)
    {
      RaceIsDecided(cfg, l, t, arm);
    }
    var arm := RaceOf(cfg, l, t).0;
    if GetsToWrite(cfg, l, t) && arm.Some? {
      assert TakesArm(cfg, l, t, arm.value);
    }
  }

  /** The bytes a turn's write takes: no more than it was given. */
  function Taken(cfg: Config, l: Loop, t: Turn): nat {
    if WriteWins(cfg, l, t) then
      var n, claimed := RaceOf(cfg, l, t).0.value.n, Granted(cfg, t).value;
      if n < claimed then n else claimed
    else 0
  }

  /** A turn counts the bytes its write took, and once the race is decided the
      rest of its claim is back in the counter. */
  lemma {:induction false} WhatTurnsChange(cfg: Config, l: Loop, t: Turn)
    ensures var after := TakeTurn(cfg, l, t).after;
      && after.sent == l.sent + Taken(cfg, l, t)
      && (cfg.budgeted && GetsToWrite(cfg, l, t) && RaceOf(cfg, l, t).0.Some? ==>
            after.remaining == WrapAdd(t.atRefund, Granted(cfg, t).value - Taken(cfg, l, t)))
      && (!GetsToClaim(cfg, l, t) || !cfg.budgeted ==> after.remaining == l.remaining)
  {
  }

  // ----- what a turn hears -----

  /** The signals that reach the loop in a turn: those before it, and those of
      the wake-ups it takes. */
  function Heard(cfg: Config, l: Loop, t: Turn): seq<Signal> {
    if GetsToPause(l, t) then t.arrived + SignalsOf(t.wait[..WaitOutcome(Head(l, t), t.wait).1])
    else if !GetsToWrite(cfg, l, t) then t.arrived
    else
      var raced := t.arrived + RaceSignals(t.race[..RaceOf(cfg, l, t).2]);
      if SleepsAfter(cfg, l, t) then raced + PaceSignals(t.pace.value[..SleepOf(cfg, l, t).2]) else raced
  }

  /** The channels a turn leaves: as its last wait, race or sleep left them. */
  function Leaves(cfg: Config, l: Loop, t: Turn): Chans {
    if GetsToPause(l, t) then WaitOutcome(Head(l, t), t.wait).2
    else if !GetsToWrite(cfg, l, t) then Head(l, t)
    else if SleepsAfter(cfg, l, t) then SleepOf(cfg, l, t).1
    else RaceOf(cfg, l, t).1
  }

  lemma {:induction false} RaceHears(cfg: Config, l: Loop, t: Turn)
    ensures var (_, end, used) := RaceOf(cfg, l, t);
      Agree(end, l.chans.ReceivedAll(t.arrived + RaceSignals(t.race[..used])))
  {
    var c := Head(l, t);
    SelectIsFirst(c, c.pause.open, cfg.duration > 0, l.deadline, t.race);
    ReceivedConcat(l.chans, t.arrived, RaceSignals(t.race[..RaceOf(cfg, l, t).2]));
  }

  lemma {:induction false} SleepHears(cfg: Config, l: Loop, t: Turn)
    requires t.pace.Some?
    ensures var (_, end, used) := SleepOf(cfg, l, t);
      Agree(end, l.chans.ReceivedAll(t.arrived + RaceSignals(t.race[..RaceOf(cfg, l, t).2]) + PaceSignals(t.pace.value[..used])))
  {
    var end, raced := RaceOf(cfg, l, t).1, t.arrived + RaceSignals(t.race[..RaceOf(cfg, l, t).2]);
    var paced := PaceSignals(t.pace.value[..SleepOf(cfg, l, t).2]);
    PaceIsFirst(end, end.pause.open, t.pace.value);
    RaceHears(cfg, l, t);
    AgreeLater(end, l.chans.ReceivedAll(raced), paced);
    ReceivedConcat(l.chans, raced, paced);
  }

  lemma {:induction false} LeavesWhatItHears(cfg: Config, l: Loop, t: Turn)
    ensures Agree(Leaves(cfg, l, t), l.chans.ReceivedAll(Heard(cfg, l, t)))
  {
    if GetsToPause(l, t) {
      WaitReceives(Head(l, t), t.wait);
      ReceivedConcat(l.chans, t.arrived, SignalsOf(t.wait[..WaitOutcome(Head(l, t), t.wait).1]));
    } else if SleepsAfter(cfg, l, t) {
      SleepHears(cfg, l, t);
    } else if GetsToWrite(cfg, l, t) {
      RaceHears(cfg, l, t);
    }
  }

  /** A turn leaves on its channels exactly what it heard. */
  lemma {:induction false} TurnHears(cfg: Config, l: Loop, t: Turn)
    ensures Agree(TakeTurn(cfg, l, t).after.chans, l.chans.ReceivedAll(Heard(cfg, l, t)))
  {
    TurnLeaves(cfg, l, t);
    LeavesWhatItHears(cfg, l, t);
  }

  lemma {:induction false} TurnLeaves(cfg: Config, l: Loop, t: Turn)
    ensures TakeTurn(cfg, l, t).after.chans == Leaves(cfg, l, t)
  {
  }

  // ----- a cancel ends the loop -----

  lemma {:induction false} SelectUncancelled(c: Chans, watched: bool, finite: bool, deadline: nat, race: seq<Wakeup>)
    requires c.cancel.value ==> c.cancel.unseen > 0
    ensures var (arm, end, _) := Select(c, watched, finite, deadline, race);
      end.cancel.value ==> arm == Some(CancelFired(true)) || (race == [] && end == c)
    decreases |race|
  {
    if race != [] {
      TrueArrivesUnseen(c, race[0].signals);
      SelectUncancelled(c.ReceivedAll(race[0].signals), watched, finite, deadline, race[1..]);
    }
  }

  lemma {:induction false} PaceUncancelled(c: Chans, watched: bool, wakeups: seq<PaceWakeup>)
    requires c.cancel.value ==> c.cancel.unseen > 0
    ensures var (stop, end, _) := Pace(c, watched, wakeups);
      end.cancel.value ==> stop == Some(true) || (wakeups == [] && end == c)
    decreases |wakeups|
  {
    if wakeups != [] {
      TrueArrivesUnseen(c, wakeups[0].signals);
      PaceUncancelled(c.ReceivedAll(wakeups[0].signals), watched, wakeups[1..]);
    }
  }

  /** A turn that leaves the cancel on, whenever it came and whatever the turn
      was at, ends the loop as cancelled. */
  lemma {:induction false} CancelledTurnEnds(cfg: Config, l: Loop, t: Turn)
    ensures TakeTurn(cfg, l, t).after.chans.cancel.value ==> TakeTurn(cfg, l, t).end == Ended(Cancelled)
  {
    var c := Head(l, t);
    if GetsToPause(l, t) {
      if !WaitOutcome(c, t.wait).0.CancelSeen? {
        ResumedUncancelled(c, t.wait);
      }
    } else if GetsToWrite(cfg, l, t) {
      var end := RaceOf(cfg, l, t).1;
      SelectUncancelled(c, c.pause.open, cfg.duration > 0, l.deadline, t.race);
      if SleepsAfter(cfg, l, t) {
        PaceUncancelled(end, end.pause.open, t.pace.value);
      }
    }
  }

  /** All signals these turns hear. */
  function HeardIn(cfg: Config, l: Loop, turns: seq<Turn>): seq<Signal> {
    if turns == [] then []
    else
      var n := |turns| - 1;
      HeardIn(cfg, l, turns[..n]) + Heard(cfg, LoopAfter(cfg, l, turns[..n]), turns[n])
  }

  lemma {:induction false} LoopHears(cfg: Config, l: Loop, turns: seq<Turn>)
    ensures Agree(LoopAfter(cfg, l, turns).chans, l.chans.ReceivedAll(HeardIn(cfg, l, turns)))
  {
    if turns != [] {
      var n := |turns| - 1;
      var mid := LoopAfter(cfg, l, turns[..n]);
      var before, heard := HeardIn(cfg, l, turns[..n]), Heard(cfg, mid, turns[n]);
      LoopHears(cfg, l, turns[..n]);
      TurnHears(cfg, mid, turns[n]);
      AgreeLater(mid.chans, l.chans.ReceivedAll(before), heard);
      ReceivedConcat(l.chans, before, heard);
    }
  }

  /** No turn by which the cancel is on is followed by another. */
  lemma {:induction false} CancelIsLast(cfg: Config, l: Loop, turns: seq<Turn>, end: End, k: nat)
    requires Takes(cfg, l, turns, end) && k < |turns| && LoopAfter(cfg, l, turns[..k + 1]).chans.cancel.value
    ensures k + 1 == |turns| && end == Ended(Cancelled)
  {
    OneMoreTurn(cfg, l, turns, k);
    CancelledTurnEnds(cfg, LoopAfter(cfg, l, turns[..k]), turns[k]);
  }

  /** A cancel sent while it had a sender, and not taken back by turn `k`, ends
      the loop as cancelled in turn `k` at the latest. */
  lemma {:induction false} CancelEndsTheLoop(cfg: Config, l: Loop, turns: seq<Turn>, end: End, k: nat, j: nat)
    requires Takes(cfg, l, turns, end) && k < |turns| && l.chans.cancel.open
    requires var heard := HeardIn(cfg, l, turns[..k + 1]);
      && j < |heard| && heard[j] == Signal(true, Send(true))
      && (forall i :: 0 <= i < j ==> heard[i] != Signal(true, DropSender))
      && (forall i :: j < i < |heard| ==> heard[i] != Signal(true, Send(false)))
    ensures k + 1 == |turns| && end == Ended(Cancelled)
  {
    LoopHears(cfg, l, turns[..k + 1]);
    LastSendIsRead(l.chans, HeardIn(cfg, l, turns[..k + 1]), j, true, true);
    CancelIsLast(cfg, l, turns, end, k);
  }
}
