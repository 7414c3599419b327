/** One QUIC send loop (`send_quic_data` in `src/quic.rs`) as the program runs
    it, on the real channels, counter and statistics; its turns are paths of the
    stream automaton, and loops over one counter are a run of the machine. */
module SendLoop {
  import opened Basics
  import opened Budget
  import opened PauseWait
  import opened SendMachine
  import opened SendTurns

  // ----- a send loop as a path of the stream automaton -----

  /** A step whose effect does not depend on the counter. */
  predicate IsLocal(s: Stream, e: Event) {
    || e.Resume? || e.Stop? || e.Write? || e.Count? || e.Paced?
    || (e.Exchange? && s.pc.Loaded? && Min(s.pc.current, s.want) == 0)
  }

  function Follow(s: Stream, step: Step): Option<Stream> {
    match step
    case Touch(before, e, after) =>
      (match StreamStep(before, s, e)
       case Some((left, s')) => if left == after then Some(s') else None
       case None => None)
    case Local(e) =>
      if !IsLocal(s, e) then None
      else match StreamStep(0, s, e)
        case Some((_, s')) => Some(s')
        case None => None
  }

  function Follows(s: Stream, trace: seq<Step>): Option<Stream>
    decreases |trace|
  {
    if trace == [] then Some(s)
    else match Follow(s, trace[0])
      case None => None
      case Some(s') => Follows(s', trace[1..])
  }

  lemma {:induction false} FollowsConcat(s: Stream, a: seq<Step>, b: seq<Step>)
    requires Follows(s, a).Some?
    ensures Follows(s, a + b) == Follows(Follows(s, a).value, b)
    decreases |a|
  {
    if a == [] {
      assert a + b == b;
    } else {
      assert (a + b)[1..] == a[1..] + b;
      FollowsConcat(Follow(s, a[0]).value, a[1..], b);
    }
  }

  lemma {:induction false} FollowsOne(s: Stream, step: Step)
    ensures Follows(s, [step]) == Follow(s, step)
  {
    assert [step][1..] == [];
  }

  // ----- the turns are a path of the automaton -----

  lemma {:induction false} ClaimFollows(s: Stream, rivals: seq<Rival>)
    requires s.pc.Loaded?
    ensures var current := s.pc.current;
      var (granted, _) := ClaimOutcome(current, current, s.want, rivals);
      var s' := Follows(s, ClaimSteps(current, s.want, rivals));
      && s'.Some? && s'.value == s.(pc := s'.value.pc)
      && match granted
         case None => s'.value.pc.Loaded?
         case Some(g) => s'.value.pc == if g == 0 then Done(BudgetSpent) else Claimed(g)
    decreases |rivals|
  {
    var steps := ClaimSteps(s.pc.current, s.want, rivals);
    if Min(s.pc.current, s.want) == 0 || rivals == [] {
      if steps != [] {
        FollowsOne(s, steps[0]);
      }
    } else {
      var s1 := Follow(s, steps[0]).value;
      if s1.pc.Loaded? {
        ClaimFollows(s1, rivals[1..]);
        assert steps[1..] == ClaimSteps(s1.pc.current, s.want, rivals[1..]);
        ClaimForgets(s1.pc.current, rivals[0].left, s.pc.current, s.want, rivals);
      } else {
        FollowsOne(s, steps[0]);
      }
    }
  }

  /** A claim whose first exchange fails goes on from what it observed. */
  lemma {:induction false} ClaimForgets(observed: nat, left: nat, current: nat, want: nat, rivals: seq<Rival>)
    requires rivals != [] && left == rivals[0].left && Min(current, want) != 0
    requires TryClaim(current, left, want, rivals[0].spurious) == Lost(observed)
    ensures ClaimOutcome(current, current, want, rivals).0 == ClaimOutcome(observed, observed, want, rivals[1..]).0
  {
  }

  lemma {:induction false} ArmFollows(cfg: Config, s: Stream, deadline: nat, arm: Arm, claimed: nat, atRefund: nat)
    requires s.pc == Claimed(claimed)
    ensures var n := Written(arm, claimed);
      Follows(s, ArmSteps(cfg, deadline, arm, claimed, atRefund))
      == Some(Stream(s.want,
                     if arm.WriteDone? then Pacing
                     else match ArmEnd(cfg, deadline, arm) case Ended(e) => Done(e) case _ => Top,
                     s.sent + n, s.counted + n))
  {
    var steps := ArmSteps(cfg, deadline, arm, claimed, atRefund);
    if arm.WriteDone? {
      var s1 := Follow(s, steps[0]).value;
      var s2 := Follow(s1, steps[1]).value;
      assert steps[1..][1..] == [steps[2]];
      FollowsOne(s2, steps[2]);
      assert Follows(s1, steps[1..]) == Follows(s2, [steps[2]]);
    } else {
      FollowsOne(s, steps[0]);
    }
  }

  /** Where a stream stands after a turn that ends so. */
  predicate Stands(cfg: Config, sent: nat, end: End, s: Option<Stream>) {
    && s.Some? && s.value == Stream(cfg.want, s.value.pc, sent, sent)
    && match end
       case Going => s.value.pc == Top
       case Ended(exit) => s.value.pc == Done(exit)
       case Stuck => !s.value.pc.Done?
  }

  lemma {:induction false} RaceFollows(cfg: Config, l: Loop, t: Turn, claimed: nat, s: Stream, steps: seq<Step>)
    requires Follows(s, steps) == Some(Stream(cfg.want, Claimed(claimed), l.sent, l.sent))
    ensures var r := RaceTurn(cfg, l, t, claimed, steps); Stands(cfg, r.after.sent, r.end, Follows(s, r.steps))
  {
    var (arm, c, _) := Select(l.chans, l.chans.pause.open, cfg.duration > 0, l.deadline, t.race);
    if arm.Some? {
      ArmTurnFollows(cfg, l.(chans := c), t, arm.value, claimed, s, steps);
    }
  }

  lemma {:induction false} ArmTurnFollows(cfg: Config, l: Loop, t: Turn, arm: Arm, claimed: nat, s: Stream, steps: seq<Step>)
    requires Follows(s, steps) == Some(Stream(cfg.want, Claimed(claimed), l.sent, l.sent))
    ensures var r := ArmTurn(cfg, l, t, arm, claimed, steps); Stands(cfg, r.after.sent, r.end, Follows(s, r.steps))
  {
    var s1 := Follows(s, steps).value;
    var armSteps := ArmSteps(cfg, l.deadline, arm, claimed, t.atRefund);
    ArmFollows(cfg, s1, l.deadline, arm, claimed, t.atRefund);
    FollowsConcat(s, steps, armSteps);
    if arm.WriteDone? {
      var stop := PaceTurn(cfg, l.chans, t).0;
      if stop.Some? {
        FollowsConcat(s, steps + armSteps, [Local(Paced(stop.value))]);
        FollowsOne(Follows(s1, armSteps).value, Local(Paced(stop.value)));
      }
    }
  }

  lemma {:induction false} WriteFollows(cfg: Config, l: Loop, t: Turn)
    requires cfg.budgeted && cfg.want > 0
    ensures var r := WriteTurn(cfg, l, t); Stands(cfg, r.after.sent, r.end, Follows(Stream(cfg.want, Top, l.sent, l.sent), r.steps))
  {
    var s := Stream(cfg.want, Top, l.sent, l.sent);
    var load, claim := [Touch(t.atLoad, Load, t.atLoad)], ClaimSteps(t.atLoad, cfg.want, t.rivals);
    FollowsOne(s, load[0]);
    FollowsConcat(s, load, claim);
    ClaimFollows(s.(pc := Loaded(t.atLoad)), t.rivals);
    var (granted, left) := ClaimOf(cfg, l, t);
    if granted.Some? && granted.value > 0 {
      RaceFollows(cfg, l.(remaining := left), t, granted.value, s, load + claim);
    }
  }

  /** One turn with a budget is a path of the automaton from the loop head. */
  lemma {:induction false} TurnFollows(cfg: Config, l: Loop, t: Turn)
    requires cfg.budgeted && cfg.want > 0
    ensures var r := TakeTurn(cfg, l, t); Stands(cfg, r.after.sent, r.end, Follows(Stream(cfg.want, Top, l.sent, l.sent), r.steps))
  {
    var r := TakeTurn(cfg, l, t);
    var l' := l.(chans := l.chans.ReceivedAll(t.arrived));
    if !l'.chans.cancel.value && !l'.chans.pause.Paused() && !(cfg.duration > 0 && t.now >= l.deadline) {
      WriteFollows(cfg, l', t);
    } else if r.steps != [] {
      FollowsOne(Stream(cfg.want, Top, l.sent, l.sent), r.steps[0]);
    }
  }

  /** The counter these steps leave, when nothing else touches it. */
  function CounterAfter(remaining: nat, steps: seq<Step>): nat {
    if steps == [] then remaining
    else
      var n := |steps| - 1;
      if steps[n].Touch? then steps[n].after else CounterAfter(remaining, steps[..n])
  }

  lemma {:induction false} CounterAfterConcat(remaining: nat, a: seq<Step>, b: seq<Step>)
    ensures CounterAfter(remaining, a + b) == CounterAfter(CounterAfter(remaining, a), b)
  {
    if b == [] {
      assert a + b == a;
    } else {
      assert (a + b)[..|a + b| - 1] == a + b[..|b| - 1];
      CounterAfterConcat(remaining, a, b[..|b| - 1]);
    }
  }

  /** The counter a turn leaves is the one its last step on it leaves. */
  lemma {:induction false} StepsLeaveTheCounter(cfg: Config, l: Loop, t: Turn)
    requires cfg.budgeted
    ensures TakeTurn(cfg, l, t).after.remaining == CounterAfter(l.remaining, TakeTurn(cfg, l, t).steps)
  {
    var l' := l.(chans := l.chans.ReceivedAll(t.arrived));
    if !l'.chans.cancel.value && !l'.chans.pause.Paused() && !(cfg.duration > 0 && t.now >= l.deadline) {
      var load, claim := [Touch(t.atLoad, Load, t.atLoad)], ClaimSteps(t.atLoad, cfg.want, t.rivals);
      CounterAfterConcat(l.remaining, load, claim);
      ClaimLeavesTheCounter(t.atLoad, t.atLoad, cfg.want, t.rivals);
      var (granted, left) := ClaimOf(cfg, l', t);
      if granted.Some? && granted.value > 0 {
        RaceLeavesTheCounter(cfg, l'.(remaining := left), t, granted.value, l.remaining, load + claim);
      }
    }
  }

  lemma {:induction false} ClaimLeavesTheCounter(current: nat, remaining: nat, want: nat, rivals: seq<Rival>)
    ensures ClaimOutcome(current, remaining, want, rivals).1 == CounterAfter(remaining, ClaimSteps(current, want, rivals))
    decreases |rivals|
  {
    var steps := ClaimSteps(current, want, rivals);
    if Min(current, want) != 0 && rivals != [] {
      var before := rivals[0].left;
      if TryClaim(current, before, want, rivals[0].spurious).Lost? {
        ClaimLeavesTheCounter(before, before, want, rivals[1..]);
        CounterAfterConcat(remaining, [steps[0]], ClaimSteps(before, want, rivals[1..]));
      }
    }
  }

  lemma {:induction false} LocalLeavesTheCounter(remaining: nat, steps: seq<Step>, e: Event)
    ensures CounterAfter(remaining, steps + [Local(e)]) == CounterAfter(remaining, steps)
  {
    assert (steps + [Local(e)])[..|steps|] == steps;
  }

  lemma {:induction false} TouchLeavesTheCounter(remaining: nat, steps: seq<Step>, step: Step)
    requires step.Touch?
    ensures CounterAfter(remaining, steps + [step]) == step.after
  {
  }

  lemma {:induction false} ArmLeavesTheCounter(cfg: Config, deadline: nat, arm: Arm, claimed: nat, atRefund: nat, remaining: nat)
    ensures CounterAfter(remaining, ArmSteps(cfg, deadline, arm, claimed, atRefund))
         == WrapAdd(atRefund, claimed - Written(arm, claimed))
  {
    var steps := ArmSteps(cfg, deadline, arm, claimed, atRefund);
    if arm.WriteDone? {
      assert steps == [steps[0]] + [steps[1]] + [Local(Count)];
      LocalLeavesTheCounter(remaining, [steps[0]] + [steps[1]], Count);
      TouchLeavesTheCounter(remaining, [steps[0]], steps[1]);
    } else {
      assert steps == [] + [steps[0]];
      TouchLeavesTheCounter(remaining, [], steps[0]);
    }
  }

  lemma {:induction false} RaceLeavesTheCounter(cfg: Config, l: Loop, t: Turn, claimed: nat, remaining: nat, steps: seq<Step>)
    requires cfg.budgeted && CounterAfter(remaining, steps) == l.remaining
    ensures RaceTurn(cfg, l, t, claimed, steps).after.remaining
         == CounterAfter(remaining, RaceTurn(cfg, l, t, claimed, steps).steps)
  {
    var (arm, c, _) := Select(l.chans, l.chans.pause.open, cfg.duration > 0, l.deadline, t.race);
    if arm.Some? {
      ArmTurnLeavesTheCounter(cfg, l.(chans := c), t, arm.value, claimed, remaining, steps);
    }
  }

  lemma {:induction false} ArmTurnLeavesTheCounter(cfg: Config, l: Loop, t: Turn, arm: Arm, claimed: nat, remaining: nat,
                                                   steps: seq<Step>)
    requires cfg.budgeted
    ensures var r := ArmTurn(cfg, l, t, arm, claimed, steps); r.after.remaining == CounterAfter(remaining, r.steps)
  {
    var before := CounterAfter(remaining, steps);
    var armSteps := ArmSteps(cfg, l.deadline, arm, claimed, t.atRefund);
    ArmLeavesTheCounter(cfg, l.deadline, arm, claimed, t.atRefund, before);
    CounterAfterConcat(remaining, steps, armSteps);
    var stop := PaceTurn(cfg, l.chans, t).0;
    if stop.Some? {
      LocalLeavesTheCounter(remaining, steps + armSteps, Paced(stop.value));
    }
  }

  /** So is a whole loop: its steps, at the counter values of its script, lead
      from the start to where it ends, with the bytes it sent. */
  lemma {:induction false} LoopFollows(cfg: Config, l: Loop, turns: seq<Turn>, end: End)
    requires cfg.budgeted && cfg.want > 0 && Takes(cfg, l, turns, end)
    ensures var s := Follows(Stream(cfg.want, Top, l.sent, l.sent), Trace(cfg, l, turns));
      Stands(cfg, LoopAfter(cfg, l, turns).sent, end, s)
  {
    if turns != [] {
      var n := |turns| - 1;
      var s0 := Stream(cfg.want, Top, l.sent, l.sent);
      TakesFewer(cfg, l, turns, end);
      LoopFollows(cfg, l, turns[..n], Going);
      FollowsConcat(s0, Trace(cfg, l, turns[..n]), TurnAt(cfg, l, turns, n).steps);
      TurnFollows(cfg, LoopAfter(cfg, l, turns[..n]), turns[n]);
    }
  }

  lemma {:induction false} TakesFewer(cfg: Config, l: Loop, turns: seq<Turn>, end: End)
    requires turns != [] && Takes(cfg, l, turns, end)
    ensures Takes(cfg, l, turns[..|turns| - 1], Going)
  {
    var fewer := turns[..|turns| - 1];
    forall k: nat | k < |fewer|
      ensures TurnAt(cfg, l, fewer, k) == TurnAt(cfg, l, turns, k) && TurnAt(cfg, l, turns, k).end.Going?
    {
      assert fewer[..k] == turns[..k];
    }
  }

  lemma {:induction false} TakesOneMore(cfg: Config, l: Loop, turns: seq<Turn>, n: nat)
    requires n < |turns| && Takes(cfg, l, turns[..n], Going)
    ensures Takes(cfg, l, turns[..n + 1], TurnAt(cfg, l, turns, n).end)
  {
    var more := turns[..n + 1];
    assert more[..n] == turns[..n];
    forall k: nat | k < n
      ensures TurnAt(cfg, l, more, k).end.Going?
    {
      assert more[..k] == turns[..n][..k] && TurnAt(cfg, l, more, k) == TurnAt(cfg, l, turns[..n], k);
    }
  }

  // ----- the loop -----

  class SendStats {
    var bytesSent: nat

    method AddBytesSent(n: nat)
      modifies this
      ensures bytesSent == old(bytesSent) + n
    {
      bytesSent := bytesSent + n;
    }
  }

  /** The stream the loop writes to: the writes it was asked for. */
  class SendStream {
    var writes: seq<WriteStart>

    method Start(now: nat, size: nat)
      modifies this
      ensures writes == old(writes) + [WriteStart(now, size)]
    {
      writes := writes + [WriteStart(now, size)];
    }
  }

  /** The objects the loop works on are as `l` says, `base` bytes having been
      counted before it began. */
  ghost predicate Holds(pause: Receiver, cancel: Receiver, budget: ByteBudget?, stats: SendStats, base: nat,
                        deadline: nat, l: Loop)
    reads pause, cancel, budget, stats
  {
    && pause != cancel && pause.Valid() && cancel.Valid() && Views(pause, cancel) == l.chans
    && (budget != null ==> budget.Valid() && budget.remaining == l.remaining)
    && deadline == l.deadline && stats.bytesSent == base + l.sent
  }

  /** One poll of the write's `select!`. */
  method PollRace(pause: Receiver, cancel: Receiver, watched: bool, finite: bool, deadline: nat, w: Wakeup)
    returns (arm: Option<Arm>)
    requires pause != cancel && pause.Valid() && cancel.Valid()
    modifies pause, cancel
    ensures pause.Valid() && cancel.Valid()
    ensures (arm, Views(pause, cancel)) == ReadyArm(old(Views(pause, cancel)), watched, finite, deadline, w)
  {
    var onCancel := cancel.PollChanged();
    if onCancel.Ready? {
      return Some(CancelFired(!onCancel.ok || cancel.value));
    }
    if watched {
      var onPause := pause.PollChanged();
      if onPause.Ready? {
        return Some(PauseToggled);
      }
    }
    if finite && w.at >= deadline {
      return Some(DeadlineFired);
    }
    match w.write {
      case Some(Took(n)) => return Some(WriteDone(n));
      case Some(Refused(peerClosed, now)) => return Some(WriteFailed(peerClosed, cancel.value, now));
      case None => return None;
    }
  }

  method SelectArm(pause: Receiver, cancel: Receiver, finite: bool, deadline: nat, race: seq<Wakeup>)
    returns (arm: Option<Arm>, used: nat)
    requires pause != cancel && pause.Valid() && cancel.Valid()
    modifies pause, cancel
    ensures pause.Valid() && cancel.Valid()
    ensures (arm, Views(pause, cancel), used) == Select(old(Views(pause, cancel)), old(pause.open), finite, deadline, race)
  {
    var watched := pause.ChannelIsOpen();
    arm, used := None, 0;
    while arm.None? && used < |race|
      invariant pause.Valid() && cancel.Valid() && used <= |race|
      invariant arm.None? ==>
        Later(used, Select(Views(pause, cancel), watched, finite, deadline, race[used..]))
        == Select(old(Views(pause, cancel)), watched, finite, deadline, race)
      invariant arm.Some? ==>
        (arm, Views(pause, cancel), used) == Select(old(Views(pause, cancel)), watched, finite, deadline, race)
      decreases |race| - used
    {
      assert race[used..][0] == race[used] && race[used..][1..] == race[used + 1..];
      Receive(pause, cancel, race[used].signals);
      arm := PollRace(pause, cancel, watched, finite, deadline, race[used]);
      used := used + 1;
    }
  }

  /** One poll of the pacing `select!`. */
  method PollSleep(pause: Receiver, cancel: Receiver, watched: bool, over: bool) returns (stop: Option<bool>)
    requires pause != cancel && pause.Valid() && cancel.Valid()
    modifies pause, cancel
    ensures pause.Valid() && cancel.Valid()
    ensures (stop, Views(pause, cancel)) == SleepEnds(old(Views(pause, cancel)), watched, over)
  {
    var onCancel := cancel.PollChanged();
    if onCancel.Ready? {
      return Some(true);
    }
    if watched {
      var onPause := pause.PollChanged();
      if onPause.Ready? {
        return Some(false);
      }
    }
    stop := if over then Some(false) else None;
  }

  method PaceSleep(pause: Receiver, cancel: Receiver, wakeups: seq<PaceWakeup>)
    returns (stop: Option<bool>, used: nat)
    requires pause != cancel && pause.Valid() && cancel.Valid()
    modifies pause, cancel
    ensures pause.Valid() && cancel.Valid()
    ensures (stop, Views(pause, cancel), used) == Pace(old(Views(pause, cancel)), old(pause.open), wakeups)
  {
    var watched := pause.ChannelIsOpen();
    stop, used := None, 0;
    while stop.None? && used < |wakeups|
      invariant pause.Valid() && cancel.Valid() && used <= |wakeups|
      invariant stop.None? ==>
        Later(used, Pace(Views(pause, cancel), watched, wakeups[used..]))
        == Pace(old(Views(pause, cancel)), watched, wakeups)
      invariant stop.Some? ==>
        (stop, Views(pause, cancel), used) == Pace(old(Views(pause, cancel)), watched, wakeups)
      decreases |wakeups| - used
    {
      assert wakeups[used..][0] == wakeups[used] && wakeups[used..][1..] == wakeups[used + 1..];
      Receive(pause, cancel, wakeups[used].signals);
      stop := PollSleep(pause, cancel, watched, wakeups[used].over);
      used := used + 1;
    }
  }

  /** The `select!` that races the write, and what its arms do. */
  method Race(pause: Receiver, cancel: Receiver, budget: ByteBudget?, stats: SendStats, cfg: Config, t: Turn,
              claimed: nat, deadline: nat, ghost base: nat, ghost l: Loop, ghost steps: seq<Step>)
    returns (end: End)
    requires Holds(pause, cancel, budget, stats, base, deadline, l) && TurnOk(t) && cfg.budgeted == (budget != null)
    modifies pause, cancel, budget, stats
    ensures var r := RaceTurn(cfg, l, t, claimed, steps);
      Holds(pause, cancel, budget, stats, base, deadline, r.after) && end == r.end
  {
    var arm, _ := SelectArm(pause, cancel, cfg.duration > 0, deadline, t.race);
    if arm.None? {
      return Stuck;
    }
    end := TakeArm(pause, cancel, budget, stats, cfg, t, arm.value, claimed, deadline, base,
                   l.(chans := Views(pause, cancel)), steps);
  }

  method TakeArm(pause: Receiver, cancel: Receiver, budget: ByteBudget?, stats: SendStats, cfg: Config, t: Turn, arm: Arm,
                 claimed: nat, deadline: nat, ghost base: nat, ghost l: Loop, ghost steps: seq<Step>)
    returns (end: End)
    requires Holds(pause, cancel, budget, stats, base, deadline, l) && TurnOk(t) && cfg.budgeted == (budget != null)
    modifies pause, cancel, budget, stats
    ensures var r := ArmTurn(cfg, l, t, arm, claimed, steps);
      Holds(pause, cancel, budget, stats, base, deadline, r.after) && end == r.end
  {
    if budget != null {
      budget.Interfere(t.atRefund);
    }
    if arm.WriteDone? {
      end := Deliver(pause, cancel, budget, stats, cfg, t, Min(arm.n, claimed), claimed, deadline, base,
                     l.(remaining := if budget != null then t.atRefund else l.remaining));
    } else {
      RefundUnwritten(budget, claimed, 0);
      end := Leave(cfg, deadline, arm);
    }
  }

  /** The arms that give up the write: how each leaves the turn. */
  method Leave(cfg: Config, deadline: nat, arm: Arm) returns (end: End)
    requires !arm.WriteDone?
    ensures end == ArmEnd(cfg, deadline, arm)
  {
    var finite := cfg.duration > 0;
    match arm {
      case CancelFired(stop) => end := if stop then Ended(Cancelled) else Going;
      case PauseToggled => end := Going;
      case DeadlineFired => end := Ended(DeadlinePassed);
      case WriteFailed(peerClosed, cancelled, now) =>
        var deadlineReached := finite && now >= deadline;
        var nearDeadline := finite && now + SEND_TEARDOWN_GRACE >= deadline;
        end := Ended(if cancelled || deadlineReached || (peerClosed && nearDeadline) then Cancelled else Failed);
    }
  }

  /** A completed write: hand back the rest, count it, and pace. */
  method Deliver(pause: Receiver, cancel: Receiver, budget: ByteBudget?, stats: SendStats, cfg: Config, t: Turn,
                 written: nat, claimed: nat, deadline: nat, ghost base: nat, ghost l: Loop)
    returns (end: End)
    requires Holds(pause, cancel, budget, stats, base, deadline, l) && written <= claimed
    modifies pause, cancel, budget, stats
    ensures var (stop, c, _) := PaceTurn(cfg, l.chans, t);
      && Holds(pause, cancel, budget, stats, base, deadline,
               l.(chans := c, sent := l.sent + written,
                  remaining := if budget != null then WrapAdd(l.remaining, claimed - written) else l.remaining))
      && end == if stop.None? then Stuck else if stop.value then Ended(Cancelled) else Going
  {
    RefundUnwritten(budget, claimed, written);
    stats.AddBytesSent(written);
    end := Going;
    if cfg.paced && t.pace.Some? {
      var stop, _ := PaceSleep(pause, cancel, t.pace.value);
      end := if stop.None? then Stuck else if stop.value then Ended(Cancelled) else Going;
    }
  }

  /** A turn past the deadline check. */
  method ClaimAndWrite(pause: Receiver, cancel: Receiver, budget: ByteBudget?, stats: SendStats, stream: SendStream,
                       cfg: Config, t: Turn, deadline: nat, ghost base: nat, ghost l: Loop)
    returns (end: End)
    requires Holds(pause, cancel, budget, stats, base, deadline, l) && TurnOk(t) && cfg.budgeted == (budget != null)
    modifies pause, cancel, budget, stats, stream
    ensures var r := WriteTurn(cfg, l, t);
      && Holds(pause, cancel, budget, stats, base, deadline, r.after) && end == r.end
      && stream.writes == old(stream.writes) + if r.write.Some? then [WriteStart(t.now, r.write.value)] else []
  {
    if budget != null {
      budget.Interfere(t.atLoad);
    }
    var claimed := ClaimOrFull(budget, cfg.want, t.rivals);
    if claimed.None? {
      return Stuck;
    }
    if claimed.value == 0 {
      return Ended(BudgetSpent);
    }
    stream.Start(t.now, claimed.value);
    ghost var left := ClaimOf(cfg, l, t).1;
    end := Race(pause, cancel, budget, stats, cfg, t, claimed.value, deadline, base, l.(remaining := left),
                [Touch(t.atLoad, Load, t.atLoad)] + ClaimSteps(t.atLoad, cfg.want, t.rivals));
  }

  /** One turn of the loop. */
  method OneTurn(pause: Receiver, cancel: Receiver, budget: ByteBudget?, stats: SendStats, stream: SendStream,
                 cfg: Config, t: Turn, deadline: nat, ghost base: nat, ghost l: Loop)
    returns (end: End, deadline': nat)
    requires Holds(pause, cancel, budget, stats, base, deadline, l) && TurnOk(t) && cfg.budgeted == (budget != null)
    modifies pause, cancel, budget, stats, stream
    ensures var r := TakeTurn(cfg, l, t);
      && Holds(pause, cancel, budget, stats, base, deadline', r.after) && end == r.end
      && stream.writes == old(stream.writes) + if r.write.Some? then [WriteStart(t.now, r.write.value)] else []
    ensures cancel.value ==> end == Ended(Cancelled)
  {
    CancelledTurnEnds(cfg, l, t);
    deadline' := deadline;
    Receive(pause, cancel, t.arrived);
    if cancel.value {
      return Ended(Cancelled), deadline;
    }
    if pause.IsPaused() {
      var result, paused, used := WaitWhilePausedTimed(pause, cancel, t.now, t.wait);
      match result {
        case StillWaiting => return Stuck, deadline;
        case CancelSeen => return Ended(Cancelled), deadline;
        case Resumed => return Going, deadline + paused;
      }
    }
    if cfg.duration > 0 && t.now >= deadline {
      return Ended(DeadlinePassed), deadline;
    }
    end := ClaimAndWrite(pause, cancel, budget, stats, stream, cfg, t, deadline, base,
                         l.(chans := l.chans.ReceivedAll(t.arrived)));
  }

  /** The send loop: it begins the first `begun` turns of the script and ends
      as `end` says, or goes on when the script does not. */
  method SendQuicData(pause: Receiver, cancel: Receiver, budget: ByteBudget?, stats: SendStats, stream: SendStream,
                      bitrate: Option<nat>, duration: nat, start: nat, turns: seq<Turn>)
    returns (end: End, begun: nat, deadline: nat)
    requires pause != cancel && pause.Valid() && cancel.Valid() && (budget != null ==> budget.Valid())
    requires forall k :: 0 <= k < |turns| ==> TurnOk(turns[k])
    modifies pause, cancel, budget, stats, stream
    ensures begun <= |turns| && (end.Going? ==> begun == |turns|)
    ensures var cfg := Config(BufferSize(bitrate), duration, budget != null, bitrate.Some? && bitrate.value > 0);
      var l := Loop(old(Views(pause, cancel)), start + duration, if budget != null then old(budget.remaining) else 0, 0);
      && Takes(cfg, l, turns[..begun], end)
      && Holds(pause, cancel, budget, stats, old(stats.bytesSent), deadline, LoopAfter(cfg, l, turns[..begun]))
      && stream.writes == old(stream.writes) + Writes(cfg, l, turns[..begun])
    ensures begun > 0 && cancel.value ==> end == Ended(Cancelled)
  {
    var cfg := Config(BufferSize(bitrate), duration, budget != null, bitrate.Some? && bitrate.value > 0);
    ghost var first := Loop(Views(pause, cancel), start + duration, if budget != null then budget.remaining else 0, 0);
    ghost var base := stats.bytesSent;
    end, begun, deadline := Going, 0, start + duration;
    while end.Going? && begun < |turns|
      invariant begun <= |turns| && Takes(cfg, first, turns[..begun], end)
      invariant Holds(pause, cancel, budget, stats, base, deadline, LoopAfter(cfg, first, turns[..begun]))
      invariant stream.writes == old(stream.writes) + Writes(cfg, first, turns[..begun])
      invariant begun > 0 && cancel.value ==> end == Ended(Cancelled)
      decreases |turns| - begun
    {
      TakesOneMore(cfg, first, turns, begun);
      OneMoreTurn(cfg, first, turns, begun);
      end, deadline := OneTurn(pause, cancel, budget, stats, stream, cfg, turns[begun], deadline, base,
                               LoopAfter(cfg, first, turns[..begun]));
      begun := begun + 1;
    }
  }

  // ----- loops compose into the shared system -----

  /** An interleaving: which stream takes each step. */
  datatype Move = Move(stream: nat, step: Step)

  /** The counter is one cell: each step that touches it meets what the one
      before left. */
  predicate OneCounter(remaining: nat, moves: seq<Move>)
    decreases |moves|
  {
    moves == [] ||
    match moves[0].step
    case Touch(before, _, after) => before == remaining && OneCounter(after, moves[1..])
    case Local(_) => OneCounter(remaining, moves[1..])
  }

  function TraceOf(moves: seq<Move>, i: nat): seq<Step>
    decreases |moves|
  {
    if moves == [] then []
    else (if moves[0].stream == i then [moves[0].step] else []) + TraceOf(moves[1..], i)
  }

  function Schedule(moves: seq<Move>): seq<Action> {
    seq(|moves|, k requires 0 <= k < |moves| => Action(moves[k].stream, moves[k].step.event))
  }

  /** Each stream has a path through the interleaving. */
  predicate AllFollow(st: State, moves: seq<Move>) {
    forall i: nat :: i < |st.streams| ==> FollowsItsOwn(st, moves, i)
  }

  predicate FollowsItsOwn(st: State, moves: seq<Move>, i: nat)
    requires i < |st.streams|
  {
    Follows(st.streams[i], TraceOf(moves, i)).Some?
  }

  lemma {:induction false} LocalAnywhere(s: Stream, e: Event, remaining: nat)
    requires IsLocal(s, e)
    ensures StreamStep(remaining, s, e).Some? <==> StreamStep(0, s, e).Some?
    ensures StreamStep(0, s, e).Some? ==> StreamStep(remaining, s, e).value == (remaining, StreamStep(0, s, e).value.1)
  {
  }

  /** The counter after the first move. */
  function Left(remaining: nat, step: Step): nat {
    if step.Touch? then step.after else remaining
  }

  lemma {:induction false} FirstMove(st: State, moves: seq<Move>, j: nat)
    requires moves != [] && moves[0].stream < |st.streams| && j < |st.streams|
    requires OneCounter(st.remaining, moves) && FollowsItsOwn(st, moves, moves[0].stream)
    ensures var next := Next(st, Action(moves[0].stream, moves[0].step.event));
      && next.Some? && |next.value.streams| == |st.streams| && next.value.remaining == Left(st.remaining, moves[0].step)
      && Follows(next.value.streams[j], TraceOf(moves[1..], j)) == Follows(st.streams[j], TraceOf(moves, j))
  {
    var i, step := moves[0].stream, moves[0].step;
    assert TraceOf(moves, i) == [step] + TraceOf(moves[1..], i);
    assert TraceOf(moves, i)[1..] == TraceOf(moves[1..], i);
    if step.Local? {
      LocalAnywhere(st.streams[i], step.event, st.remaining);
    }
    if j != i {
      assert TraceOf(moves, j) == TraceOf(moves[1..], j);
    }
  }

  lemma {:induction false} ScheduleTail(moves: seq<Move>)
    requires moves != []
    ensures Schedule(moves)[0] == Action(moves[0].stream, moves[0].step.event)
    ensures Schedule(moves)[1..] == Schedule(moves[1..])
  {
  }

  /** Loops that each follow the automaton, interleaved over one counter, are a
      run of the shared system; so its results hold of them. */
  lemma {:induction false} LoopsCompose(st: State, moves: seq<Move>)
    requires OneCounter(st.remaining, moves) && AllFollow(st, moves)
    requires forall k :: 0 <= k < |moves| ==> moves[k].stream < |st.streams|
    ensures Run(st, Schedule(moves)).Some?
    ensures var end := Run(st, Schedule(moves)).value;
      && |end.streams| == |st.streams|
      && forall i: nat :: i < |st.streams| ==> Follows(st.streams[i], TraceOf(moves, i)) == Some(end.streams[i])
    decreases |moves|
  {
    if moves != [] {
      var rest := moves[1..];
      FirstMove(st, moves, 0);
      var st' := Next(st, Action(moves[0].stream, moves[0].step.event)).value;
      forall j: nat | j < |st.streams|
        ensures Follows(st'.streams[j], TraceOf(rest, j)) == Follows(st.streams[j], TraceOf(moves, j))
        ensures FollowsItsOwn(st', rest, j)
      {
        FirstMove(st, moves, j);
        assert FollowsItsOwn(st, moves, j);
      }
      ScheduleTail(moves);
      LoopsCompose(st', rest);
    }
  }

  /** A send loop with a budget: how it is set up, its turns, and its end. */
  datatype LoopRun = LoopRun(cfg: Config, first: Loop, turns: seq<Turn>, end: End)

  predicate IsBudgetedRun(r: LoopRun) {
    r.cfg.budgeted && r.cfg.want > 0 && r.first.sent == 0 && Takes(r.cfg, r.first, r.turns, r.end)
  }

  /** The stream stands where the loop ended, with the bytes it sent. */
  predicate EndsAs(r: LoopRun, s: Option<Stream>) {
    Stands(r.cfg, SentBy(r), r.end, s)
  }

  function SentBy(r: LoopRun): nat {
    LoopAfter(r.cfg, r.first, r.turns).sent
  }

  function AllSent(runs: seq<LoopRun>): seq<nat> {
    seq(|runs|, i requires 0 <= i < |runs| => SentBy(runs[i]))
  }

  /** Send loops run interleaved over one counter of `total` bytes: the scripts
      of all of them agree on what the counter held. */
  predicate Interleaves(total: nat, runs: seq<LoopRun>, moves: seq<Move>) {
    && OneCounter(total, moves)
    && (forall k :: 0 <= k < |moves| ==> moves[k].stream < |runs|)
    && forall i: nat :: i < |runs| ==> RunsAs(runs, moves, i)
  }

  predicate RunsAs(runs: seq<LoopRun>, moves: seq<Move>, i: nat)
    requires i < |runs|
  {
    IsBudgetedRun(runs[i]) && TraceOf(moves, i) == Trace(runs[i].cfg, runs[i].first, runs[i].turns)
  }

  function Wants(runs: seq<LoopRun>): seq<nat> {
    seq(|runs|, i requires 0 <= i < |runs| => runs[i].cfg.want)
  }

  /** The interleaved loops are a run of the shared machine that ends with each
      stream where its loop ended, so that machine's results are theirs. */
  lemma {:induction false} LoopsAreAMachineRun(total: nat, runs: seq<LoopRun>, moves: seq<Move>) returns (st: State)
    requires total <= U64_MAX && Interleaves(total, runs, moves)
    ensures Reaches(total, Wants(runs), Schedule(moves), st) && |st.streams| == |runs|
    ensures forall i: nat :: i < |runs| ==> EndsAs(runs[i], Some(st.streams[i]))
  {
    var st0 := Init(total, Wants(runs));
    forall i: nat | i < |runs|
      ensures FollowsItsOwn(st0, moves, i)
      ensures EndsAs(runs[i], Follows(st0.streams[i], TraceOf(moves, i)))
    {
      assert RunsAs(runs, moves, i);
      LoopFollows(runs[i].cfg, runs[i].first, runs[i].turns, runs[i].end);
    }
    LoopsCompose(st0, moves);
    st := Run(st0, Schedule(moves)).value;
    forall i | 0 <= i < |Wants(runs)|
      ensures Wants(runs)[i] > 0
    {
      assert RunsAs(runs, moves, i);
    }
  }

  /** Send loops that run interleaved over one counter and all end on a spent
      budget have together sent exactly the budget. */
  lemma {:induction false} LoopsSendTheBudget(total: nat, runs: seq<LoopRun>, moves: seq<Move>)
    requires total <= U64_MAX && runs != [] && Interleaves(total, runs, moves)
    requires forall i :: 0 <= i < |runs| ==> runs[i].end == Ended(BudgetSpent)
    ensures Sum(AllSent(runs)) == total
  {
    var st := LoopsAreAMachineRun(total, runs, moves);
    forall i: nat | i < |runs|
      ensures st.streams[i].pc == Done(BudgetSpent) && st.streams[i].sent == SentBy(runs[i])
    {
      assert EndsAs(runs[i], Some(st.streams[i]));
    }
    ExactlyTheBudgetIsSent(total, Wants(runs), Schedule(moves), st);
    SumsToTotalSent(AllSent(runs), st.streams);
  }
}
