/** Any number of QUIC send loops sharing one byte budget
    (`send_quic_data` in `src/quic.rs` over `ByteBudget` in `src/budget.rs`).

    Every atomic operation on the shared counter is one step; cancel, pause,
    the deadline and the write result are chosen by the schedule. */
module SendMachine {
  import opened Basics
  import opened Budget

  const DEFAULT_BUFFER_SIZE: nat := 128 * 1024

  /** The write buffer of one send loop: about ten writes a second when rate limited. */
  function BufferSize(bitrate: Option<nat>): (size: nat)
    ensures 0 < size <= 131072
    ensures bitrate.None? || bitrate.value == 0 ==> size == 131072
    ensures bitrate.Some? && bitrate.value > 0 && 1 < size < 131072 ==> 80 * size <= bitrate.value < 80 * (size + 1)
    ensures bitrate.Some? && bitrate.value > 0 && size == 1 ==> bitrate.value < 160
    ensures bitrate.Some? && bitrate.value > 0 && size == 131072 ==> bitrate.value >= 80 * 131072
  {
    match bitrate
    case Some(bps) => if bps > 0 then Min(DEFAULT_BUFFER_SIZE, if bps / 8 / 10 > 1 then bps / 8 / 10 else 1)
                      else DEFAULT_BUFFER_SIZE
    case None => DEFAULT_BUFFER_SIZE
  }

  datatype Exit = BudgetSpent | Cancelled | DeadlinePassed | Failed

  datatype Pc =
    | Top                             // loop head: cancel, pause and deadline checks
    | Loaded(current: nat)            // inside claim, holding the last observed value
    | Claimed(claimed: nat)           // racing the write against cancel, pause, deadline
    | Wrote(claimed: nat, n: nat)     // the write returned; the remainder is still held
    | Returned(n: nat)                // remainder handed back; not yet in the statistics
    | Pacing                          // pacing sleep
    | Done(exit: Exit)

  /** One send loop. `sent` is what the transport took, `counted` is `stats.bytes_sent`. */
  datatype Stream = Stream(want: nat, pc: Pc, sent: nat, counted: nat)

  datatype Event =
    | Resume                          // a pause was waited out
    | Stop(why: Exit)                 // cancel or deadline seen at the loop head
    | Load                            // `claim` reads the counter
    | Exchange(spurious: bool)        // `claim` tests the value it holds and tries the exchange
    | CancelArm(stop: bool)
    | PauseArm
    | DeadlineArm
    | Write(n: nat)
    | WriteError(teardown: bool)
    | HandBack
    | Count
    | Paced(stop: bool)

  /** One step of a send loop against the counter value it meets: the counter
      it leaves and its next state, or `None` when the step is not possible. */
  function StreamStep(remaining: nat, s: Stream, e: Event): Option<(nat, Stream)> {
    match (s.pc, e)
    case (Top, Resume) => Some((remaining, s))
    case (Top, Stop(why)) =>
      if why.Cancelled? || why.DeadlinePassed? then Some((remaining, s.(pc := Done(why)))) else None
    case (Top, Load) => Some((remaining, s.(pc := Loaded(remaining))))
    case (Loaded(current), Exchange(spurious)) => (
      match TryClaim(current, remaining, s.want, spurious)
      case Nothing => Some((remaining, s.(pc := Done(BudgetSpent))))
      case Won(granted, left) => Some((left, s.(pc := Claimed(granted))))
      case Lost(observed) => Some((remaining, s.(pc := Loaded(observed)))))
    case (Claimed(claimed), CancelArm(stop)) =>
      Some((WrapAdd(remaining, claimed), s.(pc := if stop then Done(Cancelled) else Top)))
    case (Claimed(claimed), PauseArm) => Some((WrapAdd(remaining, claimed), s.(pc := Top)))
    case (Claimed(claimed), DeadlineArm) =>
      Some((WrapAdd(remaining, claimed), s.(pc := Done(DeadlinePassed))))
    case (Claimed(claimed), Write(n)) =>
      if n <= claimed then Some((remaining, s.(pc := Wrote(claimed, n), sent := s.sent + n))) else None
    case (Claimed(claimed), WriteError(teardown)) =>
      Some((WrapAdd(remaining, claimed), s.(pc := Done(if teardown then Cancelled else Failed))))
    case (Wrote(claimed, n), HandBack) =>
      Some((WrapAdd(remaining, SatSub(claimed, n)), s.(pc := Returned(n))))
    case (Returned(n), Count) => Some((remaining, s.(pc := Pacing, counted := s.counted + n)))
    case (Pacing, Paced(stop)) => Some((remaining, s.(pc := if stop then Done(Cancelled) else Top)))
    case _ => None
  }

  // ----- the shared system -----

  datatype State = State(remaining: nat, streams: seq<Stream>)

  datatype Action = Action(stream: nat, event: Event)

  function Init(total: nat, wants: seq<nat>): State {
    State(total, seq(|wants|, i requires 0 <= i < |wants| => Stream(wants[i], Top, 0, 0)))
  }

  function Next(st: State, a: Action): Option<State> {
    if a.stream >= |st.streams| then None
    else
      match StreamStep(st.remaining, st.streams[a.stream], a.event)
      case None => None
      case Some((left, s)) => Some(State(left, st.streams[a.stream := s]))
  }

  function Run(st: State, schedule: seq<Action>): Option<State>
    decreases |schedule|
  {
    if schedule == [] then Some(st)
    else
      match Next(st, schedule[0])
      case None => None
      case Some(st') => Run(st', schedule[1..])
  }

  /** Bytes reserved by a stream and not yet written or handed back. */
  function Held(s: Stream): nat {
    match s.pc
    case Claimed(claimed) => claimed
    case Wrote(claimed, n) => SatSub(claimed, n)
    case _ => 0
  }

  /** Bytes written that have not reached the statistics yet. */
  function Uncounted(s: Stream): nat {
    match s.pc
    case Wrote(_, n) => n
    case Returned(n) => n
    case _ => 0
  }

  function TotalHeld(ss: seq<Stream>): nat {
    Sum(seq(|ss|, i requires 0 <= i < |ss| => Held(ss[i])))
  }

  function TotalSent(ss: seq<Stream>): nat {
    Sum(seq(|ss|, i requires 0 <= i < |ss| => ss[i].sent))
  }

  function TotalCounted(ss: seq<Stream>): nat {
    Sum(seq(|ss|, i requires 0 <= i < |ss| => ss[i].counted))
  }

  lemma {:induction false} SumsToTotalSent(sent: seq<nat>, ss: seq<Stream>)
    requires |sent| == |ss| && forall i :: 0 <= i < |ss| ==> sent[i] == ss[i].sent
    ensures Sum(sent) == TotalSent(ss)
  {
    assert sent == seq(|ss|, i requires 0 <= i < |ss| => ss[i].sent);
  }

  lemma {:induction false} TotalsUpdate(ss: seq<Stream>, i: nat, s: Stream)
    requires i < |ss|
    ensures TotalHeld(ss[i := s]) == TotalHeld(ss) - Held(ss[i]) + Held(s)
    ensures TotalSent(ss[i := s]) == TotalSent(ss) - ss[i].sent + s.sent
    ensures TotalHeld(ss) >= Held(ss[i])
  {
    var held := seq(|ss|, k requires 0 <= k < |ss| => Held(ss[k]));
    var sent := seq(|ss|, k requires 0 <= k < |ss| => ss[k].sent);
    var ss' := ss[i := s];
    SumUpdate(held, i, Held(s));
    SumUpdate(sent, i, s.sent);
    assert seq(|ss'|, k requires 0 <= k < |ss'| => Held(ss'[k])) == held[i := Held(s)];
    assert seq(|ss'|, k requires 0 <= k < |ss'| => ss'[k].sent) == sent[i := s.sent];
  }

  // ----- the inductive invariant -----

  ghost predicate StreamOk(s: Stream) {
    && s.want > 0
    && s.sent == s.counted + Uncounted(s)
    && (s.pc.Claimed? ==> 0 < s.pc.claimed <= s.want)
    && (s.pc.Wrote? ==> s.pc.n <= s.pc.claimed <= s.want)
  }

  /** A stream that will still look at the counter again: it has neither left
      its loop nor read an empty counter on its way out. */
  predicate Alive(s: Stream) {
    !s.pc.Done? && !(s.pc.Loaded? && s.pc.current == 0)
  }

  /** A stream that left for another reason than a spent budget. */
  predicate LeftEarly(s: Stream) {
    s.pc.Done? && s.pc.exit != BudgetSpent
  }

  /** Bytes are conserved; and while the counter and the claims hold any, some
      stream will still look at the counter, or one left early. */
  ghost predicate Inv(total: nat, st: State) {
    && total <= U64_MAX
    && (forall i :: 0 <= i < |st.streams| ==> StreamOk(st.streams[i]))
    && st.remaining + TotalHeld(st.streams) + TotalSent(st.streams) == total
    && (st.remaining + TotalHeld(st.streams) > 0 && |st.streams| > 0 ==>
          exists i :: 0 <= i < |st.streams| && (Alive(st.streams[i]) || LeftEarly(st.streams[i])))
  }

  lemma {:induction false} InvInit(total: nat, wants: seq<nat>)
    requires total <= U64_MAX && forall i :: 0 <= i < |wants| ==> wants[i] > 0
    ensures Inv(total, Init(total, wants))
  {
    var ss := Init(total, wants).streams;
    SumZero(seq(|ss|, i requires 0 <= i < |ss| => Held(ss[i])));
    SumZero(seq(|ss|, i requires 0 <= i < |ss| => ss[i].sent));
    if |ss| > 0 {
      assert Alive(ss[0]);
    }
  }

  /** A step of one stream moves bytes between the counter, its own claim and
      the wire, and never overflows the counter. */
  lemma {:induction false} StreamConserves(remaining: nat, s: Stream, e: Event)
    requires StreamOk(s) && remaining + Held(s) <= U64_MAX
    requires StreamStep(remaining, s, e).Some?
    ensures var (left, s') := StreamStep(remaining, s, e).value;
      && StreamOk(s')
      && s.sent <= s'.sent
      && left + Held(s') + s'.sent == remaining + Held(s) + s.sent
  {
  }

  lemma {:induction false} HeldMeansAlive(ss: seq<Stream>)
    requires TotalHeld(ss) > 0
    ensures exists i :: 0 <= i < |ss| && Alive(ss[i])
  {
    var held := seq(|ss|, k requires 0 <= k < |ss| => Held(ss[k]));
    SumPositive(held);
    var i :| 0 <= i < |held| && held[i] > 0;
    assert Alive(ss[i]);
  }

  lemma {:induction false} InvStep(total: nat, st: State, a: Action)
    requires Inv(total, st) && Next(st, a).Some?
    ensures Inv(total, Next(st, a).value)
  {
    var i := a.stream;
    var s := st.streams[i];
    var (left, s') := StreamStep(st.remaining, s, a.event).value;
    var st' := Next(st, a).value;
    TotalsUpdate(st.streams, i, s');
    StreamConserves(st.remaining, s, a.event);
    if st'.remaining + TotalHeld(st'.streams) > 0 {
      if TotalHeld(st'.streams) > 0 {
        HeldMeansAlive(st'.streams);
      } else if Alive(s') || LeftEarly(s') {
        assert st'.streams[i] == s';
      } else {
        // The stream saw zero now, or had seen it before: it was not the witness.
        assert st'.remaining == st.remaining;
        assert s.pc == Loaded(0);
        var k :| 0 <= k < |st.streams| && (Alive(st.streams[k]) || LeftEarly(st.streams[k]));
        assert k != i && st'.streams[k] == st.streams[k];
      }
    }
  }

  lemma {:induction false} InvRun(total: nat, st: State, schedule: seq<Action>)
    requires Inv(total, st) && Run(st, schedule).Some?
    ensures Inv(total, Run(st, schedule).value)
    ensures |Run(st, schedule).value.streams| == |st.streams|
    decreases |schedule|
  {
    if schedule != [] {
      InvStep(total, st, schedule[0]);
      InvRun(total, Next(st, schedule[0]).value, schedule[1..]);
    }
  }

  // ----- main results, over every schedule -----

  ghost predicate Reaches(total: nat, wants: seq<nat>, schedule: seq<Action>, st: State) {
    && total <= U64_MAX
    && (forall i :: 0 <= i < |wants| ==> wants[i] > 0)
    && Run(Init(total, wants), schedule) == Some(st)
  }

  /** Whatever arm fires, every byte of the budget is in the counter, in one
      outstanding claim, or on the wire; so a refund neither wraps the counter
      nor lifts it above the budget, and no more than the budget is sent. */
  lemma {:induction false} BudgetConserved(total: nat, wants: seq<nat>, schedule: seq<Action>, st: State)
    requires Reaches(total, wants, schedule, st)
    ensures st.remaining + TotalHeld(st.streams) + TotalSent(st.streams) == total
    ensures forall i :: 0 <= i < |st.streams| ==> st.remaining + Held(st.streams[i]) <= total <= U64_MAX
    ensures TotalSent(st.streams) <= total
  {
    InvInit(total, wants);
    InvRun(total, Init(total, wants), schedule);
    forall i | 0 <= i < |st.streams|
      ensures st.remaining + Held(st.streams[i]) <= total
    {
      TotalsUpdate(st.streams, i, st.streams[i]);
    }
  }

  predicate AllDone(st: State) {
    forall i :: 0 <= i < |st.streams| ==> st.streams[i].pc.Done?
  }

  lemma {:induction false} DoneHoldsNothing(st: State)
    requires AllDone(st)
    requires forall i :: 0 <= i < |st.streams| ==> StreamOk(st.streams[i])
    ensures TotalHeld(st.streams) == 0
    ensures TotalCounted(st.streams) == TotalSent(st.streams)
  {
    var ss := st.streams;
    SumZero(seq(|ss|, i requires 0 <= i < |ss| => Held(ss[i])));
    assert seq(|ss|, i requires 0 <= i < |ss| => ss[i].counted) == seq(|ss|, i requires 0 <= i < |ss| => ss[i].sent);
  }

  /** If every stream left because `claim` returned 0, exactly the budget was
      sent and counted, although a stream may see zero and leave while another
      still holds bytes it will hand back. */
  lemma {:induction false} ExactlyTheBudgetIsSent(total: nat, wants: seq<nat>, schedule: seq<Action>, st: State)
    requires Reaches(total, wants, schedule, st) && |wants| > 0
    requires forall i :: 0 <= i < |st.streams| ==> st.streams[i].pc == Done(BudgetSpent)
    ensures st.remaining == 0 && TotalHeld(st.streams) == 0
    ensures TotalSent(st.streams) == total && TotalCounted(st.streams) == total
  {
    InvInit(total, wants);
    InvRun(total, Init(total, wants), schedule);
    DoneHoldsNothing(st);
  }

  /** When all streams have ended, whatever ended them, the statistics hold the
      whole budget if and only if the counter was left at zero. */
  lemma {:induction false} SentAllIffCounterEmpty(total: nat, wants: seq<nat>, schedule: seq<Action>, st: State)
    requires Reaches(total, wants, schedule, st) && AllDone(st)
    ensures TotalCounted(st.streams) == total - st.remaining
    ensures TotalCounted(st.streams) == total <==> st.remaining == 0
  {
    InvInit(total, wants);
    InvRun(total, Init(total, wants), schedule);
    DoneHoldsNothing(st);
  }

  /** The exactness result needs every stream to end on a spent budget: a
      stream that is cancelled after another has seen zero hands its claim back
      to nobody. */
  lemma {:induction false} CancelAfterZeroLosesBytes() returns (schedule: seq<Action>, st: State)
    ensures Reaches(10, [10, 10], schedule, st)
    ensures |st.streams| == 2
    ensures st.streams[0].pc == Done(Cancelled) && st.streams[1].pc == Done(BudgetSpent)
    ensures TotalCounted(st.streams) == 0 && st.remaining == 10
  {
    schedule := [Action(0, Load), Action(0, Exchange(false)), Action(1, Load),
                 Action(1, Exchange(false)), Action(0, CancelArm(true))];
    var a, b := Stream(10, Top, 0, 0), Stream(10, Top, 0, 0);
    var st0 := Init(10, [10, 10]);
    assert st0.streams == [a, b];
    var st1 := Next(st0, schedule[0]).value;
    assert st1.streams == [a.(pc := Loaded(10)), b];
    var st2 := Next(st1, schedule[1]).value;
    assert st2 == State(0, [a.(pc := Claimed(10)), b]);
    var st3 := Next(st2, schedule[2]).value;
    assert st3 == State(0, [a.(pc := Claimed(10)), b.(pc := Loaded(0))]);
    var st4 := Next(st3, schedule[3]).value;
    assert st4 == State(0, [a.(pc := Claimed(10)), b.(pc := Done(BudgetSpent))]);
    st := Next(st4, schedule[4]).value;
    assert st == State(10, [a.(pc := Done(Cancelled)), b.(pc := Done(BudgetSpent))]);
    RunPrepend(st4, schedule[4], []);
    RunPrepend(st3, schedule[3], [schedule[4]]);
    RunPrepend(st2, schedule[2], schedule[3..]);
    RunPrepend(st1, schedule[1], schedule[2..]);
    RunPrepend(st0, schedule[0], schedule[1..]);
    var ss := st.streams;
    SumZero(seq(|ss|, i requires 0 <= i < |ss| => ss[i].counted));
  }

  lemma {:induction false} RunPrepend(st: State, a: Action, rest: seq<Action>)
    requires Next(st, a).Some?
    ensures Run(st, [a] + rest) == Run(Next(st, a).value, rest)
  {
    assert ([a] + rest)[1..] == rest;
  }

  // ----- when is the budget sent, by how the streams end -----

  predicate EndsWith(st: State, exits: seq<Exit>) {
    |st.streams| == |exits| && forall i: nat :: i < |exits| ==> HasExit(st, exits, i)
  }

  predicate HasExit(st: State, exits: seq<Exit>, i: nat)
    requires i < |st.streams| == |exits|
  {
    st.streams[i].pc == Done(exits[i])
  }

  /** Every run that ends with these exits has sent and counted the budget. */
  ghost predicate AlwaysSendsAll(total: nat, wants: seq<nat>, exits: seq<Exit>) {
    forall schedule: seq<Action>, st: State ::
      Reaches(total, wants, schedule, st) && EndsWith(st, exits) ==> TotalCounted(st.streams) == total
  }

  /** The exact condition for a byte budget to be met: how the streams end
      guarantees that it is sent if and only if all of them end because their
      claim was 0. A single cancel, deadline or error among the exits admits a
      run that loses bytes, whatever the others do. */
  lemma {:induction false} SentWheneverAllSawZero(total: nat, wants: seq<nat>, exits: seq<Exit>)
    requires 0 < total <= U64_MAX && |wants| == |exits| > 0
    requires forall i :: 0 <= i < |wants| ==> wants[i] > 0
    ensures AlwaysSendsAll(total, wants, exits) <==> forall i :: 0 <= i < |exits| ==> exits[i] == BudgetSpent
  {
    if forall i :: 0 <= i < |exits| ==> exits[i] == BudgetSpent {
      forall schedule: seq<Action>, st: State | Reaches(total, wants, schedule, st) && EndsWith(st, exits)
        ensures TotalCounted(st.streams) == total
      {
        AllSawZero(total, wants, exits, schedule, st);
      }
    } else {
      var j :| 0 <= j < |exits| && exits[j] != BudgetSpent;
      var schedule, st := LosingRun(total, wants, exits, j);
    }
  }

  lemma {:induction false} AllSawZero(total: nat, wants: seq<nat>, exits: seq<Exit>, schedule: seq<Action>, st: State)
    requires Reaches(total, wants, schedule, st) && EndsWith(st, exits) && |wants| > 0
    requires forall i :: 0 <= i < |exits| ==> exits[i] == BudgetSpent
    ensures TotalCounted(st.streams) == total
  {
    forall i: nat | i < |st.streams|
      ensures st.streams[i].pc == Done(BudgetSpent)
    {
      assert HasExit(st, exits, i);
    }
    ExactlyTheBudgetIsSent(total, wants, schedule, st);
  }

  lemma {:induction false} RunConcat(st: State, a: seq<Action>, b: seq<Action>)
    requires Run(st, a).Some?
    ensures Run(st, a + b) == Run(Run(st, a).value, b)
    decreases |a|
  {
    if a == [] {
      assert a + b == b;
    } else {
      assert (a + b)[1..] == a[1..] + b;
      RunConcat(Next(st, a[0]).value, a[1..], b);
    }
  }

  lemma {:induction false} RunAppend(st: State, a: seq<Action>, mid: State, b: seq<Action>, end: State)
    requires Run(st, a) == Some(mid) && Run(mid, b) == Some(end)
    ensures Run(st, a + b) == Some(end)
  {
    RunConcat(st, a, b);
  }

  lemma {:induction false} RunOne(st: State, a: Action)
    ensures Run(st, [a]) == Next(st, a)
  {
    assert [a][1..] == [];
  }

  /** The arm that ends a stream so while it holds a claim. */
  function LeavingArm(exit: Exit): Event
    requires exit != BudgetSpent
  {
    match exit
    case Cancelled => CancelArm(true)
    case DeadlinePassed => DeadlineArm
    case Failed => WriteError(false)
  }

  /** Only stream `i` differs. */
  predicate OnlyChanges(st: State, st': State, i: nat) {
    |st'.streams| == |st.streams| && forall k :: 0 <= k < |st.streams| && k != i ==> st'.streams[k] == st.streams[k]
  }

  /** From the loop head a stream can claim what there is. */
  lemma {:induction false} CanClaim(st: State, i: nat) returns (schedule: seq<Action>, end: State)
    requires i < |st.streams| && st.streams[i].pc == Top && Min(st.remaining, st.streams[i].want) > 0
    ensures Run(st, schedule) == Some(end) && OnlyChanges(st, end, i)
    ensures var g := Min(st.remaining, st.streams[i].want);
      end.streams[i] == st.streams[i].(pc := Claimed(g)) && end.remaining == st.remaining - g
  {
    var st1 := Next(st, Action(i, Load)).value;
    end := Next(st1, Action(i, Exchange(false))).value;
    RunOne(st, Action(i, Load));
    RunOne(st1, Action(i, Exchange(false)));
    schedule := [Action(i, Load)] + [Action(i, Exchange(false))];
    RunAppend(st, [Action(i, Load)], st1, [Action(i, Exchange(false))], end);
  }

  /** A stream that holds a claim can be made to leave, handing it back. */
  lemma {:induction false} CanLeave(st: State, i: nat, exit: Exit) returns (end: State)
    requires i < |st.streams| && st.streams[i].pc.Claimed? && exit != BudgetSpent
    requires st.remaining + st.streams[i].pc.claimed <= U64_MAX
    ensures Run(st, [Action(i, LeavingArm(exit))]) == Some(end) && OnlyChanges(st, end, i)
    ensures end.streams[i] == st.streams[i].(pc := Done(exit))
    ensures end.remaining == st.remaining + st.streams[i].pc.claimed
  {
    RunOne(st, Action(i, LeavingArm(exit)));
    end := Next(st, Action(i, LeavingArm(exit))).value;
  }

  /** A claim can be written whole and counted, back to the loop head. */
  lemma {:induction false} CanWrite(st: State, i: nat) returns (schedule: seq<Action>, end: State)
    requires i < |st.streams| && st.streams[i].pc.Claimed? && st.remaining <= U64_MAX
    ensures Run(st, schedule) == Some(end) && OnlyChanges(st, end, i)
    ensures end.remaining == st.remaining && end.streams[i].pc == Top && end.streams[i].want == st.streams[i].want
  {
    var write := Action(i, Write(st.streams[i].pc.claimed));
    var st1 := Next(st, write).value;
    var st2 := Next(st1, Action(i, HandBack)).value;
    var st3 := Next(st2, Action(i, Count)).value;
    end := Next(st3, Action(i, Paced(false))).value;
    RunOne(st, write);
    RunOne(st1, Action(i, HandBack));
    RunOne(st2, Action(i, Count));
    RunOne(st3, Action(i, Paced(false)));
    RunAppend(st, [write], st1, [Action(i, HandBack)], st2);
    RunAppend(st, [write] + [Action(i, HandBack)], st2, [Action(i, Count)], st3);
    schedule := [write] + [Action(i, HandBack)] + [Action(i, Count)] + [Action(i, Paced(false))];
    RunAppend(st, [write] + [Action(i, HandBack)] + [Action(i, Count)], st3, [Action(i, Paced(false))], end);
  }

  /** A stream at its loop head can send all there is and then see zero. */
  lemma {:induction false} CanDrain(st: State, i: nat) returns (schedule: seq<Action>, end: State)
    requires i < |st.streams| && st.streams[i].pc == Top && st.streams[i].want > 0 && st.remaining <= U64_MAX
    ensures Run(st, schedule) == Some(end) && OnlyChanges(st, end, i)
    ensures end.remaining == 0 && end.streams[i].pc == Done(BudgetSpent)
    decreases st.remaining
  {
    if st.remaining == 0 {
      var st1 := Next(st, Action(i, Load)).value;
      end := Next(st1, Action(i, Exchange(false))).value;
      RunOne(st, Action(i, Load));
      RunOne(st1, Action(i, Exchange(false)));
      schedule := [Action(i, Load)] + [Action(i, Exchange(false))];
      RunAppend(st, [Action(i, Load)], st1, [Action(i, Exchange(false))], end);
    } else {
      var claim, st1 := CanClaim(st, i);
      var write, st2 := CanWrite(st1, i);
      var rest;
      rest, end := CanDrain(st2, i);
      RunAppend(st, claim, st1, write, st2);
      RunAppend(st, claim + write, st2, rest, end);
      schedule := claim + write + rest;
    }
  }

  /** The streams before `n` that are to leave early have left, the rest wait,
      and the counter is full; `j` waits too. */
  predicate EarlyLeft(st: State, total: nat, wants: seq<nat>, exits: seq<Exit>, j: nat, n: nat) {
    && |st.streams| == |wants| == |exits| && st.remaining == total
    && forall i: nat :: i < |wants| ==> LeftBy(st, wants, exits, j, n, i)
  }

  predicate LeftBy(st: State, wants: seq<nat>, exits: seq<Exit>, j: nat, n: nat, i: nat)
    requires i < |st.streams| == |wants| == |exits|
  {
    && st.streams[i].want == wants[i] > 0
    && st.streams[i].pc == if i < n && i != j && exits[i] != BudgetSpent then Done(exits[i]) else Top
  }

  lemma {:induction false} LeaveEarly(total: nat, wants: seq<nat>, exits: seq<Exit>, j: nat, n: nat)
    returns (schedule: seq<Action>, st: State)
    requires 0 < total <= U64_MAX && j < |wants| == |exits| && n <= |wants|
    requires forall i :: 0 <= i < |wants| ==> wants[i] > 0
    ensures Run(Init(total, wants), schedule) == Some(st) && EarlyLeft(st, total, wants, exits, j, n)
  {
    if n == 0 {
      schedule, st := [], Init(total, wants);
      assert forall i: nat :: i < |wants| ==> LeftBy(st, wants, exits, j, 0, i);
    } else {
      var i := n - 1;
      var before, st0 := LeaveEarly(total, wants, exits, j, i);
      schedule, st := before, st0;
      assert LeftBy(st0, wants, exits, j, i, i);
      if i != j && exits[i] != BudgetSpent {
        var claim, st1 := CanClaim(st0, i);
        st := CanLeave(st1, i, exits[i]);
        var leave := [Action(i, LeavingArm(exits[i]))];
        RunAppend(Init(total, wants), before, st0, claim, st1);
        RunAppend(Init(total, wants), before + claim, st1, leave, st);
        schedule := before + claim + leave;
      }
      forall k: nat | k < |wants|
        ensures LeftBy(st, wants, exits, j, n, k)
      {
        assert LeftBy(st0, wants, exits, j, i, k);
      }
    }
  }

  /** Stream `j` holds its claim, and the streams before `n` are done. */
  predicate Drained(st: State, wants: seq<nat>, exits: seq<Exit>, j: nat, n: nat) {
    && j < |st.streams| == |wants| == |exits| && st.remaining <= U64_MAX
    && st.streams[j].pc.Claimed? && st.streams[j].pc.claimed > 0
    && forall i: nat :: i < |wants| && i != j ==> DrainedBy(st, wants, exits, n, i)
  }

  predicate DrainedBy(st: State, wants: seq<nat>, exits: seq<Exit>, n: nat, i: nat)
    requires i < |st.streams| == |wants| == |exits|
  {
    && st.streams[i].want == wants[i] > 0
    && st.streams[i].pc == if i < n || exits[i] != BudgetSpent then Done(exits[i]) else Top
  }

  lemma {:induction false} DrainOthers(st: State, wants: seq<nat>, exits: seq<Exit>, j: nat, n: nat)
    returns (schedule: seq<Action>, end: State)
    requires Drained(st, wants, exits, j, 0) && n <= |wants|
    ensures Run(st, schedule) == Some(end) && Drained(end, wants, exits, j, n)
  {
    if n == 0 {
      schedule, end := [], st;
    } else {
      var i := n - 1;
      var st0;
      schedule, st0 := DrainOthers(st, wants, exits, j, i);
      end := st0;
      if i != j && exits[i] == BudgetSpent {
        assert DrainedBy(st0, wants, exits, i, i);
        var drain;
        drain, end := CanDrain(st0, i);
        StillWants(st0, drain, end, i);
        RunAppend(st, schedule, st0, drain, end);
        schedule := schedule + drain;
      }
      forall k: nat | k < |wants| && k != j
        ensures DrainedBy(end, wants, exits, n, k)
      {
        assert DrainedBy(st0, wants, exits, i, k);
      }
    }
  }

  /** What a stream asks for never changes. */
  lemma {:induction false} StillWants(st: State, schedule: seq<Action>, end: State, i: nat)
    requires Run(st, schedule) == Some(end) && i < |st.streams|
    ensures |end.streams| == |st.streams| && end.streams[i].want == st.streams[i].want
    decreases |schedule|
  {
    if schedule != [] {
      StillWants(Next(st, schedule[0]).value, schedule[1..], end, i);
    }
  }

  /** A run with these exits that loses bytes: the other early leavers go
      first, then `j` claims and holds on, the rest send what is left and see
      zero, and at last `j` leaves and hands its claim back to nobody. */
  lemma {:induction false} LosingRun(total: nat, wants: seq<nat>, exits: seq<Exit>, j: nat)
    returns (schedule: seq<Action>, st: State)
    requires 0 < total <= U64_MAX && j < |wants| == |exits| && exits[j] != BudgetSpent
    requires forall i :: 0 <= i < |wants| ==> wants[i] > 0
    ensures Reaches(total, wants, schedule, st) && EndsWith(st, exits)
    ensures TotalCounted(st.streams) < total
  {
    var st0 := Init(total, wants);
    var early, st1 := LeaveEarly(total, wants, exits, j, |wants|);
    assert LeftBy(st1, wants, exits, j, |wants|, j);
    var claim, st2 := CanClaim(st1, j);
    forall i: nat | i < |wants| && i != j
      ensures DrainedBy(st2, wants, exits, 0, i)
    {
      assert LeftBy(st1, wants, exits, j, |wants|, i);
    }
    var drain, st3 := DrainOthers(st2, wants, exits, j, |wants|);
    RunAppend(st0, early, st1, claim, st2);
    RunAppend(st0, early + claim, st2, drain, st3);
    BudgetConserved(total, wants, early + claim + drain, st3);
    assert Held(st3.streams[j]) == st3.streams[j].pc.claimed;
    st := CanLeave(st3, j, exits[j]);
    var leave := [Action(j, LeavingArm(exits[j]))];
    schedule := early + claim + drain + leave;
    RunAppend(st0, early + claim + drain, st3, leave, st);
    forall i: nat | i < |exits|
      ensures HasExit(st, exits, i)
    {
      if i != j {
        assert DrainedBy(st3, wants, exits, |wants|, i);
      }
    }
    EndsAreDone(st, exits);
    SentAllIffCounterEmpty(total, wants, schedule, st);
  }

  lemma {:induction false} EndsAreDone(st: State, exits: seq<Exit>)
    requires EndsWith(st, exits)
    ensures AllDone(st)
  {
    forall i: nat | i < |st.streams|
      ensures st.streams[i].pc.Done?
    {
      assert HasExit(st, exits, i);
    }
  }

  // ----- no reachable state is stuck -----

  function Rank(remaining: nat, s: Stream): nat {
    match s.pc
    case Wrote(_, _) => 7
    case Returned(_) => 6
    case Pacing => 5
    case Top => 4
    case Loaded(current) => if current != remaining && current != 0 then 3 else 2
    case Claimed(_) => 1
    case Done(_) => 0
  }

  function Running(ss: seq<Stream>): nat {
    Sum(seq(|ss|, i requires 0 <= i < |ss| => if ss[i].pc.Done? then 0 else 1))
  }

  lemma {:induction false} RunningUpdate(ss: seq<Stream>, i: nat, s: Stream)
    requires i < |ss| && !ss[i].pc.Done?
    ensures Running(ss[i := s]) == Running(ss) - if s.pc.Done? then 1 else 0
  {
    var busy := seq(|ss|, k requires 0 <= k < |ss| => if ss[k].pc.Done? then 0 else 1);
    var ss' := ss[i := s];
    SumUpdate(busy, i, if s.pc.Done? then 0 else 1);
    assert seq(|ss'|, k requires 0 <= k < |ss'| => if ss'[k].pc.Done? then 0 else 1)
        == busy[i := if s.pc.Done? then 0 else 1];
  }

  /** What a stream does when nothing interrupts it. */
  function Forward(s: Stream): Event
    requires !s.pc.Done?
  {
    match s.pc
    case Top => Load
    case Loaded(_) => Exchange(false)
    case Claimed(claimed) => Write(claimed)
    case Wrote(_, _) => HandBack
    case Returned(_) => Count
    case Pacing => Paced(false)
  }

  lemma {:induction false} ForwardDescends(remaining: nat, s: Stream)
    requires StreamOk(s) && !s.pc.Done? && remaining + Held(s) <= U64_MAX
    ensures StreamStep(remaining, s, Forward(s)).Some?
    ensures var (left, s') := StreamStep(remaining, s, Forward(s)).value;
      && !LeftEarly(s')
      && (|| left + Held(s') < remaining + Held(s)
          || (left + Held(s') == remaining + Held(s) && (s'.pc.Done? || Rank(left, s') < Rank(remaining, s))))
  {
  }

  function FirstRunning(ss: seq<Stream>): (i: nat)
    requires exists k :: 0 <= k < |ss| && !ss[k].pc.Done?
    ensures i < |ss| && !ss[i].pc.Done?
    ensures forall k :: 0 <= k < i ==> ss[k].pc.Done?
  {
    if !ss[0].pc.Done? then 0
    else
      var k :| 0 <= k < |ss| && !ss[k].pc.Done?;
      assert !ss[1..][k - 1].pc.Done?;
      1 + FirstRunning(ss[1..])
  }

  function RankOfFirst(st: State): nat {
    if AllDone(st) then 0 else Rank(st.remaining, st.streams[FirstRunning(st.streams)])
  }

  /** From every state the system can be in while no stream has left early,
      some continuation ends with every stream on a spent budget, that is,
      with exactly the budget sent. */
  lemma {:induction false} CanAlwaysFinish(total: nat, st: State) returns (schedule: seq<Action>, end: State)
    requires Inv(total, st) && |st.streams| > 0
    requires forall i :: 0 <= i < |st.streams| ==> !LeftEarly(st.streams[i])
    ensures Run(st, schedule) == Some(end)
    ensures forall i :: 0 <= i < |end.streams| ==> end.streams[i].pc == Done(BudgetSpent)
    ensures TotalCounted(end.streams) == total
    decreases st.remaining + TotalHeld(st.streams), Running(st.streams), RankOfFirst(st)
  {
    if AllDone(st) {
      DoneHoldsNothing(st);
      return [], st;
    }
    var i := FirstRunning(st.streams);
    var s := st.streams[i];
    var a := Action(i, Forward(s));
    TotalsUpdate(st.streams, i, s);
    ForwardDescends(st.remaining, s);
    var st' := Next(st, a).value;
    var s' := st'.streams[i];
    TotalsUpdate(st.streams, i, s');
    RunningUpdate(st.streams, i, s');
    InvStep(total, st, a);
    if !s'.pc.Done? {
      assert FirstRunning(st'.streams) == i;
    }
    var rest, e := CanAlwaysFinish(total, st');
    RunPrepend(st, a, rest);
    schedule, end := [a] + rest, e;
  }
}
