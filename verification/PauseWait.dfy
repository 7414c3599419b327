/** Waiting out a pause (`src/pause.rs`) on two `watch` channels. What the other
    tasks do meanwhile (sends, dropped senders) comes in timed bursts, each of
    which arrives whole between two polls. */
module PauseWait {
  import opened Basics

  datatype Change = Send(value: bool) | DropSender

  datatype Signal = Signal(onCancel: bool, change: Change)

  datatype Burst = Burst(at: nat, signals: seq<Signal>)

  /** A channel as its receiver meets it: the value, whether a sender is
      alive, and how many versions it has not seen. */
  datatype Chan = Chan(value: bool, open: bool, unseen: nat) {
    /** Not paused once every sender is gone, whatever the last value was. */
    predicate Paused() {
      value && open
    }

    function Seen(): Chan {
      this.(unseen := 0)
    }

    /** A closed channel has nobody left to change it. */
    function Changed(change: Change): Chan {
      if !open then this
      else match change
        case Send(v) => Chan(v, true, unseen + 1)
        case DropSender => this.(open := false)
    }

    /** `changed()` would complete: with an unseen version, or with an error. */
    predicate Stirs() {
      unseen > 0 || !open
    }
  }

  datatype Chans = Chans(pause: Chan, cancel: Chan) {
    function Received(s: Signal): Chans {
      if s.onCancel then this.(cancel := cancel.Changed(s.change)) else this.(pause := pause.Changed(s.change))
    }

    function ReceivedAll(signals: seq<Signal>): Chans
      decreases |signals|
    {
      if signals == [] then this else Received(signals[0]).ReceivedAll(signals[1..])
    }
  }

  datatype Poll = Ready(ok: bool) | Pending

  /** `watch::Receiver<bool>`: the shared value with its version, whether a
      sender is alive, and the version this receiver has seen. */
  class Receiver {
    var value: bool
    var version: nat
    var open: bool
    var seen: nat

    ghost predicate Valid()
      reads this
    {
      seen <= version
    }

    ghost function View(): Chan
      requires Valid()
      reads this
    {
      Chan(value, open, version - seen)
    }

    constructor (value: bool)
      ensures Valid() && View() == Chan(value, true, 0)
    {
      this.value, version, open, seen := value, 0, true, 0;
    }

    predicate IsPaused()
      reads this
    {
      value && open
    }

    predicate ChannelIsOpen()
      reads this
    {
      open
    }

    /** One poll of `changed()`: an unseen version first, then closure. */
    method PollChanged() returns (p: Poll)
      requires Valid()
      modifies this
      ensures Valid() && View() == old(View()).Seen()
      ensures p.Ready? <==> old(View()).Stirs()
      ensures p.Ready? ==> (p.ok <==> old(View()).unseen > 0)
    {
      if seen < version {
        seen := version;
        p := Ready(true);
      } else {
        p := if open then Pending else Ready(false);
      }
    }

    method Apply(change: Change)
      requires Valid()
      modifies this
      ensures Valid() && View() == old(View()).Changed(change)
    {
      if open {
        match change {
          case Send(v) => value, version := v, version + 1;
          case DropSender => open := false;
        }
      }
    }
  }

  ghost function Views(pause: Receiver, cancel: Receiver): Chans
    requires pause.Valid() && cancel.Valid()
    reads pause, cancel
  {
    Chans(pause.View(), cancel.View())
  }

  method Receive(pause: Receiver, cancel: Receiver, signals: seq<Signal>)
    requires pause != cancel && pause.Valid() && cancel.Valid()
    modifies pause, cancel
    ensures pause.Valid() && cancel.Valid()
    ensures Views(pause, cancel) == old(Views(pause, cancel)).ReceivedAll(signals)
  {
    for k := 0 to |signals|
      invariant pause.Valid() && cancel.Valid()
      invariant Views(pause, cancel).ReceivedAll(signals[k..]) == old(Views(pause, cancel)).ReceivedAll(signals)
    {
      assert signals[k..][0] == signals[k] && signals[k..][1..] == signals[k + 1..];
      if signals[k].onCancel {
        cancel.Apply(signals[k].change);
      } else {
        pause.Apply(signals[k].change);
      }
    }
    assert signals[|signals|..] == [];
  }

  // ----- when a wait ends -----

  datatype Wait = Resumed | CancelSeen | StillWaiting

  /** What the channels decide at a poll, and what of them has then been seen.
      A cancel counts when it was sent since the last look, or when nobody is
      left to send one; it wins over a resume, unless the channel closed after a
      last value of `false` not seen until now. */
  function Look(c: Chans): (Option<Wait>, Chans) {
    var looked := c.(cancel := c.cancel.Seen());
    if c.cancel.Stirs() && (c.cancel.value || c.cancel.unseen == 0) then (Some(CancelSeen), looked)
    else if !c.pause.Paused() then
      (Some(Resumed), if c.cancel.unseen > 0 then looked else looked.(pause := c.pause.Seen()))
    else if !c.cancel.open then (Some(CancelSeen), looked)
    else (None, looked.(pause := c.pause.Seen()))
  }

  /** The decision in full: the wait goes on exactly while the pause is on and
      somebody can still end it, no cancel having come since the last look; a
      resume needs the pause off, and a cancel that is not on, or was seen
      before. */
  lemma {:induction false} LookDecides(c: Chans)
    ensures Look(c).0.None? <==>
      c.pause.value && c.pause.open && c.cancel.open && !(c.cancel.unseen > 0 && c.cancel.value)
    ensures Look(c).0 == Some(CancelSeen) <==>
      || (c.cancel.unseen > 0 && c.cancel.value)
      || (!c.cancel.open && (c.cancel.unseen == 0 || (c.pause.value && c.pause.open)))
    ensures Look(c).0 != Some(StillWaiting)
    ensures Agree(Look(c).1, c) && Look(c).1.cancel.unseen == 0
    ensures Look(c).0.None? ==> Look(c).1.pause.unseen == 0
  {
  }

  /** The same values and senders, whatever has been seen of them. */
  predicate Agree(c: Chans, d: Chans) {
    && c.pause.value == d.pause.value && c.pause.open == d.pause.open
    && c.cancel.value == d.cancel.value && c.cancel.open == d.cancel.open
  }

  lemma {:induction false} AgreeLater(c: Chans, d: Chans, signals: seq<Signal>)
    requires Agree(c, d)
    ensures Agree(c.ReceivedAll(signals), d.ReceivedAll(signals))
    decreases |signals|
  {
    if signals != [] {
      AgreeLater(c.Received(signals[0]), d.Received(signals[0]), signals[1..]);
    }
  }

  lemma {:induction false} ReceivedConcat(c: Chans, a: seq<Signal>, b: seq<Signal>)
    ensures c.ReceivedAll(a + b) == c.ReceivedAll(a).ReceivedAll(b)
    decreases |a|
  {
    if a == [] {
      assert a + b == b;
    } else {
      assert (a + b)[1..] == a[1..] + b;
      ReceivedConcat(c.Received(a[0]), a[1..], b);
    }
  }

  /** One of the two channels. */
  function On(c: Chans, onCancel: bool): Chan {
    if onCancel then c.cancel else c.pause
  }

  /** The last value sent on a channel while it had a sender is the one read,
      and a receiver that has not looked since has it still to see. */
  lemma {:induction false} LastSendIsRead(c: Chans, signals: seq<Signal>, k: nat, onCancel: bool, value: bool)
    requires k < |signals| && signals[k] == Signal(onCancel, Send(value)) && On(c, onCancel).open
    requires forall j :: 0 <= j < k ==> signals[j] != Signal(onCancel, DropSender)
    requires forall j :: k < j < |signals| ==> signals[j] != Signal(onCancel, Send(!value))
    ensures On(c.ReceivedAll(signals), onCancel).value == value && On(c.ReceivedAll(signals), onCancel).unseen > 0
    decreases |signals|
  {
    if k == 0 {
      ValueStays(c.Received(signals[0]), signals[1..], onCancel);
    } else {
      LastSendIsRead(c.Received(signals[0]), signals[1..], k - 1, onCancel, value);
    }
  }

  lemma {:induction false} ValueStays(c: Chans, signals: seq<Signal>, onCancel: bool)
    requires forall j :: 0 <= j < |signals| ==> signals[j] != Signal(onCancel, Send(!On(c, onCancel).value))
    ensures On(c.ReceivedAll(signals), onCancel).value == On(c, onCancel).value
    ensures On(c.ReceivedAll(signals), onCancel).unseen >= On(c, onCancel).unseen
    decreases |signals|
  {
    if signals != [] {
      ValueStays(c.Received(signals[0]), signals[1..], onCancel);
    }
  }

  /** A channel is open until its sender is dropped, and never again after. */
  lemma {:induction false} OpenUntilDropped(c: Chans, signals: seq<Signal>, onCancel: bool)
    ensures On(c.ReceivedAll(signals), onCancel).open
       <==> On(c, onCancel).open && forall j :: 0 <= j < |signals| ==> signals[j] != Signal(onCancel, DropSender)
    decreases |signals|
  {
    if signals != [] {
      var rest := signals[1..];
      OpenUntilDropped(c.Received(signals[0]), rest, onCancel);
      assert forall j :: 0 < j < |signals| ==> signals[j] == rest[j - 1];
    }
  }

  /** What is sent on one channel leaves the other as it was. */
  lemma {:induction false} OthersStay(c: Chans, signals: seq<Signal>, onCancel: bool)
    requires forall j :: 0 <= j < |signals| ==> signals[j].onCancel != onCancel
    ensures On(c.ReceivedAll(signals), onCancel) == On(c, onCancel)
    decreases |signals|
  {
    if signals != [] {
      OthersStay(c.Received(signals[0]), signals[1..], onCancel);
    }
  }

  /** All signals of some bursts. */
  function SignalsOf(bursts: seq<Burst>): seq<Signal> {
    if bursts == [] then [] else SignalsOf(bursts[..|bursts| - 1]) + bursts[|bursts| - 1].signals
  }

  /** A wait that is about to poll: how it ends, the bursts it took, and the
      channels it leaves. */
  function WaitFrom(c: Chans, bursts: seq<Burst>): (outcome: (Wait, nat, Chans))
    ensures outcome.1 <= |bursts|
    decreases |bursts|
  {
    var (decided, looked) := Look(c);
    if decided.Some? then (decided.value, 0, looked)
    else if bursts == [] then (StillWaiting, 0, looked)
    else After(1, WaitFrom(looked.ReceivedAll(bursts[0].signals), bursts[1..]))
  }

  function After(used: nat, outcome: (Wait, nat, Chans)): (Wait, nat, Chans) {
    (outcome.0, used + outcome.1, outcome.2)
  }

  /** A wait from the loop head: nothing to wait for when not paused. */
  function WaitOutcome(c: Chans, bursts: seq<Burst>): (outcome: (Wait, nat, Chans))
    ensures outcome.1 <= |bursts|
  {
    if !c.pause.Paused() then (Resumed, 0, c) else WaitFrom(c, bursts)
  }

  /** The channels as the wait looks at them after `k` bursts. */
  function LookedAt(c: Chans, bursts: seq<Burst>, k: nat): Chans
    requires k <= |bursts|
  {
    if k == 0 then c else Look(LookedAt(c, bursts, k - 1)).1.ReceivedAll(bursts[k - 1].signals)
  }

  predicate Undecided(c: Chans, bursts: seq<Burst>, k: nat)
    requires k <= |bursts|
  {
    Look(LookedAt(c, bursts, k)).0.None?
  }

  /** The first decision at or after `from` is made after `outcome.1` bursts. */
  predicate EndsFirst(c: Chans, bursts: seq<Burst>, from: nat, outcome: (Wait, nat, Chans)) {
    var (result, used, end) := outcome;
    && from <= used <= |bursts|
    && (forall k: nat :: from <= k < used ==> Undecided(c, bursts, k))
    && (if result.StillWaiting? then used == |bursts| && Undecided(c, bursts, used)
        else Look(LookedAt(c, bursts, used)).0 == Some(result))
    && end == Look(LookedAt(c, bursts, used)).1
  }

  /** The wait ends at the first burst that decides it, the way that burst
      decides it, and goes on only while nothing does. */
  lemma {:induction false} WaitEndsAtTheFirst(c: Chans, bursts: seq<Burst>)
    requires c.pause.Paused()
    ensures EndsFirst(c, bursts, 0, WaitOutcome(c, bursts))
  {
    EndsFrom(c, bursts, 0);
    assert bursts[0..] == bursts;
  }

  lemma {:induction false} EndsFrom(c: Chans, bursts: seq<Burst>, from: nat)
    requires from <= |bursts|
    ensures EndsFirst(c, bursts, from, After(from, WaitFrom(LookedAt(c, bursts, from), bursts[from..])))
    decreases |bursts| - from
  {
    if Undecided(c, bursts, from) && from < |bursts| {
      assert bursts[from..][0] == bursts[from] && bursts[from..][1..] == bursts[from + 1..];
      EndsFrom(c, bursts, from + 1);
      EndsEarlier(c, bursts, from, After(from + 1, WaitFrom(LookedAt(c, bursts, from + 1), bursts[from + 1..])));
    }
  }

  lemma {:induction false} EndsEarlier(c: Chans, bursts: seq<Burst>, from: nat, outcome: (Wait, nat, Chans))
    requires from < |bursts| && Undecided(c, bursts, from) && EndsFirst(c, bursts, from + 1, outcome)
    ensures EndsFirst(c, bursts, from, outcome)
  {
  }

  /** What a wait leaves on the channels is what was sent on them before it
      ended, every signal of it. */
  lemma {:induction false} WaitReceives(c: Chans, bursts: seq<Burst>)
    ensures var (result, used, end) := WaitOutcome(c, bursts);
      used <= |bursts| && Agree(end, c.ReceivedAll(SignalsOf(bursts[..used])))
  {
    if c.pause.Paused() {
      WaitEndsAtTheFirst(c, bursts);
      var used := WaitOutcome(c, bursts).1;
      LookedAtReceives(c, bursts, used);
      LookDecides(LookedAt(c, bursts, used));
    } else {
      assert bursts[..0] == [];
    }
  }

  lemma {:induction false} LookedAtReceives(c: Chans, bursts: seq<Burst>, k: nat)
    requires k <= |bursts|
    ensures Agree(LookedAt(c, bursts, k), c.ReceivedAll(SignalsOf(bursts[..k])))
  {
    if k == 0 {
      assert bursts[..0] == [];
    } else {
      LookedAtReceives(c, bursts, k - 1);
      LookDecides(LookedAt(c, bursts, k - 1));
      assert bursts[..k][..k - 1] == bursts[..k - 1];
      ReceivedConcat(c, SignalsOf(bursts[..k - 1]), bursts[k - 1].signals);
      AgreeLater(Look(LookedAt(c, bursts, k - 1)).1, c.ReceivedAll(SignalsOf(bursts[..k - 1])), bursts[k - 1].signals);
    }
  }

  /** A wait that began with no cancel on and is not cancelled leaves none on. */
  lemma {:induction false} ResumedUncancelled(c: Chans, bursts: seq<Burst>)
    requires !c.cancel.value && !WaitOutcome(c, bursts).0.CancelSeen?
    ensures !WaitOutcome(c, bursts).2.cancel.value
  {
    if c.pause.Paused() {
      WaitEndsAtTheFirst(c, bursts);
      var used := WaitOutcome(c, bursts).1;
      TrueIsUnseen(c, bursts, used);
      LookDecides(LookedAt(c, bursts, used));
    }
  }

  /** Until a cancel is seen, one that is on has not been seen. */
  lemma {:induction false} TrueIsUnseen(c: Chans, bursts: seq<Burst>, k: nat)
    requires !c.cancel.value && k <= |bursts|
    requires forall j: nat :: j < k ==> Undecided(c, bursts, j)
    ensures LookedAt(c, bursts, k).cancel.value ==> LookedAt(c, bursts, k).cancel.unseen > 0
  {
    if k > 0 {
      TrueIsUnseen(c, bursts, k - 1);
      assert Undecided(c, bursts, k - 1);
      LookDecides(LookedAt(c, bursts, k - 1));
      TrueArrivesUnseen(Look(LookedAt(c, bursts, k - 1)).1, bursts[k - 1].signals);
    }
  }

  lemma {:induction false} TrueArrivesUnseen(c: Chans, signals: seq<Signal>)
    requires c.cancel.value ==> c.cancel.unseen > 0
    ensures c.ReceivedAll(signals).cancel.value ==> c.ReceivedAll(signals).cancel.unseen > 0
    decreases |signals|
  {
    if signals != [] {
      TrueArrivesUnseen(c.Received(signals[0]), signals[1..]);
    }
  }

  /** How it ends shows in what was sent: a resumed wait meets a pause that is
      off or has no sender left, a cancelled one a cancel that is on or has no
      sender left. */
  lemma {:induction false} EndsForAReason(c: Chans, bursts: seq<Burst>)
    ensures var (result, used, end) := WaitOutcome(c, bursts);
      && (result.Resumed? ==> !end.pause.Paused())
      && (result.CancelSeen? ==> end.cancel.value || !end.cancel.open)
      && (result.StillWaiting? ==> end.pause.Paused() && end.cancel.open && !end.pause.Stirs() && !end.cancel.Stirs())
  {
    if c.pause.Paused() {
      WaitEndsAtTheFirst(c, bursts);
    }
  }

  /** The versions that bursts bring, at most. */
  function Arrivals(bursts: seq<Burst>): nat {
    if bursts == [] then 0 else Arrivals(bursts[..|bursts| - 1]) + |bursts[|bursts| - 1].signals|
  }

  // ----- the loop -----

  /** What a poll of both arms finds, cancel first. */
  predicate Found(woken: Poll, onPause: Poll, at: Chans) {
    && (woken.Ready? <==> at.cancel.Stirs())
    && (woken.Ready? ==> (woken.ok <==> at.cancel.unseen > 0))
    && (onPause.Ready? <==> woken.Pending? && at.pause.Stirs())
    && (onPause.Ready? ==> (onPause.ok <==> at.pause.unseen > 0))
  }

  /** One poll of the `select!`. */
  method PollArms(pause: Receiver, cancel: Receiver) returns (woken: Poll, onPause: Poll)
    requires pause != cancel && pause.Valid() && cancel.Valid()
    modifies pause, cancel
    ensures pause.Valid() && cancel.Valid()
    ensures Found(woken, onPause, old(Views(pause, cancel)))
    ensures Views(pause, cancel) == Polled(old(Views(pause, cancel)))
  {
    onPause := Pending;
    woken := cancel.PollChanged();
    if woken.Pending? {
      onPause := pause.PollChanged();
    }
  }

  function Polled(c: Chans): Chans {
    Chans(if c.cancel.Stirs() then c.pause else c.pause.Seen(), c.cancel.Seen())
  }

  /** A pause that is off has something to tell the `select!`. */
  predicate Noticed(c: Chan) {
    c.value || c.Stirs()
  }

  lemma {:induction false} StaysNoticed(c: Chans, signals: seq<Signal>)
    requires Noticed(c.pause)
    ensures Noticed(c.ReceivedAll(signals).pause)
    decreases |signals|
  {
    if signals != [] {
      StaysNoticed(c.Received(signals[0]), signals[1..]);
    }
  }

  /** Versions can only come with signals. */
  lemma {:induction false} FewArrivals(c: Chans, signals: seq<Signal>)
    ensures c.ReceivedAll(signals).pause.unseen + c.ReceivedAll(signals).cancel.unseen
         <= c.pause.unseen + c.cancel.unseen + |signals|
    decreases |signals|
  {
    if signals != [] {
      FewArrivals(c.Received(signals[0]), signals[1..]);
    }
  }

  function Unseen(c: Chans): nat {
    c.pause.unseen + c.cancel.unseen
  }

  /** A sleep that began at `start` with `from` bursts gone has got to `at`
      with `used` gone: the wait ends as it would have. */
  predicate Asleep(start: Chans, bursts: seq<Burst>, from: nat, at: Chans, used: nat) {
    && from <= used <= |bursts| && Noticed(at.pause)
    && After(from, WaitFrom(start, bursts[from..])) == After(used, WaitFrom(at, bursts[used..]))
    && Unseen(at) + Arrivals(bursts[..from]) <= Unseen(start) + Arrivals(bursts[..used])
  }

  lemma {:induction false} SleepsOn(start: Chans, bursts: seq<Burst>, from: nat, at: Chans, used: nat)
    requires Asleep(start, bursts, from, at, used)
    requires used < |bursts| && !at.cancel.Stirs() && !at.pause.Stirs()
    ensures Asleep(start, bursts, from, Polled(at).ReceivedAll(bursts[used].signals), used + 1)
  {
    assert bursts[used..][0] == bursts[used] && bursts[used..][1..] == bursts[used + 1..];
    assert bursts[..used + 1][..used] == bursts[..used];
    StaysNoticed(Polled(at), bursts[used].signals);
    FewArrivals(Polled(at), bursts[used].signals);
  }

  /** Poll until an arm is ready: the bursts taken, and the channels `at` the
      poll that found one. */
  method Sleep(pause: Receiver, cancel: Receiver, bursts: seq<Burst>, from: nat)
    returns (woken: Poll, onPause: Poll, used: nat, ghost at: Chans)
    requires pause != cancel && pause.Valid() && cancel.Valid() && pause.IsPaused() && from <= |bursts|
    modifies pause, cancel
    ensures pause.Valid() && cancel.Valid() && Views(pause, cancel) == Polled(at)
    ensures Asleep(old(Views(pause, cancel)), bursts, from, at, used)
    ensures Found(woken, onPause, at)
    ensures woken.Pending? && onPause.Pending? ==> used == |bursts|
  {
    used, at := from, Views(pause, cancel);
    woken, onPause := PollArms(pause, cancel);
    while woken.Pending? && onPause.Pending? && used < |bursts|
      invariant pause.Valid() && cancel.Valid() && Views(pause, cancel) == Polled(at)
      invariant Asleep(old(Views(pause, cancel)), bursts, from, at, used)
      invariant Found(woken, onPause, at)
      decreases |bursts| - used
    {
      SleepsOn(old(Views(pause, cancel)), bursts, from, at, used);
      Receive(pause, cancel, bursts[used].signals);
      used, at := used + 1, Views(pause, cancel);
      woken, onPause := PollArms(pause, cancel);
    }
  }

  /** A wait that began at `start` is at its loop head after `turns` turns and
      `used` bursts: it ends as it would have, and every turn has consumed a
      version. */
  predicate Waiting(start: Chans, bursts: seq<Burst>, turns: nat, here: Chans, used: nat) {
    && used <= |bursts|
    && After(used, WaitOutcome(here, bursts[used..])) == WaitOutcome(start, bursts)
    && turns + Unseen(here) <= Unseen(start) + Arrivals(bursts[..used])
  }

  /** What a poll that found something, or found the script at its end, means. */
  predicate Decides(at: Chans, left: seq<Burst>, result: Wait) {
    match result
    case CancelSeen => at.cancel.Stirs() && (at.cancel.unseen == 0 || at.cancel.value)
    case Resumed => !at.cancel.Stirs() && at.pause.unseen == 0 && !at.pause.open
    case StillWaiting => !at.cancel.Stirs() && !at.pause.Stirs() && left == []
  }

  lemma {:induction false} TurnEnds(start: Chans, bursts: seq<Burst>, turns: nat, here: Chans, from: nat, at: Chans,
                                    used: nat, result: Wait)
    requires Waiting(start, bursts, turns, here, from) && here.pause.Paused()
    requires Asleep(here, bursts, from, at, used) && Decides(at, bursts[used..], result)
    ensures WaitOutcome(start, bursts) == (result, used, Polled(at))
    ensures turns <= Unseen(start) + Arrivals(bursts[..used])
  {
  }

  /** A turn of the loop that does not return goes on from what it has seen. */
  lemma {:induction false} TurnGoesOn(start: Chans, bursts: seq<Burst>, turns: nat, here: Chans, from: nat, at: Chans, used: nat)
    requires Waiting(start, bursts, turns, here, from) && here.pause.Paused()
    requires Asleep(here, bursts, from, at, used)
    requires if at.cancel.Stirs() then at.cancel.unseen > 0 && !at.cancel.value else at.pause.unseen > 0
    ensures Waiting(start, bursts, turns + 1, Polled(at), used) && Unseen(Polled(at)) < Unseen(at)
    ensures used == from ==> Unseen(at) <= Unseen(here)
  {
    assert WaitFrom(at, bursts[used..]) == WaitOutcome(Polled(at), bursts[used..]);
  }

  /** Wait while paused; `turns` counts the turns of the loop.

      The loop cannot spin: a turn that does not return has consumed an unseen
      version, so there are at most as many as versions seen at entry and sent
      since, and one more. */
  method WaitWhilePaused(pause: Receiver, cancel: Receiver, bursts: seq<Burst>)
    returns (result: Wait, turns: nat, used: nat)
    requires pause != cancel && pause.Valid() && cancel.Valid()
    modifies pause, cancel
    ensures pause.Valid() && cancel.Valid() && used <= |bursts|
    ensures (result, used, Views(pause, cancel)) == WaitOutcome(old(Views(pause, cancel)), bursts)
    ensures turns <= 1 + old(Unseen(Views(pause, cancel))) + Arrivals(bursts[..used])
  {
    ghost var start := Views(pause, cancel);
    turns, used := 0, 0;
    assert bursts[0..] == bursts && bursts[..0] == [];
    while pause.IsPaused()
      invariant pause.Valid() && cancel.Valid() && Waiting(start, bursts, turns, Views(pause, cancel), used)
      decreases |bursts| - used, Unseen(Views(pause, cancel))
    {
      ghost var here, from := Views(pause, cancel), used;
      var woken, onPause;
      ghost var at;
      woken, onPause, used, at := Sleep(pause, cancel, bursts, used);
      if woken.Ready? {
        if !woken.ok || cancel.value {
          TurnEnds(start, bursts, turns, here, from, at, used, CancelSeen);
          return CancelSeen, turns + 1, used;
        }
      } else if onPause.Pending? {
        TurnEnds(start, bursts, turns, here, from, at, used, StillWaiting);
        return StillWaiting, turns + 1, used;
      } else if !onPause.ok {
        TurnEnds(start, bursts, turns, here, from, at, used, Resumed);
        return Resumed, turns + 1, used;
      }
      TurnGoesOn(start, bursts, turns, here, from, at, used);
      turns := turns + 1;
    }
    result := Resumed;
  }

  predicate InOrder(now: nat, bursts: seq<Burst>) {
    forall i, j :: 0 <= i <= j < |bursts| ==> now <= bursts[i].at <= bursts[j].at
  }

  /** Also the wall-clock time spent: from the call to the burst that ended the
      wait, so nothing when there was no pause to wait out. */
  method WaitWhilePausedTimed(pause: Receiver, cancel: Receiver, now: nat, bursts: seq<Burst>)
    returns (result: Wait, paused: nat, used: nat)
    requires pause != cancel && pause.Valid() && cancel.Valid() && InOrder(now, bursts)
    modifies pause, cancel
    ensures pause.Valid() && cancel.Valid() && used <= |bursts|
    ensures (result, used, Views(pause, cancel)) == WaitOutcome(old(Views(pause, cancel)), bursts)
    ensures paused == if used == 0 then 0 else bursts[used - 1].at - now
  {
    var pauseStart := now;
    var turns;
    result, turns, used := WaitWhilePaused(pause, cancel, bursts);
    var end := if used == 0 then now else bursts[used - 1].at;
    paused := end - pauseStart;
  }
}
