/** The per-address limit on concurrent tests and its background cleanup
    (`src/rate_limit.rs`). */
module RateLimiter {
  import opened Basics

  type Ip = nat

  datatype IpState = IpState(count: nat, lastAccess: nat)

  datatype RateLimitError = RateLimitError(ip: Ip, current: nat, max: nat)

  type Answer = Result<(), RateLimitError>

  type Limits = map<Ip, IpState>

  function CountOf(limits: Limits, ip: Ip): nat {
    if ip in limits then limits[ip].count else 0
  }

  // ----- what the operations do to the map of limits -----

  /** A check finds or makes the address's entry, then admits or refuses; the
      clock is read once for a new entry and once on admission. */
  function Checked(limits: Limits, max: nat, ip: Ip, made: nat, admitted: nat): (Limits, Answer) {
    var entry := if ip in limits then limits[ip] else IpState(0, made);
    if entry.count >= max then (limits[ip := entry], Err(RateLimitError(ip, entry.count, max)))
    else (limits[ip := IpState(entry.count + 1, admitted)], Ok(()))
  }

  function Released(limits: Limits, ip: Ip): Limits {
    if ip in limits then limits[ip := limits[ip].(count := SatSub(limits[ip].count, 1))] else limits
  }

  predicate Keeps(window: nat, now: nat, entry: IpState) {
    entry.count > 0 || SatSub(now, entry.lastAccess) < window
  }

  function Cleaned(limits: Limits, window: nat, now: nat, ip: Ip): Limits {
    if ip in limits && !Keeps(window, now, limits[ip]) then limits - {ip} else limits
  }

  class Limiter {
    const maxPerIp: nat
    const window: nat
    var limits: Limits

    constructor (maxPerIp: nat, window: nat)
      ensures this.maxPerIp == maxPerIp && this.window == window && limits == map[]
    {
      this.maxPerIp, this.window, limits := maxPerIp, window, map[];
    }

    method Check(ip: Ip, made: nat, admitted: nat) returns (r: Answer)
      modifies this
      ensures (limits, r) == Checked(old(limits), maxPerIp, ip, made, admitted)
      // The address always has an entry then; an admission counts one more and
      // refreshes it, a refusal does neither, and no other address is touched.
      ensures var count := if ip in old(limits) then old(limits)[ip].count else 0;
        && r == (if count < maxPerIp then Ok(()) else Err(RateLimitError(ip, count, maxPerIp)))
        && ip in limits && limits[ip].count == (if r.Ok? then count + 1 else count)
        && limits[ip].lastAccess == (if r.Ok? then admitted else if ip in old(limits) then old(limits)[ip].lastAccess else made)
      ensures forall other :: other != ip ==>
        && (other in limits <==> other in old(limits))
        && (other in limits ==> limits[other] == old(limits)[other])
    {
      if ip !in limits {
        limits := limits[ip := IpState(0, made)];
      }
      var state := limits[ip];
      assert limits == old(limits)[ip := state];
      if state.count >= maxPerIp {
        return Err(RateLimitError(ip, state.count, maxPerIp));
      }
      limits := limits[ip := IpState(state.count + 1, admitted)];
      assert limits == old(limits)[ip := limits[ip]];
      return Ok(());
    }

    method Release(ip: Ip)
      modifies this
      ensures limits == Released(old(limits), ip)
    {
      if ip in limits {
        limits := limits[ip := limits[ip].(count := SatSub(limits[ip].count, 1))];
      }
    }

    method CurrentCount(ip: Ip) returns (count: nat)
      ensures count == CountOf(limits, ip)
    {
      if ip in limits {
        return limits[ip].count;
      }
      return 0;
    }

    /** One sweep, left to itself: what is not kept is gone, the rest is untouched. */
    method Cleanup(now: nat)
      modifies this
      ensures limits == map ip | ip in old(limits) && Keeps(window, now, old(limits)[ip]) :: old(limits)[ip]
      ensures forall ip :: ip in old(limits) ==>
        (ip in limits <==> old(limits)[ip].count > 0 || (window > 0 && now < old(limits)[ip].lastAccess + window))
    {
      var ips := limits.Keys;
      while ips != {}
        invariant ips <= old(limits).Keys
        invariant limits.Keys <= old(limits).Keys
        invariant forall ip :: ip in limits ==> limits[ip] == old(limits)[ip]
        invariant forall ip :: ip in ips ==> ip in limits
        invariant forall ip :: ip in old(limits) && ip !in ips ==>
          (ip in limits <==> Keeps(window, now, old(limits)[ip]))
      {
        var ip :| ip in ips;
        CleanKey(now, ip);
        ips := ips - {ip};
      }
    }

    /** The step of a sweep that other operations can come between. */
    method CleanKey(now: nat, ip: Ip)
      modifies this
      ensures limits == Cleaned(old(limits), window, now, ip)
    {
      if ip in limits && !(limits[ip].count > 0 || SatSub(now, limits[ip].lastAccess) < window) {
        limits := limits - {ip};
      }
    }
  }

  // ----- the limiter among its guards -----

  datatype Settings = Settings(max: nat, window: nat)

  /** What can happen, one at a time for each address because each operation
      holds the entry while it runs: a check, the drop of a guard that an
      admitted check handed out, or one step of some sweep. */
  datatype Event =
    | Check(ip: Ip, made: nat, admitted: nat)
    | Drop(ip: Ip)
    | CleanKey(ip: Ip, now: nat)

  /** The map of limits and the guards alive. */
  datatype State = State(limits: Limits, guards: multiset<Ip>)

  const INITIAL: State := State(map[], multiset{})

  predicate Enabled(s: State, e: Event) {
    e.Drop? ==> e.ip in s.guards
  }

  function Step(settings: Settings, s: State, e: Event): State {
    match e
    case Check(ip, made, admitted) =>
      var (limits, answer) := Checked(s.limits, settings.max, ip, made, admitted);
      State(limits, if answer.Ok? then s.guards + multiset{ip} else s.guards)
    case Drop(ip) => State(Released(s.limits, ip), s.guards - multiset{ip})
    case CleanKey(ip, now) => s.(limits := Cleaned(s.limits, settings.window, now, ip))
  }

  function AnswerOf(settings: Settings, s: State, e: Event): seq<Answer> {
    match e
    case Check(ip, made, admitted) => [Checked(s.limits, settings.max, ip, made, admitted).1]
    case _ => []
  }

  function After(settings: Settings, events: seq<Event>): State {
    if events == [] then INITIAL
    else Step(settings, After(settings, events[..|events| - 1]), events[|events| - 1])
  }

  function Answers(settings: Settings, events: seq<Event>): seq<Answer> {
    if events == [] then []
    else
      var n := |events| - 1;
      Answers(settings, events[..n]) + AnswerOf(settings, After(settings, events[..n]), events[n])
  }

  predicate IsRun(settings: Settings, events: seq<Event>) {
    events == [] ||
    (var n := |events| - 1;
     IsRun(settings, events[..n]) && Enabled(After(settings, events[..n]), events[n]))
  }

  /** The stored counts are the numbers of live guards, within the limit. */
  ghost predicate Counts(settings: Settings, s: State) {
    forall ip: Ip :: CountsFor(settings, s, ip)
  }

  predicate CountsFor(settings: Settings, s: State, ip: Ip) {
    CountOf(s.limits, ip) == s.guards[ip] <= settings.max
  }

  lemma {:induction false} StepKeepsCounts(settings: Settings, s: State, e: Event, ip: Ip)
    requires Counts(settings, s) && Enabled(s, e)
    ensures CountsFor(settings, Step(settings, s, e), ip)
  {
    assert CountsFor(settings, s, ip) && CountsFor(settings, s, e.ip);
  }

  /** After every run, whatever the interleaving with cleanup: the count of an
      address, zero if it has no entry, is the number of its live guards and
      never exceeds the limit. */
  lemma {:induction false} CountIsLiveGuards(settings: Settings, events: seq<Event>)
    requires IsRun(settings, events)
    ensures Counts(settings, After(settings, events))
  {
    if events == [] {
      forall ip: Ip
        ensures CountsFor(settings, INITIAL, ip)
      {
      }
    } else {
      var n := |events| - 1;
      CountIsLiveGuards(settings, events[..n]);
      forall ip: Ip
        ensures CountsFor(settings, After(settings, events), ip)
      {
        StepKeepsCounts(settings, After(settings, events[..n]), events[n], ip);
      }
    }
  }

  /** A check is admitted exactly when fewer guards of the address are alive
      than the limit, and a refusal names their number. */
  lemma {:induction false} CheckCountsLiveGuards(settings: Settings, events: seq<Event>, ip: Ip, made: nat, admitted: nat)
    requires IsRun(settings, events)
    ensures var s := After(settings, events);
      Checked(s.limits, settings.max, ip, made, admitted).1
      == if s.guards[ip] < settings.max then Ok(()) else Err(RateLimitError(ip, s.guards[ip], settings.max))
  {
    CountIsLiveGuards(settings, events);
    assert CountsFor(settings, After(settings, events), ip);
  }

  /** The drop of a live guard always finds its entry with a count above
      zero: the saturating decrement never saturates. */
  lemma {:induction false} ReleaseNeverSaturates(settings: Settings, events: seq<Event>, ip: Ip)
    requires IsRun(settings, events) && ip in After(settings, events).guards
    ensures var limits := After(settings, events).limits;
      ip in limits && limits[ip].count > 0 && CountOf(Released(limits, ip), ip) == CountOf(limits, ip) - 1
  {
    CountIsLiveGuards(settings, events);
    assert CountsFor(settings, After(settings, events), ip);
  }

  // ----- cleanup forgets only what is old -----

  /** One step of a sweep removes an entry exactly when no guard is counted on
      it and a whole window has passed since its last access. */
  lemma {:induction false} SweepsExactly(settings: Settings, s: State, ip: Ip, now: nat)
    ensures ip in Step(settings, s, CleanKey(ip, now)).limits <==>
      ip in s.limits &&
      (s.limits[ip].count > 0 || (settings.window > 0 && now < s.limits[ip].lastAccess + settings.window))
    ensures forall other :: other != ip ==>
      (other in Step(settings, s, CleanKey(ip, now)).limits <==> other in s.limits)
  {
  }

  /** No sweep of the address a window after time `t`, no clock read earlier. */
  predicate RecentAt(settings: Settings, e: Event, ip: Ip, t: nat) {
    match e
    case Check(other, _, admitted) => other == ip ==> admitted >= t
    case Drop(_) => true
    case CleanKey(other, now) => other == ip ==> now < t + settings.window
  }

  predicate AllRecent(settings: Settings, events: seq<Event>, ip: Ip, t: nat) {
    forall j :: 0 <= j < |events| ==> RecentAt(settings, events[j], ip, t)
  }

  predicate Remembers(s: State, ip: Ip, t: nat) {
    ip in s.limits && s.limits[ip].lastAccess >= t
  }

  lemma {:induction false} StepRemembers(settings: Settings, s: State, e: Event, ip: Ip, t: nat)
    requires settings.window > 0 && Remembers(s, ip, t) && RecentAt(settings, e, ip, t)
    ensures Remembers(Step(settings, s, e), ip, t)
  {
  }

  lemma {:induction false} AfterAppend(settings: Settings, events: seq<Event>, e: Event)
    ensures After(settings, events + [e]) == Step(settings, After(settings, events), e)
  {
    assert (events + [e])[..|events|] == events;
  }

  lemma {:induction false} StaysRemembered(settings: Settings, before: seq<Event>, later: seq<Event>, ip: Ip, t: nat)
    requires settings.window > 0 && Remembers(After(settings, before), ip, t) && AllRecent(settings, later, ip, t)
    ensures Remembers(After(settings, before + later), ip, t)
    decreases |later|
  {
    if later == [] {
      assert before + later == before;
    } else {
      var next := before + [later[0]];
      OneMoreRemembered(settings, before, later[0], ip, t);
      StaysRemembered(settings, next, later[1..], ip, t);
      assert before + later == next + later[1..];
    }
  }

  lemma {:induction false} OneMoreRemembered(settings: Settings, before: seq<Event>, e: Event, ip: Ip, t: nat)
    requires settings.window > 0 && Remembers(After(settings, before), ip, t) && RecentAt(settings, e, ip, t)
    ensures Remembers(After(settings, before + [e]), ip, t)
  {
    AfterAppend(settings, before, e);
    StepRemembers(settings, After(settings, before), e, ip, t);
  }

  /** An address admitted at time `t` keeps its entry for the whole window,
      guards or none, whatever checks, drops and sweeps come in between. */
  lemma {:induction false} AdmittedIsRemembered(settings: Settings, before: seq<Event>, made: nat, t: nat,
                                                later: seq<Event>, ip: Ip)
    requires settings.window > 0 && CountOf(After(settings, before).limits, ip) < settings.max
    requires AllRecent(settings, later, ip, t)
    ensures Remembers(After(settings, before + [Check(ip, made, t)] + later), ip, t)
  {
    AfterAppend(settings, before, Check(ip, made, t));
    StaysRemembered(settings, before + [Check(ip, made, t)], later, ip, t);
  }

  // ----- cleanup cannot be observed -----

  /** The same run on a limiter that never cleans up. */
  function WithoutCleanup(events: seq<Event>): seq<Event> {
    if events == [] then []
    else
      var n := |events| - 1;
      WithoutCleanup(events[..n]) + if events[n].CleanKey? then [] else [events[n]]
  }

  lemma {:induction false} AppendEvent(settings: Settings, events: seq<Event>, e: Event)
    ensures After(settings, events + [e]) == Step(settings, After(settings, events), e)
    ensures Answers(settings, events + [e])
         == Answers(settings, events) + AnswerOf(settings, After(settings, events), e)
    ensures IsRun(settings, events + [e]) <==> IsRun(settings, events) && Enabled(After(settings, events), e)
  {
    assert (events + [e])[..|events|] == events;
  }

  /** Every check is answered exactly as by a limiter that never cleans up,
      and the same guards are alive. */
  lemma {:induction false} CleanupIsInvisible(settings: Settings, events: seq<Event>)
    requires IsRun(settings, events)
    ensures IsRun(settings, WithoutCleanup(events))
    ensures Answers(settings, events) == Answers(settings, WithoutCleanup(events))
    ensures After(settings, events).guards == After(settings, WithoutCleanup(events)).guards
  {
    if events != [] {
      var n := |events| - 1;
      var e := events[n];
      CleanupIsInvisible(settings, events[..n]);
      if e.CleanKey? {
        assert Answers(settings, events) == Answers(settings, events[..n]);
        assert WithoutCleanup(events) == WithoutCleanup(events[..n]);
      } else {
        AppendEvent(settings, WithoutCleanup(events[..n]), e);
        CountIsLiveGuards(settings, events[..n]);
        CountIsLiveGuards(settings, WithoutCleanup(events[..n]));
        SameGuardsSameAnswer(settings, After(settings, events[..n]),
                             After(settings, WithoutCleanup(events[..n])), e);
      }
    }
  }

  lemma {:induction false} SameGuardsSameAnswer(settings: Settings, s: State, t: State, e: Event)
    requires Counts(settings, s) && Counts(settings, t) && s.guards == t.guards
    ensures AnswerOf(settings, s, e) == AnswerOf(settings, t, e)
    ensures Step(settings, s, e).guards == Step(settings, t, e).guards
  {
    assert CountsFor(settings, s, e.ip) && CountsFor(settings, t, e.ip);
  }
}
