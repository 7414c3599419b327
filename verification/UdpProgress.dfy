/** Cumulative UDP progress that reaches the client over two channels in any
    order: the freshness order (`src/protocol.rs`), the filter and the
    cross-stream aggregate (`src/client.rs`), the feedback slots (`src/udp.rs`)
    and the consumer's cache (`src/main.rs`). */
module UdpProgress {
  import opened Basics

  datatype Snapshot = Snapshot(received: u64, lost: u64) {
    /** The denominator as the code computes it. */
    function Expected(): nat {
      SatAdd(received, lost)
    }

    predicate AtLeastAsFreshAs(previous: Snapshot) {
      received >= previous.received && Expected() >= previous.Expected()
    }
  }

  // ----- the filter -----

  /** The snapshots a filter lets through, of those applied to it in turn. */
  function Accepted(applied: seq<Snapshot>): seq<Snapshot> {
    if applied == [] then []
    else
      var last := applied[|applied| - 1];
      var before := Accepted(applied[..|applied| - 1]);
      if before != [] && !last.AtLeastAsFreshAs(before[|before| - 1]) then before else before + [last]
  }

  function Latest(applied: seq<Snapshot>): Option<Snapshot> {
    var accepted := Accepted(applied);
    if accepted == [] then None else Some(accepted[|accepted| - 1])
  }

  class ProgressFilter {
    var latest: Option<Snapshot>
    ghost var applied: seq<Snapshot>

    ghost predicate Valid()
      reads this
    {
      latest == Latest(applied)
    }

    constructor ()
      ensures Valid() && applied == []
    {
      latest, applied := None, [];
    }

    method Apply(progress: Snapshot) returns (r: Option<Snapshot>)
      requires Valid()
      modifies this
      ensures Valid() && applied == old(applied) + [progress]
      ensures r.Some? ==> r.value == progress && latest == r
      ensures Accepted(applied) == Accepted(old(applied)) + if r.Some? then [progress] else []
    {
      OneMoreApplied(applied, progress);
      applied := applied + [progress];
      if latest.Some? && !progress.AtLeastAsFreshAs(latest.value) {
        return None;
      }
      latest := Some(progress);
      return Some(progress);
    }
  }

  lemma {:induction false} OneMoreApplied(applied: seq<Snapshot>, progress: Snapshot)
    ensures Accepted(applied + [progress])
         == Accepted(applied)
          + if Latest(applied).Some? && !progress.AtLeastAsFreshAs(Latest(applied).value) then [] else [progress]
  {
    assert (applied + [progress])[..|applied|] == applied;
  }

  lemma {:induction false} LatestAfter(applied: seq<Snapshot>, progress: Snapshot)
    ensures Latest(applied + [progress])
         == if Latest(applied).Some? && !progress.AtLeastAsFreshAs(Latest(applied).value)
            then Latest(applied) else Some(progress)
  {
    OneMoreApplied(applied, progress);
  }

  /** Whatever is applied, in any order: what is let through never goes back
      in either coordinate. */
  lemma {:induction false} AcceptedNeverGoesBack(applied: seq<Snapshot>, i: nat, j: nat)
    requires i <= j < |Accepted(applied)|
    ensures var earlier, later := Accepted(applied)[i], Accepted(applied)[j];
      && later.AtLeastAsFreshAs(earlier) && later.received >= earlier.received
      && Min(later.received + later.lost, U64_MAX) >= Min(earlier.received + earlier.lost, U64_MAX)
  {
    var before := Accepted(applied[..|applied| - 1]);
    if j < |before| {
      AcceptedNeverGoesBack(applied[..|applied| - 1], i, j);
    } else if i < j {
      AcceptedNeverGoesBack(applied[..|applied| - 1], i, j - 1);
    }
  }

  predicate FresherAt(applied: seq<Snapshot>, i: nat, j: nat)
    requires i < |applied| && j < |applied|
  {
    applied[j].AtLeastAsFreshAs(applied[i])
  }

  predicate OnlyFresher(applied: seq<Snapshot>) {
    forall i: nat, j: nat :: i <= j < |applied| ==> FresherAt(applied, i, j)
  }

  lemma {:induction false} FresherPrefix(applied: seq<Snapshot>, n: nat)
    requires OnlyFresher(applied) && n <= |applied|
    ensures OnlyFresher(applied[..n])
  {
    forall i: nat, j: nat | i <= j < n
      ensures FresherAt(applied[..n], i, j)
    {
      assert FresherAt(applied, i, j);
    }
  }

  /** A sequence that only gets fresher is let through whole. */
  lemma {:induction false} FresherIsAccepted(applied: seq<Snapshot>)
    requires OnlyFresher(applied)
    ensures Accepted(applied) == applied
  {
    if applied != [] {
      var n := |applied| - 1;
      FresherPrefix(applied, n);
      FresherIsAccepted(applied[..n]);
      assert n > 0 ==> FresherAt(applied, n - 1, n);
      OneMoreApplied(applied[..n], applied[n]);
      assert applied[..n] + [applied[n]] == applied;
    }
  }

  // ----- one source, delivered in any order -----

  /** The snapshots one receiver takes in turn: unique packets received and
      the exact denominator only grow; lost can fall as gaps are repaired. */
  predicate Growing(source: seq<Snapshot>) {
    forall i: nat, j: nat :: i <= j < |source| ==> Grows(source, i, j)
  }

  predicate Grows(source: seq<Snapshot>, i: nat, j: nat)
    requires i < |source| && j < |source|
  {
    && source[i].received <= source[j].received
    && source[i].received + source[i].lost <= source[j].received + source[j].lost
  }

  /** Deliveries name source snapshots, with drops, repeats and reordering:
      what two channels interleave to. */
  predicate DeliveriesOf(source: seq<Snapshot>, deliveries: seq<nat>) {
    forall k :: 0 <= k < |deliveries| ==> deliveries[k] < |source|
  }

  function Delivered(source: seq<Snapshot>, deliveries: seq<nat>): seq<Snapshot>
    requires DeliveriesOf(source, deliveries)
  {
    if deliveries == [] then []
    else Delivered(source, deliveries[..|deliveries| - 1]) + [source[deliveries[|deliveries| - 1]]]
  }

  /** The latest taken of the snapshots delivered. */
  function Newest(deliveries: seq<nat>): nat
    requires deliveries != []
  {
    var last := deliveries[|deliveries| - 1];
    if |deliveries| == 1 then last
    else
      var before := Newest(deliveries[..|deliveries| - 1]);
      if before <= last then last else before
  }

  lemma {:induction false} NewestIsLargest(deliveries: seq<nat>, k: nat)
    requires k < |deliveries|
    ensures Newest(deliveries) in deliveries && deliveries[k] <= Newest(deliveries)
  {
    if |deliveries| > 1 {
      NewestIsLargest(deliveries[..|deliveries| - 1], if k < |deliveries| - 1 then k else 0);
    }
  }

  /** Whenever losses grow with nothing received in between, the earlier
      denominator is below the saturation point. */
  predicate TiesBelowSaturation(source: seq<Snapshot>) {
    forall i: nat, j: nat :: i < j < |source| && Tie(source, i, j) ==> source[i].received + source[i].lost < U64_MAX
  }

  predicate Tie(source: seq<Snapshot>, i: nat, j: nat)
    requires i < |source| && j < |source|
  {
    source[i].received == source[j].received && source[i] != source[j]
  }

  /** After these deliveries the filter holds the newest snapshot delivered. */
  predicate IsStored(source: seq<Snapshot>, deliveries: seq<nat>)
    requires DeliveriesOf(source, deliveries) && deliveries != []
  {
    Newest(deliveries) < |source| && Latest(Delivered(source, deliveries)) == Some(source[Newest(deliveries)])
  }

  /** The filter stores the newest snapshot delivered, for every order of
      delivery, exactly when ties are below saturation. */
  lemma {:induction false} NewestIsStoredIff(source: seq<Snapshot>)
    requires Growing(source)
    ensures (forall deliveries: seq<nat> ::
               DeliveriesOf(source, deliveries) && deliveries != [] ==>
                 IsStored(source, deliveries))
        <==> TiesBelowSaturation(source)
  {
    if TiesBelowSaturation(source) {
      forall deliveries: seq<nat> | DeliveriesOf(source, deliveries) && deliveries != []
        ensures IsStored(source, deliveries)
      {
        NewestIsStored(source, deliveries);
      }
    } else {
      var i: nat, j: nat :| i < j < |source| && Tie(source, i, j) && source[i].received + source[i].lost >= U64_MAX;
      StaleTieIsStored(source, i, j);
      assert !IsStored(source, [j, i]);
    }
  }

  /** Of two snapshots of one source, the order keeps the one taken later. */
  lemma {:induction false} LaterOneWins(source: seq<Snapshot>, stored: nat, next: nat)
    requires Growing(source) && TiesBelowSaturation(source) && stored < |source| && next < |source|
    ensures var kept := if source[next].AtLeastAsFreshAs(source[stored]) then source[next] else source[stored];
            kept == source[if stored <= next then next else stored]
  {
    var i, j := if stored <= next then stored else next, if stored <= next then next else stored;
    assert Grows(source, i, j);
    assert i == j || !Tie(source, i, j) || source[i].received + source[i].lost < U64_MAX;
  }

  lemma {:induction false} NewestIsStored(source: seq<Snapshot>, deliveries: seq<nat>)
    requires Growing(source) && TiesBelowSaturation(source)
    requires DeliveriesOf(source, deliveries) && deliveries != []
    ensures Newest(deliveries) < |source|
    ensures Latest(Delivered(source, deliveries)) == Some(source[Newest(deliveries)])
  {
    var before := deliveries[..|deliveries| - 1];
    var last := deliveries[|deliveries| - 1];
    LatestAfter(Delivered(source, before), source[last]);
    if before == [] {
      assert Delivered(source, before) == [];
    } else {
      NewestIsStored(source, before);
      LaterOneWins(source, Newest(before), last);
    }
  }

  lemma {:induction false} StaleTieIsStored(source: seq<Snapshot>, i: nat, j: nat)
    requires Growing(source) && i < j < |source|
    requires Tie(source, i, j) && source[i].received + source[i].lost >= U64_MAX
    ensures Newest([j, i]) == j && Latest(Delivered(source, [j, i])) == Some(source[i])
    ensures Latest(Delivered(source, [j, i])) != Some(source[j])
  {
    assert Grows(source, i, j);
    DeliveredAppend(source, [], j);
    DeliveredAppend(source, [j], i);
    assert [] + [j] == [j] && [j] + [i] == [j, i];
    LatestAfter([], source[j]);
    LatestAfter(Delivered(source, [j]), source[i]);
    assert [j, i][..1] == [j];
  }

  lemma {:induction false} DeliveredAppend(source: seq<Snapshot>, deliveries: seq<nat>, next: nat)
    requires DeliveriesOf(source, deliveries) && next < |source|
    ensures DeliveriesOf(source, deliveries + [next])
    ensures Delivered(source, deliveries + [next]) == Delivered(source, deliveries) + [source[next]]
  {
    assert (deliveries + [next])[..|deliveries|] == deliveries;
  }

  /** Denominators that never overflow are enough. */
  lemma {:induction false} NoOverflowIsEnough(source: seq<Snapshot>)
    requires Growing(source)
    requires forall k :: 0 <= k < |source| ==> source[k].received + source[k].lost <= U64_MAX
    ensures TiesBelowSaturation(source)
  {
    forall i: nat, j: nat | i < j < |source| && Tie(source, i, j)
      ensures source[i].received + source[i].lost < U64_MAX
    {
      assert Grows(source, i, j);
    }
  }

  /** A growing source whose newest snapshot is overwritten by a late one. */
  lemma {:induction false} SaturatedTieGoesBack() returns (source: seq<Snapshot>)
    ensures Growing(source) && |source| == 2
    ensures Latest(Delivered(source, [1, 0])) == Some(source[0]) && source[0] != source[1]
  {
    source := [Snapshot(1, U64_MAX - 1), Snapshot(1, U64_MAX)];
    StaleTieIsStored(source, 0, 1);
  }

  // ----- the cross-stream aggregate -----

  function ExactReceived(slots: seq<Snapshot>): nat {
    if slots == [] then 0 else ExactReceived(slots[..|slots| - 1]) + slots[|slots| - 1].received
  }

  function ExactLost(slots: seq<Snapshot>): nat {
    if slots == [] then 0 else ExactLost(slots[..|slots| - 1]) + slots[|slots| - 1].lost
  }

  /** What adding the slots up with saturation amounts to: the exact sums, cut
      off once. */
  function Total(slots: seq<Snapshot>): Snapshot {
    Snapshot(Min(ExactReceived(slots), U64_MAX), Min(ExactLost(slots), U64_MAX))
  }

  /** Every sum of the counters, however it is written down. */
  lemma {:induction false} TotalIsTheSums(slots: seq<Snapshot>, received: seq<nat>, lost: seq<nat>)
    requires |received| == |slots| == |lost|
    requires forall i :: 0 <= i < |slots| ==> received[i] == slots[i].received && lost[i] == slots[i].lost
    ensures Total(slots) == Snapshot(Min(Sum(received), U64_MAX), Min(Sum(lost), U64_MAX))
    ensures ExactReceived(slots) == Sum(received) && ExactLost(slots) == Sum(lost)
  {
    if slots != [] {
      var n := |slots| - 1;
      TotalIsTheSums(slots[..n], received[..n], lost[..n]);
    }
  }

  method Aggregate(slots: seq<Snapshot>) returns (total: Snapshot)
    ensures total == Total(slots)
    ensures total.received == Min(Sum(seq(|slots|, i requires 0 <= i < |slots| => slots[i].received)), U64_MAX)
    ensures total.lost == Min(Sum(seq(|slots|, i requires 0 <= i < |slots| => slots[i].lost)), U64_MAX)
  {
    TotalIsTheSums(slots, seq(|slots|, i requires 0 <= i < |slots| => slots[i].received),
                   seq(|slots|, i requires 0 <= i < |slots| => slots[i].lost));
    total := Snapshot(0, 0);
    for i := 0 to |slots|
      invariant total == Total(slots[..i])
    {
      assert slots[..i + 1][..i] == slots[..i];
      total := Snapshot(SatAdd(total.received, slots[i].received), SatAdd(total.lost, slots[i].lost));
    }
    assert slots[..|slots|] == slots;
  }

  predicate SlotwiseFresher(now: seq<Snapshot>, before: seq<Snapshot>) {
    |now| == |before| && forall i :: 0 <= i < |now| ==> now[i].AtLeastAsFreshAs(before[i])
  }

  /** When every slot only gets fresher so does the aggregate, saturated or not. */
  lemma {:induction false} AggregateOnlyGetsFresher(now: seq<Snapshot>, before: seq<Snapshot>)
    requires SlotwiseFresher(now, before)
    ensures Total(now).AtLeastAsFreshAs(Total(before))
  {
    if now != [] {
      AggregateOnlyGetsFresher(now[..|now| - 1], before[..|before| - 1]);
    }
  }

  /** The per-stream feedback slots. */
  class FeedbackSlots {
    const slots: array<Snapshot>

    constructor (streams: nat)
      ensures slots[..] == seq(streams, i => Snapshot(0, 0)) && fresh(slots)
    {
      slots := new Snapshot[streams](i => Snapshot(0, 0));
    }

    method Store(expectedStream: nat, packetStream: nat, next: Snapshot) returns (stored: bool)
      modifies slots
      ensures slots[..] == Stored(old(slots[..]), expectedStream, packetStream, next)
      ensures stored <==> expectedStream == packetStream && expectedStream < slots.Length
                          && next.AtLeastAsFreshAs(old(slots[..])[expectedStream])
      ensures slots[..] == if stored then old(slots[..])[expectedStream := next] else old(slots[..])
    {
      if packetStream != expectedStream {
        return false;
      }
      if expectedStream >= slots.Length {
        return false;
      }
      if !next.AtLeastAsFreshAs(slots[expectedStream]) {
        return false;
      }
      slots[expectedStream] := next;
      return true;
    }
  }

  function Stored(slots: seq<Snapshot>, expectedStream: nat, packetStream: nat, next: Snapshot): seq<Snapshot> {
    if expectedStream == packetStream && expectedStream < |slots| && next.AtLeastAsFreshAs(slots[expectedStream])
    then slots[expectedStream := next]
    else slots
  }

  /** A feedback packet of any content on a stream's socket, the 1 Hz tick that
      aggregates the slots, or a report on the control channel. */
  datatype FeedbackEvent =
    | Packet(expectedStream: nat, packetStream: nat, next: Snapshot)
    | Tick
    | Report(progress: Snapshot)

  /** What is applied to the filter, and whether a tick applied it. */
  datatype Offer = Offer(progress: Snapshot, fromTick: bool)

  /** Ticks offer the aggregate of the slots, unless it is empty; reports offer
      what they carry. */
  function Offers(slots: seq<Snapshot>, events: seq<FeedbackEvent>): seq<Offer>
    decreases |events|
  {
    if events == [] then []
    else match events[0]
      case Packet(expected, packet, next) => Offers(Stored(slots, expected, packet, next), events[1..])
      case Tick => TickOffer(slots) + Offers(slots, events[1..])
      case Report(progress) => [Offer(progress, false)] + Offers(slots, events[1..])
  }

  function TickOffer(slots: seq<Snapshot>): seq<Offer> {
    if Total(slots) == Snapshot(0, 0) then [] else [Offer(Total(slots), true)]
  }

  function Offered(offers: seq<Offer>): seq<Snapshot> {
    if offers == [] then [] else Offered(offers[..|offers| - 1]) + [offers[|offers| - 1].progress]
  }

  /** Packets may be lost, repeated, late or forged: of two aggregates the later
      one is at least as fresh. */
  lemma {:induction false} LaterTicksAreFresher(slots: seq<Snapshot>, events: seq<FeedbackEvent>, i: nat, j: nat)
    requires i <= j < |Offers(slots, events)|
    requires Offers(slots, events)[i].fromTick && Offers(slots, events)[j].fromTick
    ensures Offers(slots, events)[j].progress.AtLeastAsFreshAs(Offers(slots, events)[i].progress)
    decreases |events|
  {
    var first := FirstOffers(slots, events[0]);
    if i >= |first| {
      LaterTicksAreFresher(SlotsAfter(slots, events[0]), events[1..], i - |first|, j - |first|);
    } else if j >= |first| {
      TicksAreFresherThanNow(slots, events[1..], j - |first|);
    }
  }

  function SlotsAfter(slots: seq<Snapshot>, e: FeedbackEvent): seq<Snapshot> {
    if e.Packet? then Stored(slots, e.expectedStream, e.packetStream, e.next) else slots
  }

  function FirstOffers(slots: seq<Snapshot>, e: FeedbackEvent): seq<Offer> {
    match e
    case Packet(_, _, _) => []
    case Tick => TickOffer(slots)
    case Report(progress) => [Offer(progress, false)]
  }

  lemma {:induction false} TicksAreFresherThanNow(slots: seq<Snapshot>, events: seq<FeedbackEvent>, j: nat)
    requires j < |Offers(slots, events)| && Offers(slots, events)[j].fromTick
    ensures Offers(slots, events)[j].progress.AtLeastAsFreshAs(Total(slots))
    decreases |events|
  {
    var first, slots' := FirstOffers(slots, events[0]), SlotsAfter(slots, events[0]);
    if j >= |first| {
      TicksAreFresherThanNow(slots', events[1..], j - |first|);
      AggregateOnlyGetsFresher(slots', slots);
    }
  }

  /** The offer the filter last let through. */
  function LastLetThrough(offers: seq<Offer>): Option<nat> {
    if offers == [] then None
    else
      var n := |offers| - 1;
      var before := LastLetThrough(offers[..n]);
      if Refuses(offers[..n], offers[n].progress) then before else Some(n)
  }

  /** The filter, after these offers, refuses this snapshot. */
  predicate Refuses(offers: seq<Offer>, progress: Snapshot) {
    var latest := Latest(Offered(offers));
    latest.Some? && !progress.AtLeastAsFreshAs(latest.value)
  }

  lemma {:induction false} LastIsLatest(offers: seq<Offer>)
    ensures LastLetThrough(offers).Some? <==> Latest(Offered(offers)).Some?
    ensures LastLetThrough(offers).Some? ==>
      LastLetThrough(offers).value < |offers| && Latest(Offered(offers)) == Some(offers[LastLetThrough(offers).value].progress)
  {
    if offers != [] {
      var n := |offers| - 1;
      LastIsLatest(offers[..n]);
      LatestAfter(Offered(offers[..n]), offers[n].progress);
    }
  }

  /** The feedback of the two channels cannot work against itself: a tick's
      aggregate is refused only when a control report had been let through
      last, which was fresher in one coordinate. */
  lemma {:induction false} OnlyReportsHoldTicksBack(slots: seq<Snapshot>, events: seq<FeedbackEvent>, n: nat)
    requires n < |Offers(slots, events)| && Offers(slots, events)[n].fromTick
    requires Refuses(Offers(slots, events)[..n], Offers(slots, events)[n].progress)
    ensures var last := LastLetThrough(Offers(slots, events)[..n]);
      last.Some? && last.value < n && !Offers(slots, events)[last.value].fromTick
  {
    var offers := Offers(slots, events);
    LastIsLatest(offers[..n]);
    var last := LastLetThrough(offers[..n]).value;
    assert offers[..n][last] == offers[last];
    if offers[last].fromTick {
      LaterTicksAreFresher(slots, events, last, n);
    }
  }

  /** Where no report comes in between, every tick's aggregate is let through. */
  lemma {:induction false} EveryTickIsAccepted(slots: seq<Snapshot>, events: seq<FeedbackEvent>)
    requires forall k :: 0 <= k < |Offers(slots, events)| ==> Offers(slots, events)[k].fromTick
    ensures Accepted(Offered(Offers(slots, events))) == Offered(Offers(slots, events))
  {
    var offers := Offers(slots, events);
    forall i: nat, j: nat | i <= j < |Offered(offers)|
      ensures FresherAt(Offered(offers), i, j)
    {
      OfferedAt(offers, i);
      OfferedAt(offers, j);
      LaterTicksAreFresher(slots, events, i, j);
    }
    FresherIsAccepted(Offered(offers));
  }

  lemma {:induction false} OfferedAt(offers: seq<Offer>, k: nat)
    requires k < |Offered(offers)|
    ensures |Offered(offers)| == |offers| && Offered(offers)[k] == offers[k].progress
  {
    var n := |offers| - 1;
    if n > 0 {
      if k < |Offered(offers[..n])| {
        OfferedAt(offers[..n], k);
      } else {
        OfferedAt(offers[..n], 0);
      }
    }
  }

  // ----- the consumer's cache -----

  datatype DirectionProgress = DirectionProgress(progress: Snapshot, jitter: Option<real>)

  function Progresses(updates: seq<DirectionProgress>): seq<Snapshot> {
    if updates == [] then [] else Progresses(updates[..|updates| - 1]) + [updates[|updates| - 1].progress]
  }

  /** The update is as fresh as everything before it. */
  predicate TakesIn(updates: seq<DirectionProgress>, k: nat)
    requires k < |updates|
  {
    var latest := Latest(Progresses(updates[..k]));
    latest.Some? ==> updates[k].progress.AtLeastAsFreshAs(latest.value)
  }

  /** The jitter of the last update taken in that measured one. */
  function LastJitter(updates: seq<DirectionProgress>): Option<real> {
    if updates == [] then None
    else
      var n := |updates| - 1;
      if TakesIn(updates, n) && updates[n].jitter.Some? then updates[n].jitter else LastJitter(updates[..n])
  }

  /** It is the jitter of an update taken in that measured one, none later
      having done so; and there is none only when none did. */
  lemma {:induction false} LastJitterIs(updates: seq<DirectionProgress>, k: nat)
    requires k < |updates| && TakesIn(updates, k) && updates[k].jitter.Some?
    ensures LastJitter(updates).Some?
    ensures (forall m :: k < m < |updates| && TakesIn(updates, m) ==> updates[m].jitter.None?) ==>
      LastJitter(updates) == updates[k].jitter
  {
    var n := |updates| - 1;
    if k < n {
      var before := updates[..n];
      forall m | 0 <= m < n
        ensures TakesIn(before, m) <==> TakesIn(updates, m)
      {
        assert before[..m] == updates[..m];
      }
      LastJitterIs(before, k);
    }
  }

  lemma {:induction false} JitterWasMeasured(updates: seq<DirectionProgress>)
    requires LastJitter(updates).Some?
    ensures exists k :: 0 <= k < |updates| && TakesIn(updates, k) && updates[k].jitter == LastJitter(updates)
  {
    var n := |updates| - 1;
    if !(TakesIn(updates, n) && updates[n].jitter.Some?) {
      JitterWasMeasured(updates[..n]);
      var k :| 0 <= k < n && TakesIn(updates[..n], k) && updates[..n][k].jitter == LastJitter(updates[..n]);
      assert updates[..n][..k] == updates[..k];
      assert TakesIn(updates, k);
    }
  }

  /** What the cache holds after these updates: the filter's snapshot, and a
      jitter that is never forgotten. */
  function Cached(updates: seq<DirectionProgress>): Option<DirectionProgress> {
    match Latest(Progresses(updates))
    case None => None
    case Some(progress) => Some(DirectionProgress(progress, LastJitter(updates)))
  }

  class DirectionCache {
    var cache: Option<DirectionProgress>
    ghost var updates: seq<DirectionProgress>

    ghost predicate Valid()
      reads this
    {
      cache == Cached(updates)
    }

    constructor ()
      ensures Valid() && updates == []
    {
      cache, updates := None, [];
    }

    method Update(update: Option<DirectionProgress>) returns (r: Option<DirectionProgress>)
      requires Valid()
      modifies this
      ensures Valid() && updates == old(updates) + if update.Some? then [update.value] else []
      ensures r.Some? <==> update.Some? && TakesIn(updates, |updates| - 1)
      ensures r.Some? ==> r == cache
    {
      if update.None? {
        return None;
      }
      var taken := update.value;
      OneMoreUpdate(updates, taken);
      updates := updates + [taken];
      if cache.Some? && !taken.progress.AtLeastAsFreshAs(cache.value.progress) {
        return None;
      }
      if taken.jitter.None? && cache.Some? {
        taken := taken.(jitter := cache.value.jitter);
      }
      cache := Some(taken);
      return cache;
    }
  }

  lemma {:induction false} OneMoreUpdate(updates: seq<DirectionProgress>, update: DirectionProgress)
    ensures var after := updates + [update];
      && Progresses(after) == Progresses(updates) + [update.progress]
      && Accepted(Progresses(after))
         == Accepted(Progresses(updates)) + (if TakesIn(after, |updates|) then [update.progress] else [])
      && LastJitter(after)
         == (if TakesIn(after, |updates|) && update.jitter.Some? then update.jitter else LastJitter(updates))
      && (Latest(Progresses(updates)).None? ==> updates == [])
  {
    var after := updates + [update];
    assert after[..|updates|] == updates;
    OneMoreApplied(Progresses(updates), update.progress);
    if updates != [] {
      OneMoreApplied(Progresses(updates[..|updates| - 1]), updates[|updates| - 1].progress);
    }
  }

  /** The cache after an update compares with the one before. */
  lemma {:induction false} CacheOneMore(updates: seq<DirectionProgress>, update: DirectionProgress)
    requires Cached(updates).Some?
    ensures var after := Cached(updates + [update]);
      && after.Some? && after.value.progress.AtLeastAsFreshAs(Cached(updates).value.progress)
      && (Cached(updates).value.jitter.Some? ==> after.value.jitter.Some?)
  {
    OneMoreUpdate(updates, update);
    LatestAfter(Progresses(updates), update.progress);
  }

  /** Over any queue order: the cache never goes back in either coordinate, so
      a gap repair is never undone, and a jitter once measured stays. */
  lemma {:induction false} CacheNeverGoesBack(updates: seq<DirectionProgress>, n: nat)
    requires n <= |updates| && Cached(updates[..n]).Some?
    ensures Cached(updates).Some?
    ensures Cached(updates).value.progress.AtLeastAsFreshAs(Cached(updates[..n]).value.progress)
    ensures Cached(updates[..n]).value.jitter.Some? ==> Cached(updates).value.jitter.Some?
    decreases |updates|
  {
    if n == |updates| {
      assert updates[..n] == updates;
    } else {
      var before, last := updates[..|updates| - 1], updates[|updates| - 1];
      assert before[..n] == updates[..n] && before + [last] == updates;
      CacheNeverGoesBack(before, n);
      CacheOneMore(before, last);
    }
  }

  /** The cache holds the newest snapshot queued when the snapshots come from
      one growing source, in whatever order and with whatever jitters. */
  lemma {:induction false} CacheHoldsNewest(source: seq<Snapshot>, deliveries: seq<nat>, updates: seq<DirectionProgress>)
    requires Growing(source) && TiesBelowSaturation(source)
    requires DeliveriesOf(source, deliveries) && deliveries != []
    requires Progresses(updates) == Delivered(source, deliveries)
    ensures Newest(deliveries) < |source|
    ensures Cached(updates).Some? && Cached(updates).value.progress == source[Newest(deliveries)]
  {
    NewestIsStored(source, deliveries);
  }
}
