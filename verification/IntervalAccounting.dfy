/** Interval rows derived from cumulative counters: receive-byte deltas
    (`src/client.rs`) and printed loss deltas (`src/main.rs`). */
module IntervalAccounting {
  import opened Basics
  import opened UdpProgress

  // ----- saturating deltas of one counter -----

  /** The differences of successive readings, never below zero. */
  function Deltas(before: nat, readings: seq<nat>): seq<nat> {
    if readings == [] then []
    else
      var n := |readings| - 1;
      Deltas(before, readings[..n]) + [SatSub(readings[n], LastReading(before, readings[..n]))]
  }

  function LastReading(before: nat, readings: seq<nat>): nat {
    if readings == [] then before else readings[|readings| - 1]
  }

  /** By how much the readings fall, in all. */
  function Falls(before: nat, readings: seq<nat>): nat {
    if readings == [] then 0
    else
      var n := |readings| - 1;
      Falls(before, readings[..n]) + SatSub(LastReading(before, readings[..n]), readings[n])
  }

  lemma {:induction false} DeltasAppend(before: nat, readings: seq<nat>, next: nat)
    ensures Deltas(before, readings + [next])
         == Deltas(before, readings) + [SatSub(next, LastReading(before, readings))]
  {
    assert (readings + [next])[..|readings|] == readings;
  }

  /** Deltas telescope: together they are the last reading less the first,
      plus every fall, because a fall is reported as zero. */
  lemma {:induction false} DeltasTelescope(before: nat, readings: seq<nat>)
    ensures Sum(Deltas(before, readings)) + before == LastReading(before, readings) + Falls(before, readings)
    ensures |Deltas(before, readings)| == |readings|
  {
    if readings != [] {
      DeltasTelescope(before, readings[..|readings| - 1]);
    }
  }

  /** The deltas are exact, not just enough, exactly when nothing ever falls. */
  lemma {:induction false} ExactIffNeverFalls(before: nat, readings: seq<nat>)
    ensures Sum(Deltas(before, readings)) + before == LastReading(before, readings)
       <==> forall k: nat :: k < |readings| ==> LastReading(before, readings[..k]) <= readings[k]
  {
    DeltasTelescope(before, readings);
    NoFallsIff(before, readings);
  }

  lemma {:induction false} NoFallsIff(before: nat, readings: seq<nat>)
    ensures Falls(before, readings) == 0
       <==> forall k: nat :: k < |readings| ==> LastReading(before, readings[..k]) <= readings[k]
  {
    if readings != [] {
      var n := |readings| - 1;
      var shorter := readings[..n];
      NoFallsIff(before, shorter);
      assert forall k: nat :: k < n ==> shorter[..k] == readings[..k] && shorter[k] == readings[k];
    }
  }

  // ----- per-stream receive bytes -----

  /** The readings a call leaves behind: slots the readings do not reach stay. */
  function Advanced(last: seq<u64>, streams: seq<u64>): (r: seq<u64>)
    ensures |r| == |last|
  {
    seq(|last|, i requires 0 <= i < |last| => if i < |streams| then streams[i] else last[i])
  }

  /** A stream without a slot counts from zero every time. */
  function Previous(last: seq<u64>, i: nat): u64 {
    if i < |last| then last[i] else 0
  }

  function StreamDeltas(last: seq<u64>, streams: seq<u64>): (r: seq<nat>)
    ensures |r| == |streams|
  {
    seq(|streams|, i requires 0 <= i < |streams| => SatSub(streams[i], Previous(last, i)))
  }

  method UdpRecvIntervalDeltas(streams: seq<u64>, lastRecvBytes: array<u64>) returns (total: nat, deltas: seq<nat>)
    modifies lastRecvBytes
    ensures deltas == StreamDeltas(old(lastRecvBytes[..]), streams) && total == Sum(deltas)
    ensures lastRecvBytes[..] == Advanced(old(lastRecvBytes[..]), streams)
    ensures forall i :: 0 <= i < lastRecvBytes.Length ==>
      lastRecvBytes[i] == if i < |streams| then streams[i] else old(lastRecvBytes[i])
  {
    deltas := [];
    for i := 0 to |streams|
      invariant deltas == StreamDeltas(old(lastRecvBytes[..]), streams)[..i]
      invariant forall k :: 0 <= k < lastRecvBytes.Length ==>
        lastRecvBytes[k] == if k < i then streams[k] else old(lastRecvBytes[..])[k]
    {
      var prev := 0;
      if i < lastRecvBytes.Length {
        prev := lastRecvBytes[i];
        lastRecvBytes[i] := streams[i];
      }
      deltas := deltas + [SatSub(streams[i], prev)];
    }
    total := 0;
    for i := 0 to |deltas|
      invariant total == Sum(deltas[..i])
    {
      assert deltas[..i + 1][..i] == deltas[..i];
      total := total + deltas[i];
    }
    assert deltas[..|deltas|] == deltas;
  }

  /** The readings left behind by calls in turn. */
  function AfterCalls(last: seq<u64>, calls: seq<seq<u64>>): (r: seq<u64>)
    ensures |r| == |last|
  {
    if calls == [] then last else Advanced(AfterCalls(last, calls[..|calls| - 1]), calls[|calls| - 1])
  }

  /** The deltas the calls return. */
  function CallDeltas(last: seq<u64>, calls: seq<seq<u64>>): (r: seq<seq<nat>>)
    ensures |r| == |calls|
  {
    if calls == [] then []
    else
      var n := |calls| - 1;
      CallDeltas(last, calls[..n]) + [StreamDeltas(AfterCalls(last, calls[..n]), calls[n])]
  }

  /** Every call reads the same streams, one slot each. */
  predicate SameStreams(n: nat, calls: seq<seq<u64>>) {
    forall k :: 0 <= k < |calls| ==> |calls[k]| == n
  }

  /** What one stream reads, and what is reported of it, call by call. */
  function Column(calls: seq<seq<nat>>, i: nat): seq<nat> {
    if calls == [] then []
    else
      var n := |calls| - 1;
      Column(calls[..n], i) + [if i < |calls[n]| then calls[n][i] else 0]
  }

  /** Stream by stream, the calls report the deltas of its readings: no stream
      is ever charged with another's bytes. */
  lemma {:induction false} EachStreamHasItsOwnDeltas(last: seq<u64>, calls: seq<seq<u64>>, i: nat)
    requires SameStreams(|last|, calls) && i < |last|
    ensures Column(CallDeltas(last, calls), i) == Deltas(last[i], Column(calls, i))
    ensures AfterCalls(last, calls)[i] == LastReading(last[i], Column(calls, i))
  {
    if calls != [] {
      var n := |calls| - 1;
      EachStreamHasItsOwnDeltas(last, calls[..n], i);
      assert CallDeltas(last, calls)[..n] == CallDeltas(last, calls[..n]);
      assert Column(calls, i)[..n] == Column(calls[..n], i) by { ColumnLength(calls[..n], i); }
      ColumnLength(calls, i);
    }
  }

  lemma {:induction false} ColumnLength(calls: seq<seq<nat>>, i: nat)
    ensures |Column(calls, i)| == |calls|
  {
    if calls != [] {
      ColumnLength(calls[..|calls| - 1], i);
    }
  }

  lemma {:induction false} ColumnAt(calls: seq<seq<nat>>, i: nat, k: nat)
    requires k < |calls| && i < |calls[k]|
    ensures |Column(calls, i)| == |calls| && Column(calls, i)[k] == calls[k][i]
  {
    ColumnLength(calls, i);
    if k < |calls| - 1 {
      ColumnLength(calls[..|calls| - 1], i);
      ColumnAt(calls[..|calls| - 1], i, k);
    }
  }

  predicate CounterGrows(n: nat, calls: seq<seq<u64>>, i: nat)
    requires SameStreams(n, calls) && i < n
  {
    forall j, k :: 0 <= j <= k < |calls| ==> calls[j][i] <= calls[k][i]
  }

  /** Over any number of calls the deltas of a stream whose counter only grows
      sum to the counter's last reading. */
  lemma {:induction false} BytesAreCountedOnce(last: seq<u64>, calls: seq<seq<u64>>, i: nat)
    requires SameStreams(|last|, calls) && i < |last| && last[i] == 0
    requires calls != [] && CounterGrows(|last|, calls, i)
    ensures Sum(Column(CallDeltas(last, calls), i)) == calls[|calls| - 1][i]
  {
    EachStreamHasItsOwnDeltas(last, calls, i);
    ColumnLength(calls, i);
    var readings := Column(calls, i);
    forall k: nat | k < |readings|
      ensures LastReading(last[i], readings[..k]) <= readings[k]
    {
      ColumnAt(calls, i, k);
      if k > 0 {
        ColumnAt(calls, i, k - 1);
      }
    }
    ColumnAt(calls, i, |calls| - 1);
    ExactIffNeverFalls(last[i], readings);
  }

  /** Nothing is lost across streams either: the totals of the calls, and the
      readings they started from, add up to the final readings and the falls. */
  function Totals(last: seq<u64>, calls: seq<seq<u64>>): nat {
    if calls == [] then 0
    else
      var n := |calls| - 1;
      Totals(last, calls[..n]) + Sum(StreamDeltas(AfterCalls(last, calls[..n]), calls[n]))
  }

  function AllFalls(last: seq<u64>, calls: seq<seq<u64>>): nat {
    if calls == [] then 0
    else
      var n := |calls| - 1;
      AllFalls(last, calls[..n]) + Sum(StreamDeltas(calls[n], AfterCalls(last, calls[..n])))
  }

  lemma {:induction false} TotalsTelescope(last: seq<u64>, calls: seq<seq<u64>>)
    requires SameStreams(|last|, calls)
    ensures Totals(last, calls) + Sum(last) == Sum(AfterCalls(last, calls)) + AllFalls(last, calls)
  {
    if calls != [] {
      var n := |calls| - 1;
      TotalsTelescope(last, calls[..n]);
      var before := AfterCalls(last, calls[..n]);
      OneCallTelescopes(before, calls[n]);
      assert Advanced(before, calls[n]) == calls[n];
    }
  }

  lemma {:induction false} OneCallTelescopes(last: seq<u64>, streams: seq<u64>)
    requires |last| == |streams|
    ensures Sum(StreamDeltas(last, streams)) + Sum(last) == Sum(streams) + Sum(StreamDeltas(streams, last))
  {
    if last != [] {
      var n := |last| - 1;
      OneCallTelescopes(last[..n], streams[..n]);
      assert StreamDeltas(last, streams)[..n] == StreamDeltas(last[..n], streams[..n]);
      assert StreamDeltas(streams, last)[..n] == StreamDeltas(streams[..n], last[..n]);
    }
  }

  // ----- printed loss -----

  datatype Settings = Settings(quiet: bool, omitSecs: nat, intervalSecs: real)

  /** A progress update as the print task receives it. */
  datatype Update = Update(feedbackOnly: bool, elapsedMs: u64, progress: Option<Snapshot>, streamLost: seq<Option<u64>>)

  /** The last interval printed, the freshest snapshot and the printed-loss baseline. */
  datatype PrintState = PrintState(cached: Option<Snapshot>, baseline: nat, lastInterval: int)

  /** A printed row: when and for which interval, its loss, and the cumulative
      snapshot it was derived from. */
  datatype Row = Row(elapsedMs: nat, interval: int, cumulative: Option<Snapshot>, lost: Option<nat>)

  predicate Omitted(settings: Settings, u: Update) {
    u.elapsedMs <= 1000 * settings.omitSecs
  }

  function IntervalOf(settings: Settings, u: Update): int
    requires settings.intervalSecs > 0.0
  {
    (u.elapsedMs as real / 1000.0 / settings.intervalSecs).Floor
  }

  /** The length of an interval in milliseconds. */
  function WindowMs(settings: Settings): real {
    1000.0 * settings.intervalSecs
  }

  function WindowStart(settings: Settings, n: int): real {
    Times(n as real, WindowMs(settings))
  }

  function Times(a: real, b: real): real {
    a * b
  }

  /** Interval `n` is the time from `n` windows on, up to the next one. */
  predicate InWindow(settings: Settings, n: int, elapsedMs: nat) {
    WindowStart(settings, n) <= elapsedMs as real < WindowStart(settings, n + 1)
  }

  lemma {:induction false} IntervalIsItsWindow(settings: Settings, u: Update, n: int)
    requires settings.intervalSecs > 0.0
    ensures IntervalOf(settings, u) == n <==> InWindow(settings, n, u.elapsedMs)
  {
    var x := u.elapsedMs as real / 1000.0 / settings.intervalSecs;
    QuotientIs(u.elapsedMs as real, settings.intervalSecs, WindowMs(settings));
    FloorIs(x, n, WindowMs(settings), u.elapsedMs as real);
  }

  lemma {:induction false} QuotientIs(e: real, secs: real, w: real)
    requires secs > 0.0 && w == 1000.0 * secs
    ensures Times(e / 1000.0 / secs, w) == e
  {
    var q := e / 1000.0 / secs;
    assert q * secs == e / 1000.0;
    assert q * w == 1000.0 * (q * secs);
  }

  lemma {:induction false} FloorIs(x: real, n: int, w: real, e: real)
    requires w > 0.0 && Times(x, w) == e
    ensures x.Floor == n <==> Times(n as real, w) <= e < Times((n + 1) as real, w)
  {
    TimesOrdered(n as real, x, w);
    TimesOrdered((n + 1) as real, x, w);
  }

  lemma {:induction false} TimesOrdered(a: real, b: real, w: real)
    requires w > 0.0
    ensures a <= b <==> Times(a, w) <= Times(b, w)
  {
    assert (b - a) * w == b * w - a * w;
    if a <= b {
      assert (b - a) * w >= 0.0;
    } else {
      assert (a - b) * w > 0.0;
    }
  }

  function TakeFresher(cached: Option<Snapshot>, update: Option<Snapshot>): Option<Snapshot> {
    if update.Some? && (cached.None? || update.value.AtLeastAsFreshAs(cached.value)) then update else cached
  }

  /** The loss of servers that send no progress: the sum over the streams that report one. */
  function StreamLoss(lost: seq<Option<u64>>): Option<nat> {
    if lost == [] then None
    else
      var before := StreamLoss(lost[..|lost| - 1]);
      match lost[|lost| - 1]
      case None => before
      case Some(n) => Some(n + if before.Some? then before.value else 0)
  }

  /** What each stream reports, nothing counting as zero. */
  function Reported(streams: seq<Option<u64>>): seq<nat> {
    seq(|streams|, i requires 0 <= i < |streams| => if streams[i].Some? then streams[i].value else 0)
  }

  lemma {:induction false} StreamLossIsTheSum(streams: seq<Option<u64>>)
    ensures StreamLoss(streams).None? <==> forall i :: 0 <= i < |streams| ==> streams[i].None?
    ensures StreamLoss(streams).None? ==> Sum(Reported(streams)) == 0
    ensures StreamLoss(streams).Some? ==> StreamLoss(streams).value == Sum(Reported(streams))
  {
    if streams != [] {
      var n := |streams| - 1;
      StreamLossIsTheSum(streams[..n]);
      assert Reported(streams)[..n] == Reported(streams[..n]);
      assert forall i :: 0 <= i < n ==> streams[..n][i] == streams[i];
    }
  }

  method SumStreamLoss(streams: seq<Option<u64>>) returns (lost: Option<nat>)
    ensures lost == StreamLoss(streams)
  {
    lost := None;
    for i := 0 to |streams|
      invariant lost == StreamLoss(streams[..i])
    {
      assert streams[..i + 1][..i] == streams[..i];
      if streams[i].Some? {
        lost := Some(streams[i].value + if lost.Some? then lost.value else 0);
      }
    }
    assert streams[..|streams|] == streams;
  }

  /** One update: the row it prints, if any, and what is kept for the next. */
  function Step(settings: Settings, s: PrintState, u: Update): (PrintState, Option<Row>)
    requires settings.intervalSecs > 0.0
  {
    var cached := TakeFresher(s.cached, u.progress);
    var kept := s.(cached := cached);
    var interval := IntervalOf(settings, u);
    if u.feedbackOnly then (kept, None)
    else if Omitted(settings, u) then
      (if cached.Some? then kept.(baseline := cached.value.lost) else kept, None)
    else if settings.quiet || interval <= s.lastInterval then (kept, None)
    else
      match cached
      case None => (kept.(lastInterval := interval), Some(Row(u.elapsedMs, interval, None, StreamLoss(u.streamLost))))
      case Some(cum) =>
        (PrintState(cached, cum.lost, interval), Some(Row(u.elapsedMs, interval, cached, Some(SatSub(cum.lost, s.baseline)))))
  }

  class LossRows {
    const settings: Settings
    var cached: Option<Snapshot>
    var lastPrintedCumulativeLost: nat
    var lastPrintedInterval: int

    ghost function State(): PrintState
      reads this
    {
      PrintState(cached, lastPrintedCumulativeLost, lastPrintedInterval)
    }

    constructor (settings: Settings)
      ensures this.settings == settings && State() == PrintState(None, 0, -1)
    {
      this.settings := settings;
      cached, lastPrintedCumulativeLost, lastPrintedInterval := None, 0, -1;
    }

    method Process(u: Update) returns (row: Option<Row>)
      requires settings.intervalSecs > 0.0
      modifies this
      ensures (State(), row) == Step(settings, old(State()), u)
    {
      if u.progress.Some? && (cached.None? || u.progress.value.AtLeastAsFreshAs(cached.value)) {
        cached := u.progress;
      }
      if u.feedbackOnly {
        return None;
      }
      if u.elapsedMs <= 1000 * settings.omitSecs {
        if cached.Some? {
          lastPrintedCumulativeLost := cached.value.lost;
        }
        return None;
      }
      if settings.quiet {
        return None;
      }
      var currentInterval := IntervalOf(settings, u);
      if currentInterval <= lastPrintedInterval {
        return None;
      }
      lastPrintedInterval := currentInterval;
      if cached.Some? {
        var delta := SatSub(cached.value.lost, lastPrintedCumulativeLost);
        lastPrintedCumulativeLost := cached.value.lost;
        return Some(Row(u.elapsedMs, currentInterval, cached, Some(delta)));
      }
      var lost := SumStreamLoss(u.streamLost);
      return Some(Row(u.elapsedMs, currentInterval, None, lost));
    }
  }

  /** Exactly when an update prints a row: it is a full one, past the omitted
      seconds, not quiet, and at or after the end of the interval printed last. */
  lemma {:induction false} PrintsExactlyWhen(settings: Settings, s: PrintState, u: Update)
    requires settings.intervalSecs > 0.0
    ensures var row := Step(settings, s, u).1;
      && (row.Some? <==>
            && !u.feedbackOnly && u.elapsedMs > 1000 * settings.omitSecs && !settings.quiet
            && u.elapsedMs as real >= WindowStart(settings, s.lastInterval + 1))
      && (row.Some? ==> row.value.elapsedMs == u.elapsedMs && InWindow(settings, row.value.interval, u.elapsedMs)
                        && Step(settings, s, u).0.lastInterval == row.value.interval)
      && (row.None? ==> Step(settings, s, u).0.lastInterval == s.lastInterval)
    // Only a row or an omitted one moves the baseline, to the loss known then.
    ensures var (after, row) := Step(settings, s, u);
      after.baseline == if after.cached.Some? && (row.Some? || (!u.feedbackOnly && u.elapsedMs <= 1000 * settings.omitSecs))
                        then after.cached.value.lost else s.baseline
  {
    var n, w := IntervalOf(settings, u), WindowMs(settings);
    IntervalIsItsWindow(settings, u, n);
    if n >= s.lastInterval + 1 {
      TimesOrdered((s.lastInterval + 1) as real, n as real, w);
    } else {
      TimesOrdered((n + 1) as real, (s.lastInterval + 1) as real, w);
    }
  }

  /** The state after some updates and the rows they printed. */
  function Run(settings: Settings, s: PrintState, updates: seq<Update>): (PrintState, seq<Row>)
    requires settings.intervalSecs > 0.0
  {
    if updates == [] then (s, [])
    else
      var (before, rows) := Run(settings, s, updates[..|updates| - 1]);
      var (after, row) := Step(settings, before, updates[|updates| - 1]);
      (after, if row.Some? then rows + [row.value] else rows)
  }

  /** The cumulative losses the rows were derived from, and the losses printed. */
  function Cumulatives(rows: seq<Row>): seq<nat> {
    if rows == [] then []
    else
      var last := rows[|rows| - 1];
      Cumulatives(rows[..|rows| - 1]) + if last.cumulative.Some? then [last.cumulative.value.lost] else []
  }

  function Printed(rows: seq<Row>): seq<nat> {
    if rows == [] then []
    else
      var last := rows[|rows| - 1];
      Printed(rows[..|rows| - 1]) + if last.cumulative.Some? && last.lost.Some? then [last.lost.value] else []
  }

  lemma {:induction false} RowAppended(rows: seq<Row>, row: Row)
    ensures row.cumulative.Some? ==> Cumulatives(rows + [row]) == Cumulatives(rows) + [row.cumulative.value.lost]
    ensures row.cumulative.Some? && row.lost.Some? ==> Printed(rows + [row]) == Printed(rows) + [row.lost.value]
    ensures row.cumulative.None? ==> Cumulatives(rows + [row]) == Cumulatives(rows) && Printed(rows + [row]) == Printed(rows)
  {
    assert (rows + [row])[..|rows|] == rows;
  }

  predicate NoneOmitted(settings: Settings, updates: seq<Update>) {
    forall k :: 0 <= k < |updates| && !updates[k].feedbackOnly ==> !Omitted(settings, updates[k])
  }

  lemma {:induction false} PrintedAreDeltas(settings: Settings, s: PrintState, updates: seq<Update>)
    requires settings.intervalSecs > 0.0 && NoneOmitted(settings, updates)
    ensures var (after, rows) := Run(settings, s, updates);
      && Printed(rows) == Deltas(s.baseline, Cumulatives(rows))
      && after.baseline == LastReading(s.baseline, Cumulatives(rows))
  {
    if updates != [] {
      var shorter := updates[..|updates| - 1];
      PrintedAreDeltas(settings, s, shorter);
      var (before, rows) := Run(settings, s, shorter);
      var (after, row) := Step(settings, before, updates[|updates| - 1]);
      if row.Some? {
        RowAppended(rows, row.value);
        if row.value.cumulative.Some? {
          DeltasAppend(s.baseline, Cumulatives(rows), row.value.cumulative.value.lost);
        }
      }
    }
  }

  /** From any state and over any updates past the omitted seconds, feedback
      between rows and skipped intervals included: the printed losses add up to
      the last printed cumulative loss, less the baseline, plus the falls
      between printed rows. They never under-report. */
  lemma {:induction false} PrintedLossTelescopes(settings: Settings, s: PrintState, updates: seq<Update>)
    requires settings.intervalSecs > 0.0 && NoneOmitted(settings, updates)
    ensures var (after, rows) := Run(settings, s, updates);
      && Sum(Printed(rows)) + s.baseline == after.baseline + Falls(s.baseline, Cumulatives(rows))
      && Sum(Printed(rows)) + s.baseline >= after.baseline
  {
    PrintedAreDeltas(settings, s, updates);
    DeltasTelescope(s.baseline, Cumulatives(Run(settings, s, updates).1));
  }

  lemma {:induction false} RunsCompose(settings: Settings, s: PrintState, a: seq<Update>, b: seq<Update>)
    requires settings.intervalSecs > 0.0
    ensures var (mid, rows) := Run(settings, s, a);
      Run(settings, s, a + b) == (Run(settings, mid, b).0, rows + Run(settings, mid, b).1)
  {
    if b == [] {
      assert a + b == a && Run(settings, s, a).1 + [] == Run(settings, s, a).1;
    } else {
      var n := |b| - 1;
      assert (a + b)[..|a + b| - 1] == a + b[..n] && (a + b)[|a + b| - 1] == b[n];
      RunsCompose(settings, s, a, b[..n]);
      var (mid, rows) := Run(settings, s, a);
      var (before, later) := Run(settings, mid, b[..n]);
      var row := Step(settings, before, b[n]).1;
      assert row.Some? ==> rows + later + [row.value] == rows + (later + [row.value]);
    }
  }

  /** After an omitted row the baseline is the loss known then: what was lost
      in the omitted seconds is never printed. */
  lemma {:induction false} OmitMovesTheBaseline(settings: Settings, s: PrintState, omitted: seq<Update>, u: Update,
                                                printed: seq<Update>)
    requires settings.intervalSecs > 0.0
    requires !u.feedbackOnly && Omitted(settings, u) && NoneOmitted(settings, printed)
    requires Run(settings, s, omitted + [u]).0.cached.Some?
    ensures var (mid, rows) := Run(settings, s, omitted + [u]);
      var (after, all) := Run(settings, s, omitted + [u] + printed);
      && mid.baseline == mid.cached.value.lost
      && rows == Run(settings, s, omitted).1 && rows <= all
      && Sum(Printed(all[|rows|..])) + mid.cached.value.lost
         == after.baseline + Falls(mid.cached.value.lost, Cumulatives(all[|rows|..]))
  {
    assert (omitted + [u])[..|omitted|] == omitted;
    var (mid, rows) := Run(settings, s, omitted + [u]);
    RunsCompose(settings, s, omitted + [u], printed);
    PrintedLossTelescopes(settings, mid, printed);
    var later := Run(settings, mid, printed).1;
    assert (rows + later)[|rows|..] == later;
  }

  predicate NoOverflow(snapshot: Option<Snapshot>) {
    snapshot.Some? ==> snapshot.value.received + snapshot.value.lost <= U64_MAX
  }

  function PrintedSnapshot(first: Snapshot, rows: seq<Row>): Snapshot {
    if rows != [] && rows[|rows| - 1].cumulative.Some? then rows[|rows| - 1].cumulative.value else first
  }

  /** From `first` on, the losses printed stay within the growth of the
      expected packets up to the snapshot printed last. */
  predicate Bounded(first: Snapshot, s: PrintState, rows: seq<Row>) {
    && s.cached.Some? && NoOverflow(s.cached)
    && var last := PrintedSnapshot(first, rows);
    && s.baseline == last.lost && NoOverflow(Some(last)) && s.cached.value.AtLeastAsFreshAs(last)
    && Sum(Printed(rows)) + first.Expected() <= last.Expected()
  }

  /** Nor do they report more than the packets expected in the meantime: the
      falls are gap repairs, paid for by packets received. */
  lemma {:induction false} PrintedLossIsBounded(settings: Settings, s: PrintState, updates: seq<Update>)
    requires settings.intervalSecs > 0.0 && NoneOmitted(settings, updates)
    requires s.cached.Some? && s.baseline == s.cached.value.lost && NoOverflow(s.cached)
    requires forall k :: 0 <= k < |updates| ==> NoOverflow(updates[k].progress)
    ensures Bounded(s.cached.value, Run(settings, s, updates).0, Run(settings, s, updates).1)
  {
    if updates != [] {
      var n := |updates| - 1;
      PrintedLossIsBounded(settings, s, updates[..n]);
      var (before, rows) := Run(settings, s, updates[..n]);
      assert NoOverflow(updates[n].progress);
      StepStaysBounded(settings, s.cached.value, before, rows, updates[n]);
    }
  }

  lemma {:induction false} StepStaysBounded(settings: Settings, first: Snapshot, s: PrintState, rows: seq<Row>, u: Update)
    requires settings.intervalSecs > 0.0 && Bounded(first, s, rows)
    requires NoOverflow(u.progress) && (!u.feedbackOnly ==> !Omitted(settings, u))
    ensures var (after, row) := Step(settings, s, u);
      Bounded(first, after, if row.Some? then rows + [row.value] else rows)
  {
    var (after, row) := Step(settings, s, u);
    StepPrints(settings, s, u);
    FresherStaysBounded(first, s, rows, u.progress);
    if row.Some? {
      RowStaysBounded(first, s.(cached := after.cached), rows, row.value, after);
    }
  }

  /** A step past the omitted seconds takes the fresher snapshot, and prints
      the loss that is new in it or keeps the baseline. */
  lemma {:induction false} StepPrints(settings: Settings, s: PrintState, u: Update)
    requires settings.intervalSecs > 0.0 && s.cached.Some? && (!u.feedbackOnly ==> !Omitted(settings, u))
    ensures var (after, row) := Step(settings, s, u);
      && after.cached == TakeFresher(s.cached, u.progress)
      && (row.None? ==> after.baseline == s.baseline)
      && (row.Some? ==> Prints(s.(cached := after.cached), row.value, after))
  {
  }

  predicate Prints(s: PrintState, row: Row, after: PrintState) {
    && s.cached.Some? && after.cached == s.cached == row.cumulative
    && row.lost == Some(SatSub(s.cached.value.lost, s.baseline)) && after.baseline == s.cached.value.lost
  }

  lemma {:induction false} FresherStaysBounded(first: Snapshot, s: PrintState, rows: seq<Row>, progress: Option<Snapshot>)
    requires Bounded(first, s, rows) && NoOverflow(progress)
    ensures Bounded(first, s.(cached := TakeFresher(s.cached, progress)), rows)
  {
  }

  lemma {:induction false} RowStaysBounded(first: Snapshot, s: PrintState, rows: seq<Row>, row: Row, after: PrintState)
    requires Bounded(first, s, rows) && Prints(s, row, after)
    ensures Bounded(first, after, rows + [row])
  {
    RowAppended(rows, row);
    SumAppend(Printed(rows), row.lost.value);
  }

  lemma {:induction false} SumAppend(s: seq<nat>, n: nat)
    ensures Sum(s + [n]) == Sum(s) + n
  {
    assert (s + [n])[..|s|] == s;
  }

  /** Every row is for the interval it falls in. */
  lemma {:induction false} RowsAreInTheirWindow(settings: Settings, s: PrintState, updates: seq<Update>, i: nat)
    requires settings.intervalSecs > 0.0 && i < |Run(settings, s, updates).1|
    ensures var row := Run(settings, s, updates).1[i]; InWindow(settings, row.interval, row.elapsedMs)
  {
    var shorter := updates[..|updates| - 1];
    if i < |Run(settings, s, shorter).1| {
      RowsAreInTheirWindow(settings, s, shorter, i);
    } else {
      PrintsExactlyWhen(settings, Run(settings, s, shorter).0, updates[|updates| - 1]);
    }
  }

  /** No two rows fall into one interval of the configured length, and later
      rows are for later intervals: the row printed later begins its interval
      after the earlier one's has ended. */
  lemma {:induction false} OneRowPerWindow(settings: Settings, s: PrintState, updates: seq<Update>, i: nat, j: nat, n: int)
    requires settings.intervalSecs > 0.0 && i < j < |Run(settings, s, updates).1|
    requires InWindow(settings, n, Run(settings, s, updates).1[i].elapsedMs)
    ensures Run(settings, s, updates).1[j].elapsedMs as real >= WindowStart(settings, n + 1)
  {
    var rows := Run(settings, s, updates).1;
    RowsAdvance(settings, s, updates, i, j);
    RowsAreInTheirWindow(settings, s, updates, i);
    RowsAreInTheirWindow(settings, s, updates, j);
    OneWindow(settings, rows[i].elapsedMs, n, rows[i].interval);
    TimesOrdered((n + 1) as real, rows[j].interval as real, WindowMs(settings));
  }

  lemma {:induction false} OneWindow(settings: Settings, elapsedMs: nat, m: int, n: int)
    requires settings.intervalSecs > 0.0 && InWindow(settings, m, elapsedMs) && InWindow(settings, n, elapsedMs)
    ensures m == n
  {
    if m < n {
      TimesOrdered((m + 1) as real, n as real, WindowMs(settings));
    } else if n < m {
      TimesOrdered((n + 1) as real, m as real, WindowMs(settings));
    }
  }

  /** At most one row per interval, in order. */
  lemma {:induction false} RowsAdvance(settings: Settings, s: PrintState, updates: seq<Update>, i: nat, j: nat)
    requires settings.intervalSecs > 0.0 && i < j < |Run(settings, s, updates).1|
    ensures Run(settings, s, updates).1[i].interval < Run(settings, s, updates).1[j].interval
  {
    var shorter := updates[..|updates| - 1];
    var (before, rows) := Run(settings, s, shorter);
    if j < |rows| {
      RowsAdvance(settings, s, shorter, i, j);
    } else {
      RowsStayBehind(settings, s, shorter, i);
    }
  }

  lemma {:induction false} RowsStayBehind(settings: Settings, s: PrintState, updates: seq<Update>, i: nat)
    requires settings.intervalSecs > 0.0 && i < |Run(settings, s, updates).1|
    ensures Run(settings, s, updates).1[i].interval <= Run(settings, s, updates).0.lastInterval
  {
    var shorter := updates[..|updates| - 1];
    if i < |Run(settings, s, shorter).1| {
      RowsStayBehind(settings, s, shorter, i);
    }
  }
}
