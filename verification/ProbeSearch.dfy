/** Path-MTU size search (`size_ladder` and `SizeSearch` in `src/probe.rs`). */
module ProbeSearch {
  import opened Basics

  const MIN_PROBE_PAYLOAD: nat := 548
  const MAX_PROBE_PAYLOAD: nat := 9188

  datatype Verdict = Pass | Fail | LocalLimit | Untested

  function IpOverhead(ipv6: bool): nat {
    if ipv6 then 48 else 28
  }

  function MinProbePayload(ipv6: bool): nat {
    if ipv6 then 1280 - IpOverhead(true) else MIN_PROBE_PAYLOAD
  }

  function MaxProbePayload(ipv6: bool): nat {
    9216 - IpOverhead(ipv6)
  }

  /** The common wire sizes the ladder is made from. */
  const WIRE_SIZES: seq<nat> := [576, 1280, 1492, 1500, 4352, 9000, 9216]

  /** The wire sizes as payloads, kept when they lie in the family's range. */
  function Rungs(wires: seq<nat>, ipv6: bool): seq<nat> {
    if wires == [] then []
    else
      var payload := SatSub(wires[0], IpOverhead(ipv6));
      (if MinProbePayload(ipv6) <= payload <= MaxProbePayload(ipv6) then [payload] else []) + Rungs(wires[1..], ipv6)
  }

  /** `Vec::dedup`: drop elements equal to their predecessor. */
  function Dedup(s: seq<nat>): seq<nat> {
    if |s| < 2 then s
    else if s[0] == s[1] then Dedup(s[1..])
    else [s[0]] + Dedup(s[1..])
  }

  function SizeLadder(ipv6: bool): seq<nat> {
    var rungs := Rungs(WIRE_SIZES, ipv6);
    var low := if rungs == [] || rungs[0] != MinProbePayload(ipv6) then [MinProbePayload(ipv6)] + rungs else rungs;
    var high := if low[|low| - 1] != MaxProbePayload(ipv6) then low + [MaxProbePayload(ipv6)] else low;
    Dedup(high)
  }

  predicate IsLadder(ladder: seq<nat>) {
    && |ladder| > 0
    && forall i, j :: 0 <= i < j < |ladder| ==> ladder[i] < ladder[j]
  }

  lemma {:induction false} RungsCons(wire: nat, wires: seq<nat>, ipv6: bool)
    ensures var payload := SatSub(wire, IpOverhead(ipv6));
      Rungs([wire] + wires, ipv6)
        == (if MinProbePayload(ipv6) <= payload <= MaxProbePayload(ipv6) then [payload] else []) + Rungs(wires, ipv6)
  {
    assert ([wire] + wires)[1..] == wires;
  }

  lemma {:induction false} DedupOfLadder(ladder: seq<nat>)
    requires IsLadder(ladder)
    ensures Dedup(ladder) == ladder
  {
    if |ladder| > 1 {
      DedupOfLadder(ladder[1..]);
      assert ladder == [ladder[0]] + ladder[1..];
    }
  }

  lemma {:induction false} UpperRungs(ipv6: bool)
    ensures Rungs([1492, 1500, 4352, 9000, 9216], ipv6)
         == if ipv6 then [1444, 1452, 4304, 8952, 9168] else [1464, 1472, 4324, 8972, 9188]
  {
    RungsCons(9216, [], ipv6);
    assert [9216] + [] == [9216];
    RungsCons(9000, [9216], ipv6);
    assert [9000] + [9216] == [9000, 9216];
    RungsCons(4352, [9000, 9216], ipv6);
    assert [4352] + [9000, 9216] == [4352, 9000, 9216];
    RungsCons(1500, [4352, 9000, 9216], ipv6);
    assert [1500] + [4352, 9000, 9216] == [1500, 4352, 9000, 9216];
    RungsCons(1492, [1500, 4352, 9000, 9216], ipv6);
    assert [1492] + [1500, 4352, 9000, 9216] == [1492, 1500, 4352, 9000, 9216];
  }

  lemma {:induction false} AllRungs(ipv6: bool)
    ensures Rungs([576, 1280, 1492, 1500, 4352, 9000, 9216], ipv6)
         == KnownLadder(ipv6)
  {
    UpperRungs(ipv6);
    RungsCons(1280, [1492, 1500, 4352, 9000, 9216], ipv6);
    assert [1280] + [1492, 1500, 4352, 9000, 9216] == [1280, 1492, 1500, 4352, 9000, 9216];
    RungsCons(576, [1280, 1492, 1500, 4352, 9000, 9216], ipv6);
    assert [576] + [1280, 1492, 1500, 4352, 9000, 9216] == [576, 1280, 1492, 1500, 4352, 9000, 9216];
  }

  function KnownLadder(ipv6: bool): seq<nat> {
    if ipv6 then [1232, 1444, 1452, 4304, 8952, 9168] else [548, 1252, 1464, 1472, 4324, 8972, 9188]
  }

  lemma {:induction false} KnownIsLadder(ipv6: bool)
    ensures IsLadder(KnownLadder(ipv6)) && KnownLadder(ipv6)[0] == MinProbePayload(ipv6)
    ensures KnownLadder(ipv6)[|KnownLadder(ipv6)| - 1] == MaxProbePayload(ipv6)
  {
  }

  /** The ladder is strictly increasing and brackets the family's whole range. */
  lemma {:induction false} LadderBracketsTheRange(ipv6: bool)
    ensures IsLadder(SizeLadder(ipv6))
    ensures SizeLadder(ipv6)[0] == MinProbePayload(ipv6)
    ensures SizeLadder(ipv6)[|SizeLadder(ipv6)| - 1] == MaxProbePayload(ipv6)
    ensures SizeLadder(ipv6) == KnownLadder(ipv6)
  {
    AllRungs(ipv6);
    KnownIsLadder(ipv6);
    DedupOfLadder(KnownLadder(ipv6));
  }

  // ----- the search state and its two operations -----

  datatype Search = Search(
    ladder: seq<nat>,
    ladderIdx: nat,
    low: Option<nat>,      // lower end of the bracket: it passed
    high: Option<nat>,     // upper end of the bracket: it failed
    inBinary: bool,
    pending: Option<nat>)

  predicate Failing(v: Verdict) {
    v.Fail? || v.LocalLimit?
  }

  function Start(ladder: seq<nat>): Search {
    Search(ladder, 0, None, None, false, None)
  }

  /** The first rung from `idx` on that is not above a known failure. */
  function SkipTo(ladder: seq<nat>, idx: nat, high: Option<nat>): nat
    decreases |ladder| - idx
  {
    if idx < |ladder| && high.Some? && ladder[idx] >= high.value then SkipTo(ladder, idx + 1, high) else idx
  }

  function Midpoint(low: Option<nat>, high: Option<nat>): Option<nat> {
    if low.None? || high.None? || SatSub(high.value, low.value) <= 1 then None
    else Some(low.value + (high.value - low.value) / 2)
  }

  function NextOf(s: Search): (Search, Option<nat>) {
    if s.pending.Some? then (s, s.pending)
    else if s.inBinary then
      var next := Midpoint(s.low, s.high);
      (s.(pending := next), next)
    else
      var idx := SkipTo(s.ladder, s.ladderIdx, s.high);
      if idx < |s.ladder| then (s.(ladderIdx := idx, pending := Some(s.ladder[idx])), Some(s.ladder[idx]))
      else
        var next := Midpoint(s.low, s.high);
        (s.(ladderIdx := idx, inBinary := true, pending := next), next)
  }

  function RecordOf(s: Search, size: nat, forward: Verdict): Search {
    s.(pending := None,
       ladderIdx := if s.inBinary then s.ladderIdx else s.ladderIdx + 1,
       low := if forward.Pass? && (s.low.None? || size > s.low.value) then Some(size) else s.low,
       high := if Failing(forward) && (s.high.None? || size < s.high.value) then Some(size) else s.high)
  }

  // ----- runs: what the search asked and what it was told -----

  datatype Probe = Probe(size: nat, verdict: Verdict)

  function Step(s: Search, p: Probe): Search {
    RecordOf(NextOf(s).0, p.size, p.verdict)
  }

  /** Each probe is the size the search asked for, with any forward verdict. */
  predicate Runs(s: Search, h: seq<Probe>)
    decreases |h|
  {
    h == [] || (NextOf(s).1 == Some(h[0].size) && !h[0].verdict.Untested? && Runs(Step(s, h[0]), h[1..]))
  }

  function After(s: Search, h: seq<Probe>): Search
    decreases |h|
  {
    if h == [] then s else After(Step(s, h[0]), h[1..])
  }

  predicate IsRun(ladder: seq<nat>, h: seq<Probe>) {
    Runs(Start(ladder), h)
  }

  predicate IsComplete(ladder: seq<nat>, h: seq<Probe>) {
    IsRun(ladder, h) && NextOf(After(Start(ladder), h)).1.None?
  }

  function ForwardMax(ladder: seq<nat>, h: seq<Probe>): Option<nat> {
    After(Start(ladder), h).low
  }

  lemma {:induction false} RunsConcat(s: Search, a: seq<Probe>, b: seq<Probe>)
    ensures Runs(s, a + b) <==> Runs(s, a) && Runs(After(s, a), b)
    ensures After(s, a + b) == After(After(s, a), b)
    decreases |a|
  {
    if a == [] {
      assert a + b == b;
    } else {
      assert (a + b)[1..] == a[1..] + b;
      RunsConcat(Step(s, a[0]), a[1..], b);
    }
  }

  lemma {:induction false} RunsOne(s: Search, p: Probe)
    ensures Runs(s, [p]) <==> NextOf(s).1 == Some(p.size) && !p.verdict.Untested?
    ensures After(s, [p]) == Step(s, p)
  {
    assert [p][1..] == [];
  }

  /** ceil(log2(n)) */
  function CeilLog2(n: nat): nat {
    if n <= 1 then 0 else 1 + CeilLog2((n + 1) / 2)
  }

  function Pow2(k: nat): nat {
    if k == 0 then 1 else 2 * Pow2(k - 1)
  }

  lemma {:induction false} CeilLog2IsLogarithm(n: nat)
    requires n > 0
    ensures n <= Pow2(CeilLog2(n))
    ensures n > 1 ==> Pow2(CeilLog2(n) - 1) < n
  {
    if n > 1 {
      CeilLog2IsLogarithm((n + 1) / 2);
    }
  }

  lemma {:induction false} CeilLog2Monotone(a: nat, b: nat)
    requires a <= b
    ensures CeilLog2(a) <= CeilLog2(b)
  {
    if a > 1 {
      CeilLog2Monotone((a + 1) / 2, (b + 1) / 2);
    }
  }

  lemma {:induction false} CeilLog2Is(n: nat, k: nat)
    requires n <= Pow2(k) && (k > 0 ==> Pow2(k - 1) < n)
    ensures CeilLog2(n) == k
  {
    if n > 1 {
      CeilLog2Is((n + 1) / 2, k - 1);
    }
  }

  // ----- the shape of every run -----

  predicate Distinct(h: seq<Probe>) {
    forall i, j :: 0 <= i < j < |h| ==> h[i].size != h[j].size
  }

  /** The first `n` probes are the first `n` rungs, and passed. */
  predicate Climbed(ladder: seq<nat>, h: seq<Probe>, n: nat) {
    && n <= |ladder| && n <= |h|
    && forall k :: 0 <= k < n ==> h[k] == Probe(ladder[k], Pass)
  }

  /** All rungs so far passed. */
  predicate Climbing(ladder: seq<nat>, h: seq<Probe>, s: Search) {
    && Climbed(ladder, h, |h|)
    && s == Search(ladder, |h|, if h == [] then None else Some(ladder[|h| - 1]), None, false, None)
  }

  predicate NothingPasses(ladder: seq<nat>, h: seq<Probe>, s: Search) {
    && |h| == 1 && |ladder| > 0
    && h[0].size == ladder[0] && Failing(h[0].verdict)
    && s == Search(ladder, 1, None, Some(ladder[0]), false, None)
  }

  predicate Passed(h: seq<Probe>, size: nat) {
    exists k :: 0 <= k < |h| && h[k].size == size && h[k].verdict.Pass?
  }

  predicate Failed(h: seq<Probe>, size: nat) {
    exists k :: 0 <= k < |h| && h[k].size == size && Failing(h[k].verdict)
  }

  predicate Splits(h: seq<Probe>, lo: nat, hi: nat) {
    forall k :: 0 <= k < |h| ==> if h[k].verdict.Pass? then h[k].size <= lo else Failing(h[k].verdict) && h[k].size >= hi
  }

  /** Rung `f` was the first to fail; since then the search bisects the open
      interval (lo, hi): `lo` passed, `hi` failed, every other probe lies
      outside, and each probe has halved the interval. */
  predicate Bracketing(ladder: seq<nat>, h: seq<Probe>, s: Search, f: nat, lo: nat, hi: nat) {
    && 0 < f < |ladder| && f < |h|
    && Climbed(ladder, h, f)
    && h[f].size == ladder[f] && Failing(h[f].verdict)
    && ladder[f - 1] <= lo < hi <= ladder[f]
    && Passed(h, lo) && Failed(h, hi) && Splits(h, lo, hi) && Distinct(h)
    && |h| + CeilLog2(hi - lo) <= f + 1 + CeilLog2(ladder[f] - ladder[f - 1])
    && s == Search(ladder, s.ladderIdx, Some(lo), Some(hi), s.inBinary, None)
    && (s.inBinary || s.ladderIdx == f + 1)
  }

  lemma {:induction false} SkipToEnd(ladder: seq<nat>, idx: nat, high: nat)
    requires IsLadder(ladder) && idx <= |ladder|
    requires forall k :: idx <= k < |ladder| ==> ladder[k] >= high
    ensures SkipTo(ladder, idx, Some(high)) == |ladder|
    decreases |ladder| - idx
  {
    if idx < |ladder| {
      SkipToEnd(ladder, idx + 1, high);
    }
  }

  /** Once a rung has failed the search bisects. */
  lemma {:induction false} NextWhenBracketing(ladder: seq<nat>, h: seq<Probe>, s: Search, f: nat, lo: nat, hi: nat)
    requires IsLadder(ladder) && Bracketing(ladder, h, s, f, lo, hi)
    ensures NextOf(s).1 == if hi - lo <= 1 then None else Some(lo + (hi - lo) / 2)
    ensures var s' := NextOf(s).0; s' == Search(ladder, s'.ladderIdx, Some(lo), Some(hi), true, NextOf(s).1)
  {
    if !s.inBinary {
      SkipToEnd(ladder, f + 1, hi);
    }
  }

  lemma {:induction false} NextWhenNothingPasses(ladder: seq<nat>, h: seq<Probe>, s: Search)
    requires IsLadder(ladder) && NothingPasses(ladder, h, s)
    ensures NextOf(s).1 == None
  {
    SkipToEnd(ladder, 1, ladder[0]);
  }

  /** A probe strictly inside the interval narrows it. */
  lemma {:induction false} Narrow(h: seq<Probe>, p: Probe, lo: nat, hi: nat)
    requires Passed(h, lo) && Failed(h, hi) && Splits(h, lo, hi) && Distinct(h)
    requires lo < p.size < hi && !p.verdict.Untested?
    ensures var (lo', hi') := if p.verdict.Pass? then (p.size, hi) else (lo, p.size);
      Passed(h + [p], lo') && Failed(h + [p], hi') && Splits(h + [p], lo', hi') && Distinct(h + [p])
  {
    var h' := h + [p];
    assert h'[|h|] == p;
    var i :| 0 <= i < |h| && h[i].size == lo && h[i].verdict.Pass?;
    var j :| 0 <= j < |h| && h[j].size == hi && Failing(h[j].verdict);
    assert h'[i] == h[i] && h'[j] == h[j];
  }

  lemma {:induction false} BisectStep(ladder: seq<nat>, h: seq<Probe>, s: Search, p: Probe, f: nat, lo: nat, hi: nat)
    returns (lo': nat, hi': nat)
    requires IsLadder(ladder) && Bracketing(ladder, h, s, f, lo, hi)
    requires NextOf(s).1 == Some(p.size) && !p.verdict.Untested?
    ensures hi - lo > 1
    ensures hi' - lo' == if p.verdict.Pass? then (hi - lo + 1) / 2 else (hi - lo) / 2
    ensures Bracketing(ladder, h + [p], Step(s, p), f, lo', hi')
  {
    NextWhenBracketing(ladder, h, s, f, lo, hi);
    lo', hi' := if p.verdict.Pass? then p.size else lo, if p.verdict.Pass? then hi else p.size;
    CeilLog2Monotone(hi' - lo', (hi - lo + 1) / 2);
    Narrow(h, p, lo, hi);
    assert Climbed(ladder, h + [p], f);
  }

  /** The first failing rung opens the interval. */
  lemma {:induction false} FirstFailure(ladder: seq<nat>, h: seq<Probe>, p: Probe)
    requires IsLadder(ladder) && Climbed(ladder, h, |h|) && 0 < |h| < |ladder|
    requires p.size == ladder[|h|] && Failing(p.verdict)
    ensures Bracketing(ladder, h + [p], Search(ladder, |h| + 1, Some(ladder[|h| - 1]), Some(ladder[|h|]), false, None),
                       |h|, ladder[|h| - 1], ladder[|h|])
  {
    var f := |h|;
    var h' := h + [p];
    assert h'[f] == p && h'[f - 1] == Probe(ladder[f - 1], Pass);
    assert Climbed(ladder, h', f);
  }

  predicate Shape(ladder: seq<nat>, h: seq<Probe>, s: Search, f: nat, lo: nat, hi: nat) {
    Climbing(ladder, h, s) || NothingPasses(ladder, h, s) || Bracketing(ladder, h, s, f, lo, hi)
  }

  lemma {:induction false} ShapeStep(ladder: seq<nat>, h: seq<Probe>, s: Search, p: Probe, f: nat, lo: nat, hi: nat)
    returns (f': nat, lo': nat, hi': nat)
    requires IsLadder(ladder) && Shape(ladder, h, s, f, lo, hi)
    requires NextOf(s).1 == Some(p.size) && !p.verdict.Untested?
    ensures Shape(ladder, h + [p], Step(s, p), f', lo', hi')
    ensures ladder[0] <= p.size <= ladder[|ladder| - 1]
  {
    f', lo', hi' := f, lo, hi;
    if Bracketing(ladder, h, s, f, lo, hi) {
      NextWhenBracketing(ladder, h, s, f, lo, hi);
      lo', hi' := BisectStep(ladder, h, s, p, f, lo, hi);
    } else if NothingPasses(ladder, h, s) {
      NextWhenNothingPasses(ladder, h, s);
    } else {
      f' := |h|;
      if Failing(p.verdict) && f' > 0 {
        FirstFailure(ladder, h, p);
        lo', hi' := ladder[f' - 1], ladder[f'];
      }
    }
  }

  predicate InRange(ladder: seq<nat>, h: seq<Probe>)
    requires |ladder| > 0
  {
    forall k :: 0 <= k < |h| ==> ladder[0] <= h[k].size <= ladder[|ladder| - 1]
  }

  lemma {:induction false} ShapeFrom(ladder: seq<nat>, h: seq<Probe>, s: Search, f: nat, lo: nat, hi: nat, more: seq<Probe>)
    returns (f': nat, lo': nat, hi': nat)
    requires IsLadder(ladder) && Shape(ladder, h, s, f, lo, hi) && InRange(ladder, h)
    requires Runs(s, more)
    ensures Shape(ladder, h + more, After(s, more), f', lo', hi') && InRange(ladder, h + more)
    decreases |more|
  {
    f', lo', hi' := f, lo, hi;
    if more == [] {
      assert h + more == h;
    } else {
      var p := more[0];
      f', lo', hi' := ShapeStep(ladder, h, s, p, f, lo, hi);
      InRangeAppend(ladder, h, p);
      f', lo', hi' := ShapeFrom(ladder, h + [p], Step(s, p), f', lo', hi', more[1..]);
      Reattach(h, more);
    }
  }

  lemma {:induction false} InRangeAppend(ladder: seq<nat>, h: seq<Probe>, p: Probe)
    requires |ladder| > 0 && InRange(ladder, h) && ladder[0] <= p.size <= ladder[|ladder| - 1]
    ensures InRange(ladder, h + [p])
  {
  }

  lemma {:induction false} Reattach(h: seq<Probe>, more: seq<Probe>)
    requires more != []
    ensures h + [more[0]] + more[1..] == h + more
  {
  }

  /** Every run is climbing, has failed at once, or is bracketing. */
  lemma {:induction false} RunShape(ladder: seq<nat>, h: seq<Probe>) returns (s: Search, f: nat, lo: nat, hi: nat)
    requires IsLadder(ladder) && IsRun(ladder, h)
    ensures s == After(Start(ladder), h) && Shape(ladder, h, s, f, lo, hi) && InRange(ladder, h)
  {
    s := After(Start(ladder), h);
    f, lo, hi := ShapeFrom(ladder, [], Start(ladder), 0, 0, 0, h);
    assert [] + h == h;
  }

  // ----- main results, over every verdict sequence -----

  /** No size is probed twice, and none outside the ladder's range. */
  lemma {:induction false} NeverProbesTwice(ladder: seq<nat>, h: seq<Probe>)
    requires IsLadder(ladder) && IsRun(ladder, h)
    ensures Distinct(h) && InRange(ladder, h)
  {
    var s, f, lo, hi := RunShape(ladder, h);
  }

  /** Most probes a search can take when rung `f` is the first to fail: the
      rungs up to it and then one probe per halving of the gap below it.
      `f == 0` stands for a search that never bisects. */
  function MostProbes(ladder: seq<nat>, f: nat): nat
    requires IsLadder(ladder) && f < |ladder|
  {
    if f == 0 then |ladder|
    else f + 1 + CeilLog2(ladder[f] - ladder[f - 1])
  }

  lemma {:induction false} ShapeLength(ladder: seq<nat>, h: seq<Probe>, s: Search, f: nat, lo: nat, hi: nat) returns (f': nat)
    requires IsLadder(ladder) && Shape(ladder, h, s, f, lo, hi)
    ensures f' < |ladder| && |h| <= MostProbes(ladder, f')
    ensures |h| <= |ladder| + CeilLog2(ladder[|ladder| - 1])
  {
    f' := 0;
    if Bracketing(ladder, h, s, f, lo, hi) {
      f' := f;
      CeilLog2Monotone(ladder[f] - ladder[f - 1], ladder[|ladder| - 1]);
    }
  }

  function ProbeLimit(ipv6: bool): nat {
    if ipv6 then 18 else 19
  }

  /** The gaps between IPv4 rungs; those between IPv6 rungs are the same from the second on. */
  function KnownGap(f: nat): nat {
    if f == 1 then 704 else if f == 2 then 212 else if f == 3 then 8
    else if f == 4 then 2852 else if f == 5 then 4648 else 216
  }

  lemma {:induction false} FamilyGap(ipv6: bool, ladder: seq<nat>, f: nat)
    requires ladder == KnownLadder(ipv6) && 0 < f < |ladder|
    ensures IsLadder(ladder)
    ensures var gap := ladder[f] - ladder[f - 1];
      f < (if ipv6 then 6 else 7) && gap == KnownGap(if ipv6 then f + 1 else f)
  {
    KnownIsLadder(ipv6);
  }

  lemma {:induction false} GapLogarithm(gap: nat)
    requires gap in {8, 212, 216, 704, 2852, 4648}
    ensures CeilLog2(gap) ==
      if gap == 8 then 3 else if gap <= 216 then 8 else if gap == 704 then 10 else if gap == 2852 then 12 else 13
  {
    assert Pow2(8) == 256;
    assert Pow2(12) == 16 * Pow2(8);
    CeilLog2Is(gap, if gap == 8 then 3 else if gap <= 216 then 8 else if gap == 704 then 10 else if gap == 2852 then 12 else 13);
  }

  lemma {:induction false} FamilyMostProbes(ipv6: bool, ladder: seq<nat>, f: nat)
    requires ladder == KnownLadder(ipv6) && 0 < f < |ladder|
    ensures IsLadder(ladder) && MostProbes(ladder, f) <= ProbeLimit(ipv6)
    ensures f == (if ipv6 then 4 else 5) ==> MostProbes(ladder, f) == ProbeLimit(ipv6)
  {
    FamilyGap(ipv6, ladder, f);
    GapProbes(ipv6, f);
  }

  lemma {:induction false} GapProbes(ipv6: bool, f: nat)
    requires 0 < f < (if ipv6 then 6 else 7)
    ensures var probes := f + 1 + CeilLog2(KnownGap(if ipv6 then f + 1 else f));
      probes <= ProbeLimit(ipv6) && (f == (if ipv6 then 4 else 5) ==> probes == ProbeLimit(ipv6))
  {
    GapLogarithm(KnownGap(if ipv6 then f + 1 else f));
  }

  /** At most 19 sizes are probed over IPv4 and 18 over IPv6. */
  lemma {:induction false} AtMostNineteenProbes(ipv6: bool, h: seq<Probe>)
    requires IsRun(SizeLadder(ipv6), h)
    ensures |h| <= ProbeLimit(ipv6)
  {
    LadderBracketsTheRange(ipv6);
    var ladder := SizeLadder(ipv6);
    var s, f, lo, hi := RunShape(ladder, h);
    f := ShapeLength(ladder, h, s, f, lo, hi);
    if f > 0 {
      FamilyMostProbes(ipv6, KnownLadder(ipv6), f);
    }
  }

  /** A finished search, whatever the verdicts were: the first rung failed and
      there is no result; or every rung passed and the result is the last; or
      the result passed and the next size was probed and failed. */
  lemma {:induction false} CompleteRun(ladder: seq<nat>, h: seq<Probe>)
    requires IsLadder(ladder) && IsComplete(ladder, h)
    ensures var result := ForwardMax(ladder, h);
      || (|h| == 1 && h[0].size == ladder[0] && Failing(h[0].verdict) && result == None)
      || (|h| == |ladder| && Climbed(ladder, h, |h|) && result == Some(ladder[|ladder| - 1]))
      || (result.Some? && Passed(h, result.value) && Failed(h, result.value + 1))
  {
    var s, f, lo, hi := RunShape(ladder, h);
    if Bracketing(ladder, h, s, f, lo, hi) {
      NextWhenBracketing(ladder, h, s, f, lo, hi);
      assert hi == lo + 1;
    }
  }

  /** At every point the result is the largest size that has passed. */
  lemma {:induction false} ForwardMaxIsLargestPass(ladder: seq<nat>, h: seq<Probe>)
    requires IsLadder(ladder) && IsRun(ladder, h)
    ensures var result := ForwardMax(ladder, h);
      && (result.None? ==> forall k :: 0 <= k < |h| ==> !h[k].verdict.Pass?)
      && (result.Some? ==> Passed(h, result.value))
      && (result.Some? ==> forall k :: 0 <= k < |h| && h[k].verdict.Pass? ==> h[k].size <= result.value)
  {
    var s, f, lo, hi := RunShape(ladder, h);
    if Climbing(ladder, h, s) && h != [] {
      assert h[|h| - 1].size == ladder[|h| - 1];
    }
  }

  /** The verdicts of a path that carries exactly the sizes up to `limit`. */
  predicate PathLimit(h: seq<Probe>, limit: nat) {
    forall k :: 0 <= k < |h| ==> (h[k].verdict.Pass? <==> h[k].size <= limit)
  }

  lemma {:induction false} LadderFindsLimit(ladder: seq<nat>, h: seq<Probe>, limit: nat)
    requires IsLadder(ladder) && IsComplete(ladder, h) && PathLimit(h, limit)
    ensures ForwardMax(ladder, h) == if limit < ladder[0] then None else Some(Min(limit, ladder[|ladder| - 1]))
  {
    CompleteRun(ladder, h);
    NeverProbesTwice(ladder, h);
    if Climbed(ladder, h, |h|) {
      assert h != [] ==> h[|h| - 1].size == ladder[|h| - 1] && h[0].size == ladder[0];
    }
  }

  /** On such a path the search finds the limit exactly, clipped to the range. */
  lemma {:induction false} FindsThePathLimit(ipv6: bool, h: seq<Probe>, limit: nat)
    requires IsComplete(SizeLadder(ipv6), h) && PathLimit(h, limit)
    ensures ForwardMax(SizeLadder(ipv6), h) ==
      if limit < MinProbePayload(ipv6) then None else Some(Min(limit, MaxProbePayload(ipv6)))
  {
    LadderBracketsTheRange(ipv6);
    LadderFindsLimit(SizeLadder(ipv6), h, limit);
  }

  /** The verdicts of `more` are what the environment answers, each time
      knowing everything probed before. */
  predicate Answered(h: seq<Probe>, more: seq<Probe>, answer: (seq<Probe>, nat) -> bool) {
    forall k :: 0 <= k < |more| ==> (more[k].verdict.Pass? <==> answer(h + more[..k], more[k].size))
  }

  lemma {:induction false} CompletesFrom(ladder: seq<nat>, h: seq<Probe>, s: Search, f: nat, lo: nat, hi: nat,
                                         answer: (seq<Probe>, nat) -> bool)
    returns (more: seq<Probe>)
    requires IsLadder(ladder) && Shape(ladder, h, s, f, lo, hi)
    ensures Runs(s, more) && NextOf(After(s, more)).1.None?
    ensures Answered(h, more, answer)
    decreases |ladder| + CeilLog2(ladder[|ladder| - 1]) - |h|
  {
    more := [];
    var next := NextOf(s).1;
    if next.Some? {
      var p := Probe(next.value, if answer(h, next.value) then Pass else Fail);
      var f', lo', hi' := ShapeStep(ladder, h, s, p, f, lo, hi);
      var _ := ShapeLength(ladder, h + [p], Step(s, p), f', lo', hi');
      var rest := CompletesFrom(ladder, h + [p], Step(s, p), f', lo', hi', answer);
      more := [p] + rest;
      assert more[1..] == rest;
      AnsweredFirst(h, p, rest, answer);
    }
  }

  lemma {:induction false} AnsweredFirst(h: seq<Probe>, p: Probe, rest: seq<Probe>, answer: (seq<Probe>, nat) -> bool)
    requires p.verdict.Pass? <==> answer(h, p.size)
    requires Answered(h + [p], rest, answer)
    ensures Answered(h, [p] + rest, answer)
  {
    var more := [p] + rest;
    forall k | 0 <= k < |more|
      ensures more[k].verdict.Pass? <==> answer(h + more[..k], more[k].size)
    {
      if k == 0 {
        assert h + more[..0] == h;
      } else {
        assert h + more[..k] == h + [p] + rest[..k - 1];
      }
    }
  }

  /** The search terminates: against any environment, which may answer by what
      it has seen so far, every run extends to a complete one. */
  lemma {:induction false} EveryRunCompletes(ladder: seq<nat>, h: seq<Probe>, answer: (seq<Probe>, nat) -> bool)
    returns (more: seq<Probe>)
    requires IsLadder(ladder) && IsRun(ladder, h)
    ensures IsComplete(ladder, h + more)
    ensures Answered(h, more, answer)
  {
    var s, f, lo, hi := RunShape(ladder, h);
    more := CompletesFrom(ladder, h, s, f, lo, hi, answer);
    RunsConcat(Start(ladder), h, more);
  }

  /** From any bracket, a path that keeps passing costs one probe per halving. */
  lemma {:induction false} BisectionIsTight(ladder: seq<nat>, h: seq<Probe>, s: Search, f: nat, lo: nat, hi: nat)
    returns (more: seq<Probe>)
    requires IsLadder(ladder) && Bracketing(ladder, h, s, f, lo, hi)
    ensures Runs(s, more) && NextOf(After(s, more)).1.None? && |more| == CeilLog2(hi - lo)
    decreases hi - lo
  {
    more := [];
    NextWhenBracketing(ladder, h, s, f, lo, hi);
    if hi - lo > 1 {
      var p := Probe(lo + (hi - lo) / 2, Pass);
      var lo', hi' := BisectStep(ladder, h, s, p, f, lo, hi);
      var rest := BisectionIsTight(ladder, h + [p], Step(s, p), f, lo', hi');
      more := [p] + rest;
      assert more[1..] == rest;
    }
  }

  lemma {:induction false} ClimbTo(ladder: seq<nat>, n: nat) returns (h: seq<Probe>)
    requires IsLadder(ladder) && n <= |ladder|
    ensures IsRun(ladder, h) && Climbing(ladder, h, After(Start(ladder), h)) && |h| == n
  {
    h := [];
    if n > 0 {
      var init := ClimbTo(ladder, n - 1);
      var p := Probe(ladder[n - 1], Pass);
      RunsConcat(Start(ladder), init, [p]);
      RunsOne(After(Start(ladder), init), p);
      h := init + [p];
    }
  }

  /** For every rung there is a search that takes the most probes. */
  lemma {:induction false} MostProbesAttained(ladder: seq<nat>, f: nat) returns (h: seq<Probe>)
    requires IsLadder(ladder) && 0 < f < |ladder|
    ensures IsComplete(ladder, h) && |h| == MostProbes(ladder, f)
  {
    var climb := ClimbTo(ladder, f);
    var s := After(Start(ladder), climb);
    var p := Probe(ladder[f], Fail);
    FirstFailure(ladder, climb, p);
    var more := BisectionIsTight(ladder, climb + [p], Step(s, p), f, ladder[f - 1], ladder[f]);
    h := climb + [p] + more;
    RunsThrough(Start(ladder), climb, p, more);
  }

  lemma {:induction false} RunsThrough(s: Search, a: seq<Probe>, p: Probe, b: seq<Probe>)
    requires Runs(s, a) && NextOf(After(s, a)).1 == Some(p.size) && !p.verdict.Untested?
    requires Runs(Step(After(s, a), p), b)
    ensures Runs(s, a + [p] + b) && After(s, a + [p] + b) == After(Step(After(s, a), p), b)
  {
    RunsOne(After(s, a), p);
    RunsConcat(s, a, [p]);
    RunsConcat(s, a + [p], b);
  }

  /** 19 and 18 cannot be improved. */
  lemma {:induction false} LimitIsAttained(ipv6: bool) returns (h: seq<Probe>)
    ensures IsComplete(SizeLadder(ipv6), h) && |h| == ProbeLimit(ipv6)
  {
    LadderBracketsTheRange(ipv6);
    var f := if ipv6 then 4 else 5;
    FamilyMostProbes(ipv6, KnownLadder(ipv6), f);
    h := MostProbesAttained(SizeLadder(ipv6), f);
  }

  // ----- the driver object -----

  class SizeSearch {
    const ladder: seq<nat>
    var ladderIdx: nat
    var low: Option<nat>
    var high: Option<nat>
    var inBinary: bool
    var pending: Option<nat>
    ghost var history: seq<Probe>

    ghost function View(): Search
      reads this
    {
      Search(ladder, ladderIdx, low, high, inBinary, pending)
    }

    /** The object is where its history leads, with or without the next size
        already asked for. */
    ghost predicate Valid()
      reads this
    {
      && IsLadder(ladder)
      && IsRun(ladder, history)
      && var s := After(Start(ladder), history);
         if pending.Some? then View() == NextOf(s).0 && pending == NextOf(s).1
         else View() == s || (NextOf(s).1.None? && View() == NextOf(s).0)
    }

    constructor (ipv6: bool)
      ensures Valid() && history == [] && ladder == SizeLadder(ipv6) && pending == None
    {
      LadderBracketsTheRange(ipv6);
      ladder := SizeLadder(ipv6);
      ladderIdx, low, high, inBinary, pending := 0, None, None, false, None;
      history := [];
    }

    /** What to probe next, if anything is left to learn. Asking again before
        recording gives the same answer. */
    method NextSize() returns (next: Option<nat>)
      requires Valid()
      modifies this`ladderIdx, this`inBinary, this`pending
      ensures Valid() && pending == next
      ensures next == NextOf(After(Start(ladder), history)).1
    {
      ghost var s, f, lo, hi := RunShape(ladder, history);
      if pending.Some? {
        return pending;
      }
      if !inBinary {
        while ladderIdx < |ladder| && high.Some? && ladder[ladderIdx] >= high.value
          invariant SkipTo(ladder, ladderIdx, high) == SkipTo(ladder, old(ladderIdx), high)
          invariant low == old(low) && high == old(high) && !inBinary && pending.None?
          decreases |ladder| - ladderIdx
        {
          ladderIdx := ladderIdx + 1;
        }
        if ladderIdx < |ladder| {
          next := Some(ladder[ladderIdx]);
        } else {
          inBinary := true;
          next := BinaryMidpoint();
        }
      } else {
        next := BinaryMidpoint();
      }
      pending := next;
    }

    /** None without an open bracket; otherwise a size strictly inside it that
        leaves at most half of it, rounded up, whatever the verdict. */
    function BinaryMidpoint(): (m: Option<nat>)
      requires low.Some? && high.Some? ==> low.value <= high.value
      reads this
      ensures m.None? <==> low.None? || high.None? || high.value - low.value <= 1
      ensures m.Some? ==> low.value < m.value < high.value
                          && 0 <= (high.value - m.value) - (m.value - low.value) <= 1
    {
      Midpoint(low, high)
    }

    /** Take in how the size asked for last fared going forward. */
    method Record(size: nat, forward: Verdict)
      requires Valid() && pending == Some(size) && !forward.Untested?
      modifies this
      ensures Valid() && pending == None
      ensures history == old(history) + [Probe(size, forward)]
    {
      ghost var s := After(Start(ladder), history);
      ghost var p := Probe(size, forward);
      RunsConcat(Start(ladder), history, [p]);
      RunsOne(s, p);
      history := history + [p];
      pending := None;
      if !inBinary {
        ladderIdx := ladderIdx + 1;
      }
      match forward {
        case Pass =>
          if low.None? || size > low.value {
            low := Some(size);
          }
        case Fail | LocalLimit =>
          if high.None? || size < high.value {
            high := Some(size);
          }
        case Untested =>
      }
    }

    /** Largest forward-passing size found. */
    method ForwardMaximum() returns (result: Option<nat>)
      requires Valid()
      ensures result == ForwardMax(ladder, history)
    {
      ghost var s, f, lo, hi := RunShape(ladder, history);
      result := low;
    }
  }
}
