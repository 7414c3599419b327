/** The probe driver (`run_probe` and `collect_replies` in `src/probe.rs`)
    against an arbitrary network. */
module ProbeDriver {
  import opened Basics
  import opened ProbePacket
  import opened ProbeSearch

  const PROBES_PER_SIZE: nat := 3

  /** What the socket yields during one reply window, which ends by timeout. */
  datatype Arrival = RecvError | Datagram(bytes: seq<byte>)

  /** What becomes of one attempt: sent, with the arrivals of its reply window;
      refused by the local interface (EMSGSIZE); or failed otherwise. */
  datatype Attempt = Sent(arrivals: seq<Arrival>) | TooLarge | SendFailed

  /** The network decides every attempt, by sequence number. */
  type Network = nat -> Attempt

  /** The client's connected socket: the datagrams handed to it, in order. What
      becomes of each is up to the network. */
  class Socket {
    const net: Network
    var sent: seq<seq<byte>>

    constructor (net: Network)
      ensures this.net == net && sent == []
    {
      this.net, sent := net, [];
    }

    method Send(datagram: seq<byte>) returns (a: Attempt)
      modifies this
      ensures sent == old(sent) + [datagram] && a == net(|sent|)
    {
      sent := sent + [datagram];
      a := net(|sent|);
    }
  }

  predicate IsAck(a: Arrival, q: nat, size: nat) {
    a.Datagram? && Decode(a.bytes) == Some(Packet(PROBE_KIND_ACK, q, size))
  }

  /** An echo counts only when the datagram itself has the trial size. */
  predicate IsEcho(a: Arrival, q: nat, size: nat) {
    a.Datagram? && Decode(a.bytes) == Some(Packet(PROBE_KIND_ECHO, q, size)) && |a.bytes| == size
  }

  predicate HearsEcho(arrivals: seq<Arrival>, q: nat, size: nat) {
    exists k :: 0 <= k < |arrivals| && IsEcho(arrivals[k], q, size)
  }

  /** An ack is heard unless an echo has already ended the window. */
  predicate HearsAck(arrivals: seq<Arrival>, q: nat, size: nat) {
    exists k :: 0 <= k < |arrivals| && IsAck(arrivals[k], q, size) && !HearsEcho(arrivals[..k], q, size)
  }

  lemma {:induction false} HearOneMore(arrivals: seq<Arrival>, k: nat, q: nat, size: nat)
    requires k < |arrivals|
    ensures HearsEcho(arrivals[..k + 1], q, size) <==> HearsEcho(arrivals[..k], q, size) || IsEcho(arrivals[k], q, size)
    ensures HearsAck(arrivals[..k + 1], q, size)
       <==> HearsAck(arrivals[..k], q, size) || (IsAck(arrivals[k], q, size) && !HearsEcho(arrivals[..k], q, size))
  {
    var now, more := arrivals[..k], arrivals[..k + 1];
    assert more[k] == arrivals[k] && more[..k] == now;
    assert forall j :: 0 <= j < k ==> more[j] == now[j] && more[..j] == now[..j];
  }

  /** Once an echo is heard nothing more is. */
  lemma {:induction false} EchoEnds(arrivals: seq<Arrival>, k: nat, q: nat, size: nat)
    requires k <= |arrivals| && HearsEcho(arrivals[..k], q, size)
    ensures HearsEcho(arrivals, q, size)
    ensures HearsAck(arrivals, q, size) <==> HearsAck(arrivals[..k], q, size)
    decreases |arrivals| - k
  {
    if k < |arrivals| {
      HearOneMore(arrivals, k, q, size);
      EchoEnds(arrivals, k + 1, q, size);
    } else {
      assert arrivals[..k] == arrivals;
    }
  }

  /** Arrival `k` is a packet of this kind for this attempt, of any length. */
  predicate Names(arrivals: seq<Arrival>, k: nat, kind: byte, q: nat, size: nat)
    requires k < |arrivals|
  {
    arrivals[k].Datagram? && Decode(arrivals[k].bytes) == Some(Packet(kind, q, size))
  }

  /** Arrival `k` is a whole echo: kind 3, for this attempt, and of its size. */
  predicate WholeEcho(arrivals: seq<Arrival>, k: nat, q: nat, size: nat)
    requires k < |arrivals|
  {
    Names(arrivals, k, 3, q, size) && |arrivals[k].bytes| == size
  }

  /** What is heard, arrival by arrival: a whole echo, and an ack (kind 2) that
      no whole echo comes before. */
  lemma {:induction false} WhatIsHeard(arrivals: seq<Arrival>, q: nat, size: nat)
    ensures HearsEcho(arrivals, q, size) <==> exists k :: 0 <= k < |arrivals| && WholeEcho(arrivals, k, q, size)
    ensures HearsAck(arrivals, q, size) <==>
      exists k :: 0 <= k < |arrivals| && Names(arrivals, k, 2, q, size) && forall j :: 0 <= j < k ==> !WholeEcho(arrivals, j, q, size)
  {
    forall k | 0 <= k < |arrivals|
      ensures IsEcho(arrivals[k], q, size) <==> WholeEcho(arrivals, k, q, size)
      ensures IsAck(arrivals[k], q, size) <==> Names(arrivals, k, 2, q, size)
      ensures HearsEcho(arrivals[..k], q, size) <==> exists j :: 0 <= j < k && WholeEcho(arrivals, j, q, size)
    {
      EchoBefore(arrivals, k, q, size);
    }
  }

  lemma {:induction false} HeardEcho(arrivals: seq<Arrival>, q: nat, size: nat) returns (k: nat)
    requires HearsEcho(arrivals, q, size)
    ensures k < |arrivals| && IsEcho(arrivals[k], q, size) && WholeEcho(arrivals, k, q, size)
  {
    k :| 0 <= k < |arrivals| && IsEcho(arrivals[k], q, size);
  }

  lemma {:induction false} EchoBefore(arrivals: seq<Arrival>, k: nat, q: nat, size: nat)
    requires k <= |arrivals|
    ensures HearsEcho(arrivals[..k], q, size) <==> exists j :: 0 <= j < k && WholeEcho(arrivals, j, q, size)
  {
    forall j | 0 <= j < k
      ensures IsEcho(arrivals[..k][j], q, size) <==> WholeEcho(arrivals, j, q, size)
    {
      assert arrivals[..k][j] == arrivals[j];
    }
  }

  method CollectReplies(arrivals: seq<Arrival>, q: nat, size: nat) returns (gotAck: bool, gotEcho: bool)
    ensures gotEcho <==> HearsEcho(arrivals, q, size)
    ensures gotAck <==> HearsAck(arrivals, q, size)
  {
    gotAck, gotEcho := false, false;
    var k := 0;
    while !gotEcho && k < |arrivals|
      invariant 0 <= k <= |arrivals|
      invariant gotEcho <==> HearsEcho(arrivals[..k], q, size)
      invariant gotAck <==> HearsAck(arrivals[..k], q, size)
    {
      HearOneMore(arrivals, k, q, size);
      match arrivals[k] {
        case RecvError =>
        case Datagram(bytes) =>
          var reply := Decode(bytes);
          if reply.Some? && reply.value.seqno == q && reply.value.declaredSize == size {
            if reply.value.kind == PROBE_KIND_ACK {
              gotAck := true;
            } else if reply.value.kind == PROBE_KIND_ECHO && |bytes| == size {
              gotEcho := true;
            }
          }
      }
      k := k + 1;
    }
    if gotEcho {
      EchoEnds(arrivals, k, q, size);
    } else {
      assert arrivals[..k] == arrivals;
    }
  }

  // ----- one size -----

  predicate Echoed(net: Network, q: nat, size: nat) {
    net(q).Sent? && HearsEcho(net(q).arrivals, q, size)
  }

  /** An echo proves the probe arrived, even when its ack was lost. */
  predicate Heard(net: Network, q: nat, size: nat) {
    net(q).Sent? && (HearsAck(net(q).arrivals, q, size) || HearsEcho(net(q).arrivals, q, size))
  }

  /** How many of the `n` attempts after `first` were heard. */
  function HeardCount(net: Network, first: nat, n: nat, size: nat): nat {
    if n == 0 then 0 else HeardCount(net, first, n - 1, size) + if Heard(net, first + n, size) then 1 else 0
  }

  function Those(p: nat -> bool, after: nat, last: nat): set<nat> {
    set q: nat | after < q <= last && p(q)
  }

  lemma {:induction false} OneMoreOfThose(p: nat -> bool, after: nat, last: nat)
    requires after <= last
    ensures |Those(p, after, last + 1)| == |Those(p, after, last)| + if p(last + 1) then 1 else 0
  {
    if p(last + 1) {
      assert Those(p, after, last + 1) == Those(p, after, last) + {last + 1};
    } else {
      assert Those(p, after, last + 1) == Those(p, after, last);
    }
  }

  /** The attempts heard at one size. */
  function HeardAt(net: Network, size: nat): nat -> bool {
    (q: nat) => Heard(net, q, size)
  }

  /** The count is of the attempts heard, each counted once. */
  lemma {:induction false} HeardCountIsExact(net: Network, first: nat, n: nat, size: nat)
    ensures HeardCount(net, first, n, size) == |Those(HeardAt(net, size), first, first + n)|
  {
    var p := HeardAt(net, size);
    if n == 0 {
      assert Those(p, first, first) == {};
    } else {
      HeardCountIsExact(net, first, n - 1, size);
      OneMoreOfThose(p, first, first + n - 1);
    }
  }

  lemma {:induction false} HeardCountPositive(net: Network, first: nat, n: nat, size: nat)
    requires HeardCount(net, first, n, size) > 0
    ensures exists q :: first < q <= first + n && Heard(net, q, size)
  {
    if !Heard(net, first + n, size) {
      HeardCountPositive(net, first, n - 1, size);
    }
  }

  datatype SizeResult = SizeResult(
    payload: nat, forwardOk: nat, reverseOk: nat, attempts: nat, forward: Verdict, reverse: Verdict)

  /** What holds of every row of the report. */
  predicate RecordOk(r: SizeResult) {
    && r.reverseOk <= 1 && r.reverseOk <= r.forwardOk <= r.attempts
    && 1 <= r.attempts <= 3
    && !r.forward.Untested? && !r.reverse.LocalLimit?
    && (r.reverse.Pass? ==> r.forward.Pass?)
    && (r.reverse.Untested? <==> !r.forward.Pass?)
    && (r.reverse.Pass? <==> r.reverseOk == 1)
  }

  /** Attempts go on until one echoes, one is refused locally, or three are made. */
  predicate Ends(net: Network, q: nat, size: nat) {
    net(q).TooLarge? || Echoed(net, q, size)
  }

  predicate NoneEnds(net: Network, first: nat, last: nat, size: nat) {
    forall q :: first < q < last ==> !Ends(net, q, size)
  }

  /** A row says what the network did to its attempts `first + 1 .. first + attempts`. */
  predicate Explains(net: Network, r: SizeResult, first: nat) {
    var last := first + r.attempts;
    && r.attempts >= 1
    && NoneEnds(net, first, last, r.payload)
    && (r.attempts == 3 || Ends(net, last, r.payload))
    && r.forwardOk == HeardCount(net, first, r.attempts, r.payload)
    && (r.forward.LocalLimit? <==> net(last).TooLarge?)
    && (r.forward.Pass? <==> !net(last).TooLarge? && r.forwardOk > 0)
    && (r.reverse.Pass? <==> Echoed(net, last, r.payload))
  }

  /** Attempt `q` sent `log[q - 1]`, a whole probe packet with its own sequence number. */
  predicate Logged(log: seq<seq<byte>>, q: nat, size: nat) {
    1 <= q <= |log| && IsWire(log[q - 1], Packet(PROBE_KIND_PROBE, q, size))
  }

  predicate LogsSize(log: seq<seq<byte>>, first: nat, size: nat) {
    forall q :: first < q <= |log| ==> Logged(log, q, size)
  }

  /** The log goes on with probes of this size up to attempt `last`. */
  predicate LogsOn(log: seq<seq<byte>>, log': seq<seq<byte>>, last: nat, size: nat) {
    |log| <= |log'| == last && log'[..|log|] == log && LogsSize(log', |log|, size)
  }

  lemma {:induction false} LogOneMore(log: seq<seq<byte>>, log': seq<seq<byte>>, wire: seq<byte>, size: nat)
    requires LogsOn(log, log', |log'|, size) && IsWire(wire, Packet(PROBE_KIND_PROBE, |log'| + 1, size))
    ensures LogsOn(log, log' + [wire], |log'| + 1, size)
  {
    forall q | |log| < q <= |log'| + 1
      ensures Logged(log' + [wire], q, size)
    {
      if q <= |log'| {
        assert Logged(log', q, size);
      }
    }
  }

  /** Encode the probe of attempt `q` and hand the bytes to the socket. */
  method SendProbe(socket: Socket, q: nat, size: nat, sendBuf: array<byte>, ghost log: seq<seq<byte>>)
    returns (a: Attempt)
    requires PROBE_HEADER_SIZE <= size <= sendBuf.Length <= U16_MAX && 0 < q <= U32_MAX
    requires LogsOn(log, socket.sent, q - 1, size)
    modifies socket, sendBuf
    ensures a == socket.net(q)
    ensures exists wire :: socket.sent == old(socket.sent) + [wire] && IsWire(wire, Packet(PROBE_KIND_PROBE, q, size))
    ensures LogsOn(log, socket.sent, q, size)
  {
    var length := Encode(Packet(PROBE_KIND_PROBE, q, size % (U16_MAX + 1)), sendBuf);
    assert length.Some?; // the driver's `expect` never fails
    LogOneMore(log, socket.sent, sendBuf[..length.value], size);
    a := socket.Send(sendBuf[..length.value]);
  }

  /** One attempt: whether it was refused locally, heard, and echoed. */
  method Try(socket: Socket, q: nat, size: nat, sendBuf: array<byte>, ghost log: seq<seq<byte>>)
    returns (refused: bool, heard: bool, echoed: bool)
    requires PROBE_HEADER_SIZE <= size <= sendBuf.Length <= U16_MAX && 0 < q <= U32_MAX
    requires LogsOn(log, socket.sent, q - 1, size)
    modifies socket, sendBuf
    ensures refused == socket.net(q).TooLarge?
    ensures heard == Heard(socket.net, q, size) && echoed == Echoed(socket.net, q, size)
    ensures LogsOn(log, socket.sent, q, size)
  {
    refused, heard, echoed := false, false, false;
    var attempt := SendProbe(socket, q, size, sendBuf, log);
    match attempt {
      case TooLarge => refused := true;
      case SendFailed => // a lost attempt
      case Sent(arrivals) =>
        var gotAck, gotEcho := CollectReplies(arrivals, q, size);
        heard, echoed := gotAck || gotEcho, gotEcho;
    }
  }

  /** The counters after `n` attempts, only the last of which may have ended them. */
  predicate Tried(net: Network, size: nat, first: nat, n: nat, forwardOk: nat, refused: bool, echoed: bool) {
    && forwardOk == HeardCount(net, first, n, size) <= n
    && NoneEnds(net, first, first + n, size)
    && refused == (n > 0 && net(first + n).TooLarge?)
    && echoed == (n > 0 && Echoed(net, first + n, size))
    && (echoed ==> forwardOk > 0)
  }

  lemma {:induction false} TryOneMore(net: Network, size: nat, first: nat, n: nat, forwardOk: nat)
    requires Tried(net, size, first, n, forwardOk, false, false)
    ensures var q := first + n + 1;
      Tried(net, size, first, n + 1, forwardOk + (if Heard(net, q, size) then 1 else 0), net(q).TooLarge?, Echoed(net, q, size))
  {
    assert n > 0 ==> !Ends(net, first + n, size);
  }

  lemma {:induction false} TriedExplains(net: Network, first: nat, r: SizeResult, refused: bool, echoed: bool)
    requires 0 < r.attempts <= PROBES_PER_SIZE && (r.attempts == PROBES_PER_SIZE || refused || echoed)
    requires Tried(net, r.payload, first, r.attempts, r.forwardOk, refused, echoed)
    requires r.reverseOk == if echoed then 1 else 0
    requires r.forward == if refused then LocalLimit else if r.forwardOk > 0 then Pass else Fail
    requires r.reverse == if r.reverseOk > 0 then Pass else if r.forward.Pass? then Fail else Untested
    ensures RecordOk(r) && Explains(net, r, first)
  {
  }

  method ProbeSize(socket: Socket, size: nat, first: nat, sendBuf: array<byte>) returns (r: SizeResult, last: nat)
    requires PROBE_HEADER_SIZE <= size <= sendBuf.Length <= U16_MAX
    requires first + PROBES_PER_SIZE <= U32_MAX && |socket.sent| == first
    modifies socket, sendBuf
    ensures RecordOk(r) && r.payload == size
    ensures last == first + r.attempts && Explains(socket.net, r, first)
    ensures LogsOn(old(socket.sent), socket.sent, last, size)
  {
    var forwardOk, reverseOk, attempts := 0, 0, 0;
    var localLimit, echoed := false, false;
    var q := first;
    while attempts < PROBES_PER_SIZE && !localLimit && !echoed
      invariant 0 <= attempts <= PROBES_PER_SIZE && q == first + attempts
      invariant reverseOk == if echoed then 1 else 0
      invariant Tried(socket.net, size, first, attempts, forwardOk, localLimit, echoed)
      invariant LogsOn(old(socket.sent), socket.sent, q, size)
      decreases PROBES_PER_SIZE - attempts
    {
      TryOneMore(socket.net, size, first, attempts, forwardOk);
      attempts := attempts + 1;
      q := (q + 1) % (U32_MAX + 1); // wrapping_add
      var heard;
      localLimit, heard, echoed := Try(socket, q, size, sendBuf, old(socket.sent));
      if heard {
        forwardOk := forwardOk + 1;
      }
      if echoed {
        reverseOk := reverseOk + 1;
      }
    }
    var forward := if localLimit then LocalLimit else if forwardOk > 0 then Pass else Fail;
    var reverse := if reverseOk > 0 then Pass else if forward.Pass? then Fail else Untested;
    r := SizeResult(size, forwardOk, reverseOk, attempts, forward, reverse);
    TriedExplains(socket.net, first, r, localLimit, echoed);
    last := q;
  }

  // ----- the whole probe -----

  datatype Report = Report(
    forwardMax: Option<nat>, reverseMax: Option<nat>,
    forwardPathMtu: Option<nat>, reversePathMtu: Option<nat>,
    ipv6: bool, sizes: seq<SizeResult>)

  /** The forward verdicts, which are what steers the search. */
  function History(sizes: seq<SizeResult>): seq<Probe> {
    seq(|sizes|, i requires 0 <= i < |sizes| => Probe(sizes[i].payload, sizes[i].forward))
  }

  /** Attempts made before row `i`; the row's own are numbered from there. */
  function AttemptsBefore(sizes: seq<SizeResult>, i: nat): nat
    requires i <= |sizes|
  {
    if i == 0 then 0 else AttemptsBefore(sizes, i - 1) + sizes[i - 1].attempts
  }

  lemma {:induction false} AttemptsBeforePrefix(sizes: seq<SizeResult>, r: SizeResult, i: nat)
    requires i <= |sizes|
    ensures AttemptsBefore(sizes + [r], i) == AttemptsBefore(sizes, i)
  {
    if i > 0 {
      AttemptsBeforePrefix(sizes, r, i - 1);
    }
  }

  /** `best` is the largest payload whose row passed in one direction. */
  predicate IsLargest(best: Option<nat>, sizes: seq<SizeResult>, passed: SizeResult -> bool) {
    && (best.None? ==> forall i :: 0 <= i < |sizes| ==> !passed(sizes[i]))
    && (best.Some? ==> exists i :: 0 <= i < |sizes| && passed(sizes[i]) && sizes[i].payload == best.value)
    && (best.Some? ==> forall i :: 0 <= i < |sizes| && passed(sizes[i]) ==> sizes[i].payload <= best.value)
  }

  /** Attempt `q` belongs to row `i`. */
  predicate InRow(sizes: seq<SizeResult>, i: nat, q: nat)
    requires i < |sizes|
  {
    AttemptsBefore(sizes, i) < q <= AttemptsBefore(sizes, i) + sizes[i].attempts
  }

  /** Every attempt of a row sent a probe of the row's size. */
  ghost predicate RowsLogged(sizes: seq<SizeResult>, log: seq<seq<byte>>) {
    && |log| == AttemptsBefore(sizes, |sizes|)
    && forall i, q :: 0 <= i < |sizes| && InRow(sizes, i, q) ==> Logged(log, q, sizes[i].payload)
  }

  predicate RowsExplained(net: Network, sizes: seq<SizeResult>) {
    forall i :: 0 <= i < |sizes| ==> RowExplained(net, sizes, i)
  }

  predicate RowExplained(net: Network, sizes: seq<SizeResult>, i: nat)
    requires i < |sizes|
  {
    RecordOk(sizes[i]) && Explains(net, sizes[i], AttemptsBefore(sizes, i))
  }

  /** Growing the table by one row keeps the rows numbered, logged and explained. */
  lemma {:induction false} AddRowLogged(sizes: seq<SizeResult>, r: SizeResult, log: seq<seq<byte>>, log': seq<seq<byte>>)
    requires RowsLogged(sizes, log)
    requires LogsOn(log, log', |log| + r.attempts, r.payload)
    ensures RowsLogged(sizes + [r], log')
  {
    var sizes', n := sizes + [r], |sizes|;
    forall i | 0 <= i <= n
      ensures AttemptsBefore(sizes', i) == AttemptsBefore(sizes, i)
    {
      AttemptsBeforePrefix(sizes, r, i);
    }
    forall i, q | 0 <= i <= n && InRow(sizes', i, q)
      ensures Logged(log', q, sizes'[i].payload)
    {
      if i < n {
        assert InRow(sizes, i, q) && Logged(log, q, sizes[i].payload);
        assert log'[q - 1] == log'[..|log|][q - 1];
      } else {
        assert Logged(log', q, r.payload);
      }
    }
  }

  lemma {:induction false} AddRowExplained(net: Network, sizes: seq<SizeResult>, r: SizeResult)
    requires RowsExplained(net, sizes) && RecordOk(r) && Explains(net, r, AttemptsBefore(sizes, |sizes|))
    ensures RowsExplained(net, sizes + [r])
  {
    forall i | 0 <= i <= |sizes|
      ensures RowExplained(net, sizes + [r], i)
    {
      AttemptsBeforePrefix(sizes, r, i);
      if i < |sizes| {
        assert RowExplained(net, sizes, i);
        assert (sizes + [r])[i] == sizes[i];
      }
    }
  }

  lemma {:induction false} NewLargest(best: Option<nat>, sizes: seq<SizeResult>, r: SizeResult, passed: SizeResult -> bool)
    requires IsLargest(best, sizes, passed)
    ensures IsLargest(if passed(r) && (best.None? || r.payload > best.value) then Some(r.payload) else best, sizes + [r], passed)
  {
    var sizes' := sizes + [r];
    assert sizes'[|sizes|] == r;
    if best.Some? {
      var i :| 0 <= i < |sizes| && passed(sizes[i]) && sizes[i].payload == best.value;
      assert sizes'[i] == sizes[i];
    }
  }

  predicate ForwardPassed(r: SizeResult) {
    r.forward.Pass?
  }

  predicate ReversePassed(r: SizeResult) {
    r.reverse.Pass?
  }

  /** The table of rows so far, after `q` attempts. */
  ghost predicate Table(net: Network, sizes: seq<SizeResult>, log: seq<seq<byte>>, q: nat, reverseMax: Option<nat>) {
    && RowsExplained(net, sizes) && RowsLogged(sizes, log)
    && |log| == q <= PROBES_PER_SIZE * |sizes|
    && IsLargest(reverseMax, sizes, ReversePassed)
  }

  lemma {:induction false} AddRow(net: Network, sizes: seq<SizeResult>, r: SizeResult, log: seq<seq<byte>>,
                                  log': seq<seq<byte>>, reverseMax: Option<nat>)
    requires Table(net, sizes, log, |log|, reverseMax)
    requires RecordOk(r) && Explains(net, r, |log|) && LogsOn(log, log', |log| + r.attempts, r.payload)
    ensures Table(net, sizes + [r], log', |log'|,
                  if r.reverse.Pass? && (reverseMax.None? || r.payload > reverseMax.value) then Some(r.payload) else reverseMax)
  {
    NewLargest(reverseMax, sizes, r, ReversePassed);
    AddRowLogged(sizes, r, log, log');
    AddRowExplained(net, sizes, r);
  }

  lemma {:induction false} FamilyIsLadder(ipv6: bool)
    ensures IsLadder(SizeLadder(ipv6))
  {
    LadderBracketsTheRange(ipv6);
  }

  /** The search has taken in these rows and asks for `next`. */
  ghost predicate Searching(search: SizeSearch, ladder: seq<nat>, next: Option<nat>, sizes: seq<SizeResult>)
    reads search
  {
    && search.Valid() && search.pending == next && search.ladder == ladder
    && search.history == History(sizes) && next == NextOf(After(Start(ladder), search.history)).1
  }

  /** Record a row and ask for the next size. */
  method Advance(search: SizeSearch, ghost ladder: seq<nat>, size: nat, ghost sizes: seq<SizeResult>, r: SizeResult)
    returns (next: Option<nat>)
    requires Searching(search, ladder, Some(size), sizes) && r.payload == size && !r.forward.Untested?
    modifies search
    ensures Searching(search, ladder, next, sizes + [r])
  {
    HistoryAppend(sizes, r);
    search.Record(size, r.forward);
    next := search.NextSize();
  }

  /** Probe one size and add its row to the table. */
  method MeasureSize(socket: Socket, size: nat, q: nat, sendBuf: array<byte>, ghost sizes: seq<SizeResult>, best: Option<nat>)
    returns (r: SizeResult, last: nat, reverseMax: Option<nat>)
    requires PROBE_HEADER_SIZE <= size <= sendBuf.Length <= U16_MAX && q + PROBES_PER_SIZE <= U32_MAX
    requires Table(socket.net, sizes, socket.sent, q, best)
    modifies socket, sendBuf
    ensures r.payload == size && !r.forward.Untested?
    ensures Table(socket.net, sizes + [r], socket.sent, last, reverseMax)
  {
    ghost var log := socket.sent;
    r, last := ProbeSize(socket, size, q, sendBuf);
    AddRow(socket.net, sizes, r, log, socket.sent, best);
    reverseMax := if r.reverse.Pass? && (best.None? || size > best.value) then Some(size) else best;
  }

  /** Run the size search against the network. */
  method ProbeSizes(socket: Socket, ipv6: bool)
    returns (sizes: seq<SizeResult>, forwardMax: Option<nat>, reverseMax: Option<nat>)
    requires socket.sent == []
    modifies socket
    ensures IsComplete(SizeLadder(ipv6), History(sizes))
    ensures Table(socket.net, sizes, socket.sent, |socket.sent|, reverseMax)
    ensures |socket.sent| <= PROBES_PER_SIZE * ProbeLimit(ipv6)
    ensures forwardMax == ForwardMax(SizeLadder(ipv6), History(sizes))
  {
    FamilyIsLadder(ipv6);
    ghost var ladder := SizeLadder(ipv6);
    var search := new SizeSearch(ipv6);
    sizes, reverseMax := [], None;
    var sendBuf := new byte[MAX_PROBE_PAYLOAD];
    var q := 0;
    var next := search.NextSize();
    while next.Some?
      invariant Searching(search, ladder, next, sizes)
      invariant Table(socket.net, sizes, socket.sent, q, reverseMax) && |sizes| <= ProbeLimit(ipv6)
      decreases ProbeLimit(ipv6) - |sizes|
    {
      NextProbe(ipv6, search.history, next.value);
      var r;
      r, q, reverseMax := MeasureSize(socket, next.value, q, sendBuf, sizes, reverseMax);
      next := Advance(search, ladder, next.value, sizes, r);
      sizes := sizes + [r];
      AtMostNineteenProbes(ipv6, search.history);
    }
    forwardMax := search.ForwardMaximum();
  }

  /** Probe the path and assemble the report. */
  method RunProbe(socket: Socket, ipv6: bool) returns (report: Report)
    requires socket.sent == []
    modifies socket
    ensures report.ipv6 == ipv6
    ensures RowsAreRight(socket.net, socket.sent, report)
    ensures report.forwardPathMtu == PathMtu(report.forwardMax, ipv6)
    ensures report.reversePathMtu == PathMtu(report.reverseMax, ipv6)
    ensures FindsThePath(socket.net, socket.sent, ipv6, report.forwardPathMtu, report.reversePathMtu)
    // Sequence numbers 1, 2, ... never wrap.
    ensures |socket.sent| <= if ipv6 then 54 else 57
  {
    var sizes, forwardMax, reverseMax := ProbeSizes(socket, ipv6);
    report := Report(forwardMax, reverseMax, PathMtu(forwardMax, ipv6), PathMtu(reverseMax, ipv6), ipv6, sizes);
    ReportsRows(socket.net, socket.sent, report);
    ReportsThePath(socket.net, socket.sent, report);
  }

  /** The rows are a complete search, every row explains its attempts, and the
      maxima are those of the rows. */
  ghost predicate RowsAreRight(net: Network, log: seq<seq<byte>>, report: Report) {
    && IsComplete(SizeLadder(report.ipv6), History(report.sizes))
    && Table(net, report.sizes, log, |log|, report.reverseMax)
    && report.forwardMax == ForwardMax(SizeLadder(report.ipv6), History(report.sizes))
    && IsLargest(report.forwardMax, report.sizes, ForwardPassed)
    && (report.reverseMax.Some? ==> report.forwardMax.Some? && report.reverseMax.value <= report.forwardMax.value)
  }

  /** The report as the driver assembles it. */
  ghost predicate Assembled(net: Network, log: seq<seq<byte>>, report: Report) {
    && IsComplete(SizeLadder(report.ipv6), History(report.sizes))
    && Table(net, report.sizes, log, |log|, report.reverseMax)
    && report.forwardMax == ForwardMax(SizeLadder(report.ipv6), History(report.sizes))
    && report.forwardPathMtu == PathMtu(report.forwardMax, report.ipv6)
    && report.reversePathMtu == PathMtu(report.reverseMax, report.ipv6)
  }

  lemma {:induction false} ReportsRows(net: Network, log: seq<seq<byte>>, report: Report)
    requires Assembled(net, log, report)
    ensures RowsAreRight(net, log, report)
  {
    FamilyIsLadder(report.ipv6);
    ForwardMaxOfRows(SizeLadder(report.ipv6), report.sizes);
    ReverseBelowForward(net, report.sizes, report.forwardMax, report.reverseMax);
  }

  lemma {:induction false} ReportsThePath(net: Network, log: seq<seq<byte>>, report: Report)
    requires Assembled(net, log, report)
    ensures FindsThePath(net, log, report.ipv6, report.forwardPathMtu, report.reversePathMtu)
  {
    PathIsFound(net, report.sizes, log, report.ipv6, report.reverseMax);
  }

  /** The conventional path MTU of a payload: with its IP and UDP headers. */
  function PathMtu(payload: Option<nat>, ipv6: bool): (mtu: Option<nat>)
    ensures mtu.Some? <==> payload.Some?
    ensures mtu.Some? ==> mtu.value == payload.value + if ipv6 then 48 else 28
  {
    match payload
    case None => None
    case Some(p) => Some(p + IpOverhead(ipv6))
  }

  /** Attempt `q` went out and was heard of exactly when its datagram, with its
      IP and UDP headers, is at most `w` bytes; only longer ones are refused. */
  predicate Carried(net: Network, log: seq<seq<byte>>, ipv6: bool, w: nat, q: nat)
    requires 1 <= q <= |log|
  {
    var size := |log[q - 1]|;
    var wire := size + if ipv6 then 48 else 28;
    (Heard(net, q, size) <==> wire <= w) && (net(q).TooLarge? ==> wire > w)
  }

  /** A path of MTU `w`: it carries every datagram up to that and no longer one. */
  predicate PathOf(net: Network, log: seq<seq<byte>>, ipv6: bool, w: nat) {
    forall q :: 1 <= q <= |log| ==> Carried(net, log, ipv6, w, q)
  }

  /** Every probe that is heard of is heard of by its echo. */
  predicate EchoesReturn(net: Network, log: seq<seq<byte>>) {
    forall q :: 1 <= q <= |log| ==> Returns(net, log, q)
  }

  predicate Returns(net: Network, log: seq<seq<byte>>, q: nat)
    requires 1 <= q <= |log|
  {
    var size := |log[q - 1]|;
    Heard(net, q, size) ==> Echoed(net, q, size)
  }

  /** Over a path of MTU `w` the forward path MTU reported is `w`, within the
      family's range; when echoes return, so is the reverse one. */
  ghost predicate FindsThePath(net: Network, log: seq<seq<byte>>, ipv6: bool, forward: Option<nat>, reverse: Option<nat>) {
    && (forall w: nat :: PathOf(net, log, ipv6, w) ==>
          forward == if w < (if ipv6 then 1280 else 576) then None else Some(if w < 9216 then w else 9216))
    && (EchoesReturn(net, log) ==> reverse == forward)
  }

  lemma {:induction false} RowAttempt(net: Network, sizes: seq<SizeResult>, log: seq<seq<byte>>, i: nat, q: nat)
    requires RowsLogged(sizes, log) && i < |sizes| && InRow(sizes, i, q)
    ensures 1 <= q <= |log| && |log[q - 1]| == sizes[i].payload
  {
    assert Logged(log, q, sizes[i].payload);
  }

  /** Over such a path a row passes exactly when its size fits. */
  lemma {:induction false} RowFits(net: Network, sizes: seq<SizeResult>, log: seq<seq<byte>>, ipv6: bool, w: nat, i: nat)
    requires RowsExplained(net, sizes) && RowsLogged(sizes, log) && PathOf(net, log, ipv6, w) && i < |sizes|
    ensures sizes[i].forward.Pass? <==> sizes[i].payload + (if ipv6 then 48 else 28) <= w
  {
    var first, r := AttemptsBefore(sizes, i), sizes[i];
    var last := first + r.attempts;
    assert RowExplained(net, sizes, i);
    RowAttempt(net, sizes, log, i, last);
    assert Carried(net, log, ipv6, w, last);
    if r.forwardOk > 0 {
      HeardCountPositive(net, first, r.attempts, r.payload);
      var q :| first < q <= last && Heard(net, q, r.payload);
      RowAttempt(net, sizes, log, i, q);
      assert Carried(net, log, ipv6, w, q);
    }
  }

  /** When echoes come back, a row that passed one way passed both. */
  lemma {:induction false} RowReturns(net: Network, sizes: seq<SizeResult>, log: seq<seq<byte>>, i: nat)
    requires RowsExplained(net, sizes) && RowsLogged(sizes, log) && EchoesReturn(net, log) && i < |sizes|
    ensures sizes[i].reverse.Pass? <==> sizes[i].forward.Pass?
  {
    var first, r := AttemptsBefore(sizes, i), sizes[i];
    var last := first + r.attempts;
    assert RowExplained(net, sizes, i);
    if r.forward.Pass? {
      HeardCountPositive(net, first, r.attempts, r.payload);
      var q :| first < q <= last && Heard(net, q, r.payload);
      RowAttempt(net, sizes, log, i, q);
      assert Returns(net, log, q) && Ends(net, q, r.payload);
    }
  }

  lemma {:induction false} ReverseIsForward(net: Network, sizes: seq<SizeResult>, log: seq<seq<byte>>,
                                            forwardMax: Option<nat>, reverseMax: Option<nat>)
    requires RowsExplained(net, sizes) && RowsLogged(sizes, log) && EchoesReturn(net, log)
    requires IsLargest(forwardMax, sizes, ForwardPassed) && IsLargest(reverseMax, sizes, ReversePassed)
    ensures reverseMax == forwardMax
  {
    forall i | 0 <= i < |sizes|
      ensures ReversePassed(sizes[i]) == ForwardPassed(sizes[i])
    {
      RowReturns(net, sizes, log, i);
    }
  }

  lemma {:induction false} PathMtuIsFound(net: Network, sizes: seq<SizeResult>, log: seq<seq<byte>>, ipv6: bool, w: nat)
    requires RowsExplained(net, sizes) && RowsLogged(sizes, log) && PathOf(net, log, ipv6, w)
    requires IsComplete(SizeLadder(ipv6), History(sizes))
    ensures PathMtu(ForwardMax(SizeLadder(ipv6), History(sizes)), ipv6)
         == if w < (if ipv6 then 1280 else 576) then None else Some(if w < 9216 then w else 9216)
  {
    var h := History(sizes);
    LadderBracketsTheRange(ipv6);
    NeverProbesTwice(SizeLadder(ipv6), h);
    var limit := SatSub(w, IpOverhead(ipv6));
    forall i | 0 <= i < |h|
      ensures h[i].verdict.Pass? <==> h[i].size <= limit
    {
      RowFits(net, sizes, log, ipv6, w, i);
      assert h[i] == Probe(sizes[i].payload, sizes[i].forward);
    }
    FindsThePathLimit(ipv6, h, limit);
  }

  lemma {:induction false} PathIsFound(net: Network, sizes: seq<SizeResult>, log: seq<seq<byte>>, ipv6: bool,
                                       reverseMax: Option<nat>)
    requires RowsExplained(net, sizes) && RowsLogged(sizes, log) && IsComplete(SizeLadder(ipv6), History(sizes))
    requires IsLargest(reverseMax, sizes, ReversePassed)
    ensures FindsThePath(net, log, ipv6, PathMtu(ForwardMax(SizeLadder(ipv6), History(sizes)), ipv6), PathMtu(reverseMax, ipv6))
  {
    var forwardMax := ForwardMax(SizeLadder(ipv6), History(sizes));
    forall w: nat | PathOf(net, log, ipv6, w)
      ensures PathMtu(forwardMax, ipv6) == if w < (if ipv6 then 1280 else 576) then None else Some(if w < 9216 then w else 9216)
    {
      PathMtuIsFound(net, sizes, log, ipv6, w);
    }
    if EchoesReturn(net, log) {
      FamilyIsLadder(ipv6);
      ForwardMaxOfRows(SizeLadder(ipv6), sizes);
      ReverseIsForward(net, sizes, log, forwardMax, reverseMax);
    }
  }

  lemma {:induction false} HistoryAppend(sizes: seq<SizeResult>, r: SizeResult)
    ensures History(sizes + [r]) == History(sizes) + [Probe(r.payload, r.forward)]
  {
  }

  lemma {:induction false} ReverseBelowForward(net: Network, sizes: seq<SizeResult>, forwardMax: Option<nat>, reverseMax: Option<nat>)
    requires RowsExplained(net, sizes)
    requires IsLargest(forwardMax, sizes, ForwardPassed) && IsLargest(reverseMax, sizes, ReversePassed)
    ensures reverseMax.Some? ==> forwardMax.Some? && reverseMax.value <= forwardMax.value
  {
    if reverseMax.Some? {
      var i :| 0 <= i < |sizes| && ReversePassed(sizes[i]) && sizes[i].payload == reverseMax.value;
      assert RowExplained(net, sizes, i);
      assert ForwardPassed(sizes[i]);
    }
  }

  /** What the search asks next fits the send buffer and has room to be recorded. */
  lemma {:induction false} NextProbe(ipv6: bool, h: seq<Probe>, size: nat)
    requires IsRun(SizeLadder(ipv6), h) && NextOf(After(Start(SizeLadder(ipv6)), h)).1 == Some(size)
    ensures PROBE_HEADER_SIZE <= size <= MAX_PROBE_PAYLOAD && |h| < ProbeLimit(ipv6)
  {
    LadderBracketsTheRange(ipv6);
    var p := Probe(size, Pass);
    RunsOne(After(Start(SizeLadder(ipv6)), h), p);
    RunsConcat(Start(SizeLadder(ipv6)), h, [p]);
    NeverProbesTwice(SizeLadder(ipv6), h + [p]);
    assert (h + [p])[|h|] == p;
    AtMostNineteenProbes(ipv6, h + [p]);
  }

  lemma {:induction false} ForwardMaxOfRows(ladder: seq<nat>, sizes: seq<SizeResult>)
    requires IsLadder(ladder) && IsRun(ladder, History(sizes))
    ensures IsLargest(ForwardMax(ladder, History(sizes)), sizes, ForwardPassed)
  {
    var h := History(sizes);
    ForwardMaxIsLargestPass(ladder, h);
    assert forall i :: 0 <= i < |sizes| ==> h[i] == Probe(sizes[i].payload, sizes[i].forward);
  }

  // ----- soundness over a lossy network -----

  /** The network may drop, duplicate, delay, reorder and cut datagrams short.
      It delivers to the server only what the client managed to send, and a
      packet the client can decode is the server's answer, with the same
      sequence number and size, to a probe that reached it. */
  predicate Honest(net: Network, log: seq<seq<byte>>, reached: set<seq<byte>>) {
    && (forall d <- reached :: exists q :: 1 <= q <= |log| && net(q).Sent? && d == log[q - 1])
    && (forall q, k :: 1 <= q <= |log| && net(q).Sent? && 0 <= k < |net(q).arrivals| && net(q).arrivals[k].Datagram? ==>
          Answered(net(q).arrivals[k].bytes, reached))
  }

  predicate Answered(bytes: seq<byte>, reached: set<seq<byte>>) {
    Decode(bytes).Some? ==>
      var p := Decode(bytes).value;
      exists d <- reached :: Decode(d) == Some(Packet(PROBE_KIND_PROBE, p.seqno, p.declaredSize))
  }

  /** The probe of attempt `q` reached the server. */
  predicate Reached(log: seq<seq<byte>>, reached: set<seq<byte>>, q: nat, size: nat) {
    1 <= q <= |log| && log[q - 1] in reached && |log[q - 1]| == size
  }

  lemma {:induction false} AnswerNamesItsProbe(net: Network, sizes: seq<SizeResult>, log: seq<seq<byte>>, reached: set<seq<byte>>,
                                               i: nat, q: nat, k: nat)
    requires RowsLogged(sizes, log) && Honest(net, log, reached) && |log| <= U32_MAX
    requires i < |sizes| && InRow(sizes, i, q)
    requires net(q).Sent? && k < |net(q).arrivals|
    requires IsAck(net(q).arrivals[k], q, sizes[i].payload) || IsEcho(net(q).arrivals[k], q, sizes[i].payload)
    ensures Reached(log, reached, q, sizes[i].payload)
  {
    var size := sizes[i].payload;
    assert Logged(log, q, size);
    assert Answered(net(q).arrivals[k].bytes, reached);
    var d :| d in reached && Decode(d) == Some(Packet(PROBE_KIND_PROBE, q, size));
    var q' :| 1 <= q' <= |log| && net(q').Sent? && d == log[q' - 1];
    var i' := RowOf(sizes, |sizes|, q');
    assert Logged(log, q', sizes[i'].payload);
    EncodeDecode(log[q' - 1], Packet(PROBE_KIND_PROBE, q', sizes[i'].payload));
    assert q' == q;
  }

  /** The row an attempt belongs to. */
  lemma {:induction false} RowOf(sizes: seq<SizeResult>, n: nat, q: nat) returns (i: nat)
    requires n <= |sizes| && 1 <= q <= AttemptsBefore(sizes, n)
    ensures i < n && InRow(sizes, i, q)
  {
    if q > AttemptsBefore(sizes, n - 1) {
      i := n - 1;
    } else {
      i := RowOf(sizes, n - 1, q);
    }
  }

  /** A forward Pass at size `s` means an `s`-byte probe, sent for that very row,
      reached the server. No reply to an earlier attempt is ever credited. */
  lemma {:induction false} ForwardPassIsReal(net: Network, sizes: seq<SizeResult>, log: seq<seq<byte>>, reached: set<seq<byte>>, i: nat)
    requires RowsExplained(net, sizes) && RowsLogged(sizes, log) && |log| <= U32_MAX
    requires Honest(net, log, reached) && i < |sizes| && sizes[i].forward.Pass?
    ensures exists q :: InRow(sizes, i, q) && Reached(log, reached, q, sizes[i].payload)
  {
    var first, r := AttemptsBefore(sizes, i), sizes[i];
    assert RowExplained(net, sizes, i);
    HeardCountPositive(net, first, r.attempts, r.payload);
    var q :| first < q <= first + r.attempts && Heard(net, q, r.payload);
    assert InRow(sizes, i, q);
    if HearsAck(net(q).arrivals, q, r.payload) {
      var k :| 0 <= k < |net(q).arrivals| && IsAck(net(q).arrivals[k], q, r.payload)
        && !HearsEcho(net(q).arrivals[..k], q, r.payload);
      AnswerNamesItsProbe(net, sizes, log, reached, i, q, k);
    } else {
      var k :| 0 <= k < |net(q).arrivals| && IsEcho(net(q).arrivals[k], q, r.payload);
      AnswerNamesItsProbe(net, sizes, log, reached, i, q, k);
    }
  }

  /** A reverse Pass at size `s` means the last probe of the row reached the
      server and an `s`-byte echo of that very probe reached the client. */
  lemma {:induction false} ReversePassIsReal(net: Network, sizes: seq<SizeResult>, log: seq<seq<byte>>, reached: set<seq<byte>>, i: nat)
    requires RowsExplained(net, sizes) && RowsLogged(sizes, log) && |log| <= U32_MAX
    requires Honest(net, log, reached) && i < |sizes| && sizes[i].reverse.Pass?
    ensures var last := AttemptsBefore(sizes, i) + sizes[i].attempts;
      && Reached(log, reached, last, sizes[i].payload)
      && net(last).Sent?
      && exists k :: 0 <= k < |net(last).arrivals| && WholeEcho(net(last).arrivals, k, last, sizes[i].payload)
  {
    var last := AttemptsBefore(sizes, i) + sizes[i].attempts;
    assert RowExplained(net, sizes, i);
    var k := HeardEcho(net(last).arrivals, last, sizes[i].payload);
    assert InRow(sizes, i, last);
    AnswerNamesItsProbe(net, sizes, log, reached, i, last, k);
  }
}
