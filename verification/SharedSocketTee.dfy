/** The shared-socket tee (`XfrLaneTee::poll_recv` in `src/quic.rs`): divert
    hello datagrams to a bounded channel and compact the QUIC ones down, in
    place, over parallel buffer and metadata arrays. */
module SharedSocketTee {
  import opened Basics

  const MAX_DIVERT_ITERATIONS: nat := 16

  datatype Lane = Quic | XfrHello | XfrStray

  /** How the first bytes of a datagram name its lane. */
  type Classifier = seq<byte> -> Lane

  /** A datagram as the inner socket delivers it: the bytes that went into the
      buffer, the length it reports, which is more when the datagram was cut,
      and the sender. */
  datatype Datagram = Datagram(bytes: seq<byte>, len: nat, addr: nat)

  datatype Meta = Meta(len: nat, addr: nat)

  /** What the inner socket answers to one poll: a batch for the first slots, or
      anything else (pending, or an error), which is passed on. */
  datatype Inner = Batch(datagrams: seq<Datagram>) | Other

  datatype Poll = Ready(n: nat) | Yield | PassedOn

  datatype Hello = Hello(bytes: seq<byte>, addr: nat)

  /** The hello channel: `try_send` drops when it is full. */
  class HelloChannel {
    const capacity: nat
    var queue: seq<Hello>

    constructor (capacity: nat)
      ensures this.capacity == capacity && queue == []
    {
      this.capacity, queue := capacity, [];
    }

    method TrySend(h: Hello)
      modifies this
      ensures queue == if |old(queue)| < capacity then old(queue) + [h] else old(queue)
    {
      if |queue| < capacity {
        queue := queue + [h];
      }
    }
  }

  /** Offering hellos in order: they are queued until the channel is full. */
  function Sent(capacity: nat, queue: seq<Hello>, hellos: seq<Hello>): seq<Hello> {
    queue + hellos[..Min(|hellos|, SatSub(capacity, |queue|))]
  }

  lemma {:induction false} SentOneMore(capacity: nat, queue: seq<Hello>, hellos: seq<Hello>, h: Hello)
    ensures var now := Sent(capacity, queue, hellos);
      Sent(capacity, queue, hellos + [h]) == if |now| < capacity then now + [h] else now
  {
    if |queue| + |hellos| < capacity {
      assert Sent(capacity, queue, hellos + [h]) == queue + hellos + [h];
    } else {
      var n := Min(|hellos|, SatSub(capacity, |queue|));
      assert (hellos + [h])[..n] == hellos[..n];
      assert Sent(capacity, queue, hellos + [h]) == queue + hellos[..n];
    }
  }

  lemma {:induction false} SentTwice(capacity: nat, queue: seq<Hello>, a: seq<Hello>, b: seq<Hello>)
    ensures Sent(capacity, Sent(capacity, queue, a), b) == Sent(capacity, queue, a + b)
  {
    if b == [] {
      assert a + b == a;
    } else {
      var n := |b| - 1;
      SentTwice(capacity, queue, a, b[..n]);
      SentOneMore(capacity, queue, a + b[..n], b[n]);
      SentOneMore(capacity, Sent(capacity, queue, a), b[..n], b[n]);
      assert b == b[..n] + [b[n]] && a + b == a + b[..n] + [b[n]];
    }
  }

  // ----- what a batch should become -----

  /** The QUIC datagrams of a batch, in order. */
  function Quics(classify: Classifier, batch: seq<Datagram>): seq<Datagram> {
    if batch == [] then []
    else
      var last := batch[|batch| - 1];
      Quics(classify, batch[..|batch| - 1]) + if classify(last.bytes).Quic? then [last] else []
  }

  /** The bytes and senders of its hellos, in order. */
  function Hellos(classify: Classifier, batch: seq<Datagram>): seq<Hello> {
    if batch == [] then []
    else
      var last := batch[|batch| - 1];
      Hellos(classify, batch[..|batch| - 1])
        + if classify(last.bytes).XfrHello? then [Hello(last.bytes, last.addr)] else []
  }

  /** How many of the first `i` datagrams are of one lane. */
  function Rank(classify: Classifier, batch: seq<Datagram>, lane: Lane, i: nat): nat
    requires i <= |batch|
  {
    if i == 0 then 0 else Rank(classify, batch, lane, i - 1) + if classify(batch[i - 1].bytes) == lane then 1 else 0
  }

  /** The filters of the first `n` datagrams are exact: datagram `i` is where
      those of its lane before it leave it, whole if it is QUIC's, as its bytes
      and sender if it is a hello; and there is nothing else. */
  predicate Filtered(classify: Classifier, batch: seq<Datagram>, n: nat, quics: seq<Datagram>, hellos: seq<Hello>)
    requires n <= |batch|
  {
    && |quics| == Rank(classify, batch, Quic, n) && |hellos| == Rank(classify, batch, XfrHello, n)
    && forall i: nat :: i < n ==> FilteredAt(classify, batch, quics, hellos, i)
  }

  predicate FilteredAt(classify: Classifier, batch: seq<Datagram>, quics: seq<Datagram>, hellos: seq<Hello>, i: nat)
    requires i < |batch|
  {
    match classify(batch[i].bytes)
    case Quic => var k := Rank(classify, batch, Quic, i); k < |quics| && quics[k] == batch[i]
    case XfrHello =>
      var k := Rank(classify, batch, XfrHello, i); k < |hellos| && hellos[k] == Hello(batch[i].bytes, batch[i].addr)
    case XfrStray => true
  }

  lemma {:induction false} FiltersAreExact(classify: Classifier, batch: seq<Datagram>, n: nat)
    requires n <= |batch|
    ensures Filtered(classify, batch, n, Quics(classify, batch[..n]), Hellos(classify, batch[..n]))
  {
    if n > 0 {
      FiltersAreExact(classify, batch, n - 1);
      assert batch[..n][..n - 1] == batch[..n - 1];
      forall i: nat | i < n
        ensures FilteredAt(classify, batch, Quics(classify, batch[..n]), Hellos(classify, batch[..n]), i)
      {
        if i < n - 1 {
          assert FilteredAt(classify, batch, Quics(classify, batch[..n - 1]), Hellos(classify, batch[..n - 1]), i);
        }
      }
    }
  }

  /** A QUIC datagram at position `n` is kept when it is already in place or
      fits the buffer it moves down to. */
  predicate Fitting(sizes: seq<nat>, kept: nat, batch: seq<Datagram>, n: nat)
    requires kept <= n < |batch| <= |sizes|
  {
    kept == n || |batch[n].bytes| <= sizes[kept]
  }

  /** What is kept of a batch received into buffers of these sizes. */
  function Kept(classify: Classifier, sizes: seq<nat>, batch: seq<Datagram>): (kept: seq<Datagram>)
    requires |batch| <= |sizes|
    ensures |kept| <= |batch|
  {
    if batch == [] then []
    else
      var n := |batch| - 1;
      var kept := Kept(classify, sizes, batch[..n]);
      if classify(batch[n].bytes).Quic? && Fitting(sizes, |kept|, batch, n) then kept + [batch[n]] else kept
  }

  lemma {:induction false} OneMore(classify: Classifier, sizes: seq<nat>, batch: seq<Datagram>, n: nat)
    requires n < |batch| <= |sizes|
    ensures var kept := Kept(classify, sizes, batch[..n]);
      && |kept| <= n
      && Kept(classify, sizes, batch[..n + 1])
         == if classify(batch[n].bytes).Quic? && (|kept| == n || |batch[n].bytes| <= sizes[|kept|]) then kept + [batch[n]] else kept
    ensures Hellos(classify, batch[..n + 1])
         == Hellos(classify, batch[..n])
          + if classify(batch[n].bytes).XfrHello? then [Hello(batch[n].bytes, batch[n].addr)] else []
  {
    assert batch[..n + 1][..n] == batch[..n];
  }

  /** Buffers of one size, and a batch that went into them. */
  predicate EqualBuffers(sizes: seq<nat>, batch: seq<Datagram>) {
    && |batch| <= |sizes|
    && forall i :: 0 <= i < |batch| ==> sizes[i] == sizes[0] && |batch[i].bytes| <= sizes[0]
  }

  /** With equal-size buffers nothing is ever too big to move: compaction is
      the stable filter. */
  lemma {:induction false} EqualBuffersKeepAll(classify: Classifier, sizes: seq<nat>, batch: seq<Datagram>)
    requires EqualBuffers(sizes, batch)
    ensures Kept(classify, sizes, batch) == Quics(classify, batch)
  {
    if batch != [] {
      EqualBuffersKeepAll(classify, sizes, batch[..|batch| - 1]);
    }
  }

  /** `from` names where in the batch each kept datagram was: QUIC datagrams,
      in order, none of which moves up. */
  predicate ComesFrom(classify: Classifier, batch: seq<Datagram>, kept: seq<Datagram>, from: seq<nat>) {
    && |from| == |kept|
    && forall k: nat :: k < |from| ==> ComesFromAt(classify, batch, kept, from, k)
  }

  predicate ComesFromAt(classify: Classifier, batch: seq<Datagram>, kept: seq<Datagram>, from: seq<nat>, k: nat)
    requires k < |from| == |kept|
  {
    && k <= from[k] < |batch| && kept[k] == batch[from[k]] && classify(batch[from[k]].bytes).Quic?
    && (k > 0 ==> from[k - 1] < from[k])
  }

  /** With any buffers the kept datagrams are QUIC datagrams of the batch, in
      order, and none moves up. */
  lemma {:induction false} KeptIsStable(classify: Classifier, sizes: seq<nat>, batch: seq<Datagram>) returns (from: seq<nat>)
    requires |batch| <= |sizes|
    ensures ComesFrom(classify, batch, Kept(classify, sizes, batch), from)
  {
    from := [];
    if batch != [] {
      var n := |batch| - 1;
      from := KeptIsStable(classify, sizes, batch[..n]);
      var kept := Kept(classify, sizes, batch[..n]);
      StaysFrom(classify, batch, kept, from);
      if Kept(classify, sizes, batch) != kept {
        GrowsFrom(classify, batch, kept, from);
        from := from + [n];
      }
    }
  }

  lemma {:induction false} StaysFrom(classify: Classifier, batch: seq<Datagram>, kept: seq<Datagram>, from: seq<nat>)
    requires batch != [] && ComesFrom(classify, batch[..|batch| - 1], kept, from)
    ensures ComesFrom(classify, batch, kept, from)
    ensures from != [] ==> from[|from| - 1] < |batch| - 1
  {
    forall k: nat | k < |from|
      ensures ComesFromAt(classify, batch, kept, from, k) && from[k] < |batch| - 1
    {
      assert ComesFromAt(classify, batch[..|batch| - 1], kept, from, k);
    }
  }

  lemma {:induction false} GrowsFrom(classify: Classifier, batch: seq<Datagram>, kept: seq<Datagram>, from: seq<nat>)
    requires batch != [] && ComesFrom(classify, batch, kept, from) && |kept| < |batch|
    requires from != [] ==> from[|from| - 1] < |batch| - 1
    requires classify(batch[|batch| - 1].bytes).Quic?
    ensures ComesFrom(classify, batch, kept + [batch[|batch| - 1]], from + [|batch| - 1])
  {
    var kept', from' := kept + [batch[|batch| - 1]], from + [|batch| - 1];
    forall k: nat | k < |from|
      ensures ComesFromAt(classify, batch, kept', from', k)
    {
      assert ComesFromAt(classify, batch, kept, from, k);
    }
  }

  /** A batch the inner socket can deliver: no datagram is cut that fits. */
  predicate FitsIn(sizes: seq<nat>, batch: seq<Datagram>) {
    && |batch| <= |sizes|
    && forall i :: 0 <= i < |batch| ==> |batch[i].bytes| == if batch[i].len < sizes[i] then batch[i].len else sizes[i]
  }

  // ----- the socket wrapper -----

  class Tee {
    const classify: Classifier
    const bufs: array<seq<byte>>
    const metas: array<Meta>
    const hellos: HelloChannel
    ghost const sizes: seq<nat>

    constructor (classify: Classifier, bufs: array<seq<byte>>, metas: array<Meta>, hellos: HelloChannel)
      requires bufs.Length == metas.Length
      ensures this.classify == classify && this.bufs == bufs && this.metas == metas && this.hellos == hellos
      ensures Valid()
    {
      this.classify, this.bufs, this.metas, this.hellos := classify, bufs, metas, hellos;
      sizes := seq(bufs.Length, i requires 0 <= i < bufs.Length reads bufs => |bufs[i]|);
    }

    /** Two parallel arrays, of buffers whose sizes never change. */
    ghost predicate Valid()
      reads bufs
    {
      && bufs.Length == metas.Length == |sizes|
      && forall i :: 0 <= i < bufs.Length ==> |bufs[i]| == sizes[i]
    }

    /** Slot `i` holds datagram `d`: its metadata, and a buffer that begins with
        its bytes; what comes after them is stale. */
    ghost predicate Holds(i: nat, d: Datagram)
      requires i < bufs.Length == metas.Length
      reads bufs, metas
    {
      metas[i] == Meta(d.len, d.addr) && |d.bytes| <= |bufs[i]| && bufs[i][..|d.bytes|] == d.bytes
    }

    /** What a reader takes from slot `i`, whatever is behind it. */
    function Read(i: nat): seq<byte>
      requires i < bufs.Length == metas.Length
      reads bufs, metas
    {
      bufs[i][..Min(metas[i].len, |bufs[i]|)]
    }

    /** Overwrite the front of a buffer. */
    method Write(i: nat, d: Datagram)
      requires Valid() && i < bufs.Length && |d.bytes| <= sizes[i]
      modifies bufs, metas
      ensures Valid() && Holds(i, d)
      ensures forall k :: 0 <= k < bufs.Length && k != i ==> bufs[k] == old(bufs[k]) && metas[k] == old(metas[k])
    {
      bufs[i] := d.bytes + bufs[i][|d.bytes|..];
      metas[i] := Meta(d.len, d.addr);
    }

    /** The inner socket fills the first slots. */
    method Receive(batch: seq<Datagram>)
      requires Valid() && FitsIn(sizes, batch)
      modifies bufs, metas
      ensures Valid() && forall i :: 0 <= i < |batch| ==> Holds(i, batch[i])
    {
      for i := 0 to |batch|
        invariant Valid() && forall j :: 0 <= j < i ==> Holds(j, batch[j])
      {
        Write(i, batch[i]);
      }
    }

    /** Copy the datagram of slot `i` down to slot `to`. */
    method MoveDown(to: nat, i: nat, ghost d: Datagram)
      requires Valid() && to <= i < bufs.Length && Holds(i, d) && |d.bytes| == Min(d.len, sizes[i])
      requires to == i || |d.bytes| <= sizes[to]
      modifies bufs, metas
      ensures Valid() && Holds(to, d)
      ensures forall k :: 0 <= k < bufs.Length && k != to ==> bufs[k] == old(bufs[k]) && metas[k] == old(metas[k])
    {
      if to != i {
        var len := Min(metas[i].len, |bufs[i]|);
        bufs[to] := bufs[i][..len] + bufs[to][len..];
        metas[to] := metas[i];
      }
    }

    /** The first slots hold these datagrams. */
    ghost predicate Front(kept: seq<Datagram>)
      reads bufs, metas
    {
      && Valid() && |kept| <= bufs.Length
      && forall k :: 0 <= k < |kept| ==> Holds(k, kept[k])
    }

    /** The slots from `i` on are as the inner socket left them. */
    ghost predicate Back(batch: seq<Datagram>, i: nat)
      reads bufs, metas
    {
      && Valid() && i <= |batch| && FitsIn(sizes, batch)
      && forall k :: i <= k < |batch| ==> Holds(k, batch[k])
    }

    /** The first `i` datagrams of the batch are dealt with, the rest are where
        the inner socket put them. */
    ghost predicate Partway(batch: seq<Datagram>, i: nat, kept: nat, queue: seq<Hello>)
      reads bufs, metas, hellos
    {
      && Back(batch, i) && i <= |batch|
      && kept == |Kept(classify, sizes, batch[..i])| <= i && Front(Kept(classify, sizes, batch[..i]))
      && hellos.queue == Sent(hellos.capacity, queue, Hellos(classify, batch[..i]))
    }

    /** Moving one datagram down extends the front and shortens the back. */
    method Keep(ghost front: seq<Datagram>, kept: nat, ghost batch: seq<Datagram>, i: nat)
      requires kept == |front| <= i < |batch| && Front(front) && Back(batch, i) && Fitting(sizes, kept, batch, i)
      modifies bufs, metas
      ensures Front(front + [batch[i]]) && Back(batch, i + 1)
    {
      MoveDown(kept, i, batch[i]);
      forall k | 0 <= k < kept
        ensures Holds(k, front[k])
      {
        assert old(Holds(k, front[k]));
      }
    }

    /** A stray, or a QUIC datagram too big to move, is left behind. */
    lemma Drop(i: nat, kept: nat, batch: seq<Datagram>, queue: seq<Hello>)
      requires Partway(batch, i, kept, queue) && i < |batch|
      requires !classify(batch[i].bytes).XfrHello?
      requires classify(batch[i].bytes).Quic? ==> !Fitting(sizes, kept, batch, i)
      ensures Partway(batch, i + 1, kept, queue)
    {
      OneMore(classify, sizes, batch, i);
    }

    method KeepQuic(i: nat, kept: nat, ghost batch: seq<Datagram>, ghost queue: seq<Hello>) returns (kept': nat)
      requires Partway(batch, i, kept, queue) && i < |batch| && classify(batch[i].bytes).Quic?
      modifies bufs, metas
      ensures Partway(batch, i + 1, kept', queue)
    {
      assert Holds(i, batch[i]);
      if kept != i && |bufs[kept]| < Min(metas[i].len, |bufs[i]|) {
        Drop(i, kept, batch, queue);
        return kept; // too small to compact: dropped
      }
      OneMore(classify, sizes, batch, i);
      Keep(Kept(classify, sizes, batch[..i]), kept, batch, i);
      kept' := kept + 1;
    }

    method Divert(i: nat, kept: nat, ghost batch: seq<Datagram>, ghost queue: seq<Hello>)
      requires Partway(batch, i, kept, queue) && i < |batch| && classify(batch[i].bytes).XfrHello?
      modifies hellos
      ensures Partway(batch, i + 1, kept, queue)
    {
      OneMore(classify, sizes, batch, i);
      assert Holds(i, batch[i]);
      var hello := Hello(Read(i), metas[i].addr);
      SentOneMore(hellos.capacity, queue, Hellos(classify, batch[..i]), hello);
      hellos.TrySend(hello);
    }

    /** Deal with the datagram in slot `i`. */
    method Handle(i: nat, kept: nat, ghost batch: seq<Datagram>, ghost queue: seq<Hello>) returns (kept': nat)
      requires Partway(batch, i, kept, queue) && i < |batch|
      modifies bufs, metas, hellos
      ensures Partway(batch, i + 1, kept', queue)
    {
      assert Holds(i, batch[i]);
      match classify(Read(i)) {
        case Quic =>
          kept' := KeepQuic(i, kept, batch, queue);
        case XfrHello =>
          Divert(i, kept, batch, queue);
          kept' := kept;
        case XfrStray =>
          Drop(i, kept, batch, queue);
          kept' := kept;
      }
    }

    /** Divert and compact one batch in place. */
    method Compact(ghost batch: seq<Datagram>, n: nat) returns (kept: nat)
      requires Partway(batch, 0, 0, hellos.queue) && n == |batch|
      modifies bufs, metas, hellos
      ensures Partway(batch, n, kept, old(hellos.queue))
    {
      kept := 0;
      for i := 0 to n
        invariant Partway(batch, i, kept, old(hellos.queue))
      {
        kept := Handle(i, kept, batch, old(hellos.queue));
      }
    }

    /** Slots `0 .. n` hold what is kept of the batch. */
    ghost predicate HandsOver(batch: seq<Datagram>, n: nat)
      reads bufs, metas
    {
      && Valid() && FitsIn(sizes, batch)
      && n == |Kept(classify, sizes, batch)|
      && forall k :: 0 <= k < n ==> Holds(k, Kept(classify, sizes, batch)[k])
    }

    /** Receive, divert and compact one batch. */
    method TakeBatch(batch: seq<Datagram>) returns (kept: nat)
      requires Valid() && FitsIn(sizes, batch)
      modifies bufs, metas, hellos
      ensures HandsOver(batch, kept)
      ensures hellos.queue == Sent(hellos.capacity, old(hellos.queue), Hellos(classify, batch))
    {
      Receive(batch);
      kept := Compact(batch, |batch|);
      assert batch[..|batch|] == batch;
    }

    /** One poll over what the inner socket answers in turn. */
    method PollRecv(script: seq<Inner>) returns (r: Poll, polls: nat)
      requires Valid() && |script| >= MAX_DIVERT_ITERATIONS && AllFit(sizes, script)
      modifies bufs, metas, hellos
      ensures Valid() && polls <= |script| && Outcome(classify, sizes, script, r, polls)
      ensures r.Ready? ==> HandsOver(script[polls - 1].datagrams, r.n)
      ensures hellos.queue == Sent(hellos.capacity, old(hellos.queue), AllHellos(classify, script[..polls]))
      // With buffers of one size, what is handed over is every QUIC datagram
      // of the last batch, and a reader sees exactly its bytes and sender.
      ensures r.Ready? && OneSize(sizes) ==> ReadsAs(Quics(classify, script[polls - 1].datagrams), r.n)
    {
      var divertIterations := 0;
      while true
        invariant divertIterations < MAX_DIVERT_ITERATIONS
        invariant AllDiverted(classify, sizes, script, divertIterations)
        invariant Offered(script, old(hellos.queue), divertIterations)
        decreases MAX_DIVERT_ITERATIONS - divertIterations
      {
        var answer := Turn(script, old(hellos.queue), divertIterations);
        divertIterations := divertIterations + 1;
        match answer {
          case Some(poll) =>
            if poll.Ready? && OneSize(sizes) {
              ReadsExactly(script[divertIterations - 1].datagrams, poll.n);
            }
            return poll, divertIterations;
          case None =>
        }
      }
    }

    /** A reader of slots `0 .. n` sees exactly these datagrams. */
    ghost predicate ReadsAs(datagrams: seq<Datagram>, n: nat)
      reads bufs, metas
    {
      && bufs.Length == metas.Length && n == |datagrams| <= bufs.Length
      && forall k :: 0 <= k < n ==> Read(k) == datagrams[k].bytes && metas[k].addr == datagrams[k].addr
    }

    lemma ReadsExactly(batch: seq<Datagram>, n: nat)
      requires HandsOver(batch, n) && OneSize(sizes)
      ensures ReadsAs(Quics(classify, batch), n)
    {
      EqualBuffersKeepAll(classify, sizes, batch);
      forall k | 0 <= k < n
        ensures Read(k) == Quics(classify, batch)[k].bytes && metas[k].addr == Quics(classify, batch)[k].addr
      {
        QuicsFit(classify, sizes, batch, k);
        assert Holds(k, Kept(classify, sizes, batch)[k]);
      }
    }

    /** One turn of the poll loop, after `n` batches with nothing for QUIC. */
    method Turn(script: seq<Inner>, ghost queue: seq<Hello>, n: nat) returns (answer: Option<Poll>)
      requires n < MAX_DIVERT_ITERATIONS && n < |script| && Offered(script, queue, n)
      requires AllDiverted(classify, sizes, script, n)
      modifies bufs, metas, hellos
      ensures Offered(script, queue, n + 1)
      ensures answer.Some? ==> Outcome(classify, sizes, script, answer.value, n + 1)
      ensures answer.Some? && answer.value.Ready? ==> HandsOver(script[n].datagrams, answer.value.n)
      ensures answer.None? ==> n + 1 < MAX_DIVERT_ITERATIONS && AllDiverted(classify, sizes, script, n + 1)
    {
      if script[n].Other? {
        OneMoreBatch(classify, script, n);
        return Some(PassedOn);
      }
      var kept := TakeNext(script, queue, n);
      if kept > 0 || |script[n].datagrams| == 0 {
        return Some(Ready(kept));
      }
      if n + 1 >= MAX_DIVERT_ITERATIONS {
        return Some(Yield);
      }
      return None;
    }

    /** After `n` polls the hellos of those polls have been offered. */
    ghost predicate Offered(script: seq<Inner>, queue: seq<Hello>, n: nat)
      reads bufs, hellos
    {
      && Valid() && n <= |script| && AllFit(sizes, script)
      && hellos.queue == Sent(hellos.capacity, queue, AllHellos(classify, script[..n]))
    }

    /** Take the next batch after `n` polls. */
    method TakeNext(script: seq<Inner>, ghost queue: seq<Hello>, n: nat) returns (kept: nat)
      requires n < |script| && script[n].Batch? && Offered(script, queue, n)
      modifies bufs, metas, hellos
      ensures HandsOver(script[n].datagrams, kept)
      ensures Offered(script, queue, n + 1)
      ensures kept == 0 && script[n].datagrams != [] ==> DivertOnly(classify, sizes, script[n])
    {
      OneMoreBatch(classify, script, n);
      SentTwice(hellos.capacity, queue, AllHellos(classify, script[..n]), Hellos(classify, script[n].datagrams));
      kept := TakeBatch(script[n].datagrams);
    }
  }

  predicate AllFit(sizes: seq<nat>, script: seq<Inner>) {
    forall k :: 0 <= k < |script| && script[k].Batch? ==> FitsIn(sizes, script[k].datagrams)
  }

  predicate OneSize(sizes: seq<nat>) {
    forall i :: 0 <= i < |sizes| ==> sizes[i] == sizes[0]
  }

  /** Cut or not, a datagram fills what its reported length says of a buffer of
      the one size. */
  lemma {:induction false} QuicsFit(classify: Classifier, sizes: seq<nat>, batch: seq<Datagram>, k: nat)
    requires FitsIn(sizes, batch) && OneSize(sizes) && k < |Quics(classify, batch)|
    ensures sizes != [] && var d := Quics(classify, batch)[k]; |d.bytes| == Min(d.len, sizes[0])
  {
    var n := |batch| - 1;
    if k < |Quics(classify, batch[..n])| {
      QuicsFit(classify, sizes, batch[..n], k);
    }
  }

  /** A batch that leaves nothing for QUIC. */
  predicate DivertOnly(classify: Classifier, sizes: seq<nat>, inner: Inner) {
    && inner.Batch? && inner.datagrams != [] && |inner.datagrams| <= |sizes|
    && Kept(classify, sizes, inner.datagrams) == []
  }

  predicate AllDiverted(classify: Classifier, sizes: seq<nat>, script: seq<Inner>, n: nat)
    requires n <= |script|
  {
    forall k :: 0 <= k < n ==> DivertOnly(classify, sizes, script[k])
  }

  /** What a poll answers: every batch before the last one polled had
      something in it but nothing for QUIC. It is passed on when the last answer
      is not a batch; it is `Ready` when the batch has something for QUIC or is
      empty; it yields only after exactly 16 batches with nothing for QUIC. */
  predicate Outcome(classify: Classifier, sizes: seq<nat>, script: seq<Inner>, r: Poll, polls: nat)
    requires polls <= |script|
  {
    && 1 <= polls <= 16
    && AllDiverted(classify, sizes, script, polls - 1)
    && var last := script[polls - 1];
    match r
    case PassedOn => last.Other?
    case Yield => polls == 16 && DivertOnly(classify, sizes, last)
    case Ready(n) =>
      && last.Batch? && |last.datagrams| <= |sizes|
      && n == |Kept(classify, sizes, last.datagrams)| && (n == 0 <==> last.datagrams == [])
  }

  /** The answer and the number of polls are determined by what the inner
      socket answers, and answers not polled for do not matter. */
  lemma {:induction false} OutcomeIsUnique(classify: Classifier, sizes: seq<nat>, a: seq<Inner>, r: Poll, n: nat,
                                           b: seq<Inner>, r': Poll, n': nat)
    requires n <= |a| && n' <= |b| && Outcome(classify, sizes, a, r, n) && Outcome(classify, sizes, b, r', n')
    requires a[..n] <= b
    ensures r == r' && n == n'
  {
    assert forall k :: 0 <= k < n ==> a[k] == b[k];
  }

  /** With buffers of one size a batch leaves nothing for QUIC exactly when no
      datagram in it is QUIC's. */
  lemma {:induction false} NothingForQuic(classify: Classifier, sizes: seq<nat>, batch: seq<Datagram>)
    requires FitsIn(sizes, batch) && OneSize(sizes)
    ensures Kept(classify, sizes, batch) == [] <==> forall i :: 0 <= i < |batch| ==> !classify(batch[i].bytes).Quic?
  {
    if batch != [] {
      NothingForQuic(classify, sizes, batch[..|batch| - 1]);
      assert forall i :: 0 <= i < |batch| - 1 ==> batch[..|batch| - 1][i] == batch[i];
    }
  }

  lemma {:induction false} OneMoreBatch(classify: Classifier, script: seq<Inner>, n: nat)
    requires n < |script|
    ensures AllHellos(classify, script[..n + 1])
         == AllHellos(classify, script[..n]) + if script[n].Batch? then Hellos(classify, script[n].datagrams) else []
  {
    assert script[..n + 1][..n] == script[..n];
  }

  /** The hellos of all batches polled, in order. */
  function AllHellos(classify: Classifier, script: seq<Inner>): seq<Hello> {
    if script == [] then []
    else
      var last := script[|script| - 1];
      AllHellos(classify, script[..|script| - 1]) + if last.Batch? then Hellos(classify, last.datagrams) else []
  }
}
