/** Sequence-numbered sealing and opening of control messages
    (`ControlCodec` in `src/control_crypto.rs`).

    The keyed AEAD (section 2.8 of RFC 8439) is a pair of functions about which
    only correctness is known. What makes it ideal is a condition on the
    payloads an adversary feeds to a receiver: a ciphertext that decrypts is
    one its sender made with that nonce and associated data. */
module ControlCodec {
  import opened Basics
  import opened Bytes

  datatype Direction = C2S | S2C

  function Tag(d: Direction): byte {
    match d
    case C2S => 0x00
    case S2C => 0x01
  }

  const NONCE_LEN: nat := 12
  const SEQ_LEN: nat := 8
  const TAG_LEN: nat := 16

  type Bin = seq<byte>

  /** `encrypt` and `decrypt` under one key, from nonce, associated data and text. */
  datatype Aead = Aead(encrypt: (Bin, Bin, Bin) -> Option<Bin>, decrypt: (Bin, Bin, Bin) -> Option<Bin>)

  /** Decryption undoes encryption, which adds a 16-byte tag. */
  ghost predicate Correct(aead: Aead) {
    forall n: Bin, a: Bin, m: Bin, c: Bin :: CorrectAt(aead, n, a, m, c)
  }

  predicate CorrectAt(aead: Aead, n: Bin, a: Bin, m: Bin, c: Bin) {
    aead.encrypt(n, a, m) == Some(c) ==> |c| == |m| + TAG_LEN && aead.decrypt(n, a, c) == Some(m)
  }

  /** The sequence number, little-endian, padded with zeros to 12 bytes. */
  function Nonce(s: nat): (n: Bin)
    ensures |n| == NONCE_LEN
  {
    LeBytes(s, SEQ_LEN) + [0, 0, 0, 0]
  }

  function Aad(s: nat, d: Direction): (a: Bin)
    ensures |a| == SEQ_LEN + 1
  {
    LeBytes(s, SEQ_LEN) + [Tag(d)]
  }

  lemma {:induction false} NonceIsInjective(s: nat, t: nat)
    requires s <= U64_MAX && t <= U64_MAX && Nonce(s) == Nonce(t)
    ensures s == t
  {
    Widths();
    LeRoundTrip(s, SEQ_LEN);
    LeRoundTrip(t, SEQ_LEN);
    assert LeBytes(s, SEQ_LEN) == Nonce(s)[..SEQ_LEN] == Nonce(t)[..SEQ_LEN] == LeBytes(t, SEQ_LEN);
  }

  /** Both spell the sequence number (low byte first), the nonce followed by
      four zeros, the associated data by 0 or 1 for the direction. */
  lemma {:induction false} NonceAndAad(s: nat, d: Direction)
    requires s <= U64_MAX
    ensures |Nonce(s)| == 12 && LeValue(Nonce(s)[..8]) == s && Nonce(s)[8..] == [0, 0, 0, 0]
    ensures |Aad(s, d)| == 9 && LeValue(Aad(s, d)[..8]) == s && Aad(s, d)[8] == if d.C2S? then 0 else 1
  {
    Widths();
    LeRoundTrip(s, SEQ_LEN);
    assert Nonce(s)[..8] == LeBytes(s, SEQ_LEN) == Aad(s, d)[..8];
  }

  datatype CodecError = CryptoFailed | SeqOverflow | TooShort | SeqMismatch

  /** The frame for message `m` at sequence number `s`, if it encrypts. */
  function FrameOf(aead: Aead, d: Direction, s: nat, m: Bin): Option<Bin> {
    match aead.encrypt(Nonce(s), Aad(s, d), m)
    case None => None
    case Some(c) => Some(LeBytes(s, SEQ_LEN) + c)
  }

  function Seal(aead: Aead, d: Direction, s: nat, m: Bin): Result<Bin, CodecError> {
    match FrameOf(aead, d, s, m)
    case None => Err(CryptoFailed)
    case Some(frame) => if s == U64_MAX then Err(SeqOverflow) else Ok(frame)
  }

  function Open(aead: Aead, d: Direction, s: nat, payload: Bin): Result<Bin, CodecError> {
    if |payload| < SEQ_LEN + TAG_LEN then Err(TooShort)
    else if LeValue(payload[..SEQ_LEN]) != s then Err(SeqMismatch)
    else
      match aead.decrypt(Nonce(s), Aad(s, d), payload[SEQ_LEN..])
      case None => Err(CryptoFailed)
      case Some(m) => if s == U64_MAX then Err(SeqOverflow) else Ok(m)
  }

  /** Exactly which payloads open at `s`, and why another does not: it is too
      short, or does not begin with the eight bytes of `s`, or does not decrypt,
      or there is no next sequence number. */
  lemma {:induction false} OpensExactly(aead: Aead, d: Direction, s: nat, payload: Bin)
    requires s <= U64_MAX
    ensures var r := Open(aead, d, s, payload);
      var numbered := |payload| >= 24 && payload[..8] == LeBytes(s, 8);
      && (r == Err(TooShort) <==> |payload| < 24)
      && (r == Err(SeqMismatch) <==> |payload| >= 24 && payload[..8] != LeBytes(s, 8))
      && (r == Err(CryptoFailed) <==> numbered && aead.decrypt(Nonce(s), Aad(s, d), payload[8..]).None?)
      && (r.Ok? <==> numbered && aead.decrypt(Nonce(s), Aad(s, d), payload[8..]).Some? && s < 0xFFFF_FFFF_FFFF_FFFF)
      && (r.Ok? ==> aead.decrypt(Nonce(s), Aad(s, d), payload[8..]) == Some(r.value))
  {
    Widths();
    LeRoundTrip(s, 8);
    if |payload| >= 24 {
      LeValueRoundTrip(payload[..8]);
    }
  }

  /** A successful call moves the sequence number on; a failed one leaves it. */
  function Advance<T>(s: nat, r: Result<T, CodecError>): nat {
    if r.Ok? then s + 1 else s
  }

  class Codec {
    const aead: Aead
    const direction: Direction
    var seqno: nat

    ghost predicate Valid()
      reads this
    {
      seqno <= U64_MAX
    }

    constructor (aead: Aead, direction: Direction)
      ensures Valid() && seqno == 0 && this.aead == aead && this.direction == direction
    {
      this.aead, this.direction, seqno := aead, direction, 0;
    }

    method SealMessage(plaintext: Bin) returns (r: Result<Bin, CodecError>)
      requires Valid()
      modifies this
      ensures Valid() && r == Seal(aead, direction, old(seqno), plaintext) && seqno == Advance(old(seqno), r)
    {
      var nonce, aad := Nonce(seqno), Aad(seqno, direction);
      var ciphertext := aead.encrypt(nonce, aad, plaintext);
      if ciphertext.None? {
        return Err(CryptoFailed);
      }
      var frame := LeBytes(seqno, SEQ_LEN);
      frame := frame + ciphertext.value;
      if seqno == U64_MAX { // checked_add
        return Err(SeqOverflow);
      }
      seqno := seqno + 1;
      r := Ok(frame);
    }

    method OpenPayload(payload: Bin) returns (r: Result<Bin, CodecError>)
      requires Valid()
      modifies this
      ensures Valid() && r == Open(aead, direction, old(seqno), payload) && seqno == Advance(old(seqno), r)
    {
      if |payload| < SEQ_LEN + TAG_LEN {
        return Err(TooShort);
      }
      if LeValue(payload[..SEQ_LEN]) != seqno {
        return Err(SeqMismatch);
      }
      var plaintext := aead.decrypt(Nonce(seqno), Aad(seqno, direction), payload[SEQ_LEN..]);
      if plaintext.None? {
        return Err(CryptoFailed);
      }
      if seqno == U64_MAX { // checked_add
        return Err(SeqOverflow);
      }
      seqno := seqno + 1;
      r := Ok(plaintext.value);
    }
  }

  // ----- runs of a sender and of a receiver -----

  /** The messages a sender's `seal` calls returned frames for, in order. */
  function Sealed(aead: Aead, d: Direction, s: nat, calls: seq<Bin>): seq<Bin>
    decreases |calls|
  {
    if calls == [] then []
    else
      var r := Seal(aead, d, s, calls[0]);
      (if r.Ok? then [calls[0]] else []) + Sealed(aead, d, Advance(s, r), calls[1..])
  }

  function SealedFrames(aead: Aead, d: Direction, s: nat, calls: seq<Bin>): seq<Bin>
    decreases |calls|
  {
    if calls == [] then []
    else
      var r := Seal(aead, d, s, calls[0]);
      (if r.Ok? then [r.value] else []) + SealedFrames(aead, d, Advance(s, r), calls[1..])
  }

  /** The plaintexts a receiver accepts from a sequence of payloads. */
  function Accepted(aead: Aead, d: Direction, s: nat, payloads: seq<Bin>): seq<Bin>
    decreases |payloads|
  {
    if payloads == [] then []
    else
      var r := Open(aead, d, s, payloads[0]);
      (if r.Ok? then [r.value] else []) + Accepted(aead, d, Advance(s, r), payloads[1..])
  }

  /** A sender's frames are its messages under consecutive numbers from `s`. */
  lemma {:induction false} FramesAreNumbered(aead: Aead, d: Direction, s: nat, calls: seq<Bin>)
    requires s <= U64_MAX
    ensures |SealedFrames(aead, d, s, calls)| == |Sealed(aead, d, s, calls)|
    ensures s + |Sealed(aead, d, s, calls)| <= U64_MAX
    ensures forall k :: 0 <= k < |Sealed(aead, d, s, calls)| ==>
      FrameOf(aead, d, s + k, Sealed(aead, d, s, calls)[k]) == Some(SealedFrames(aead, d, s, calls)[k])
    decreases |calls|
  {
    if calls != [] {
      FramesAreNumbered(aead, d, Advance(s, Seal(aead, d, s, calls[0])), calls[1..]);
    }
  }

  /** No two frames a sender returns carry the same nonce: they spell different
      sequence numbers, all below `u64::MAX`, at which no frame is returned. */
  lemma {:induction false} NoncesAreDistinct(aead: Aead, d: Direction, calls: seq<Bin>)
    ensures var frames := SealedFrames(aead, d, 0, calls);
      && (forall i :: 0 <= i < |frames| ==> |frames[i]| >= SEQ_LEN && LeValue(frames[i][..SEQ_LEN]) == i < U64_MAX)
      && forall i, j :: 0 <= i < j < |frames| ==> frames[i][..SEQ_LEN] != frames[j][..SEQ_LEN] && Nonce(i) != Nonce(j)
  {
    FramesAreNumbered(aead, d, 0, calls);
    Widths();
    var frames := SealedFrames(aead, d, 0, calls);
    forall i | 0 <= i < |frames|
      ensures |frames[i]| >= SEQ_LEN && LeValue(frames[i][..SEQ_LEN]) == i < U64_MAX
    {
      assert FrameOf(aead, d, 0 + i, Sealed(aead, d, 0, calls)[i]) == Some(frames[i]);
      assert frames[i][..SEQ_LEN] == LeBytes(i, SEQ_LEN);
      LeRoundTrip(i, SEQ_LEN);
    }
    forall i, j | 0 <= i < j < |frames|
      ensures Nonce(i) != Nonce(j)
    {
      if Nonce(i) == Nonce(j) {
        NonceIsInjective(i, j);
      }
    }
  }

  /** A payload whose ciphertext decrypts only where the sender of direction
      `d` made it: from its message number `k` under nonce `k`. */
  ghost predicate Genuine(aead: Aead, d: Direction, sent: seq<Bin>, payload: Bin) {
    |payload| >= SEQ_LEN ==> forall n: Bin, a: Bin :: GenuineAt(aead, d, sent, payload[SEQ_LEN..], n, a)
  }

  ghost predicate GenuineAt(aead: Aead, d: Direction, sent: seq<Bin>, c: Bin, n: Bin, a: Bin) {
    aead.decrypt(n, a, c).Some? ==> exists k :: 0 <= k < |sent| && MadeFrom(aead, d, sent, k, n, a, c)
  }

  ghost predicate MadeFrom(aead: Aead, d: Direction, sent: seq<Bin>, k: nat, n: Bin, a: Bin, c: Bin)
    requires k < |sent|
  {
    n == Nonce(k) && a == Aad(k, d) && aead.encrypt(n, a, sent[k]) == Some(c)
  }

  /** The ideal AEAD, for one sender and one receiver: nothing the network
      delivers (dropped, repeated, reordered or altered frames, frames of the
      other direction, junk) decrypts unless the sender made it. */
  ghost predicate Unforged(aead: Aead, d: Direction, sent: seq<Bin>, payloads: seq<Bin>) {
    forall i :: 0 <= i < |payloads| ==> Genuine(aead, d, sent, payloads[i])
  }

  lemma {:induction false} OpenGenuine(aead: Aead, d: Direction, sent: seq<Bin>, s: nat, payload: Bin)
    requires Correct(aead) && Genuine(aead, d, sent, payload)
    requires s <= |sent| <= U64_MAX && Open(aead, d, s, payload).Ok?
    ensures s < |sent| && Open(aead, d, s, payload).value == sent[s]
  {
    var c := payload[SEQ_LEN..];
    assert GenuineAt(aead, d, sent, c, Nonce(s), Aad(s, d));
    var k :| 0 <= k < |sent| && MadeFrom(aead, d, sent, k, Nonce(s), Aad(s, d), c);
    NonceIsInjective(s, k);
    OpensWhatWasMade(aead, d, sent, s, payload);
  }

  /** What one direction's sender made never opens in the other direction, at
      any sequence number. */
  lemma {:induction false} NeverReflected(aead: Aead, d: Direction, sent: seq<Bin>, payload: Bin, other: Direction, s: nat)
    requires Genuine(aead, d, sent, payload) && other != d && s <= U64_MAX && |sent| <= U64_MAX
    ensures Open(aead, other, s, payload).Err?
  {
    forall k | 0 <= k < |sent|
      ensures Aad(k, d)[8] != Aad(s, other)[8]
    {
      NonceAndAad(k, d);
      NonceAndAad(s, other);
    }
    if |payload| >= 24 {
      assert GenuineAt(aead, d, sent, payload[SEQ_LEN..], Nonce(s), Aad(s, other));
    }
  }

  lemma {:induction false} OpensWhatWasMade(aead: Aead, d: Direction, sent: seq<Bin>, s: nat, payload: Bin)
    requires Correct(aead) && s < |sent| && Open(aead, d, s, payload).Ok?
    requires MadeFrom(aead, d, sent, s, Nonce(s), Aad(s, d), payload[SEQ_LEN..])
    ensures Open(aead, d, s, payload).value == sent[s]
  {
    assert CorrectAt(aead, Nonce(s), Aad(s, d), sent[s], payload[SEQ_LEN..]);
  }

  /** A payload that opens at `s` opens to message number `s`. */
  predicate OpensInOrder(aead: Aead, d: Direction, sent: seq<Bin>, s: nat, payload: Bin) {
    var r := Open(aead, d, s, payload);
    r.Ok? ==> s < |sent| && r.value == sent[s]
  }

  lemma {:induction false} AcceptedFrom(aead: Aead, d: Direction, sent: seq<Bin>, s: nat, payloads: seq<Bin>)
    requires forall i, t :: 0 <= i < |payloads| && 0 <= t <= |sent| ==> OpensInOrder(aead, d, sent, t, payloads[i])
    requires s <= |sent|
    ensures Accepted(aead, d, s, payloads) <= sent[s..]
    decreases |payloads|
  {
    if payloads != [] {
      assert OpensInOrder(aead, d, sent, s, payloads[0]);
      var r := Open(aead, d, s, payloads[0]);
      if r.Ok? {
        assert sent[s..] == [sent[s]] + sent[s + 1..];
      }
      AcceptedFrom(aead, d, sent, Advance(s, r), payloads[1..]);
    }
  }

  /** Whatever is fed to `open`, the accepted plaintexts are a prefix of the
      messages sealed in that direction. */
  lemma {:induction false} AcceptedIsPrefixOfSealed(aead: Aead, d: Direction, calls: seq<Bin>, payloads: seq<Bin>)
    requires Correct(aead) && Unforged(aead, d, Sealed(aead, d, 0, calls), payloads)
    ensures Accepted(aead, d, 0, payloads) <= Sealed(aead, d, 0, calls)
  {
    FramesAreNumbered(aead, d, 0, calls);
    var sent := Sealed(aead, d, 0, calls);
    forall i, t | 0 <= i < |payloads| && 0 <= t <= |sent|
      ensures OpensInOrder(aead, d, sent, t, payloads[i])
    {
      if Open(aead, d, t, payloads[i]).Ok? {
        OpenGenuine(aead, d, sent, t, payloads[i]);
      }
    }
    AcceptedFrom(aead, d, sent, 0, payloads);
    assert sent[0..] == sent;
  }

  /** A frame opens at its own sequence number to the message it was made from. */
  lemma {:induction false} OpenSealed(aead: Aead, d: Direction, s: nat, m: Bin)
    requires Correct(aead) && s <= U64_MAX && Seal(aead, d, s, m).Ok?
    ensures Open(aead, d, s, Seal(aead, d, s, m).value) == Ok(m)
    ensures |Seal(aead, d, s, m).value| == SEQ_LEN + |m| + TAG_LEN
  {
    var frame := Seal(aead, d, s, m).value;
    Widths();
    LeRoundTrip(s, SEQ_LEN);
    assert frame[..SEQ_LEN] == LeBytes(s, SEQ_LEN);
    var c := aead.encrypt(Nonce(s), Aad(s, d), m).value;
    assert frame[SEQ_LEN..] == c && CorrectAt(aead, Nonce(s), Aad(s, d), m, c);
  }

  /** In-order delivery loses nothing: every frame is accepted, so the prefix
      can be all that was sealed. */
  lemma {:induction false} FaithfulDelivery(aead: Aead, d: Direction, s: nat, calls: seq<Bin>)
    requires Correct(aead) && s <= U64_MAX
    ensures Accepted(aead, d, s, SealedFrames(aead, d, s, calls)) == Sealed(aead, d, s, calls)
    decreases |calls|
  {
    if calls != [] {
      var r := Seal(aead, d, s, calls[0]);
      FaithfulDelivery(aead, d, Advance(s, r), calls[1..]);
      if r.Ok? {
        OpenSealed(aead, d, s, calls[0]);
        var frames := SealedFrames(aead, d, s, calls);
        assert frames[0] == r.value && frames[1..] == SealedFrames(aead, d, s + 1, calls[1..]);
      } else {
        assert SealedFrames(aead, d, s, calls) == SealedFrames(aead, d, s, calls[1..]);
      }
    }
  }

  // ----- the premises can be met -----

  /** A cipher that only labels: its tag spells the nonce and the direction. */
  predicate Labelled(n: Bin, a: Bin) {
    |n| == NONCE_LEN && |a| == SEQ_LEN + 1 && a[..SEQ_LEN] == n[..SEQ_LEN]
  }

  function Label(n: Bin, a: Bin): (r: Bin)
    requires Labelled(n, a)
    ensures |r| == TAG_LEN
  {
    n + [a[SEQ_LEN]] + [0, 0, 0]
  }

  function Labelling(): Aead {
    Aead((n: Bin, a: Bin, m: Bin) => if Labelled(n, a) then Some(m + Label(n, a)) else None,
         (n: Bin, a: Bin, c: Bin) =>
           if Labelled(n, a) && |c| >= TAG_LEN && c[|c| - TAG_LEN..] == Label(n, a) then Some(c[..|c| - TAG_LEN])
           else None)
  }

  lemma {:induction false} LabelsAreInjective(n: Bin, a: Bin, n': Bin, a': Bin)
    requires Labelled(n, a) && Labelled(n', a') && Label(n, a) == Label(n', a')
    ensures n == n' && a == a'
  {
    assert Label(n, a)[..NONCE_LEN] == n && Label(n', a')[..NONCE_LEN] == n';
    assert Label(n, a)[NONCE_LEN] == a[SEQ_LEN] && Label(n', a')[NONCE_LEN] == a'[SEQ_LEN];
    assert a == a[..SEQ_LEN] + [a[SEQ_LEN]] && a' == a'[..SEQ_LEN] + [a'[SEQ_LEN]];
  }

  /** So what is assumed of the AEAD and of what is fed to a receiver is not
      contradictory: under this cipher everything sealed is genuine. */
  lemma {:induction false} PremisesCanBeMet(d: Direction, calls: seq<Bin>)
    ensures Correct(Labelling())
    ensures Unforged(Labelling(), d, Sealed(Labelling(), d, 0, calls), SealedFrames(Labelling(), d, 0, calls))
    ensures |calls| <= U64_MAX ==> Sealed(Labelling(), d, 0, calls) == calls
  {
    LabellingIsCorrect();
    AllGenuine(d, calls);
    if |calls| <= U64_MAX {
      AllSealed(d, 0, calls);
    }
  }

  lemma {:induction false} LabellingIsCorrect()
    ensures Correct(Labelling())
  {
    var aead := Labelling();
    forall n: Bin, a: Bin, m: Bin, c: Bin
      ensures CorrectAt(aead, n, a, m, c)
    {
      if aead.encrypt(n, a, m) == Some(c) {
        assert c == m + Label(n, a);
        assert c[|m|..] == Label(n, a) && c[..|m|] == m;
      }
    }
  }

  lemma {:induction false} AllGenuine(d: Direction, calls: seq<Bin>)
    ensures Unforged(Labelling(), d, Sealed(Labelling(), d, 0, calls), SealedFrames(Labelling(), d, 0, calls))
  {
    var sent, frames := Sealed(Labelling(), d, 0, calls), SealedFrames(Labelling(), d, 0, calls);
    FramesAreNumbered(Labelling(), d, 0, calls);
    forall k | 0 <= k < |frames|
      ensures Genuine(Labelling(), d, sent, frames[k])
    {
      LabelledIsGenuine(d, sent, k, frames[k]);
    }
  }

  lemma {:induction false} LabelledIsGenuine(d: Direction, sent: seq<Bin>, k: nat, frame: Bin)
    requires k < |sent| && FrameOf(Labelling(), d, 0 + k, sent[k]) == Some(frame)
    ensures Genuine(Labelling(), d, sent, frame)
  {
    var c := frame[SEQ_LEN..];
    assert c == sent[k] + Label(Nonce(k), Aad(k, d));
    var aead := Labelling();
    assert c[|c| - TAG_LEN..] == Label(Nonce(k), Aad(k, d));
    forall n: Bin, a: Bin
      ensures GenuineAt(aead, d, sent, c, n, a)
    {
      if aead.decrypt(n, a, c).Some? {
        LabelsAreInjective(n, a, Nonce(k), Aad(k, d));
        assert MadeFrom(aead, d, sent, k, n, a, c);
      }
    }
  }

  lemma {:induction false} AllSealed(d: Direction, s: nat, calls: seq<Bin>)
    requires s + |calls| <= U64_MAX
    ensures Sealed(Labelling(), d, s, calls) == calls
    decreases |calls|
  {
    if calls != [] {
      assert Labelled(Nonce(s), Aad(s, d)) by {
        assert Nonce(s)[..SEQ_LEN] == LeBytes(s, SEQ_LEN) == Aad(s, d)[..SEQ_LEN];
      }
      AllSealed(d, s + 1, calls[1..]);
    }
  }
}
