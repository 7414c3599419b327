/** UTF-8 as the control channel uses it: `str::as_bytes` and the lossy decoder
    `String::from_utf8_lossy`, which replaces each maximal invalid part. */
module Utf8 {
  import opened Basics

  type Scalar = x: nat | x < 0xD800 || 0xE000 <= x < 0x110000
  type Text = seq<Scalar>

  const REPLACEMENT: Scalar := 0xFFFD
  const NEWLINE: nat := 10

  function EncodeChar(c: Scalar): (b: seq<byte>)
    ensures 1 <= |b| <= 4
  {
    if c < 0x80 then [c]
    else if c < 0x800 then [0xC0 + c / 64, 0x80 + c % 64]
    else if c < 0x10000 then [0xE0 + c / 4096, 0x80 + c / 64 % 64, 0x80 + c % 64]
    else [0xF0 + c / 262144, 0x80 + c / 4096 % 64, 0x80 + c / 64 % 64, 0x80 + c % 64]
  }

  function Encode(t: Text): seq<byte> {
    if t == [] then [] else EncodeChar(t[0]) + Encode(t[1..])
  }

  predicate IsContinuation(b: byte) {
    0x80 <= b < 0xC0
  }

  /** Whether `second` may follow the lead byte `first` of a 3 or 4 byte form. */
  predicate SecondOk(first: byte, second: byte) {
    && (if first == 0xE0 then 0xA0 else if first == 0xF0 then 0x90 else 0x80) <= second
    && second < (if first == 0xED then 0xA0 else if first == 0xF4 then 0x90 else 0xC0)
  }

  /** The first character of `b` and the bytes it takes. */
  function DecodeFirst(b: seq<byte>): (r: (Scalar, nat))
    requires b != []
    ensures 1 <= r.1 <= |b|
  {
    var first: int := b[0];
    if first < 0x80 then (first, 1)
    else if first < 0xC2 || first >= 0xF5 then (REPLACEMENT, 1)
    else if first < 0xE0 then
      if |b| > 1 && IsContinuation(b[1]) then (64 * (first - 0xC0) + Low6(b[1]), 2) else (REPLACEMENT, 1)
    else if |b| < 2 || !SecondOk(b[0], b[1]) then (REPLACEMENT, 1)
    else if |b| < 3 || !IsContinuation(b[2]) then (REPLACEMENT, 2)
    else if first < 0xF0 then (4096 * (first - 0xE0) + 64 * Low6(b[1]) + Low6(b[2]), 3)
    else if |b| < 4 || !IsContinuation(b[3]) then (REPLACEMENT, 3)
    else (262144 * (first - 0xF0) + 4096 * Low6(b[1]) + 64 * Low6(b[2]) + Low6(b[3]), 4)
  }

  /** The six payload bits of a continuation byte. */
  function Low6(b: byte): nat
    requires IsContinuation(b)
  {
    b - 0x80
  }

  /** `String::from_utf8_lossy` */
  function Lossy(b: seq<byte>): Text {
    if b == [] then [] else [DecodeFirst(b).0] + Lossy(b[DecodeFirst(b).1..])
  }

  lemma {:induction false} SixBitDigits(c: nat)
    ensures c == 64 * (c / 64) + c % 64
    ensures c / 64 == 64 * (c / 4096) + c / 64 % 64
    ensures c / 4096 == 64 * (c / 262144) + c / 4096 % 64
  {
    assert c / 64 / 64 == c / 4096;
    assert c / 4096 / 64 == c / 262144;
  }

  lemma {:induction false} DecodeFirstOfEncoded(c: Scalar, rest: seq<byte>)
    ensures DecodeFirst(EncodeChar(c) + rest) == (c, |EncodeChar(c)|)
  {
    SixBitDigits(c);
    var e := EncodeChar(c);
    var b := e + rest;
    assert b[0] == e[0];
    if 0x800 <= c < 0x10000 {
      assert b[1] == e[1] && b[2] == e[2];
      assert SecondOk(b[0], b[1]);
    } else if c >= 0x10000 {
      assert b[1] == e[1] && b[2] == e[2] && b[3] == e[3];
      assert SecondOk(b[0], b[1]);
    } else if c >= 0x80 {
      assert b[1] == e[1];
    }
  }

  lemma {:induction false} LossyFirst(c: Scalar, tail: seq<byte>)
    ensures Lossy(EncodeChar(c) + tail) == [c] + Lossy(tail)
  {
    DecodeFirstOfEncoded(c, tail);
    assert (EncodeChar(c) + tail)[|EncodeChar(c)|..] == tail;
  }

  lemma {:induction false} LossyOfEncoded(t: Text, rest: seq<byte>)
    ensures Lossy(Encode(t) + rest) == t + Lossy(rest)
  {
    if t == [] {
      assert [] + rest == rest;
    } else {
      var tail := Encode(t[1..]) + rest;
      assert Encode(t) + rest == EncodeChar(t[0]) + tail;
      LossyFirst(t[0], tail);
      LossyOfEncoded(t[1..], rest);
      assert t + Lossy(rest) == [t[0]] + (t[1..] + Lossy(rest));
    }
  }

  /** Lossy decoding undoes encoding. */
  lemma {:induction false} RoundTrip(t: Text)
    ensures Lossy(Encode(t)) == t
  {
    LossyOfEncoded(t, []);
    assert Encode(t) + [] == Encode(t);
  }

  lemma {:induction false} EncodeConcat(s: Text, t: Text)
    ensures Encode(s + t) == Encode(s) + Encode(t)
  {
    if s == [] {
      assert [] + t == t;
    } else {
      assert (s + t)[1..] == s[1..] + t;
      EncodeConcat(s[1..], t);
    }
  }

  /** Only the newline character has a newline byte in its encoding. */
  lemma {:induction false} NewlineByte(t: Text)
    ensures NEWLINE in Encode(t) ==> NEWLINE in t
  {
    if t != [] && NEWLINE in Encode(t) {
      NewlineByte(t[1..]);
    }
  }

  // ----- character boundaries -----

  /** Characters started in `b`: its bytes that are not continuations. */
  function Leads(b: seq<byte>): nat {
    if b == [] then 0 else (if IsContinuation(b[0]) then 0 else 1) + Leads(b[1..])
  }

  lemma {:induction false} LeadsConcat(a: seq<byte>, b: seq<byte>)
    ensures Leads(a + b) == Leads(a) + Leads(b)
  {
    if a == [] {
      assert [] + b == b;
    } else {
      assert (a + b)[1..] == a[1..] + b;
      LeadsConcat(a[1..], b);
    }
  }

  lemma {:induction false} LeadsOfContinuations(b: seq<byte>)
    requires forall i :: 0 <= i < |b| ==> IsContinuation(b[i])
    ensures Leads(b) == 0
  {
    if b != [] {
      LeadsOfContinuations(b[1..]);
    }
  }

  lemma {:induction false} EncodeCharShape(c: Scalar)
    ensures !IsContinuation(EncodeChar(c)[0])
    ensures forall i :: 1 <= i < |EncodeChar(c)| ==> IsContinuation(EncodeChar(c)[i])
  {
  }

  lemma {:induction false} LeadsOfEncoded(t: Text)
    ensures Leads(Encode(t)) == |t|
  {
    if t != [] {
      EncodeCharShape(t[0]);
      LeadsOfContinuations(EncodeChar(t[0])[1..]);
      LeadsConcat(EncodeChar(t[0]), Encode(t[1..]));
      LeadsOfEncoded(t[1..]);
    }
  }

  /** Lossy decoding yields at least one character per character started, and
      one more when it begins in the middle of one. */
  lemma {:induction false} LossyLength(b: seq<byte>)
    ensures |Lossy(b)| >= Leads(b)
    ensures b != [] && IsContinuation(b[0]) ==> |Lossy(b)| > Leads(b)
  {
    if b != [] {
      var n := DecodeFirst(b).1;
      assert b == b[..1] + b[1..n] + b[n..];
      LeadsConcat(b[..1] + b[1..n], b[n..]);
      LeadsConcat(b[..1], b[1..n]);
      assert forall i :: 1 <= i < n ==> IsContinuation(b[i]);
      LeadsOfContinuations(b[1..n]);
      assert b[..1][1..] == [];
      LossyLength(b[n..]);
    }
  }

  /** A byte string is cut at a character boundary when what follows does not
      begin with a continuation byte. */
  predicate StartsCharacter(b: seq<byte>) {
    b == [] || !IsContinuation(b[0])
  }

  lemma {:induction false} EncodedStartsCharacter(t: Text)
    ensures StartsCharacter(Encode(t))
  {
    if t != [] {
      EncodeCharShape(t[0]);
    }
  }

  lemma {:induction false} InsideCharacter(c: Scalar, rest: seq<byte>, a: seq<byte>, b: seq<byte>)
    requires EncodeChar(c) + rest == a + b && a != []
    ensures |a| < |EncodeChar(c)| ==> !StartsCharacter(b)
  {
    EncodeCharShape(c);
    if |a| < |EncodeChar(c)| {
      assert (EncodeChar(c) + rest)[|a|] == EncodeChar(c)[|a|];
      assert (a + b)[|a|] == b[0];
    }
  }

  /** Cutting an encoding at a character boundary gives two encodings. */
  lemma {:induction false} CutAtBoundary(t: Text, a: seq<byte>, b: seq<byte>) returns (k: nat)
    requires Encode(t) == a + b && StartsCharacter(b)
    ensures k <= |t| && a == Encode(t[..k]) && b == Encode(t[k..])
  {
    if a == [] {
      k := 0;
      assert t[..0] == [] && t[0..] == t;
    } else {
      var first, rest := EncodeChar(t[0]), Encode(t[1..]);
      InsideCharacter(t[0], rest, a, b);
      CutLater(first, rest, a, b);
      k := CutAtBoundary(t[1..], a[|first|..], b);
      EncodeTake(t, k);
      k := k + 1;
    }
  }

  /** Two ways to cut the same bytes, the second later than the first. */
  lemma {:induction false} CutLater(first: seq<byte>, rest: seq<byte>, a: seq<byte>, b: seq<byte>)
    requires first + rest == a + b && |first| <= |a|
    ensures a == first + a[|first|..] && rest == a[|first|..] + b
  {
    assert (first + rest)[..|first|] == first && (a + b)[..|first|] == a[..|first|];
    assert (first + rest)[|first|..] == rest && (a + b)[|first|..] == a[|first|..] + b;
  }

  lemma {:induction false} EncodeTake(t: Text, k: nat)
    requires t != [] && k < |t|
    ensures Encode(t[..k + 1]) == EncodeChar(t[0]) + Encode(t[1..][..k])
    ensures t[k + 1..] == t[1..][k..]
  {
    assert t[..k + 1][0] == t[0] && t[..k + 1][1..] == t[1..][..k];
  }
}
