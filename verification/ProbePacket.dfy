/** Probe-lane packets (`ProbePacket` in `src/probe.rs`). */
module ProbePacket {
  import opened Basics
  import opened Bytes

  const PROBE_MAGIC: seq<byte> := [88, 70, 82, 80] // "XFRP"
  const PROBE_VERSION: byte := 1
  const PROBE_HEADER_SIZE: nat := 16
  const PROBE_KIND_PROBE: byte := 1
  const PROBE_KIND_ACK: byte := 2
  const PROBE_KIND_ECHO: byte := 3

  datatype Packet = Packet(kind: byte, seqno: nat, declaredSize: nat)

  predicate FieldsFit(p: Packet) {
    p.seqno <= U32_MAX && p.declaredSize <= U16_MAX
  }

  /** Magic, version, kind and two bytes of flags. */
  function Preamble(p: Packet): (h: seq<byte>)
    ensures |h| == 8
  {
    PROBE_MAGIC + [PROBE_VERSION] + [p.kind] + [0, 0]
  }

  /** The 16 bytes every packet starts with: the preamble, sequence number,
      declared size and two reserved bytes. */
  function Header(p: Packet): (h: seq<byte>)
    ensures |h| == PROBE_HEADER_SIZE
  {
    Preamble(p) + BeBytes(p.seqno, 4) + BeBytes(p.declaredSize, 2) + [0, 0]
  }

  /** The layout byte by byte, numbers with the high byte first. */
  lemma {:induction false} HeaderLayout(p: Packet)
    requires FieldsFit(p)
    ensures Header(p) ==
      [88, 70, 82, 80, 1, p.kind, 0, 0,
       p.seqno / 0x100_0000, p.seqno / 0x1_0000 % 0x100, p.seqno / 0x100 % 0x100, p.seqno % 0x100,
       p.declaredSize / 0x100, p.declaredSize % 0x100, 0, 0]
  {
    BeFour(p.seqno);
    BeTwo(p.declaredSize);
  }

  function WireLength(p: Packet): nat {
    if p.kind == PROBE_KIND_ACK then PROBE_HEADER_SIZE else p.declaredSize
  }

  /** Write the next field: `written` and then what the buffer held before. */
  method PutField(buffer: array<byte>, at: nat, field: seq<byte>, ghost written: seq<byte>, ghost was: seq<byte>)
    requires |written| == at && at + |field| <= buffer.Length == |was|
    requires buffer[..] == written + was[at..]
    modifies buffer
    ensures buffer[..] == written + field + was[at + |field|..]
  {
    for i := 0 to |field|
      invariant buffer[..] == written + field[..i] + was[at + i..]
    {
      buffer[at + i] := field[i];
    }
  }

  /** Encode into the buffer: the bytes to send, or `None`, writing nothing,
      when the buffer is too small or a padded size does not fit the header.
      The padding is whatever the buffer held. */
  method Encode(p: Packet, buffer: array<byte>) returns (length: Option<nat>)
    requires FieldsFit(p)
    modifies buffer
    ensures length == if PROBE_HEADER_SIZE <= WireLength(p) <= buffer.Length then Some(WireLength(p)) else None
    ensures length.None? ==> buffer[..] == old(buffer[..])
    ensures length.Some? ==> buffer[..] == Header(p) + old(buffer[PROBE_HEADER_SIZE..])
  {
    var wireLength := if p.kind == PROBE_KIND_ACK then PROBE_HEADER_SIZE else p.declaredSize;
    if wireLength < PROBE_HEADER_SIZE || buffer.Length < wireLength {
      return None;
    }
    ghost var was := buffer[..];
    PutPreamble(p, buffer, was);
    ghost var h := Preamble(p);
    PutField(buffer, 8, BeBytes(p.seqno, 4), h, was);
    h := h + BeBytes(p.seqno, 4);
    PutField(buffer, 12, BeBytes(p.declaredSize, 2), h, was);
    h := h + BeBytes(p.declaredSize, 2);
    PutField(buffer, 14, [0, 0], h, was); // reserved
    length := Some(wireLength);
  }

  method PutPreamble(p: Packet, buffer: array<byte>, ghost was: seq<byte>)
    requires buffer[..] == was && buffer.Length >= PROBE_HEADER_SIZE
    modifies buffer
    ensures buffer[..] == Preamble(p) + was[8..]
  {
    ghost var h := PROBE_MAGIC;
    PutField(buffer, 0, PROBE_MAGIC, [], was);
    PutField(buffer, 4, [PROBE_VERSION], h, was);
    h := h + [PROBE_VERSION];
    PutField(buffer, 5, [p.kind], h, was);
    h := h + [p.kind];
    PutField(buffer, 6, [0, 0], h, was); // flags
  }

  predicate KnownKind(kind: byte) {
    kind == PROBE_KIND_PROBE || kind == PROBE_KIND_ACK || kind == PROBE_KIND_ECHO
  }

  function Decode(buffer: seq<byte>): Option<Packet> {
    if |buffer| < PROBE_HEADER_SIZE || buffer[0..4] != PROBE_MAGIC then None
    else if buffer[4] != PROBE_VERSION then None
    else if !KnownKind(buffer[5]) then None
    else
      var p := Packet(buffer[5], BeValue(buffer[8..12]), BeValue(buffer[12..14]));
      if p.kind != PROBE_KIND_ACK && (p.declaredSize < PROBE_HEADER_SIZE || p.declaredSize > |buffer|) then None
      else Some(p)
  }

  /** A datagram carries packet `p`: its header spells `p`, flags and reserved
      bytes aside, and a padded packet arrived whole. */
  predicate Carries(buffer: seq<byte>, p: Packet) {
    && FieldsFit(p) && KnownKind(p.kind)
    && |buffer| >= PROBE_HEADER_SIZE
    && buffer[..6] == Header(p)[..6]
    && buffer[8..14] == Header(p)[8..14]
    && PROBE_HEADER_SIZE <= WireLength(p) <= |buffer|
  }

  lemma {:induction false} HeaderFields(p: Packet)
    ensures Header(p)[..6] == PROBE_MAGIC + [PROBE_VERSION] + [p.kind]
    ensures Header(p)[8..14] == BeBytes(p.seqno, 4) + BeBytes(p.declaredSize, 2)
  {
    assert Header(p)[..6] == Preamble(p)[..6];
  }

  lemma {:induction false} BufferFields(buffer: seq<byte>)
    requires |buffer| >= PROBE_HEADER_SIZE
    ensures buffer[..6] == buffer[0..4] + [buffer[4]] + [buffer[5]]
    ensures buffer[8..14] == buffer[8..12] + buffer[12..14]
  {
  }

  lemma {:induction false} SplitAlike(a: seq<byte>, b: seq<byte>, c: seq<byte>, d: seq<byte>)
    requires |a| == |c| && a + b == c + d
    ensures a == c && b == d
  {
    assert (a + b)[..|a|] == a && (c + d)[..|a|] == c;
    assert (a + b)[|a|..] == b && (c + d)[|a|..] == d;
  }

  /** Decoding accepts exactly the datagrams that carry a packet, and names it. */
  lemma {:induction false} DecodeIsExact(buffer: seq<byte>, p: Packet)
    ensures Decode(buffer) == Some(p) <==> Carries(buffer, p)
  {
    Widths();
    HeaderFields(p);
    if Carries(buffer, p) {
      BufferFields(buffer);
      SplitAlike(buffer[0..4] + [buffer[4]], [buffer[5]], PROBE_MAGIC + [PROBE_VERSION], [p.kind]);
      SplitAlike(buffer[0..4], [buffer[4]], PROBE_MAGIC, [PROBE_VERSION]);
      SplitAlike(buffer[8..12], buffer[12..14], BeBytes(p.seqno, 4), BeBytes(p.declaredSize, 2));
      BeRoundTrip(p.seqno, 4);
      BeRoundTrip(p.declaredSize, 2);
    }
    if Decode(buffer) == Some(p) {
      BufferFields(buffer);
      BeValueRoundTrip(buffer[8..12]);
      BeValueRoundTrip(buffer[12..14]);
    }
  }

  /** What `Encode` puts on the wire, with any padding. */
  predicate IsWire(bytes: seq<byte>, p: Packet) {
    && FieldsFit(p)
    && |bytes| == WireLength(p) >= PROBE_HEADER_SIZE
    && bytes[..PROBE_HEADER_SIZE] == Header(p)
  }

  /** Encoding then decoding gives the packet back, whatever the padding; and
      a padded packet cut short by even one byte is rejected. */
  lemma {:induction false} EncodeDecode(bytes: seq<byte>, p: Packet)
    requires IsWire(bytes, p) && KnownKind(p.kind)
    ensures Decode(bytes) == Some(p)
    ensures p.kind != PROBE_KIND_ACK ==> forall n :: 0 <= n < |bytes| ==> Decode(bytes[..n]).None?
  {
    assert bytes[..6] == bytes[..PROBE_HEADER_SIZE][..6];
    assert bytes[8..14] == bytes[..PROBE_HEADER_SIZE][8..14];
    DecodeIsExact(bytes, p);
    if p.kind != PROBE_KIND_ACK {
      forall n | 0 <= n < |bytes|
        ensures Decode(bytes[..n]).None?
      {
        var cut := bytes[..n];
        if n >= PROBE_HEADER_SIZE {
          assert cut[12..14] == bytes[12..14] && cut[5] == bytes[5];
        }
      }
    }
  }
}
