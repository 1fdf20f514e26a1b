/** The TCP header codec: checksum over pseudo header and segment, sent in one sum, received in two. */
module TcpHeader {
  import opened Words
  import opened Octets
  import opened Checksum

  const HeaderSize: nat := 20

  /** The largest segment whose words, with the pseudo header, cannot overflow a `uint32`. */
  const MaxSegment: nat := 0x1_fff4

  /** `sn` is the sequence number. */
  datatype Header = Header(
    src: U16, dst: U16, sn: U32, ack: U32, offset: Byte, flag: Byte, window: U16, checksum: U16, urgent: U16)

  function Ports(h: Header): (b: seq<Byte>)
    ensures |b| == 4
  {
    Hton16(h.src) + Hton16(h.dst)
  }

  function Serialize(h: Header): (b: seq<Byte>)
    ensures |b| == HeaderSize
  {
    Ports(h) + Hton32(h.sn) + Hton32(h.ack) + [h.offset, h.flag] + Hton16(h.window) + Hton16(h.checksum)
      + Hton16(h.urgent)
  }

  function Parse(b: seq<Byte>): Header
    requires |b| >= HeaderSize
  {
    Header(Read16(b, 0), Read16(b, 2), Read32(b, 4), Read32(b, 8), b[12], b[13], Read16(b, 14), Read16(b, 16),
           Read16(b, 18))
  }

  lemma ParseNumbers(h: Header, b: seq<Byte>)
    requires |b| >= 12 && b == Ports(h) + Hton32(h.sn) + Hton32(h.ack) + b[12..]
    ensures Read16(b, 0) == h.src && Read16(b, 2) == h.dst && Read32(b, 4) == h.sn && Read32(b, 8) == h.ack
  {
    Read16Back([], h.src, Hton16(h.dst) + b[4..]);
    assert b == [] + Hton16(h.src) + (Hton16(h.dst) + b[4..]);
    Read16Back(Hton16(h.src), h.dst, b[4..]);
    assert b == Hton16(h.src) + Hton16(h.dst) + b[4..];
    Read32Back(Ports(h), h.sn, b[8..]);
    assert b == Ports(h) + Hton32(h.sn) + b[8..];
    Read32Back(Ports(h) + Hton32(h.sn), h.ack, b[12..]);
  }

  lemma ParseRest(h: Header, b: seq<Byte>, p: seq<Byte>)
    requires |b| >= 14
    requires b == b[..14] + Hton16(h.window) + Hton16(h.checksum) + Hton16(h.urgent) + p
    ensures Read16(b, 14) == h.window && Read16(b, 16) == h.checksum && Read16(b, 18) == h.urgent
  {
    var tail := Hton16(h.urgent) + p;
    Read16Back(b[..14], h.window, Hton16(h.checksum) + tail);
    assert b == b[..14] + Hton16(h.window) + (Hton16(h.checksum) + tail);
    Read16Back(b[..14] + Hton16(h.window), h.checksum, tail);
    assert b == b[..14] + Hton16(h.window) + Hton16(h.checksum) + tail;
    Read16Back(b[..14] + Hton16(h.window) + Hton16(h.checksum), h.urgent, p);
  }

  lemma ParseSerialize(h: Header, p: seq<Byte>)
    ensures Parse(Serialize(h) + p) == h && (Serialize(h) + p)[HeaderSize..] == p
  {
    var b := Serialize(h) + p;
    ParseNumbers(h, b);
    ParseRest(h, b, p);
  }

  function Pseudo(src: Addr, dst: Addr, len: nat): seq<Byte> {
    PseudoHeader(src, dst, ProtoTcp, Wrap16(len))
  }

  /** The checksum of pseudo header, header and payload, with whatever the checksum field holds. */
  function SentSum(h: Header, p: seq<Byte>, src: Addr, dst: Addr): U16 {
    Sum(Pseudo(src, dst, HeaderSize + |p|) + (Serialize(h) + p), 0)
  }

  /** The segment sent for header `h` and payload `p`. */
  function Encode(h: Header, p: seq<Byte>, src: Addr, dst: Addr): (b: seq<Byte>)
    ensures |b| == HeaderSize + |p|
  {
    Patch(Serialize(h) + p, 16, SentSum(h, p, src, dst))
  }

  /** The header with the checksum that was sent. */
  function Sealed(h: Header, p: seq<Byte>, src: Addr, dst: Addr): Header {
    h.(checksum := SentSum(h, p, src, dst))
  }

  /** What is made of a segment whose checksum is right or not. */
  function Judged(b: seq<Byte>, passes: bool): Decoded<Header>
    requires |b| >= HeaderSize
  {
    if passes then Accepted(Parse(b), b[HeaderSize..]) else Rejected(WrongChecksum)
  }

  function Decode(b: seq<Byte>, src: Addr, dst: Addr): Decoded<Header> {
    if |b| < HeaderSize then Rejected(TooShort) else Judged(b, Checks(Pseudo(src, dst, |b|), b))
  }

  lemma ParsePatched(h: Header, p: seq<Byte>, v: U16, b: seq<Byte>)
    requires b == Patch(Serialize(h) + p, 16, v)
    ensures Parse(b) == h.(checksum := v) && b[HeaderSize..] == p
  {
    var sealed := h.(checksum := v);
    assert b == Serialize(sealed) + p;
    ParseSerialize(sealed, p);
  }

  lemma JudgedIs(b: seq<Byte>, h: Header, p: seq<Byte>, passes: bool)
    requires |b| >= HeaderSize && Parse(b) == h && b[HeaderSize..] == p
    ensures Judged(b, passes) == if passes then Accepted(h, p) else Rejected(WrongChecksum)
  {
  }

  /**
   * Decoding what was encoded gives back the header, with its checksum, and the payload exactly if the checksum
   * field was 0 or -0 before; otherwise the segment is rejected.
   */
  lemma RoundTrip(h: Header, p: seq<Byte>, src: Addr, dst: Addr)
    requires HeaderSize + |p| <= MaxSegment
    ensures Decode(Encode(h, p, src, dst), src, dst)
         == if SameResidue(h.checksum, 0) then Accepted(Sealed(h, p, src, dst), p) else Rejected(WrongChecksum)
  {
    var raw, pseudo, sum := Serialize(h) + p, Pseudo(src, dst, HeaderSize + |p|), SentSum(h, p, src, dst);
    var b := Encode(h, p, src, dst);
    PseudoIsSummed(src, dst, ProtoTcp, Wrap16(HeaderSize + |p|));
    ParseSerialize(h, p);
    StampedBehind(pseudo, raw, 16, sum);
    ParsePatched(h, p, sum, b);
    JudgedIs(b, Sealed(h, p, src, dst), p, Checks(pseudo, b));
  }

  /** Changing one aligned word of an accepted segment is detected unless it swaps 0x0000 and 0xffff. */
  lemma OneWordErrorDetected(b: seq<Byte>, src: Addr, dst: Addr, i: nat, v: U16)
    requires |b| <= MaxSegment && i % 2 == 0 && i + 1 < |b| && Decode(b, src, dst).Accepted?
    ensures Decode(Patch(b, i, v), src, dst).Accepted? <==> SameResidue(Read16(b, i), v)
  {
    CheckedWord(Pseudo(src, dst, |b|), src, dst, b, i, v);
  }

  lemma CheckedWord(pseudo: seq<Byte>, src: Addr, dst: Addr, b: seq<Byte>, i: nat, v: U16)
    requires i % 2 == 0 && i + 1 < |b| <= MaxSegment && pseudo == Pseudo(src, dst, |b|) && Checks(pseudo, b)
    ensures Checks(pseudo, Patch(b, i, v)) <==> SameResidue(Read16(b, i), v)
  {
    PseudoIsSummed(src, dst, ProtoTcp, Wrap16(|b|));
    ErrorBehind(pseudo, b, i, v);
  }

  // ---------------------------------------------------------------- the program's buffers

  method HeaderToData(hdr: Header, payload: seq<Byte>, src: Addr, dst: Addr) returns (sent: Header, data: seq<Byte>)
    ensures sent == Sealed(hdr, payload, src, dst) && data == Encode(hdr, payload, src, dst)
  {
    var pseudo := Pseudo(src, dst, HeaderSize + |payload|);
    var buf := pseudo;
    buf := buf + Serialize(hdr);
    buf := buf + payload;
    var chksum := CheckSum(buf, 0);
    assert buf == pseudo + (Serialize(hdr) + payload);
    PatchBehind(pseudo, Serialize(hdr) + payload, 16, chksum);
    buf := Patch(buf, 28, chksum);
    sent := hdr.(checksum := chksum);
    data := buf[12..];
  }

  method DataToHeader(data: seq<Byte>, src: Addr, dst: Addr) returns (r: Decoded<Header>)
    ensures r == Decode(data, src, dst)
  {
    if |data| < HeaderSize {
      return Rejected(TooShort);
    }
    var chksum := CheckSum(Pseudo(src, dst, |data|), 0);
    chksum := CheckSum(data, 0xffff - chksum);
    if chksum != 0 && chksum != 0xffff {
      return Rejected(WrongChecksum);
    }
    r := Accepted(Parse(data), data[HeaderSize..]);
  }
}
