/** The UDP header codec: a length that must be right, and a checksum that zero turns off. */
module UdpHeader {
  import opened Words
  import opened Octets
  import opened Checksum

  const HeaderSize: nat := 8

  datatype Header = Header(src: U16, dst: U16, len: U16, checksum: U16)

  function Serialize(h: Header): (b: seq<Byte>)
    ensures |b| == HeaderSize
  {
    Hton16(h.src) + Hton16(h.dst) + Hton16(h.len) + Hton16(h.checksum)
  }

  function Parse(b: seq<Byte>): Header
    requires |b| >= HeaderSize
  {
    Header(Read16(b, 0), Read16(b, 2), Read16(b, 4), Read16(b, 6))
  }

  lemma ParseSerialize(h: Header, p: seq<Byte>)
    ensures Parse(Serialize(h) + p) == h && (Serialize(h) + p)[HeaderSize..] == p
  {
    var b := Serialize(h) + p;
    var ports := Hton16(h.src) + Hton16(h.dst);
    Read16Back([], h.src, b[2..]);
    assert b == [] + Hton16(h.src) + b[2..];
    Read16Back(Hton16(h.src), h.dst, b[4..]);
    assert b == ports + b[4..];
    Read16Back(ports, h.len, b[6..]);
    assert b == ports + Hton16(h.len) + b[6..];
    Read16Back(ports + Hton16(h.len), h.checksum, p);
  }

  function Pseudo(src: Addr, dst: Addr, len: nat): seq<Byte> {
    PseudoHeader(src, dst, ProtoUdp, Wrap16(len))
  }

  /** The checksum of pseudo header, header and payload, with whatever the checksum field holds. */
  function SentSum(h: Header, p: seq<Byte>, src: Addr, dst: Addr): U16 {
    Sum(Pseudo(src, dst, HeaderSize + |p|) + (Serialize(h) + p), 0)
  }

  /** The datagram sent for header `h` and payload `p`. */
  function Encode(h: Header, p: seq<Byte>, src: Addr, dst: Addr): (b: seq<Byte>)
    ensures |b| == HeaderSize + |p|
  {
    Patch(Serialize(h) + p, 6, SentSum(h, p, src, dst))
  }

  /** The header with the checksum that was sent. */
  function Sealed(h: Header, p: seq<Byte>, src: Addr, dst: Addr): Header {
    h.(checksum := SentSum(h, p, src, dst))
  }

  /** What is made of a datagram whose checksum is right or not. */
  function Judged(b: seq<Byte>, passes: bool): Decoded<Header>
    requires |b| >= HeaderSize
  {
    if Read16(b, 4) != |b| then Rejected(WrongLength)
    else if Read16(b, 6) == 0 || passes then Accepted(Parse(b), b[HeaderSize..])
    else Rejected(WrongChecksum)
  }

  function Decode(b: seq<Byte>, src: Addr, dst: Addr): Decoded<Header> {
    if |b| < HeaderSize then Rejected(TooShort)
    else Judged(b, Checks(Pseudo(src, dst, |b|), b))
  }

  lemma ParsePatched(h: Header, p: seq<Byte>, v: U16, b: seq<Byte>)
    requires b == Patch(Serialize(h) + p, 6, v)
    ensures Parse(b) == h.(checksum := v) && b[HeaderSize..] == p
  {
    var sealed := h.(checksum := v);
    assert b == Serialize(sealed) + p;
    ParseSerialize(sealed, p);
  }

  lemma JudgedIs(b: seq<Byte>, h: Header, p: seq<Byte>, passes: bool)
    requires |b| >= HeaderSize && Parse(b) == h && b[HeaderSize..] == p
    ensures Judged(b, passes)
         == if h.len != |b| then Rejected(WrongLength)
            else if h.checksum == 0 || passes then Accepted(h, p)
            else Rejected(WrongChecksum)
  {
  }

  /**
   * Decoding what was encoded gives back header, with its checksum, and payload exactly if the length is right and
   * either the checksum field was 0 or -0 before, or the checksum came out as zero.
   */
  lemma RoundTrip(h: Header, p: seq<Byte>, src: Addr, dst: Addr)
    ensures Decode(Encode(h, p, src, dst), src, dst)
         == if h.len != HeaderSize + |p| then Rejected(WrongLength)
            else if SentSum(h, p, src, dst) == 0 || SameResidue(h.checksum, 0) then Accepted(Sealed(h, p, src, dst), p)
            else Rejected(WrongChecksum)
  {
    var raw, pseudo, sum := Serialize(h) + p, Pseudo(src, dst, HeaderSize + |p|), SentSum(h, p, src, dst);
    var b := Encode(h, p, src, dst);
    if h.len == HeaderSize + |p| {
      PseudoIsSummed(src, dst, ProtoUdp, Wrap16(HeaderSize + |p|));
      ParseSerialize(h, p);
      StampedBehind(pseudo, raw, 6, sum);
    }
    ParsePatched(h, p, sum, b);
    JudgedIs(b, Sealed(h, p, src, dst), p, Checks(pseudo, b));
  }

  /**
   * RFC 768 sends all ones when the checksum comes out as zero. Here zero is sent, which the receiver takes for
   * "no checksum": that happens exactly if the one's complement sum of what is protected is -0.
   */
  lemma SentUnprotectedIff(h: Header, p: seq<Byte>, src: Addr, dst: Addr)
    requires h.len == HeaderSize + |p|
    ensures Parse(Encode(h, p, src, dst)).checksum == 0
       <==> OnesSum(Pseudo(src, dst, h.len) + (Serialize(h) + p)) == 0xffff
  {
    ParsePatched(h, p, SentSum(h, p, src, dst), Encode(h, p, src, dst));
    ChecksumIsComplement(Pseudo(src, dst, h.len) + (Serialize(h) + p));
  }

  /**
   * A changed word of an accepted datagram, other than length and checksum, goes unnoticed exactly if zero turned
   * the checksum off, or 0 and -0 were swapped.
   */
  lemma WordErrorDetectedIffProtected(b: seq<Byte>, src: Addr, dst: Addr, i: nat, v: U16)
    requires i != 4 && i != 6 && i % 2 == 0 && i + 1 < |b| && Decode(b, src, dst).Accepted?
    ensures Decode(Patch(b, i, v), src, dst).Accepted? <==> Read16(b, 6) == 0 || SameResidue(Read16(b, i), v)
  {
    var c, pseudo := Patch(b, i, v), Pseudo(src, dst, |b|);
    if Read16(b, 6) != 0 {
      CheckedWord(pseudo, src, dst, b, i, v);
    }
    OtherWordsStay(b, i, v);
    JudgedAlike(b, c, Checks(pseudo, b), Checks(pseudo, c));
  }

  lemma CheckedWord(pseudo: seq<Byte>, src: Addr, dst: Addr, b: seq<Byte>, i: nat, v: U16)
    requires i % 2 == 0 && i + 1 < |b| <= 0xffff && pseudo == Pseudo(src, dst, |b|) && Checks(pseudo, b)
    ensures Checks(pseudo, Patch(b, i, v)) <==> SameResidue(Read16(b, i), v)
  {
    PseudoIsSummed(src, dst, ProtoUdp, Wrap16(|b|));
    ErrorBehind(pseudo, b, i, v);
  }

  lemma OtherWordsStay(b: seq<Byte>, i: nat, v: U16)
    requires i != 4 && i != 6 && i % 2 == 0 && i + 1 < |b| && |b| >= HeaderSize
    ensures Read16(Patch(b, i, v), 4) == Read16(b, 4) && Read16(Patch(b, i, v), 6) == Read16(b, 6)
  {
  }

  lemma JudgedAlike(b: seq<Byte>, c: seq<Byte>, was: bool, now: bool)
    requires |c| == |b| >= HeaderSize && Read16(c, 4) == Read16(b, 4) && Read16(c, 6) == Read16(b, 6)
    requires Judged(b, was).Accepted?
    ensures Judged(c, now).Accepted? <==> Read16(b, 6) == 0 || now
  {
  }

  // ---------------------------------------------------------------- the program's buffers

  method HeaderToData(hdr: Header, payload: seq<Byte>, src: Addr, dst: Addr) returns (sent: Header, data: seq<Byte>)
    ensures sent == Sealed(hdr, payload, src, dst) && data == Encode(hdr, payload, src, dst)
  {
    var pseudo := Pseudo(src, dst, HeaderSize + |payload|);
    var buf := pseudo;
    buf := buf + Serialize(hdr);
    buf := buf + payload;
    var chksum := CheckSum(buf, 0);
    assert buf == pseudo + (Serialize(hdr) + payload);
    PatchBehind(pseudo, Serialize(hdr) + payload, 6, chksum);
    buf := Patch(buf, 18, chksum);
    sent := hdr.(checksum := chksum);
    data := buf[12..];
  }

  method DataToHeader(data: seq<Byte>, src: Addr, dst: Addr) returns (r: Decoded<Header>)
    ensures r == Decode(data, src, dst)
  {
    if |data| < HeaderSize {
      return Rejected(TooShort);
    }
    var hdr := Parse(data);
    if hdr.len != |data| {
      return Rejected(WrongLength);
    }
    if hdr.checksum == 0 {
      return Accepted(hdr, data[HeaderSize..]);
    }
    var chksum := CheckSum(Pseudo(src, dst, hdr.len), 0);
    chksum := CheckSum(data, 0xffff - chksum);
    if chksum != 0 && chksum != 0xffff {
      return Rejected(WrongChecksum);
    }
    r := Accepted(hdr, data[HeaderSize..]);
  }
}
