/** The IPv4 header codec, with the receiver's 8-bit test of the header length. */
module IpHeader {
  import opened Words
  import opened Octets
  import opened Checksum

  const HeaderSize: nat := 20

  /** Version 4, five 32-bit words. */
  const Vhl45: Byte := 0x45

  /** `tol` is the total length. */
  datatype Header = Header(
    vhl: Byte, tos: Byte, tol: U16, id: U16, flags: U16, ttl: Byte, proto: Byte, checksum: U16, src: Addr, dst: Addr)

  const ZeroHeader := Header(0, 0, 0, 0, 0, 0, 0, 0, AddrAny, AddrAny)

  function Serialize(h: Header): (b: seq<Byte>)
    ensures |b| == HeaderSize
  {
    [h.vhl, h.tos] + Hton16(h.tol) + Hton16(h.id) + Hton16(h.flags) + [h.ttl, h.proto] + Hton16(h.checksum)
      + AddrBytes(h.src) + AddrBytes(h.dst)
  }

  function Parse(b: seq<Byte>): Header
    requires |b| >= HeaderSize
  {
    Header(b[0], b[1], Read16(b, 2), Read16(b, 4), Read16(b, 6), b[8], b[9], Read16(b, 10), ReadAddr(b, 12),
           ReadAddr(b, 16))
  }

  lemma ParseFront(h: Header, b: seq<Byte>)
    requires |b| >= 8 && b == [h.vhl, h.tos] + Hton16(h.tol) + Hton16(h.id) + Hton16(h.flags) + b[8..]
    ensures b[0] == h.vhl && b[1] == h.tos
    ensures Read16(b, 2) == h.tol && Read16(b, 4) == h.id && Read16(b, 6) == h.flags
  {
    var front := [h.vhl, h.tos];
    Read16Back(front, h.tol, b[4..]);
    assert b == front + Hton16(h.tol) + b[4..];
    Read16Back(front + Hton16(h.tol), h.id, b[6..]);
    assert b == front + Hton16(h.tol) + Hton16(h.id) + b[6..];
    Read16Back(front + Hton16(h.tol) + Hton16(h.id), h.flags, b[8..]);
  }

  lemma ParseBack(h: Header, b: seq<Byte>, p: seq<Byte>)
    requires |b| >= 10 && b == b[..10] + Hton16(h.checksum) + AddrBytes(h.src) + AddrBytes(h.dst) + p
    ensures Read16(b, 10) == h.checksum && ReadAddr(b, 12) == h.src && ReadAddr(b, 16) == h.dst
  {
    var front := b[..10];
    Read16Back(front, h.checksum, b[12..]);
    assert b == front + Hton16(h.checksum) + b[12..];
  }

  lemma ParseSerialize(h: Header, p: seq<Byte>)
    ensures Parse(Serialize(h) + p) == h && (Serialize(h) + p)[HeaderSize..] == p
  {
    var b := Serialize(h) + p;
    ParseFront(h, b);
    ParseBack(h, b, p);
  }

  /** The checksum of the header, with whatever the checksum field holds. */
  function SentSum(h: Header): U16 {
    Sum(Serialize(h), 0)
  }

  /** The packet sent for header `h` and payload `p`. */
  function Encode(h: Header, p: seq<Byte>): (b: seq<Byte>)
    ensures |b| == HeaderSize + |p|
  {
    Patch(Serialize(h), 10, SentSum(h)) + p
  }

  /** The header with the checksum that was sent. */
  function Sealed(h: Header): Header {
    h.(checksum := SentSum(h))
  }

  /** The header length that the low half of the first byte states. */
  function Ihl(vhl: Byte): Byte {
    vhl % 0x10 * 4
  }

  /** The length is cut down to 8 bits for one test and to 16 bits for the other. */
  predicate LongEnough(len: nat, vhl: Byte, tol: U16) {
    len % 0x100 >= Ihl(vhl) && len % 0x1_0000 >= tol
  }

  lemma LongEnoughFits(len: nat, vhl: Byte, tol: U16)
    requires LongEnough(len, vhl, tol)
    ensures Ihl(vhl) <= len
  {
  }

  /** What is sent on of a packet whose checksum is right or not. */
  function Judged(b: seq<Byte>, passes: bool): Decoded<Header>
    requires |b| >= HeaderSize && Ihl(b[0]) <= |b|
  {
    if passes then Accepted(Parse(b), b[Ihl(b[0])..]) else Rejected(WrongChecksum)
  }

  function Decode(b: seq<Byte>): Decoded<Header> {
    if |b| < HeaderSize then Rejected(TooShort)
    else if b[0] / 0x10 != 4 then Accepted(ZeroHeader, [])
    else if !LongEnough(|b|, b[0], Read16(b, 2)) then Rejected(WrongLength)
    else
      LongEnoughFits(|b|, b[0], Read16(b, 2));
      Judged(b, Passes(Sum(b[..Ihl(b[0])], 0)))
  }

  lemma ParsePatched(h: Header, p: seq<Byte>, v: U16, b: seq<Byte>)
    requires b == Patch(Serialize(h), 10, v) + p
    ensures Parse(b) == h.(checksum := v) && b[HeaderSize..] == p
  {
    var sealed := h.(checksum := v);
    assert b == Serialize(sealed) + p;
    ParseSerialize(sealed, p);
  }

  lemma SentPasses(h: Header, v: U16)
    requires h.vhl > 0 && v == SentSum(h)
    ensures Passes(Sum(Patch(Serialize(h), 10, v), 0)) <==> SameResidue(h.checksum, 0)
  {
    var raw := Serialize(h);
    assert raw + [] == raw;
    ParseSerialize(h, []);
    assert Word(raw[10], raw[11]) == h.checksum && Word(raw[0], raw[1]) > 0;
    WordSumSplit(raw, 10);
    StampedPasses(raw, 10, v);
  }

  /** Something besides the word at `i` is summed when the first word is not zero. */
  lemma WordSumSplit(b: seq<Byte>, i: nat)
    requires 2 <= i && i % 2 == 0 && i + 1 < |b| && Word(b[0], b[1]) > 0
    ensures WordSum(b) > Word(b[i], b[i + 1])
  {
    WordSumAtLeast(b[2..], i - 2);
  }

  lemma DecodeOnVerdict(b: seq<Byte>, h: Header, p: seq<Byte>, ok: bool)
    requires |b| >= HeaderSize && h.vhl == Vhl45
    requires ok <==> Passes(Sum(b[..HeaderSize], 0))
    requires Parse(b) == h && b[HeaderSize..] == p
    ensures Decode(b)
         == if |b| % 0x100 < HeaderSize || |b| % 0x1_0000 < h.tol then Rejected(WrongLength)
            else if ok then Accepted(h, p)
            else Rejected(WrongChecksum)
  {
  }

  /**
   * A packet with a header of five words comes back exactly if its length modulo 256 is at least 20, its length
   * modulo 65536 is at least the total length it states, and the checksum field was 0 or -0 before.
   */
  lemma RoundTrip(h: Header, p: seq<Byte>)
    requires h.vhl == Vhl45
    ensures Decode(Encode(h, p))
         == if (HeaderSize + |p|) % 0x100 < HeaderSize || (HeaderSize + |p|) % 0x1_0000 < h.tol then
              Rejected(WrongLength)
            else if SameResidue(h.checksum, 0) then Accepted(Sealed(h), p)
            else Rejected(WrongChecksum)
  {
    var b := Encode(h, p);
    assert b[..HeaderSize] == Patch(Serialize(h), 10, SentSum(h));
    SentPasses(h, SentSum(h));
    ParsePatched(h, p, SentSum(h), b);
    DecodeOnVerdict(b, Sealed(h), p, SameResidue(h.checksum, 0));
  }

  /** What the program's own sender fills in: the packet arrives unless the 8-bit test stops it. */
  lemma OwnPacketsArriveIff(h: Header, p: seq<Byte>)
    requires h.vhl == Vhl45 && h.tol == Wrap16(HeaderSize + |p|) && h.checksum == 0
    ensures Decode(Encode(h, p)) == Accepted(Sealed(h), p) <==> (HeaderSize + |p|) % 0x100 >= HeaderSize
  {
    RoundTrip(h, p);
  }

  /** What is accepted without a header: packets of another version. */
  lemma OtherVersionAccepted(b: seq<Byte>)
    ensures Decode(b) == Accepted(ZeroHeader, []) <==> |b| >= HeaderSize && b[0] / 0x10 != 4
  {
  }

  /** The sum of the first `n` bytes is right. */
  predicate FrontPasses(b: seq<Byte>, n: nat) {
    n <= |b| && Passes(Sum(b[..n], 0))
  }

  lemma AcceptedIff(b: seq<Byte>, n: nat, tol: U16)
    requires |b| >= HeaderSize && b[0] / 0x10 == 4 && n == Ihl(b[0]) && tol == Read16(b, 2)
    ensures Decode(b).Accepted? <==> LongEnough(|b|, b[0], tol) && FrontPasses(b, n)
  {
    if LongEnough(|b|, b[0], tol) {
      LongEnoughFits(|b|, b[0], tol);
    }
  }

  /** Something besides the first word is summed when the sum is right and that word is neither 0 nor -0. */
  lemma FirstWordSplit(b: seq<Byte>)
    requires 2 <= |b| <= 0xff && Passes(Sum(b, 0)) && 0 < Word(b[0], b[1]) < 0xffff
    ensures WordSum(b) > Word(b[0], b[1])
  {
    SumExact(b, 0);
  }

  lemma FrontWord(b: seq<Byte>, n: nat, i: nat, v: U16)
    requires i % 2 == 0 && i + 1 < n <= 0xff && FrontPasses(b, n) && 0 < Word(b[0], b[1]) < 0xffff
    ensures FrontPasses(Patch(b, i, v), n) <==> SameResidue(Read16(b, i), v)
  {
    var front := b[..n];
    assert Patch(b, i, v)[..n] == Patch(front, i, v);
    if i == 0 {
      FirstWordSplit(front);
    } else {
      WordSumSplit(front, i);
    }
    SingleWordError(front, i, v);
  }

  lemma FieldsPatched(b: seq<Byte>, i: nat, v: U16)
    requires i % 2 == 0 && i + 1 < |b| && |b| >= HeaderSize && (i == 0 ==> v / 0x100 == b[0])
    ensures Patch(b, i, v)[0] == b[0]
    ensures Read16(Patch(b, i, v), 2) == if i == 2 then v else Read16(b, 2)
  {
    Hton16RoundTrip(v);
  }

  /** A packet with a header, as opposed to one of another version. */
  predicate Versioned(b: seq<Byte>) {
    |b| >= HeaderSize && b[0] / 0x10 == 4
  }

  /**
   * Changing one aligned word of the header of an accepted packet, but not its version and header length: it is
   * still accepted exactly if 0x0000 and 0xffff were swapped and a changed total length is not beyond the packet.
   */
  lemma OneWordErrorDetected(b: seq<Byte>, i: nat, v: U16)
    requires Versioned(b) && Decode(b).Accepted? && i % 2 == 0 && i + 1 < Ihl(b[0])
    requires i == 0 ==> v / 0x100 == b[0]
    ensures
      Decode(Patch(b, i, v)).Accepted? <==>
      SameResidue(Read16(b, i), v) && (i == 2 ==> v <= |b| % 0x1_0000)
  {
    var c, n := Patch(b, i, v), Ihl(b[0]);
    AcceptedIff(b, n, Read16(b, 2));
    FrontWord(b, n, i, v);
    FieldsPatched(b, i, v);
    AcceptedIff(c, n, Read16(c, 2));
  }

  // ---------------------------------------------------------------- the program's buffers

  method HeaderToData(hdr: Header, payload: seq<Byte>) returns (sent: Header, data: seq<Byte>)
    ensures sent == Sealed(hdr) && data == Encode(hdr, payload)
  {
    var buf := Serialize(hdr);
    buf := buf + payload;
    assert buf[..HeaderSize] == Serialize(hdr);
    var chksum := CheckSum(buf[..HeaderSize], 0);
    buf := Patch(buf, 10, chksum);
    assert buf == Patch(Serialize(hdr), 10, chksum) + payload;
    sent := hdr.(checksum := chksum);
    data := buf;
  }

  method DataToHeader(data: seq<Byte>) returns (r: Decoded<Header>)
    ensures r == Decode(data)
  {
    if |data| < HeaderSize {
      return Rejected(TooShort);
    }
    var hdr := Parse(data);
    if hdr.vhl / 0x10 != 4 {
      return Accepted(ZeroHeader, []);
    }
    var hlen := Ihl(hdr.vhl);
    if |data| % 0x100 < hlen {
      return Rejected(WrongLength);
    }
    if |data| % 0x1_0000 < hdr.tol {
      return Rejected(WrongLength);
    }
    LongEnoughFits(|data|, hdr.vhl, hdr.tol);
    var chksum := CheckSum(data[..hlen], 0);
    r := Judged(data, chksum == 0 || chksum == 0xffff);
  }
}
