/** Integers in network byte order. */
module Octets {
  import opened Words

  /** A 16-bit word in network order. */
  function Word(hi: Byte, lo: Byte): U16 {
    0x100 * hi + lo
  }

  function Hton16(v: U16): (b: seq<Byte>)
    ensures |b| == 2
  {
    [v / 0x100, v % 0x100]
  }

  function Hton32(v: U32): (b: seq<Byte>)
    ensures |b| == 4
  {
    Hton16(v / 0x1_0000) + Hton16(v % 0x1_0000)
  }

  function Read16(b: seq<Byte>, i: nat): U16
    requires i + 1 < |b|
  {
    Word(b[i], b[i + 1])
  }

  function Read32(b: seq<Byte>, i: nat): U32
    requires i + 3 < |b|
  {
    0x1_0000 * Read16(b, i) + Read16(b, i + 2)
  }

  lemma Hton16RoundTrip(v: U16)
    ensures Word(Hton16(v)[0], Hton16(v)[1]) == v
  {
  }

  /** What was written in network order at `|a|` is read back there. */
  lemma Read16Back(a: seq<Byte>, v: U16, c: seq<Byte>)
    ensures Read16(a + Hton16(v) + c, |a|) == v
  {
    var b := a + Hton16(v) + c;
    assert b[|a|] == Hton16(v)[0] && b[|a| + 1] == Hton16(v)[1];
    Hton16RoundTrip(v);
  }

  lemma Read32Back(a: seq<Byte>, v: U32, c: seq<Byte>)
    ensures Read32(a + Hton32(v) + c, |a|) == v
  {
    var hi, lo := v / 0x1_0000, v % 0x1_0000;
    assert a + Hton32(v) + c == a + Hton16(hi) + (Hton16(lo) + c);
    assert a + Hton32(v) + c == (a + Hton16(hi)) + Hton16(lo) + c;
    Read16Back(a, hi, Hton16(lo) + c);
    Read16Back(a + Hton16(hi), lo, c);
  }

  // ---------------------------------------------------------------- shared by the codecs

  /** An IPv4 address, most significant byte first. */
  datatype Addr = Addr(b0: Byte, b1: Byte, b2: Byte, b3: Byte)

  const AddrAny := Addr(0, 0, 0, 0)

  function AddrBytes(a: Addr): (b: seq<Byte>)
    ensures |b| == 4
  {
    [a.b0, a.b1, a.b2, a.b3]
  }

  function ReadAddr(b: seq<Byte>, i: nat): Addr
    requires i + 3 < |b|
  {
    Addr(b[i], b[i + 1], b[i + 2], b[i + 3])
  }

  const ProtoTcp: Byte := 6
  const ProtoUdp: Byte := 17

  datatype Fault = TooShort | WrongLength | WrongChecksum

  datatype Decoded<+H> = Accepted(header: H, payload: seq<Byte>) | Rejected(fault: Fault)

  /** The pseudo header that TCP and UDP sum before their own segment. */
  function PseudoHeader(src: Addr, dst: Addr, proto: Byte, len: U16): (b: seq<Byte>)
    ensures |b| == 12
  {
    AddrBytes(src) + AddrBytes(dst) + [0, proto] + Hton16(len)
  }
}
