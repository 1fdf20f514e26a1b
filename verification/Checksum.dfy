/** The Internet checksum: accumulation and folding, against RFC 1071. */
module Checksum {
  import opened Words
  import opened Octets

  /** The sum of the 16-bit words of `b`, an odd last byte being padded with zero. */
  function WordSum(b: seq<Byte>): nat {
    if |b| == 0 then 0
    else if |b| == 1 then Word(b[0], 0)
    else Word(b[0], b[1]) + WordSum(b[2..])
  }

  /** The representative of `x` modulo 65535 that is zero only for zero. */
  function Residue(x: nat): U16 {
    if x <= 0xffff then x else Residue(x - 0xffff)
  }

  /** The complement of the folded sum, which is kept in a `uint32`. */
  function Sum(b: seq<Byte>, base: nat): U16 {
    var total := Wrap32(base + WordSum(b));
    0xffff - Residue(total)
  }

  // ---------------------------------------------------------------- one's complement

  /** RFC 1071: addition with end-around carry. */
  function OnesAdd(x: U16, y: U16): U16 {
    if x + y > 0xffff then x + y - 0xffff else x + y
  }

  function OnesSum(b: seq<Byte>): U16 {
    if |b| == 0 then 0
    else if |b| == 1 then Word(b[0], 0)
    else OnesAdd(Word(b[0], b[1]), OnesSum(b[2..]))
  }

  lemma ModShift(a: nat, k: nat)
    ensures (a + 0xffff * k) % 0xffff == a % 0xffff
  {
  }

  lemma {:induction false} ResidueIsMod(x: nat)
    ensures Residue(x) == if x == 0 then 0 else (x - 1) % 0xffff + 1
  {
    if x > 0xffff {
      ResidueIsMod(x - 0xffff);
      ModShift(x - 0xffff - 1, 1);
    }
  }

  lemma {:induction false} ResidueAddsUp(x: nat, y: nat)
    ensures Residue(Residue(x) + y) == Residue(x + y)
  {
    if x > 0xffff {
      ResidueAddsUp(x - 0xffff, y);
      assert x + y - 0xffff == (x - 0xffff) + y;
    }
  }

  lemma ResidueAdd(x: nat, y: nat)
    ensures Residue(x + y) == OnesAdd(Residue(x), Residue(y))
  {
    var r, s := Residue(x), Residue(y);
    ResidueAddsUp(x, y);
    assert y + r == r + y;
    ResidueAddsUp(y, r);
    assert Residue(s + r) == OnesAdd(r, s);
  }

  lemma MultipleIffResidue(x: nat)
    requires x > 0
    ensures x % 0xffff == 0 <==> Residue(x) == 0xffff
  {
    ResidueIsMod(x);
    var q, r := (x - 1) / 0xffff, (x - 1) % 0xffff;
    ModShift(if r + 1 == 0xffff then 0 else r + 1, if r + 1 == 0xffff then q + 1 else q);
  }

  /** Adding first and reducing last gives the one's complement sum. */
  lemma {:induction false} ResidueIsOnesSum(b: seq<Byte>)
    ensures Residue(WordSum(b)) == OnesSum(b)
  {
    if |b| >= 2 {
      var w, rest := Word(b[0], b[1]), WordSum(b[2..]);
      ResidueIsOnesSum(b[2..]);
      ResidueAdd(w, rest);
    }
  }

  lemma {:induction false} WordSumBound(b: seq<Byte>)
    ensures WordSum(b) <= 0xffff * ((|b| + 1) / 2)
  {
    if |b| >= 2 {
      WordSumBound(b[2..]);
    }
  }

  /** Up to 131072 bytes and a 16-bit base the `uint32` does not overflow. */
  lemma NoOverflow(b: seq<Byte>, base: U16)
    requires |b| <= 0x2_0000
    ensures base + WordSum(b) < 0x1_0000_0000
  {
    WordSumBound(b);
  }

  lemma WrapSmall(x: nat)
    requires x < 0x1_0000_0000
    ensures Wrap32(x) == x
  {
  }

  lemma SumExact(b: seq<Byte>, base: U16)
    requires |b| <= 0x2_0000
    ensures Sum(b, base) == 0xffff - Residue(base + WordSum(b))
  {
    NoOverflow(b, base);
    WrapSmall(base + WordSum(b));
  }

  /** The checksum is the complement of the one's complement sum of RFC 1071. */
  lemma ChecksumIsComplement(b: seq<Byte>)
    requires |b| <= 0x2_0000
    ensures Sum(b, 0) == 0xffff - OnesSum(b)
  {
    SumExact(b, 0);
    ResidueIsOnesSum(b);
  }

  lemma {:induction false} WordSumConcat(a: seq<Byte>, b: seq<Byte>)
    requires |a| % 2 == 0
    ensures WordSum(a + b) == WordSum(a) + WordSum(b)
  {
    if a == [] {
      assert a + b == b;
    } else {
      assert (a + b)[2..] == a[2..] + b;
      WordSumConcat(a[2..], b);
    }
  }

  /** Two stages give what one stage gives: the receiver's sum equals the sender's. */
  lemma TwoStages(a: seq<Byte>, b: seq<Byte>)
    requires |a| % 2 == 0 && |a| + |b| <= 0x2_0000
    ensures Sum(b, 0xffff - Sum(a, 0)) == Sum(a + b, 0)
  {
    var x, y := WordSum(a), WordSum(b);
    SumExact(a, 0);
    var r := Residue(x);
    assert 0xffff - Sum(a, 0) == r;
    SumExact(b, r);
    WordSumConcat(a, b);
    SumExact(a + b, 0);
    ResidueAddsUp(x, y);
  }

  // ---------------------------------------------------------------- verification

  /** The receiver's test: the checksum of everything, checksum field included, is 0 or -0. */
  predicate Passes(sum: U16) {
    sum == 0 || sum == 0xffff
  }

  /** Of something that is not zero the test passes exactly if it is a multiple of 65535. */
  lemma PassesIffMultiple(x: nat, sum: U16)
    requires x > 0 && sum == 0xffff - Residue(x)
    ensures Passes(sum) <==> x % 0xffff == 0
  {
    MultipleIffResidue(x);
  }

  lemma {:induction false} WordSumUpdate(b: seq<Byte>, i: nat, hi: Byte, lo: Byte)
    requires i % 2 == 0 && i + 1 < |b|
    ensures WordSum(b[i := hi][i + 1 := lo]) == WordSum(b) - Word(b[i], b[i + 1]) + Word(hi, lo)
  {
    var c := b[i := hi][i + 1 := lo];
    if i == 0 {
      assert c[2..] == b[2..];
    } else {
      assert c[2..] == b[2..][i - 2 := hi][i - 1 := lo];
      WordSumUpdate(b[2..], i - 2, hi, lo);
    }
  }

  /** `v` written in network order over the two bytes at `i`. */
  function Patch(b: seq<Byte>, i: nat, v: U16): (c: seq<Byte>)
    requires i + 1 < |b|
    ensures |c| == |b|
  {
    b[i := Hton16(v)[0]][i + 1 := Hton16(v)[1]]
  }

  lemma PatchSum(b: seq<Byte>, i: nat, v: U16)
    requires i % 2 == 0 && i + 1 < |b|
    ensures WordSum(Patch(b, i, v)) == WordSum(b) - Word(b[i], b[i + 1]) + v
  {
    WordSumUpdate(b, i, Hton16(v)[0], Hton16(v)[1]);
    Hton16RoundTrip(v);
  }

  /** The checksum after a word has been written, from the sum `x` before and the word `was` that it replaces. */
  lemma PatchedSum(b: seq<Byte>, i: nat, v: U16, x: nat, was: U16)
    requires |b| <= 0x2_0000 && i % 2 == 0 && i + 1 < |b| && x == WordSum(b) && was == Word(b[i], b[i + 1])
    ensures was <= x + v && Sum(Patch(b, i, v), 0) == 0xffff - Residue(x - was + v)
  {
    PatchSum(b, i, v);
    SumExact(Patch(b, i, v), 0);
  }

  /** Two words that one's complement arithmetic cannot tell apart. */
  predicate SameResidue(v: U16, w: U16) {
    v == w || (v == 0 && w == 0xffff) || (v == 0xffff && w == 0)
  }

  lemma SwapInMultiple(x: nat, v: U16, w: U16)
    requires x % 0xffff == 0 && v <= x
    ensures (x - v + w) % 0xffff == 0 <==> SameResidue(v, w)
  {
    var k := x / 0xffff;
    if w >= v {
      ModShift(w - v, k);
    } else {
      ModShift(0xffff + w - v, k - 1);
    }
  }

  lemma ErrorVerdict(x: nat, v: U16, w: U16, before: U16, after: U16)
    requires v < x && before == 0xffff - Residue(x) && after == 0xffff - Residue(x - v + w) && Passes(before)
    ensures Passes(after) <==> SameResidue(v, w)
  {
    PassesIffMultiple(x, before);
    PassesIffMultiple(x - v + w, after);
    SwapInMultiple(x, v, w);
  }

  /** Replacing one word of what passes passes exactly if the two words are the same or 0 and -0. */
  lemma SingleWordError(b: seq<Byte>, i: nat, v: U16)
    requires |b| <= 0x2_0000 && i % 2 == 0 && i + 1 < |b|
    requires Passes(Sum(b, 0)) && WordSum(b) > Word(b[i], b[i + 1])
    ensures Passes(Sum(Patch(b, i, v), 0)) <==> SameResidue(Word(b[i], b[i + 1]), v)
  {
    var x, was := WordSum(b), Word(b[i], b[i + 1]);
    SumExact(b, 0);
    PatchedSum(b, i, v, x, was);
    ErrorVerdict(x, was, v, Sum(b, 0), Sum(Patch(b, i, v), 0));
  }

  lemma Complement(x: nat, v: U16)
    requires v <= x && x > 0
    ensures (x - v + (0xffff - Residue(x))) % 0xffff == 0 <==> SameResidue(v, 0)
  {
    ResidueIsMod(x);
    var q := (x - 1) / 0xffff;
    assert x == Residue(x) + 0xffff * q;
    assert x - v + (0xffff - Residue(x)) == (0xffff - v) + 0xffff * q;
    ModShift(0xffff - v, q);
  }

  lemma StampVerdict(x: nat, v: U16, sum: U16)
    requires v < x && sum == 0xffff - Residue(x - v + (0xffff - Residue(x)))
    ensures Passes(sum) <==> SameResidue(v, 0)
  {
    PassesIffMultiple(x - v + (0xffff - Residue(x)), sum);
    Complement(x, v);
  }

  lemma StampedSum(b: seq<Byte>, i: nat, c: U16, x: nat, was: U16)
    requires |b| <= 0x2_0000 && i % 2 == 0 && i + 1 < |b| && x == WordSum(b) && was == Word(b[i], b[i + 1])
    requires c == Sum(b, 0) && was < x
    ensures Sum(Patch(b, i, c), 0) == 0xffff - Residue(x - was + (0xffff - Residue(x)))
  {
    SumExact(b, 0);
    PatchedSum(b, i, c, x, was);
  }

  /** Text with its checksum in place passes exactly if that place held 0 or -0 when it was summed. */
  lemma StampedPasses(b: seq<Byte>, i: nat, c: U16)
    requires |b| <= 0x2_0000 && i % 2 == 0 && i + 1 < |b| && WordSum(b) > Word(b[i], b[i + 1])
    requires c == Sum(b, 0)
    ensures Passes(Sum(Patch(b, i, c), 0)) <==> SameResidue(Word(b[i], b[i + 1]), 0)
  {
    var x, was := WordSum(b), Word(b[i], b[i + 1]);
    StampedSum(b, i, c, x, was);
    StampVerdict(x, was, Sum(Patch(b, i, c), 0));
  }

  // ---------------------------------------------------------------- with a pseudo header

  lemma {:induction false} WordSumAtLeast(b: seq<Byte>, i: nat)
    requires i % 2 == 0 && i + 1 < |b|
    ensures WordSum(b) >= Word(b[i], b[i + 1])
  {
    if i > 0 {
      WordSumAtLeast(b[2..], i - 2);
    }
  }

  lemma PseudoIsSummed(src: Addr, dst: Addr, proto: Byte, len: U16)
    requires proto > 0
    ensures WordSum(PseudoHeader(src, dst, proto, len)) > 0
  {
    var p := PseudoHeader(src, dst, proto, len);
    assert p[8] == 0 && p[9] == proto;
    WordSumAtLeast(p, 8);
  }

  /** The receiver goes on from the complement of the checksum of the pseudo header. */
  predicate Checks(pseudo: seq<Byte>, b: seq<Byte>) {
    Passes(Sum(b, 0xffff - Sum(pseudo, 0)))
  }

  lemma PatchBehind(p: seq<Byte>, b: seq<Byte>, i: nat, v: U16)
    requires i + 1 < |b|
    ensures Patch(p + b, |p| + i, v) == p + Patch(b, i, v)
  {
    assert (p + b)[|p| + i := Hton16(v)[0]] == p + b[i := Hton16(v)[0]];
  }

  lemma EvenSum(x: nat, y: nat)
    requires x % 2 == 0 && y % 2 == 0
    ensures (x + y) % 2 == 0
  {
  }

  /** The word at `i` of `b` is found, and counted, in `p + b`. */
  lemma WordBehind(p: seq<Byte>, b: seq<Byte>, i: nat)
    requires |p| % 2 == 0 && WordSum(p) > 0 && i % 2 == 0 && i + 1 < |b|
    ensures (p + b)[|p| + i] == b[i] && (p + b)[|p| + i + 1] == b[i + 1]
    ensures (|p| + i) % 2 == 0 && WordSum(p + b) > Word(b[i], b[i + 1])
  {
    EvenSum(|p|, i);
    WordSumConcat(p, b);
    WordSumAtLeast(b, i);
  }

  lemma StampedWhole(p: seq<Byte>, b: seq<Byte>, i: nat, v: U16)
    requires |p| % 2 == 0 && |p| + |b| <= 0x2_0000 && WordSum(p) > 0 && i % 2 == 0 && i + 1 < |b|
    requires v == Sum(p + b, 0)
    ensures Passes(Sum(p + Patch(b, i, v), 0)) <==> SameResidue(Word(b[i], b[i + 1]), 0)
  {
    WordBehind(p, b, i);
    PatchBehind(p, b, i, v);
    StampedPasses(p + b, |p| + i, v);
  }

  lemma ErrorWhole(p: seq<Byte>, b: seq<Byte>, i: nat, v: U16)
    requires |p| % 2 == 0 && |p| + |b| <= 0x2_0000 && WordSum(p) > 0 && i % 2 == 0 && i + 1 < |b|
    requires Passes(Sum(p + b, 0))
    ensures Passes(Sum(p + Patch(b, i, v), 0)) <==> SameResidue(Word(b[i], b[i + 1]), v)
  {
    WordBehind(p, b, i);
    PatchBehind(p, b, i, v);
    SingleWordError(p + b, |p| + i, v);
  }

  /** What one who sums in two stages finds when the checksum was written at `i`. */
  lemma StampedBehind(p: seq<Byte>, b: seq<Byte>, i: nat, v: U16)
    requires |p| % 2 == 0 && |p| + |b| <= 0x2_0000 && WordSum(p) > 0 && i % 2 == 0 && i + 1 < |b|
    requires v == Sum(p + b, 0)
    ensures Checks(p, Patch(b, i, v)) <==> SameResidue(Word(b[i], b[i + 1]), 0)
  {
    var c := Patch(b, i, v);
    StampedWhole(p, b, i, v);
    TwoStages(p, c);
  }

  /** What he finds when the word at `i` was replaced. */
  lemma ErrorBehind(p: seq<Byte>, b: seq<Byte>, i: nat, v: U16)
    requires |p| % 2 == 0 && |p| + |b| <= 0x2_0000 && WordSum(p) > 0 && i % 2 == 0 && i + 1 < |b|
    requires Checks(p, b)
    ensures Checks(p, Patch(b, i, v)) <==> SameResidue(Word(b[i], b[i + 1]), v)
  {
    var c := Patch(b, i, v);
    TwoStages(p, b);
    ErrorWhole(p, b, i, v);
    TwoStages(p, c);
  }

  // ---------------------------------------------------------------- the program's loops

  lemma {:induction false} WordSumSnoc(b: seq<Byte>, i: nat)
    requires i % 2 == 0 && i + 1 < |b|
    ensures WordSum(b[..i + 2]) == WordSum(b[..i]) + Word(b[i], b[i + 1])
  {
    assert b[..i + 2] == b[..i] + [b[i], b[i + 1]];
    WordSumConcat(b[..i], [b[i], b[i + 1]]);
  }

  lemma {:induction false} WordSumPad(b: seq<Byte>)
    requires |b| % 2 == 1
    ensures WordSum(b + [0]) == WordSum(b)
  {
    if |b| > 1 {
      assert (b + [0])[2..] == b[2..] + [0];
      WordSumPad(b[2..]);
    }
  }

  lemma NextPair(i: nat, n: nat)
    requires i % 2 == 0 && n % 2 == 0 && i < n
    ensures i + 2 <= n && (i + 2) % 2 == 0
  {
  }

  lemma AddWrapped(x: nat, y: nat)
    ensures Wrap32(Wrap32(x) + y) == Wrap32(x + y)
  {
  }

  lemma Accumulated(b: seq<Byte>, i: nat, base: U32, ret: U32)
    requires i % 2 == 0 && i + 1 < |b| && ret == Wrap32(base + WordSum(b[..i]))
    ensures Wrap32(ret + Word(b[i], b[i + 1])) == Wrap32(base + WordSum(b[..i + 2]))
  {
    WordSumSnoc(b, i);
    AddWrapped(base + WordSum(b[..i]), Word(b[i], b[i + 1]));
  }

  /** Adding back the carries keeps the residue, and goes on until there are none. */
  lemma CarryKeepsResidue(x: nat)
    requires x / 0x1_0000 > 0
    ensures Residue(x % 0x1_0000 + x / 0x1_0000) == Residue(x) && x % 0x1_0000 + x / 0x1_0000 < x
  {
    var hi, lo := x / 0x1_0000, x % 0x1_0000;
    assert x == lo + hi + 0xffff * hi;
    ResidueIsMod(x);
    ResidueIsMod(lo + hi);
    ModShift(lo + hi - 1, hi);
  }

  method CheckSum(data: seq<Byte>, base: U32) returns (sum: U16)
    ensures sum == Sum(data, base)
  {
    var b := data;
    if |data| % 2 == 1 {
      b := b + [0];
      WordSumPad(data);
    }
    ghost var total := Wrap32(base + WordSum(data));
    var ret := base;
    var i := 0;
    while i < |b|
      invariant 0 <= i <= |b| && i % 2 == 0
      invariant ret == Wrap32(base + WordSum(b[..i]))
    {
      NextPair(i, |b|);
      Accumulated(b, i, base, ret);
      ret := Wrap32(ret + Word(b[i], b[i + 1]));
      i := i + 2;
    }
    assert b[..i] == b;
    assert ret == total;
    while ret / 0x1_0000 > 0
      invariant 0 <= ret && Residue(ret) == Residue(total)
      decreases ret
    {
      CarryKeepsResidue(ret);
      ret := ret % 0x1_0000 + ret / 0x1_0000;
    }
    sum := 0xffff - ret;
  }
}
