/** The first check of a segment against the table of section 3.3 of RFC 793. */
module TcpAcceptance {
  import opened Words
  import opened TcpSpec

  /** `x` lies in the `n` sequence numbers from `a`, counted modulo 2^32. */
  predicate InWindow(x: U32, a: U32, n: nat) {
    Wrap32(x - a) < n
  }

  /** The four rows: length zero or not, window zero or not. */
  predicate Table(nxt: U32, wnd: U16, sn: U32, len: nat) {
    if len == 0 then
      if wnd == 0 then sn == nxt else InWindow(sn, nxt, wnd)
    else
      wnd > 0 && (InWindow(sn, nxt, wnd) || InWindow(Wrap32(sn + len - 1), nxt, wnd))
  }

  /**
   * Where the window does not wrap the code's test is the table, for every segment, plus exactly one case that the
   * precedence of `&&` over `||` lets through: an empty segment one past the window.
   */
  lemma AcceptableIsTable(nxt: U32, wnd: U16, sn: U32, len: nat)
    requires nxt + wnd < 0x1_0000_0000
    ensures Agrees(nxt, wnd, sn, len)
  {
  }

  /** Some octet of the segment lies in the window. */
  predicate Overlaps(nxt: int, wnd: int, sn: int, len: int) {
    sn < nxt + wnd && nxt < sn + len
  }

  /** The segment begins before the window and ends behind it. */
  predicate SticksOut(nxt: int, wnd: int, sn: int, len: int) {
    sn < nxt && nxt + wnd < sn + len
  }

  lemma AcceptableIsOverlap(nxt: U32, wnd: U16, sn: U32, len: nat)
    requires nxt + wnd < 0x1_0000_0000 && sn + len <= 0x1_0000_0000 && len > 0 && wnd > 0
    ensures Acceptable(nxt, wnd, sn, len) <==> Overlaps(nxt, wnd, sn, len) && !SticksOut(nxt, wnd, sn, len)
    ensures Overlaps(nxt, wnd, sn, len) <==> exists x :: InSegment(x, sn, len) && nxt <= x < nxt + wnd
  {
    if Overlaps(nxt, wnd, sn, len) {
      assert InSegment(if sn < nxt then nxt else sn, sn, len);
    }
  }

  predicate InSegment(x: int, sn: int, len: int) {
    sn <= x < sn + len
  }

  /** The test agrees with the table up to the extra case. */
  predicate Agrees(nxt: U32, wnd: U16, sn: U32, len: nat) {
    Acceptable(nxt, wnd, sn, len) <==> Table(nxt, wnd, sn, len) || (len == 0 && wnd > 0 && sn == nxt + wnd)
  }

  /** The agreement holds for all segments exactly if the window is empty or does not wrap. */
  lemma AgreementIffNoWrap(nxt: U32, wnd: U16)
    ensures (forall sn: U32, len: nat :: Agrees(nxt, wnd, sn, len)) <==> wnd == 0 || nxt + wnd < 0x1_0000_0000
  {
    if wnd == 0 || nxt + wnd < 0x1_0000_0000 {
      forall sn: U32, len: nat
        ensures Agrees(nxt, wnd, sn, len)
      {
        if wnd > 0 {
          AcceptableIsTable(nxt, wnd, sn, len);
        }
      }
    } else {
      assert Table(nxt, wnd, nxt, 1) && !Acceptable(nxt, wnd, nxt, 1);
      assert !Agrees(nxt, wnd, nxt, 1);
    }
  }
}
