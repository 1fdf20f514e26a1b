/** The retransmission queue: contiguity, and what an acknowledgement removes. */
module TcpQueue {
  import opened Words
  import opened TcpTypes
  import opened TcpSpec

  /** Entry `i` is not empty and ends where the next one begins, the last one at `end`. */
  predicate Linked(q: seq<Entry>, end: int, i: nat)
    requires i < |q|
  {
    EntryLen(q[i]) > 0 && q[i].sn + EntryLen(q[i]) == if i + 1 < |q| then q[i + 1].sn else end
  }

  predicate Tiles(q: seq<Entry>, end: int) {
    forall i :: 0 <= i < |q| ==> Linked(q, end, i)
  }

  lemma {:induction false} TilesIncreasing(q: seq<Entry>, end: int, i: int, j: int)
    requires Tiles(q, end) && 0 <= i < j < |q|
    ensures q[i].sn < q[i].sn + EntryLen(q[i]) <= q[j].sn
    decreases j - i
  {
    assert Linked(q, end, i);
    if i + 1 < j {
      TilesIncreasing(q, end, i + 1, j);
    }
  }

  lemma TilesTail(q: seq<Entry>, end: int)
    requires Tiles(q, end) && q != []
    ensures Tiles(q[1..], end)
  {
    forall i | 0 <= i < |q[1..]|
      ensures Linked(q[1..], end, i)
    {
      assert Linked(q, end, i + 1);
    }
  }

  /** On a contiguous queue an acknowledgement removes exactly the prefix that begins below it. */
  lemma {:induction false} KeepIsSuffix(q: seq<Entry>, end: int, una: U32) returns (k: nat)
    requires Tiles(q, end)
    ensures k <= |q| && Keep(q, una) == q[k..] && Tiles(Keep(q, una), end)
    ensures forall i :: 0 <= i < |q| ==> (q[i].sn < una <==> i < k)
  {
    if q == [] {
      k := 0;
    } else {
      TilesTail(q, end);
      var j := KeepIsSuffix(q[1..], end, una);
      if q[0].sn < una {
        k := j + 1;
        assert q[k..] == q[1..][j..];
        assert forall i :: 1 <= i < |q| ==> q[i] == q[1..][i - 1];
      } else {
        forall i | 0 < i < |q|
          ensures q[i].sn > q[0].sn
        {
          TilesIncreasing(q, end, 0, i);
        }
        k := 0;
        assert forall i :: 0 < i < |q| ==> q[i] == q[1..][i - 1];
        assert j == 0;
        assert q == [q[0]] + q[1..];
      }
    }
  }

  /** What stays comes from the queue and is not below the acknowledgement. */
  lemma {:induction false} KeepStays(q: seq<Entry>, una: U32)
    ensures forall e :: e in Keep(q, una) ==> e in q && e.sn >= una
  {
    if q != [] {
      KeepStays(q[1..], una);
    }
  }

  lemma TilesAppend(q: seq<Entry>, e: Entry)
    requires Tiles(q, e.sn) && EntryLen(e) > 0
    ensures Tiles(q + [e], e.sn + EntryLen(e))
  {
    var r, end := q + [e], e.sn + EntryLen(e);
    forall i | 0 <= i < |r|
      ensures Linked(r, end, i)
    {
      if i < |q| {
        assert Linked(q, e.sn, i);
      }
    }
  }

  lemma KeepNone(q: seq<Entry>, una: U32)
    requires forall e :: e in q ==> e.sn < una
    ensures Keep(q, una) == []
  {
  }

  lemma KeepAll(q: seq<Entry>, una: U32)
    requires forall e :: e in q ==> e.sn >= una
    ensures Keep(q, una) == q && AckNotes(q, una) == []
  {
  }
}
