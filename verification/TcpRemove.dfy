/** `removeRetx` on the backing array that source and target slices share. */
module TcpRemove {
  import opened TcpTypes
  import opened TcpSpec

  /** The elements of `q[..k]` whose index is not listed, in order. */
  function Unlisted(q: seq<Entry>, idx: seq<nat>, k: nat): seq<Entry>
    requires k <= |q|
  {
    if k == 0 then [] else Unlisted(q, idx, k - 1) + if k - 1 in idx then [] else [q[k - 1]]
  }

  lemma {:induction false} UnlistedPrefix(q: seq<Entry>, r: seq<Entry>, idx: seq<nat>, jdx: seq<nat>, k: nat)
    requires k <= |q| && k <= |r| && q[..k] == r[..k] && forall i :: 0 <= i < k ==> (i in idx <==> i in jdx)
    ensures Unlisted(q, idx, k) == Unlisted(r, jdx, k)
  {
    if k > 0 {
      assert q[..k][..k - 1] == q[..k - 1] && r[..k][..k - 1] == r[..k - 1];
      assert q[..k][k - 1] == q[k - 1] && r[..k][k - 1] == r[k - 1];
      UnlistedPrefix(q, r, idx, jdx, k - 1);
    }
  }

  lemma {:induction false} UnlistedRest(q: seq<Entry>, idx: seq<nat>, a: nat, k: nat)
    requires a <= k <= |q| && forall i :: a <= i < k ==> i !in idx
    ensures Unlisted(q, idx, k) == Unlisted(q, idx, a) + q[a..k]
    decreases k
  {
    if a < k {
      UnlistedRest(q, idx, a, k - 1);
      assert q[a..k] == q[a..k - 1] + [q[k - 1]];
    }
  }

  /** The last index is above the others, and nothing is listed above it. */
  lemma LastIndex(idx: seq<nat>, size: nat)
    requires Indices(idx, size) && idx != []
    ensures
      var n := |idx| - 1;
      && Indices(idx[..n], idx[n])
      && (forall i :: 0 <= i < idx[n] ==> (i in idx <==> i in idx[..n]))
      && (forall i :: idx[n] < i ==> i !in idx) && idx[n] in idx
  {
    assert idx == idx[..|idx| - 1] + [idx[|idx| - 1]];
  }

  lemma UnlistedOne(q: seq<Entry>, idx: seq<nat>, k: nat)
    requires k < |q| && k in idx
    ensures Unlisted(q, idx, k + 1) == Unlisted(q, idx, k)
  {
    assert Unlisted(q, idx, k) + [] == Unlisted(q, idx, k);
  }

  lemma UnlistedTail(q: seq<Entry>, idx: seq<nat>, k: nat)
    requires k < |q| && k in idx && forall i :: k < i ==> i !in idx
    ensures Unlisted(q, idx, |q|) == Unlisted(q, idx, k) + q[k + 1..]
  {
    var rest := q[k + 1..|q|];
    UnlistedRest(q, idx, k + 1, |q|);
    UnlistedOne(q, idx, k);
    assert rest == q[k + 1..];
  }

  lemma UnlistedLast(q: seq<Entry>, r: seq<Entry>, idx: seq<nat>, jdx: seq<nat>, k: nat)
    requires k < |q| && k in idx && (forall i :: k < i ==> i !in idx) && r == q[..k]
    requires forall i :: 0 <= i < k ==> (i in idx <==> i in jdx)
    ensures Unlisted(q, idx, |q|) == Unlisted(r, jdx, k) + q[k + 1..]
  {
    UnlistedTail(q, idx, k);
    assert r[..k] == q[..k];
    UnlistedPrefix(q, r, idx, jdx, k);
  }

  /** Removal by strictly increasing indices keeps exactly what is not listed, in order. */
  lemma {:induction false} RemoveAtKeepsUnlisted(q: seq<Entry>, idx: seq<nat>)
    requires Indices(idx, |q|)
    ensures RemoveAt(q, idx) == Unlisted(q, idx, |q|) && |RemoveAt(q, idx)| == |q| - |idx|
    decreases |idx|
  {
    if idx == [] {
      UnlistedRest(q, idx, 0, |q|);
    } else {
      var n := |idx| - 1;
      var k := idx[n];
      var r, jdx := q[..k], idx[..n];
      LastIndex(idx, |q|);
      RemoveAtKeepsUnlisted(r, jdx);
      UnlistedLast(q, r, idx, jdx, k);
    }
  }

  /**
   * `append(ret, data[from..to]...)` with enough capacity copies within the array. Everything
   * from `w` on is still as in `all`, and stays so behind the new end.
   */
  method Append(data: array<Entry>, w: nat, from: nat, to: nat, ghost done: seq<Entry>, ghost all: seq<Entry>)
    requires w <= from <= to <= data.Length == |all| && |done| == w && data[..] == done + all[w..]
    modifies data
    ensures data[..] == (done + all[from..to]) + all[w + (to - from)..]
  {
    ghost var before := data[..];
    forall j | w <= j < |all|
      ensures data[j] == all[j]
    {
      assert before[j] == all[w..][j - w];
    }
    forall i | w <= i < w + (to - from) {
      data[i] := data[i - w + from];
    }
    SliceAppended(before, data[..], w, from, to, done, all);
  }

  lemma SliceAppended(
      before: seq<Entry>, after: seq<Entry>, w: nat, from: nat, to: nat, done: seq<Entry>, all: seq<Entry>)
    requires w <= from <= to <= |before| == |after| == |all| && |done| == w && before == done + all[w..]
    requires forall j :: w <= j < w + (to - from) ==> after[j] == before[j - w + from]
    requires forall j :: (0 <= j < w || w + (to - from) <= j < |all|) ==> after[j] == before[j]
    ensures after == (done + all[from..to]) + all[w + (to - from)..]
  {
    var r := (done + all[from..to]) + all[w + (to - from)..];
    assert |r| == |all|;
    forall j | w <= j < |all|
      ensures before[j] == all[j]
    {
      assert before[j] == all[w..][j - w];
    }
    forall j | 0 <= j < |all|
      ensures after[j] == r[j]
    {
      if j < w {
        assert r[j] == done[j] == before[j] == after[j];
      } else if j < w + (to - from) {
        var k := j - w + from;
        assert r[j] == all[from..to][j - w] == all[k] == before[k] == after[j];
      } else {
        assert r[j] == all[j] == before[j] == after[j];
      }
    }
  }

  /**
   * The slice of length `n` at the start of `data` becomes the slice of length `w`. The appends
   * overwrite only what has been read: the target never overtakes the source.
   */
  method RemoveRetxInPlace(data: array<Entry>, n: nat, indexs: seq<nat>) returns (w: nat)
    requires n <= data.Length && Indices(indexs, n)
    modifies data
    ensures w == n - |indexs|
    ensures data[..w] == Unlisted(old(data[..n]), indexs, n)
    ensures data[n..] == old(data[n..])
  {
    RemoveAtKeepsUnlisted(data[..n], indexs);
    if |indexs| == 0 {
      return n;
    }
    ghost var all := data[..];
    assert data[..n] == all[..n];
    w := AppendBetween(data, n, indexs);
    var from := indexs[|indexs| - 1] + 1;
    PiecesLength(all[..n], indexs, |indexs|);
    Append(data, w, from, n, Pieces(all[..n], indexs, |indexs|), all);
    w := w + (n - from);
    assert w == n - |indexs|;
    Finish(all, n, indexs, data[..]);
    assert data[..w] == data[..][..w] && data[n..] == data[..][n..];
  }

  /** All appends but the last. */
  method AppendBetween(data: array<Entry>, n: nat, indexs: seq<nat>) returns (w: nat)
    requires n <= data.Length && Indices(indexs, n) && indexs != []
    modifies data
    ensures w == indexs[|indexs| - 1] - (|indexs| - 1)
    ensures data[..] == Pieces(old(data[..n]), indexs, |indexs|) + old(data[..])[w..]
  {
    ghost var all := data[..];
    ghost var q := data[..n];
    w := indexs[0];
    assert q == all[..n] && all == q[..w] + all[w..];
    for i := 1 to |indexs|
      invariant w == indexs[i - 1] - (i - 1) <= n
      invariant data[..] == Pieces(q, indexs, i) + all[w..]
    {
      w := AppendPiece(data, n, indexs, i, w, q, all);
    }
  }

  /** The elements between two listed indices. */
  method AppendPiece(
      data: array<Entry>, n: nat, indexs: seq<nat>, i: nat, start: nat, ghost q: seq<Entry>, ghost all: seq<Entry>)
    returns (w: nat)
    requires n <= data.Length == |all| && Indices(indexs, n) && 0 < i < |indexs| && q == all[..n]
    requires start == indexs[i - 1] - (i - 1) && data[..] == Pieces(q, indexs, i) + all[start..]
    modifies data
    ensures w == indexs[i] - i <= n && data[..] == Pieces(q, indexs, i + 1) + all[w..]
  {
    var from, to := indexs[i - 1] + 1, indexs[i];
    PiecesLength(q, indexs, i);
    PiecesStep(all, n, indexs, i);
    Append(data, start, from, to, Pieces(q, indexs, i), all);
    w := start + (to - from);
  }

  lemma LastPiece(q: seq<Entry>, idx: seq<nat>)
    requires Indices(idx, |q|) && idx != [] && |idx| <= |q|
    ensures Pieces(q, idx, |idx|) + q[idx[|idx| - 1] + 1..] == Unlisted(q, idx, |q|)
    ensures |Unlisted(q, idx, |q|)| == |q| - |idx|
  {
    PiecesRemove(q, idx, |idx|);
    Last(q, idx);
    RemoveAtKeepsUnlisted(q, idx);
  }

  lemma Finish(all: seq<Entry>, n: nat, idx: seq<nat>, d: seq<Entry>)
    requires |idx| <= n <= |all| && Indices(idx, n) && idx != []
    requires
      var from := idx[|idx| - 1] + 1;
      d == (Pieces(all[..n], idx, |idx|) + all[from..n]) + all[n - |idx|..]
    ensures |d| == |all| && d[..n - |idx|] == Unlisted(all[..n], idx, n) && d[n..] == all[n..]
  {
    var q, from := all[..n], idx[|idx| - 1] + 1;
    assert q[from..] == all[from..n];
    LastPiece(q, idx);
    var front, back := Unlisted(q, idx, n), all[n - |idx|..];
    assert d == front + back && back[|idx|..] == all[n..];
  }

  /** What stands before the `i`-th listed index once the earlier ones are removed. */
  function Pieces(q: seq<Entry>, idx: seq<nat>, i: nat): seq<Entry>
    requires Indices(idx, |q|) && 0 < i <= |idx|
  {
    if i == 1 then q[..idx[0]] else Pieces(q, idx, i - 1) + q[idx[i - 2] + 1..idx[i - 1]]
  }

  lemma PiecesStep(all: seq<Entry>, n: nat, idx: seq<nat>, i: nat)
    requires n <= |all| && Indices(idx, n) && 0 < i < |idx|
    ensures idx[i - 1] < idx[i]
    ensures Pieces(all[..n], idx, i + 1) == Pieces(all[..n], idx, i) + all[idx[i - 1] + 1..idx[i]]
  {
    assert all[..n][idx[i - 1] + 1..idx[i]] == all[idx[i - 1] + 1..idx[i]];
  }

  lemma {:induction false} PiecesLength(q: seq<Entry>, idx: seq<nat>, i: nat)
    requires Indices(idx, |q|) && 0 < i <= |idx|
    ensures |Pieces(q, idx, i)| == idx[i - 1] - (i - 1)
  {
    if i > 1 {
      PiecesLength(q, idx, i - 1);
    }
  }

  lemma {:induction false} PiecesRemove(q: seq<Entry>, idx: seq<nat>, i: nat)
    requires Indices(idx, |q|) && 0 < i <= |idx|
    ensures Indices(idx[..i - 1], idx[i - 1]) && Pieces(q, idx, i) == RemoveAt(q[..idx[i - 1]], idx[..i - 1])
  {
    if i > 1 {
      PiecesRemove(q, idx, i - 1);
      RemovedOnce(q, idx, i - 1);
    }
  }

  lemma Last(q: seq<Entry>, idx: seq<nat>)
    requires Indices(idx, |q|) && idx != []
    ensures
      var n := |idx| - 1;
      Indices(idx[..n], idx[n]) && RemoveAt(q, idx) == RemoveAt(q[..idx[n]], idx[..n]) + q[idx[n] + 1..]
  {
  }

  /** What one append adds. */
  lemma RemovedOnce(q: seq<Entry>, idx: seq<nat>, i: nat)
    requires Indices(idx, |q|) && 0 < i < |idx|
    ensures Indices(idx[..i - 1], idx[i - 1]) && Indices(idx[..i], idx[i])
    ensures RemoveAt(q[..idx[i]], idx[..i]) == RemoveAt(q[..idx[i - 1]], idx[..i - 1]) + q[idx[i - 1] + 1..idx[i]]
  {
    assert idx[..i][..i - 1] == idx[..i - 1];
    assert q[..idx[i]][..idx[i - 1]] == q[..idx[i - 1]];
    assert q[..idx[i]][idx[i - 1] + 1..] == q[idx[i - 1] + 1..idx[i]];
  }
}
