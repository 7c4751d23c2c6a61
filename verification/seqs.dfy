/**
 * Sequence helpers shared by the scanner model: an in-order "filter and map"
 * (what the scanner's result-gathering loops compute), its characterisation by
 * increasing index sequences, and Python's `range`.
 */
module Seqs {
  import opened Wrappers

  ghost predicate AllDistinct<T>(s: seq<T>) {
    forall i, j :: 0 <= i < j < |s| ==> s[i] != s[j]
  }

  ghost predicate Increasing(idx: seq<nat>) {
    forall j, k :: 0 <= j < k < |idx| ==> idx[j] < idx[k]
  }

  /** `r` lists, in order, the images under `f` of the elements of `s` that `f` accepts,
      and `idx` gives the positions in `s` they come from. */
  ghost predicate SelectedAt<T, U>(s: seq<T>, f: T -> Option<U>, r: seq<U>, idx: seq<nat>) {
    && |idx| == |r|
    && Increasing(idx)
    && (forall k :: 0 <= k < |idx| ==> idx[k] < |s| && f(s[idx[k]]) == Some(r[k]))
    && (forall i :: 0 <= i < |s| && f(s[i]).Some? ==> i in idx)
  }

  /** `r` is `s` with some elements left out and the rest kept in their order. */
  ghost predicate IsSubsequence<T>(r: seq<T>, s: seq<T>) {
    exists idx: seq<nat> ::
      && |idx| == |r|
      && Increasing(idx)
      && (forall k :: 0 <= k < |idx| ==> idx[k] < |s| && r[k] == s[idx[k]])
  }

  /** Walk `s` from the front and append `f(x)` for every `x` that `f` accepts. */
  function Collect<T, U>(s: seq<T>, f: T -> Option<U>): (r: seq<U>)
    ensures |r| <= |s|
  {
    if s == [] then []
    else
      var init := Collect(s[..|s| - 1], f);
      match f(s[|s| - 1])
      case Some(u) => init + [u]
      case None => init
  }

  /** The positions of `s` whose elements `f` accepts, in increasing order. */
  function CollectIndices<T, U>(s: seq<T>, f: T -> Option<U>): (idx: seq<nat>)
    ensures |idx| == |Collect(s, f)|
    ensures forall k :: 0 <= k < |idx| ==> idx[k] < |s|
  {
    if s == [] then []
    else
      var init := CollectIndices(s[..|s| - 1], f);
      if f(s[|s| - 1]).Some? then init + [|s| - 1] else init
  }

  /** Collect keeps exactly the accepted elements, in their original order. */
  lemma {:induction false} CollectSelects<T, U>(s: seq<T>, f: T -> Option<U>)
    ensures SelectedAt(s, f, Collect(s, f), CollectIndices(s, f))
  {
    if s != [] {
      var n := |s| - 1;
      var p := s[..n];
      CollectSelects(p, f);
      var r0, idx0 := Collect(p, f), CollectIndices(p, f);
      var r, idx := Collect(s, f), CollectIndices(s, f);
      forall k | 0 <= k < |idx0|
        ensures idx0[k] < n && f(s[idx0[k]]) == Some(r0[k])
      {
        assert p[idx0[k]] == s[idx0[k]];
      }
      forall i | 0 <= i < |s| && f(s[i]).Some?
        ensures i in idx
      {
        if i < n {
          assert p[i] == s[i];
        }
      }
    }
  }

  /** Dropping an accepted last element from `s` drops the last entry of a selection. */
  lemma SelectedAtDropAccepted<T, U>(s: seq<T>, f: T -> Option<U>, r: seq<U>, idx: seq<nat>)
    requires SelectedAt(s, f, r, idx)
    requires s != [] && f(s[|s| - 1]).Some?
    ensures |idx| > 0 && idx[|idx| - 1] == |s| - 1 && f(s[|s| - 1]) == Some(r[|r| - 1])
    ensures SelectedAt(s[..|s| - 1], f, r[..|r| - 1], idx[..|idx| - 1])
  {
    var n := |s| - 1;
    var p := s[..n];
    assert n in idx;
    var m := |idx| - 1;
    var j :| 0 <= j < |idx| && idx[j] == n;
    assert idx[m] == n;
    forall k | 0 <= k < m
      ensures idx[k] < n && f(p[idx[k]]) == Some(r[k])
    {
      assert idx[k] < idx[m];
    }
    forall i | 0 <= i < n && f(p[i]).Some?
      ensures i in idx[..m]
    {
      assert p[i] == s[i];
      var j' :| 0 <= j' < |idx| && idx[j'] == i;
      assert j' != m;
    }
  }

  /** Dropping a rejected last element from `s` leaves a selection unchanged. */
  lemma SelectedAtDropRejected<T, U>(s: seq<T>, f: T -> Option<U>, r: seq<U>, idx: seq<nat>)
    requires SelectedAt(s, f, r, idx)
    requires s != [] && f(s[|s| - 1]).None?
    ensures SelectedAt(s[..|s| - 1], f, r, idx)
  {
    var n := |s| - 1;
    var p := s[..n];
    forall k | 0 <= k < |idx|
      ensures idx[k] < n && f(p[idx[k]]) == Some(r[k])
    {
      assert idx[k] != n;
    }
    forall i | 0 <= i < n && f(p[i]).Some?
      ensures i in idx
    {
      assert p[i] == s[i];
    }
  }

  /** Collect and CollectIndices grow by one entry when the last element is accepted. */
  lemma CollectSnoc<T, U>(s: seq<T>, f: T -> Option<U>, r: seq<U>, idx: seq<nat>)
    requires s != [] && |r| == |idx| > 0
    requires f(s[|s| - 1]) == Some(r[|r| - 1]) && idx[|idx| - 1] == |s| - 1
    requires r[..|r| - 1] == Collect(s[..|s| - 1], f)
    requires idx[..|idx| - 1] == CollectIndices(s[..|s| - 1], f)
    ensures r == Collect(s, f) && idx == CollectIndices(s, f)
  {
    var m := |r| - 1;
    assert r == r[..m] + [r[m]];
    assert idx == idx[..m] + [idx[m]];
  }

  /** The selection is unique: any in-order selection of the accepted elements is Collect's. */
  lemma {:induction false} SelectedAtUnique<T, U>(s: seq<T>, f: T -> Option<U>, r: seq<U>, idx: seq<nat>)
    requires SelectedAt(s, f, r, idx)
    ensures r == Collect(s, f) && idx == CollectIndices(s, f)
  {
    if s == [] {
      assert |idx| == 0;
    } else if f(s[|s| - 1]).Some? {
      SelectedAtDropAccepted(s, f, r, idx);
      var m := |idx| - 1;
      SelectedAtUnique(s[..|s| - 1], f, r[..m], idx[..m]);
      CollectSnoc(s, f, r, idx);
    } else {
      SelectedAtDropRejected(s, f, r, idx);
      SelectedAtUnique(s[..|s| - 1], f, r, idx);
    }
  }

  /** A value is collected exactly when some element of `s` is mapped to it. */
  lemma CollectMember<T, U>(s: seq<T>, f: T -> Option<U>, u: U)
    ensures u in Collect(s, f) <==> exists i :: 0 <= i < |s| && f(s[i]) == Some(u)
  {
    CollectSelects(s, f);
    var r, idx := Collect(s, f), CollectIndices(s, f);
    if u in r {
      var k :| 0 <= k < |r| && r[k] == u;
      assert f(s[idx[k]]) == Some(u);
    }
    if i :| 0 <= i < |s| && f(s[i]) == Some(u) {
      assert i in idx;
      var k :| 0 <= k < |idx| && idx[k] == i;
      assert r[k] == u;
    }
  }

  /** In a sequence without duplicates, no element occurs before its own position. */
  lemma DistinctNotInPrefix<T>(s: seq<T>, i: nat)
    requires AllDistinct(s) && i < |s|
    ensures s[i] !in s[..i]
  {
    forall j | 0 <= j < i ensures s[..i][j] != s[i] {
      assert s[..i][j] == s[j];
    }
  }

  /** Nothing is collected when `f` accepts no element. */
  lemma {:induction false} CollectNoneAccepted<T, U>(s: seq<T>, f: T -> Option<U>)
    requires forall i :: 0 <= i < |s| ==> f(s[i]).None?
    ensures Collect(s, f) == []
  {
    if s != [] {
      var p := s[..|s| - 1];
      assert forall i :: 0 <= i < |p| ==> p[i] == s[i];
      CollectNoneAccepted(p, f);
    }
  }

  /** When `f` only accepts or rejects (it never changes an element), Collect is an
      order-preserving filter: its result is a subsequence of `s`, and it has no
      duplicates when `s` has none. */
  lemma FilterIsSubsequence<T>(s: seq<T>, f: T -> Option<T>)
    requires forall x :: f(x).Some? ==> f(x).value == x
    ensures IsSubsequence(Collect(s, f), s)
    ensures AllDistinct(s) ==> AllDistinct(Collect(s, f))
  {
    CollectSelects(s, f);
    var r, idx := Collect(s, f), CollectIndices(s, f);
    forall k | 0 <= k < |idx|
      ensures idx[k] < |s| && r[k] == s[idx[k]]
    {
      assert f(s[idx[k]]) == Some(r[k]);
    }
    if AllDistinct(s) {
      forall j, k | 0 <= j < k < |r|
        ensures r[j] != r[k]
      {
        assert idx[j] < idx[k];
        assert r[j] == s[idx[j]] && r[k] == s[idx[k]];
      }
    }
  }

  /** Python's `range(start, stop)`: the integers from `start` up to but excluding `stop`. */
  function Range(start: int, stop: int): (r: seq<int>)
    ensures |r| == if start < stop then stop - start else 0
    ensures forall k :: 0 <= k < |r| ==> r[k] == start + k
    decreases stop - start
  {
    if start < stop then [start] + Range(start + 1, stop) else []
  }
}
