/** Stable filtering of a sequence: the shape of a Python loop that walks a
    list in order and appends the elements it keeps. */
module Seqs {

  /** The elements of `s` that satisfy `p`, in their original order. */
  function Select<T>(s: seq<T>, p: T -> bool): (r: seq<T>)
    ensures |r| <= |s|
    ensures forall x :: x in r ==> x in s && p(x)
    decreases |s|
  {
    if s == [] then []
    else
      var init := Select(s[..|s| - 1], p);
      if p(s[|s| - 1]) then init + [s[|s| - 1]] else init
  }

  /** The positions in `s` of the elements Select keeps. */
  function SelectedIndices<T>(s: seq<T>, p: T -> bool): seq<nat>
    decreases |s|
  {
    if s == [] then []
    else
      var init := SelectedIndices(s[..|s| - 1], p);
      if p(s[|s| - 1]) then init + [|s| - 1] else init
  }

  /** Appending one element extends the selection by that element exactly
      when it satisfies `p`: the step of the append loop. */
  lemma SelectSnoc<T>(s: seq<T>, x: T, p: T -> bool)
    ensures Select(s + [x], p) == if p(x) then Select(s, p) + [x] else Select(s, p)
  {
    assert (s + [x])[..|s|] == s;
  }

  /** Position `k` of the selection holds the element of `s` at the `k`-th
      selected position. */
  lemma {:induction false} SelectedIndicesPick<T>(s: seq<T>, p: T -> bool)
    ensures var r, ix := Select(s, p), SelectedIndices(s, p);
      |ix| == |r| && forall k :: 0 <= k < |ix| ==> ix[k] < |s| && r[k] == s[ix[k]]
    decreases |s|
  {
    if s != [] {
      var n := |s| - 1;
      SelectedIndicesPick(s[..n], p);
      var r0, ix0 := Select(s[..n], p), SelectedIndices(s[..n], p);
      assert forall k :: 0 <= k < |ix0| ==> r0[k] == s[ix0[k]];
    }
  }

  /** The selected positions are strictly increasing and are exactly the
      positions whose element satisfies `p`. */
  lemma {:induction false} SelectedIndicesMarks<T>(s: seq<T>, p: T -> bool)
    ensures var ix := SelectedIndices(s, p);
      (forall k :: 0 <= k < |ix| ==> ix[k] < |s|) &&
      (forall k, m :: 0 <= k < m < |ix| ==> ix[k] < ix[m]) &&
      (forall i :: 0 <= i < |s| ==> (i in ix <==> p(s[i])))
    decreases |s|
  {
    if s != [] {
      var n := |s| - 1;
      SelectedIndicesMarks(s[..n], p);
      assert forall i :: 0 <= i < n ==> s[..n][i] == s[i];
    }
  }

  /** Select keeps exactly the elements satisfying `p`, each once, in their
      original order: its result is `s` read at a strictly increasing
      sequence of positions, and a position is among them iff its element
      satisfies `p`. */
  lemma SelectIsOrderedSubsequence<T>(s: seq<T>, p: T -> bool)
    ensures var r, ix := Select(s, p), SelectedIndices(s, p);
      |ix| == |r| &&
      (forall k :: 0 <= k < |ix| ==> ix[k] < |s| && r[k] == s[ix[k]]) &&
      (forall k, m :: 0 <= k < m < |ix| ==> ix[k] < ix[m]) &&
      (forall i :: 0 <= i < |s| ==> (i in ix <==> p(s[i])))
  {
    SelectedIndicesPick(s, p);
    SelectedIndicesMarks(s, p);
  }

  /** Filtering by `p` and then by `q` is filtering once by their
      conjunction. */
  lemma {:induction false} SelectCompose<T>(s: seq<T>, p: T -> bool, q: T -> bool, both: T -> bool)
    requires forall x :: both(x) == (p(x) && q(x))
    ensures Select(Select(s, p), q) == Select(s, both)
    decreases |s|
  {
    if s != [] {
      var n := |s| - 1;
      SelectCompose(s[..n], p, q, both);
      if p(s[n]) {
        SelectSnoc(Select(s[..n], p), s[n], q);
      }
    }
  }

  /** Select looks at `p` only through its values on the elements. */
  lemma {:induction false} SelectAgree<T>(s: seq<T>, p: T -> bool, q: T -> bool)
    requires forall i :: 0 <= i < |s| ==> p(s[i]) == q(s[i])
    ensures Select(s, p) == Select(s, q)
    decreases |s|
  {
    if s != [] {
      SelectAgree(s[..|s| - 1], p, q);
    }
  }

  /** Filtering a second time by a condition implied by the first changes
      nothing more than the second filter alone. */
  lemma SelectNarrow<T>(s: seq<T>, wide: T -> bool, narrow: T -> bool)
    requires forall x :: narrow(x) ==> wide(x)
    ensures Select(Select(s, wide), narrow) == Select(s, narrow)
  {
    SelectCompose(s, wide, narrow, narrow);
  }

  /** The positions of `s` whose element satisfies `p`, collected from the
      left. */
  function Matching<T>(s: seq<T>, p: T -> bool): set<nat>
    decreases |s|
  {
    if s == [] then {}
    else
      var n := |s| - 1;
      Matching(s[..n], p) + if p(s[n]) then {n} else {}
  }

  /** Matching holds exactly the positions whose element satisfies `p`. */
  lemma {:induction false} MatchingMembers<T>(s: seq<T>, p: T -> bool)
    ensures forall i :: i in Matching(s, p) <==> 0 <= i < |s| && p(s[i])
    decreases |s|
  {
    if s != [] {
      var n := |s| - 1;
      MatchingMembers(s[..n], p);
      assert forall i :: 0 <= i < n ==> s[..n][i] == s[i];
    }
  }

  /** The length of the selection is the number of positions whose element
      satisfies `p`. */
  lemma {:induction false} SelectCount<T>(s: seq<T>, p: T -> bool)
    ensures |Select(s, p)| == |Matching(s, p)|
    decreases |s|
  {
    if s != [] {
      var n := |s| - 1;
      SelectCount(s[..n], p);
      MatchingMembers(s[..n], p);
      assert n !in Matching(s[..n], p);
    }
  }
}
