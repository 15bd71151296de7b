/** Shared vocabulary of the model: document identifiers, optional values,
    the reply a handler sends, and first-match search in a collection. */
module Base {

  /** A document identifier (a MongoDB ObjectId); the database hands them out
      from a counter, so an identifier is never reused. */
  type Id = nat

  datatype Option<+T> = None | Some(value: T) {
    function GetOr(default: T): T {
      if Some? then value else default
    }
  }

  /** What a handler sends back: the HTTP status and the message it carries. */
  datatype Reply = Reply(status: int, message: string)

  /** The index of the first element of `s` that satisfies `p`: what
      `findOne` returns when a collection is read in natural (insertion) order. */
  function FirstIndex<T>(s: seq<T>, p: T -> bool): (r: Option<nat>)
    ensures r.Some? ==> r.value < |s| && p(s[r.value])
    ensures r.Some? ==> forall j :: 0 <= j < r.value ==> !p(s[j])
    ensures r.None? <==> forall j :: 0 <= j < |s| ==> !p(s[j])
  {
    if |s| == 0 then None
    else if p(s[0]) then Some(0)
    else
      match FirstIndex(s[1..], p)
      case None => None
      case Some(k) => Some(k + 1)
  }

  /** The elements of `s` that satisfy `p`, in their original order
      (a MongoDB `find` with a filter, read in natural order). */
  function Filter<T>(s: seq<T>, p: T -> bool): (r: seq<T>)
    ensures |r| <= |s|
    ensures forall k :: 0 <= k < |r| ==> r[k] in s && p(r[k])
    ensures forall k :: 0 <= k < |s| && p(s[k]) ==> s[k] in r
  {
    if |s| == 0 then []
    else if p(s[|s| - 1]) then Filter(s[..|s| - 1], p) + [s[|s| - 1]]
    else Filter(s[..|s| - 1], p)
  }

  /** Filtering distributes over concatenation. */
  lemma {:induction false} FilterAppend<T>(a: seq<T>, b: seq<T>, p: T -> bool)
    ensures Filter(a + b, p) == Filter(a, p) + Filter(b, p)
  {
    if |b| > 0 {
      var n := |b| - 1;
      assert (a + b)[..|a + b| - 1] == a + b[..n];
      FilterAppend(a, b[..n], p);
    } else {
      assert a + b == a;
    }
  }

  /** Nothing passes a filter that no element satisfies. */
  lemma {:induction false} FilterNone<T>(s: seq<T>, p: T -> bool)
    requires forall k :: 0 <= k < |s| ==> !p(s[k])
    ensures Filter(s, p) == []
  {
    if |s| > 0 {
      FilterNone(s[..|s| - 1], p);
    }
  }

  /** Filtering by `p` after a weaker `q` is filtering by `p` alone. */
  lemma {:induction false} FilterFilter<T>(s: seq<T>, p: T -> bool, q: T -> bool)
    requires forall k :: 0 <= k < |s| && p(s[k]) ==> q(s[k])
    ensures Filter(Filter(s, q), p) == Filter(s, p)
  {
    if |s| > 0 {
      var init, last := s[..|s| - 1], s[|s| - 1];
      FilterFilter(init, p, q);
      if q(last) {
        FilterAppend(Filter(init, q), [last], p);
        assert [last][..0] == [];
      }
    }
  }

  /** `s` read backwards: a `sort({ createdAt: -1 })` over a collection whose
      natural order is creation order. */
  function Reverse<T>(s: seq<T>): (r: seq<T>)
    ensures |r| == |s|
    ensures forall k :: 0 <= k < |s| ==> r[k] == s[|s| - 1 - k]
  {
    if |s| == 0 then [] else [s[|s| - 1]] + Reverse(s[..|s| - 1])
  }

  /** Reversal keeps the elements. */
  lemma ReverseMembers<T>(s: seq<T>)
    ensures forall k :: 0 <= k < |s| ==> s[k] in Reverse(s) && Reverse(s)[k] in s
  {
    var r := Reverse(s);
    forall k | 0 <= k < |s|
      ensures s[k] in r && r[k] in s
    {
      assert r[|s| - 1 - k] == s[k];
    }
  }

  /** The total of `w` over `s`: a `reduce((sum, x) => sum + w(x), 0)` or a
      `$sum` stage. */
  function Sum<T>(s: seq<T>, w: T -> int): int {
    if |s| == 0 then 0 else Sum(s[..|s| - 1], w) + w(s[|s| - 1])
  }

  lemma SumAppend<T>(s: seq<T>, x: T, w: T -> int)
    ensures Sum(s + [x], w) == Sum(s, w) + w(x)
  {
    assert (s + [x])[..|s|] == s;
  }

  /** Replacing one element changes the total by the difference of weights. */
  lemma {:induction false} SumUpdate<T>(s: seq<T>, i: nat, x: T, w: T -> int)
    requires i < |s|
    ensures Sum(s[i := x], w) == Sum(s, w) - w(s[i]) + w(x)
  {
    var n := |s| - 1;
    if i == n {
      assert s[i := x][..n] == s[..n];
    } else {
      assert s[i := x][..n] == s[..n][i := x];
      SumUpdate(s[..n], i, x, w);
    }
  }

  /** Elements of weight zero do not change the total. */
  lemma {:induction false} SumOfZeros<T>(s: seq<T>, w: T -> int)
    requires forall k :: 0 <= k < |s| ==> w(s[k]) == 0
    ensures Sum(s, w) == 0
  {
    if |s| > 0 {
      SumOfZeros(s[..|s| - 1], w);
    }
  }

  /** A total of non-negative weights is non-negative. */
  lemma {:induction false} SumNonNegative<T>(s: seq<T>, w: T -> int)
    requires forall k :: 0 <= k < |s| ==> w(s[k]) >= 0
    ensures Sum(s, w) >= 0
  {
    if |s| > 0 {
      SumNonNegative(s[..|s| - 1], w);
    }
  }
}
