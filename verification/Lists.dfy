/** Sequences: the parts, selections and filters used wherever the program copies or erases by a condition. */
module Lists {

  ghost predicate NoDuplicates<T>(s: seq<T>) {
    forall i, j :: 0 <= i < j < |s| ==> s[i] != s[j]
  }

  /** At most n elements from the front. */
  function Take<T>(s: seq<T>, n: nat): seq<T> {
    if |s| > n then s[..n] else s
  }

  /** At most n elements from the back. */
  function Newest<T>(s: seq<T>, n: nat): seq<T> {
    if |s| > n then s[|s| - n..] else s
  }

  /** The elements at the given positions. */
  function Pick<T>(items: seq<T>, at: seq<nat>): (r: seq<T>)
    requires forall k :: 0 <= k < |at| ==> at[k] < |items|
    ensures |r| == |at| && forall k :: 0 <= k < |r| ==> r[k] == items[at[k]]
  {
    seq(|at|, k requires 0 <= k < |at| => items[at[k]])
  }

  function Filter<T>(s: seq<T>, p: T -> bool): (r: seq<T>)
    decreases |s|
    ensures |r| <= |s|
  {
    if s == [] then []
    else Filter(s[..|s| - 1], p) + if p(s[|s| - 1]) then [s[|s| - 1]] else []
  }

  /** Filter as a loop sees it: one more element. */
  lemma FilterNext<T>(s: seq<T>, i: nat, p: T -> bool)
    requires i < |s|
    ensures Filter(s[..i + 1], p) == Filter(s[..i], p) + if p(s[i]) then [s[i]] else []
  {
    assert s[..i + 1][..i] == s[..i];
  }

  lemma {:induction false} FilterMember<T>(s: seq<T>, p: T -> bool, x: T)
    ensures x in Filter(s, p) <==> x in s && p(x)
    decreases |s|
  {
    if s != [] {
      FilterMember(s[..|s| - 1], p, x);
      assert s == s[..|s| - 1] + [s[|s| - 1]];
    }
  }

  lemma {:induction false} FilterConcat<T>(a: seq<T>, b: seq<T>, p: T -> bool)
    ensures Filter(a + b, p) == Filter(a, p) + Filter(b, p)
    decreases |b|
  {
    if b == [] {
      assert a + b == a;
    } else {
      assert (a + b)[..|a + b| - 1] == a + b[..|b| - 1];
      FilterConcat(a, b[..|b| - 1], p);
    }
  }

  lemma {:induction false} FilterAll<T>(s: seq<T>, p: T -> bool)
    requires forall x :: x in s ==> p(x)
    ensures Filter(s, p) == s
    decreases |s|
  {
    if s != [] {
      FilterAll(s[..|s| - 1], p);
      assert s == s[..|s| - 1] + [s[|s| - 1]];
    }
  }

  lemma {:induction false} FilterNone<T>(s: seq<T>, p: T -> bool)
    requires forall x :: x in s ==> !p(x)
    ensures Filter(s, p) == []
    decreases |s|
  {
    if s != [] { FilterNone(s[..|s| - 1], p); }
  }

  lemma {:induction false} FilterSame<T>(s: seq<T>, p: T -> bool, q: T -> bool)
    requires forall x :: x in s ==> (p(x) <==> q(x))
    ensures Filter(s, p) == Filter(s, q)
    decreases |s|
  {
    if s != [] {
      assert s == s[..|s| - 1] + [s[|s| - 1]];
      FilterSame(s[..|s| - 1], p, q);
    }
  }

  /** Filtering keeps order: elements that were distinct under some tag stay distinct. */
  lemma {:induction false} FilterDistinct<T, K>(s: seq<T>, p: T -> bool, tag: T -> K)
    requires forall i, j :: 0 <= i < j < |s| ==> tag(s[i]) != tag(s[j])
    ensures forall i, j :: 0 <= i < j < |Filter(s, p)| ==> tag(Filter(s, p)[i]) != tag(Filter(s, p)[j])
    decreases |s|
  {
    if s != [] {
      var front := s[..|s| - 1];
      FilterDistinct(front, p, tag);
      forall x | x in Filter(front, p) ensures tag(x) != tag(s[|s| - 1]) {
        FilterMember(front, p, x);
        var i :| 0 <= i < |front| && front[i] == x;
        assert s[i] == x;
      }
    }
  }
}
