/** The ranking used by queries and by the context compiler: priority first, then recency, ties in the
    given order. A stable sort is pinned down completely by what it must satisfy. */
module Ranking {
  import opened KnowledgeGraph
  import opened Lists

  /** The comparator handed to std::stable_sort. */
  predicate Before(a: Fact, b: Fact) {
    if a.priority != b.priority then a.priority > b.priority else a.tick > b.tick
  }

  /** Higher priorities first, and of equal priorities the more recent. */
  ghost predicate Ranked(s: seq<Fact>) {
    forall i, j :: 0 <= i < j < |s| ==> AtLeast(s[i], s[j])
  }

  ghost predicate AtLeast(a: Fact, b: Fact) {
    a.priority > b.priority || (a.priority == b.priority && a.tick >= b.tick)
  }

  predicate SameRank(a: Fact, b: Fact) {
    a.priority == b.priority && a.tick == b.tick
  }

  /** The facts of one rank, in order of appearance. */
  function Class(s: seq<Fact>, f: Fact): seq<Fact> {
    if s == [] then [] else (if SameRank(s[0], f) then [s[0]] else []) + Class(s[1..], f)
  }

  /** b holds the facts of a, those of equal rank in the same order. */
  ghost predicate StableRearrangement(a: seq<Fact>, b: seq<Fact>) {
    forall f :: Class(a, f) == Class(b, f)
  }

  function Insert(f: Fact, s: seq<Fact>): seq<Fact> {
    if s == [] || !Before(s[0], f) then [f] + s else [s[0]] + Insert(f, s[1..])
  }

  function StableSort(s: seq<Fact>): seq<Fact> {
    if s == [] then [] else Insert(s[0], StableSort(s[1..]))
  }

  lemma {:induction false} InsertRanked(f: Fact, s: seq<Fact>)
    requires Ranked(s)
    ensures Ranked(Insert(f, s))
    ensures forall g :: g in Insert(f, s) <==> g == f || g in s
  {
    if s != [] && Before(s[0], f) {
      InsertRanked(f, s[1..]);
      var t := Insert(f, s[1..]);
      forall i, j | 0 <= i < j < |[s[0]] + t| ensures AtLeast(([s[0]] + t)[i], ([s[0]] + t)[j]) {
        if i == 0 {
          assert t[j - 1] in t;
          if t[j - 1] != f {
            var k :| 0 <= k < |s[1..]| && s[1..][k] == t[j - 1];
            assert s[k + 1] == t[j - 1];
          }
        }
      }
    } else {
      forall i, j | 0 <= i < j < |[f] + s| ensures AtLeast(([f] + s)[i], ([f] + s)[j]) {
        if i == 0 && j > 1 { assert AtLeast(s[0], s[j - 1]); }
      }
    }
  }

  lemma {:induction false} InsertClass(f: Fact, s: seq<Fact>, g: Fact)
    ensures Class(Insert(f, s), g) == (if SameRank(f, g) then [f] else []) + Class(s, g)
  {
    if s != [] && Before(s[0], f) {
      InsertClass(f, s[1..], g);
      assert Insert(f, s)[1..] == Insert(f, s[1..]);
    } else {
      assert ([f] + s)[1..] == s;
    }
  }

  /** The sort ranks, and keeps every fact, those of equal rank in their old order. */
  lemma {:induction false} StableSortCorrect(s: seq<Fact>)
    ensures Ranked(StableSort(s)) && StableRearrangement(s, StableSort(s))
  {
    if s != [] {
      StableSortCorrect(s[1..]);
      InsertRanked(s[0], StableSort(s[1..]));
      forall f ensures Class(s, f) == Class(StableSort(s), f) {
        InsertClass(s[0], StableSort(s[1..]), f);
      }
    }
  }

  lemma {:induction false} ClassMember(s: seq<Fact>, f: Fact)
    ensures f in Class(s, f) <==> f in s
    ensures forall g :: g in Class(s, f) ==> g in s && SameRank(g, f)
  {
    if s != [] { ClassMember(s[1..], f); }
  }

  /** There is only one such arrangement, so any correct stable sort returns this one. */
  lemma {:induction false} StableSortUnique(a: seq<Fact>, b: seq<Fact>)
    requires Ranked(a) && Ranked(b) && StableRearrangement(a, b)
    ensures a == b
  {
    forall f ensures f in a <==> f in b { RearrangedMembers(a, b, f); }
    assert (a != [] ==> a[0] in b) && (b != [] ==> b[0] in a);
    if a != [] && b != [] {
      SameHead(a, b);
      forall f ensures Class(a[1..], f) == Class(b[1..], f) {
        assert Class(a, f) == Class(b, f);
        assert Class(a[1..], f) == Class(a, f)[if SameRank(a[0], f) then 1 else 0..];
        assert Class(b[1..], f) == Class(b, f)[if SameRank(b[0], f) then 1 else 0..];
      }
      StableSortUnique(a[1..], b[1..]);
      assert a == [a[0]] + a[1..] && b == [b[0]] + b[1..];
    }
  }

  lemma SameHead(a: seq<Fact>, b: seq<Fact>)
    requires Ranked(a) && Ranked(b) && StableRearrangement(a, b) && a != [] && b != []
    ensures a[0] == b[0]
  {
    ClassMember(a, a[0]);
    ClassMember(b, b[0]);
    ClassMember(b, a[0]);
    ClassMember(a, b[0]);
    assert Class(a, a[0]) == Class(b, a[0]) && Class(a, b[0]) == Class(b, b[0]);
    assert a[0] in b && b[0] in a;
    assert SameRank(a[0], b[0]);
    assert Class(a, a[0])[0] == a[0] && Class(b, a[0])[0] == b[0];
  }

  lemma {:induction false} RearrangedMembers(a: seq<Fact>, b: seq<Fact>, f: Fact)
    requires StableRearrangement(a, b)
    ensures f in a <==> f in b
  {
    ClassMember(a, f);
    ClassMember(b, f);
  }

  lemma {:induction false} SortedSize(s: seq<Fact>)
    ensures |StableSort(s)| == |s| && multiset(StableSort(s)) == multiset(s)
  {
    if s != [] {
      SortedSize(s[1..]);
      InsertSize(s[0], StableSort(s[1..]));
      assert s == [s[0]] + s[1..];
    }
  }

  lemma {:induction false} InsertSize(f: Fact, s: seq<Fact>)
    ensures |Insert(f, s)| == |s| + 1 && multiset(Insert(f, s)) == multiset(s) + multiset{f}
  {
    if s != [] && Before(s[0], f) {
      InsertSize(f, s[1..]);
      assert s == [s[0]] + s[1..];
    }
  }

  /** Two facts of equal priority and tick come out in the order they went in. */
  lemma {:induction false} TiesKeepOrder(s: seq<Fact>, i: nat, j: nat) returns (p: nat, q: nat)
    requires i < j < |s| && s[i].priority == s[j].priority && s[i].tick == s[j].tick
    ensures p < q < |StableSort(s)| && StableSort(s)[p] == s[i] && StableSort(s)[q] == s[j]
  {
    var rest := StableSort(s[1..]);
    if i == 0 {
      q := SortedAt(s[1..], j - 1);
      p, q := InsertedAhead(s[0], rest, q);
    } else {
      p, q := TiesKeepOrder(s[1..], i - 1, j - 1);
      p, q := InsertedPast(s[0], rest, p, q);
    }
  }

  lemma SortedAt(s: seq<Fact>, i: nat) returns (p: nat)
    requires i < |s|
    ensures p < |StableSort(s)| && StableSort(s)[p] == s[i]
  {
    StableSortCorrect(s);
    RearrangedMembers(s, StableSort(s), s[i]);
    p :| p < |StableSort(s)| && StableSort(s)[p] == s[i];
  }

  lemma {:induction false} InsertedAhead(f: Fact, s: seq<Fact>, k: nat) returns (p: nat, q: nat)
    requires k < |s| && s[k].priority == f.priority && s[k].tick == f.tick
    ensures p < q < |Insert(f, s)| && Insert(f, s)[p] == f && Insert(f, s)[q] == s[k]
  {
    if Before(s[0], f) {
      p, q := InsertedAhead(f, s[1..], k - 1);
      p, q := p + 1, q + 1;
    } else {
      p, q := 0, k + 1;
    }
  }

  lemma {:induction false} InsertedPast(f: Fact, s: seq<Fact>, k: nat, l: nat) returns (p: nat, q: nat)
    requires k < l < |s|
    ensures p < q < |Insert(f, s)| && Insert(f, s)[p] == s[k] && Insert(f, s)[q] == s[l]
  {
    if !Before(s[0], f) {
      p, q := k + 1, l + 1;
    } else if k == 0 {
      q := OnePast(f, s[1..], l - 1);
      p, q := 0, q + 1;
    } else {
      p, q := InsertedPast(f, s[1..], k - 1, l - 1);
      p, q := p + 1, q + 1;
    }
  }

  lemma {:induction false} OnePast(f: Fact, s: seq<Fact>, k: nat) returns (p: nat)
    requires k < |s|
    ensures p < |Insert(f, s)| && Insert(f, s)[p] == s[k]
  {
    if !Before(s[0], f) {
      p := k + 1;
    } else if k == 0 {
      p := 0;
    } else {
      p := OnePast(f, s[1..], k - 1);
      p := p + 1;
    }
  }
}
