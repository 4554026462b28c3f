/** Strictly ordered listings of finite sets, the iteration order of the ordered maps of the program. */
module Ordering {

  ghost predicate StrictOrder<K(!new)>(less: (K, K) -> bool) {
    && (forall a, b :: !(less(a, b) && less(b, a)))
    && (forall a, b, c :: less(a, b) && less(b, c) ==> less(a, c))
  }

  ghost predicate Total<K(!new)>(less: (K, K) -> bool, keys: set<K>) {
    forall a, b :: a in keys && b in keys && a != b ==> less(a, b) || less(b, a)
  }

  ghost predicate InOrder<K>(s: seq<K>, less: (K, K) -> bool) {
    forall i, j :: 0 <= i < j < |s| ==> less(s[i], s[j])
  }

  ghost predicate Listing<K(!new)>(s: seq<K>, keys: set<K>, less: (K, K) -> bool) {
    InOrder(s, less) && forall k :: k in s <==> k in keys
  }

  /** A set has at most one ordered listing. */
  lemma {:induction false} ListingUnique<K(!new)>(a: seq<K>, b: seq<K>, keys: set<K>, less: (K, K) -> bool)
    requires StrictOrder(less) && Listing(a, keys, less) && Listing(b, keys, less)
    ensures a == b
    decreases |a|
  {
    assert a != [] ==> a[0] in keys;
    assert b != [] ==> b[0] in keys;
    if a != [] && b != [] {
      SameLast(a, b, keys, less);
      DropLast(a, keys, less);
      DropLast(b, keys, less);
      ListingUnique(a[..|a| - 1], b[..|b| - 1], keys - {a[|a| - 1]}, less);
      assert a == a[..|a| - 1] + [a[|a| - 1]] && b == b[..|b| - 1] + [b[|b| - 1]];
    }
  }

  lemma SameLast<K(!new)>(a: seq<K>, b: seq<K>, keys: set<K>, less: (K, K) -> bool)
    requires StrictOrder(less) && Listing(a, keys, less) && Listing(b, keys, less) && a != [] && b != []
    ensures a[|a| - 1] == b[|b| - 1]
  {
    var x, y := a[|a| - 1], b[|b| - 1];
    assert x in keys && y in keys;
    var i :| 0 <= i < |a| && a[i] == y;
    var j :| 0 <= j < |b| && b[j] == x;
    assert i < |a| - 1 ==> less(y, x);
    assert j < |b| - 1 ==> less(x, y);
  }

  lemma DropLast<K(!new)>(a: seq<K>, keys: set<K>, less: (K, K) -> bool)
    requires StrictOrder(less) && Listing(a, keys, less) && a != []
    ensures Listing(a[..|a| - 1], keys - {a[|a| - 1]}, less)
  {
  }

  /** And under a total order every finite set has one. */
  lemma {:induction false} ListingExists<K(!new)>(keys: set<K>, less: (K, K) -> bool) returns (s: seq<K>)
    requires StrictOrder(less) && Total(less, keys)
    ensures Listing(s, keys, less)
    decreases |keys|
  {
    if keys == {} {
      s := [];
    } else {
      var k :| k in keys;
      var rest := ListingExists(keys - {k}, less);
      s := Inserted(rest, keys - {k}, k, less);
      assert keys - {k} + {k} == keys;
    }
  }

  lemma {:induction false} Inserted<K(!new)>(rest: seq<K>, keys: set<K>, k: K, less: (K, K) -> bool) returns (s: seq<K>)
    requires StrictOrder(less) && Listing(rest, keys, less) && k !in keys && Total(less, keys + {k})
    ensures Listing(s, keys + {k}, less)
    decreases |rest|
  {
    if rest == [] {
      s := [k];
      assert keys == {};
    } else {
      var last := rest[|rest| - 1];
      assert last in rest && last in keys;
      if less(last, k) {
        s := rest + [k];
        AppendListing(rest, keys, k, less);
      } else {
        DropLast(rest, keys, less);
        var front := Inserted(rest[..|rest| - 1], keys - {last}, k, less);
        s := front + [last];
        assert keys - {last} + {k} + {last} == keys + {k};
        forall x | x in keys - {last} + {k} ensures less(x, last) {
          if x != k {
            assert x in rest;
            var i :| 0 <= i < |rest| && rest[i] == x;
            assert less(rest[i], rest[|rest| - 1]);
          }
        }
        AppendLast(front, keys - {last} + {k}, last, less);
      }
    }
  }

  lemma AppendLast<K(!new)>(s: seq<K>, keys: set<K>, k: K, less: (K, K) -> bool)
    requires Listing(s, keys, less) && forall x :: x in keys ==> less(x, k)
    ensures Listing(s + [k], keys + {k}, less)
  {
  }

  lemma AppendListing<K(!new)>(s: seq<K>, keys: set<K>, k: K, less: (K, K) -> bool)
    requires StrictOrder(less) && Listing(s, keys, less) && s != [] && less(s[|s| - 1], k)
    ensures Listing(s + [k], keys + {k}, less)
  {
    forall x | x in keys ensures less(x, k) {
      assert x in s;
      var i :| 0 <= i < |s| && s[i] == x;
      if i < |s| - 1 { assert less(s[i], s[|s| - 1]); }
    }
    AppendLast(s, keys, k, less);
  }

  // ------------------------------------------------------------ byte order of texts

  predicate Below(a: string, b: string) {
    if a == "" || b == "" then a == "" && b != ""
    else a[0] < b[0] || (a[0] == b[0] && Below(a[1..], b[1..]))
  }

  lemma {:induction false} BelowAsymmetric(a: string, b: string)
    ensures !(Below(a, b) && Below(b, a))
  {
    if a != "" && b != "" { BelowAsymmetric(a[1..], b[1..]); }
  }

  lemma {:induction false} BelowTransitive(a: string, b: string, c: string)
    requires Below(a, b) && Below(b, c)
    ensures Below(a, c)
  {
    if a != "" && a[0] == b[0] == c[0] { BelowTransitive(a[1..], b[1..], c[1..]); }
  }

  lemma {:induction false} BelowTotal(a: string, b: string)
    ensures a == b || Below(a, b) || Below(b, a)
  {
    if a != "" && b != "" && a[0] == b[0] {
      BelowTotal(a[1..], b[1..]);
      assert a == [a[0]] + a[1..] && b == [b[0]] + b[1..];
    }
  }

  /** Keys ordered by their texts. */
  function ByText<K>(text: K -> string): (K, K) -> bool {
    (a: K, b: K) => Below(text(a), text(b))
  }

  lemma ByTextStrict<K(!new)>(text: K -> string)
    ensures StrictOrder(ByText(text))
  {
    var less := ByText(text);
    forall a, b ensures !(less(a, b) && less(b, a)) { BelowAsymmetric(text(a), text(b)); }
    forall a, b, c | less(a, b) && less(b, c) ensures less(a, c) { BelowTransitive(text(a), text(b), text(c)); }
  }

  lemma ByTextTotal<K(!new)>(text: K -> string, keys: set<K>)
    requires forall a, b :: a in keys && b in keys && text(a) == text(b) ==> a == b
    ensures Total(ByText(text), keys)
  {
    var less := ByText(text);
    forall a, b | a in keys && b in keys && a != b ensures less(a, b) || less(b, a) { BelowTotal(text(a), text(b)); }
  }
}
