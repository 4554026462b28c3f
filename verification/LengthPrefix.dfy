/** Length-prefixed keys: the head-cache identity of src/laya.cpp and src/laya_native.cpp and the experience
    context key of include/jevt/experience.hpp. Both are uniquely decodable, whatever their texts contain. */
module LengthPrefix {
  import opened Ordering
  import opened Wrappers

  const DIGITS := "0123456789"

  /** Decimal form of a size. */
  function Decimal(n: nat): string {
    if n < 10 then [DIGITS[n]] else Decimal(n / 10) + [DIGITS[n % 10]]
  }

  function Prefixed(text: string): string {
    Decimal(|text|) + (":" + text)
  }

  /** Components appended one after another. */
  function Encode(texts: seq<string>): string
    decreases |texts|
  {
    if texts == [] then "" else Encode(texts[..|texts| - 1]) + Prefixed(texts[|texts| - 1])
  }

  // ------------------------------------------------------------------- reading

  /** A number up to its colon, and what follows. */
  function ReadNumber(s: string, sofar: nat): (r: Option<(nat, string)>)
    ensures r.Some? ==> |r.value.1| < |s|
  {
    if s == "" then None
    else if s[0] == ':' then Some((sofar, s[1..]))
    else if '0' <= s[0] <= '9' then ReadNumber(s[1..], sofar * 10 + (s[0] as int - '0' as int))
    else None
  }

  function Decode(s: string): Option<seq<string>>
    decreases |s|
  {
    if s == "" then Some([])
    else
      match ReadNumber(s, 0)
      case None => None
      case Some((n, rest)) =>
        if n > |rest| then None
        else
          match Decode(rest[n..])
          case None => None
          case Some(more) => Some([rest[..n]] + more)
  }

  lemma {:induction false} NumberRead(n: nat, tail: string)
    ensures ReadNumber(Decimal(n) + tail, 0) == ReadNumber(tail, n)
  {
    if n < 10 {
      DigitRead(n, tail, 0);
    } else {
      assert Decimal(n) + tail == Decimal(n / 10) + ([DIGITS[n % 10]] + tail);
      NumberRead(n / 10, [DIGITS[n % 10]] + tail);
      DigitRead(n % 10, tail, n / 10);
    }
  }

  lemma DigitRead(d: nat, tail: string, sofar: nat)
    requires d < 10
    ensures ReadNumber([DIGITS[d]] + tail, sofar) == ReadNumber(tail, sofar * 10 + d)
  {
    assert ([DIGITS[d]] + tail)[1..] == tail;
  }

  lemma {:induction false} EncodeFirst(texts: seq<string>)
    requires texts != []
    ensures Encode(texts) == Prefixed(texts[0]) + Encode(texts[1..])
    decreases |texts|
  {
    if |texts| == 1 {
      assert texts[..0] == [] && texts[1..] == [];
    } else {
      var front := texts[..|texts| - 1];
      EncodeFirst(front);
      assert texts[1..][..|texts[1..]| - 1] == front[1..];
    }
  }

  /** Reading recovers every component, even ones that hold digits and colons. */
  lemma {:induction false} EncodingRoundTrip(texts: seq<string>)
    ensures Decode(Encode(texts)) == Some(texts)
    decreases |texts|
  {
    if texts != [] {
      EncodeFirst(texts);
      EncodingRoundTrip(texts[1..]);
      FirstRead(texts[0], Encode(texts[1..]));
      assert texts == [texts[0]] + texts[1..];
    }
  }

  lemma FirstRead(text: string, tail: string)
    ensures ReadNumber(Prefixed(text) + tail, 0) == Some((|text|, text + tail))
    ensures (text + tail)[..|text|] == text && (text + tail)[|text|..] == tail
    ensures Prefixed(text) + tail != ""
  {
    assert Prefixed(text) + tail == Decimal(|text|) + (":" + (text + tail));
    NumberRead(|text|, ":" + (text + tail));
    assert (":" + (text + tail))[1..] == text + tail;
  }

  lemma EncodingInjective(a: seq<string>, b: seq<string>)
    requires Encode(a) == Encode(b)
    ensures a == b
  {
    EncodingRoundTrip(a);
    EncodingRoundTrip(b);
  }

  // ------------------------------------------------------- the head-cache key

  datatype Kind = Choice | Noul | Score

  /** What a prepared head depends on: the question kind, the question and the rendered options. */
  datatype Schema = Schema(kind: Kind, question: string, options: seq<string>)

  function KindByte(kind: Kind): char {
    match kind case Choice => '\U{00}' case Noul => '\U{01}' case Score => '\U{02}'
  }

  function HeadKey(s: Schema): string {
    [KindByte(s.kind)] + Encode([s.question] + s.options)
  }

  method BuildHeadKey(s: Schema) returns (key: string)
    ensures key == HeadKey(s)
  {
    key := [KindByte(s.kind)];
    key := key + Prefixed(s.question);
    assert [s.question][..0] == [];
    assert Encode([s.question]) == Prefixed(s.question);
    assert [s.question] + s.options[..0] == [s.question];
    for i := 0 to |s.options|
      invariant key == [KindByte(s.kind)] + Encode([s.question] + s.options[..i])
    {
      var texts := [s.question] + s.options[..i + 1];
      assert texts[..|texts| - 1] == [s.question] + s.options[..i];
      key := key + Prefixed(s.options[i]);
    }
    assert s.options[..|s.options|] == s.options;
  }

  /** Two questions share a cache key only if they are the same question. */
  lemma HeadKeyInjective(a: Schema, b: Schema)
    ensures HeadKey(a) == HeadKey(b) <==> a == b
  {
    if HeadKey(a) == HeadKey(b) {
      assert HeadKey(a)[0] == HeadKey(b)[0];
      assert HeadKey(a)[1..] == HeadKey(b)[1..];
      assert HeadKey(a)[1..] == Encode([a.question] + a.options);
      assert HeadKey(b)[1..] == Encode([b.question] + b.options);
      EncodingInjective([a.question] + a.options, [b.question] + b.options);
      assert ([a.question] + a.options)[0] == ([b.question] + b.options)[0];
      assert ([a.question] + a.options)[1..] == a.options && ([b.question] + b.options)[1..] == b.options;
    }
  }

  // ----------------------------------------------------- the experience context key

  datatype Feature = Feature(name: string, value: string)

  function Names(features: seq<Feature>): (r: seq<string>)
    ensures |r| == |features| && forall i :: 0 <= i < |r| ==> r[i] == features[i].name
  {
    seq(|features|, i requires 0 <= i < |features| => features[i].name)
  }

  function Itself(): string -> string { (s: string) => s }

  /** The features of a map, as iteration over it visits them: by name, in byte order. */
  ghost predicate Visits(features: seq<Feature>, m: map<string, string>) {
    && Listing(Names(features), m.Keys, ByText(Itself()))
    && forall i :: 0 <= i < |features| ==> features[i].name in m && m[features[i].name] == features[i].value
  }

  function Flattened(features: seq<Feature>): (texts: seq<string>)
    ensures |texts| == 2 * |features|
    decreases |features|
  {
    if features == [] then []
    else
      var last := features[|features| - 1];
      Flattened(features[..|features| - 1]) + [last.name, last.value]
  }

  function ContextKey(features: seq<Feature>): string {
    Encode(Flattened(features))
  }

  method BuildContextKey(features: seq<Feature>) returns (key: string)
    ensures key == ContextKey(features)
  {
    key := "";
    for i := 0 to |features|
      invariant key == ContextKey(features[..i])
    {
      assert features[..i + 1][..i] == features[..i];
      TwoMore(Flattened(features[..i]), features[i].name, features[i].value);
      key := key + (Prefixed(features[i].name) + Prefixed(features[i].value));
    }
    assert features[..|features|] == features;
  }

  lemma TwoMore(texts: seq<string>, name: string, value: string)
    ensures Encode(texts + [name, value]) == Encode(texts) + (Prefixed(name) + Prefixed(value))
  {
    var all := texts + [name, value];
    assert all[..|all| - 1] == texts + [name];
    assert (texts + [name])[..|texts|] == texts;
  }

  lemma {:induction false} FlattenedInjective(a: seq<Feature>, b: seq<Feature>)
    requires Flattened(a) == Flattened(b)
    ensures a == b
    decreases |a|
  {
    assert |a| == |b|;
    if a != [] {
      var n := |a| - 1;
      var fa, fb := Flattened(a), Flattened(b);
      assert fa[..2 * n] == Flattened(a[..n]) && fb[..2 * n] == Flattened(b[..n]);
      assert fa[2 * n] == a[n].name && fb[2 * n] == b[n].name;
      assert fa[2 * n + 1] == a[n].value && fb[2 * n + 1] == b[n].value;
      FlattenedInjective(a[..n], b[..n]);
      assert a == a[..n] + [a[n]] && b == b[..n] + [b[n]];
    }
  }

  /** Only one list visits a map, so a map has exactly one key. */
  lemma VisitUnique(a: seq<Feature>, b: seq<Feature>, m: map<string, string>)
    requires Visits(a, m) && Visits(b, m)
    ensures a == b
  {
    ByTextStrict(Itself());
    ListingUnique(Names(a), Names(b), m.Keys, ByText(Itself()));
    forall i | 0 <= i < |a| ensures a[i] == b[i] {
      assert Names(a)[i] == Names(b)[i];
    }
  }

  lemma VisitExists(m: map<string, string>) returns (features: seq<Feature>)
    ensures Visits(features, m)
  {
    ByTextStrict(Itself());
    ByTextTotal(Itself(), m.Keys);
    var names := ListingExists(m.Keys, ByText(Itself()));
    assert forall i :: 0 <= i < |names| ==> names[i] in names;
    features := seq(|names|, i requires 0 <= i < |names| => Feature(names[i], m[names[i]]));
    assert Names(features) == names;
  }

  /** Context keys identify feature maps: equal keys exactly for equal maps. */
  lemma ContextKeyIdentifies(a: seq<Feature>, m: map<string, string>, b: seq<Feature>, n: map<string, string>)
    requires Visits(a, m) && Visits(b, n)
    ensures ContextKey(a) == ContextKey(b) <==> m == n
  {
    if ContextKey(a) == ContextKey(b) {
      EncodingInjective(Flattened(a), Flattened(b));
      FlattenedInjective(a, b);
      assert m.Keys == n.Keys by {
        forall name ensures name in m <==> name in n { assert name in Names(a) <==> name in Names(b); }
      }
      forall name | name in m ensures m[name] == n[name] {
        assert name in Names(a);
        var i :| 0 <= i < |a| && Names(a)[i] == name;
        assert a[i].name == name;
      }
    }
    if m == n { VisitUnique(a, b, m); }
  }
}
