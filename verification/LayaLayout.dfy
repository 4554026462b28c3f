/** The token layout of a Laya question: one description of a row, and three programs that compute it, the
    unsigned ones of src/laya.cpp and src/laya_native.cpp and the signed one of benchmarks/laya_latency.py.
    Tokenizers are outside: headings, labels and contexts are given as their tokens. */
module LayaLayout {
  import opened Wrappers
  import opened Lists

  datatype Profile = Profile(
    maxLen: nat, headMaxLen: nat, contextLimit: nat, cls: int, sep: int, mask: int, pad: int)

  datatype Question = Question(heading: seq<int>, labels: seq<seq<int>>)

  datatype Row = Row(ids: seq<int>, markers: seq<int>)

  // ------------------------------------------------------------- the description

  function Max(a: int, b: int): int { if a > b then a else b }

  function Min(a: int, b: int): int { if a < b then a else b }

  function TakeEach(parts: seq<seq<int>>, n: nat): (r: seq<seq<int>>)
    ensures |r| == |parts| && forall i :: 0 <= i < |r| ==> r[i] == Take(parts[i], n)
  {
    seq(|parts|, i requires 0 <= i < |parts| => Take(parts[i], n))
  }

  function Concat(parts: seq<seq<int>>): seq<int>
    decreases |parts|
  {
    if parts == [] then [] else Concat(parts[..|parts| - 1]) + parts[|parts| - 1]
  }

  function Total(parts: seq<seq<int>>): (n: nat)
    ensures n == |Concat(parts)|
    decreases |parts|
  {
    if parts == [] then 0 else Total(parts[..|parts| - 1]) + |parts[|parts| - 1]|
  }

  /** Where each part starts when all are laid out from the given position. */
  function Starts(from: nat, parts: seq<seq<int>>): (r: seq<int>)
    ensures |r| == |parts|
    decreases |parts|
  {
    if parts == [] then []
    else Starts(from, parts[..|parts| - 1]) + [from + Total(parts[..|parts| - 1])]
  }

  /** Every option is its mask token and at most 48 tokens of text. */
  function Marked(p: Profile, labels: seq<seq<int>>): (r: seq<seq<int>>)
    ensures |r| == |labels| && forall i :: 0 <= i < |r| ==> r[i] == [p.mask] + Take(labels[i], 48)
  {
    seq(|labels|, i requires 0 <= i < |labels| => [p.mask] + Take(labels[i], 48))
  }

  /** Tokens each option keeps when they are too long together. */
  function Share(headMaxLen: nat, options: nat): nat {
    Max(4, Max(0, headMaxLen - 16) / Max(1, options))
  }

  function Options(p: Profile, labels: seq<seq<int>>): (r: seq<seq<int>>)
    ensures |r| == |labels|
  {
    var marked := Marked(p, labels);
    if Total(marked) + 16 > p.headMaxLen then TakeEach(marked, Share(p.headMaxLen, |labels|)) else marked
  }

  function Heading(p: Profile, q: Question): seq<int> {
    Take(q.heading, Max(8, p.headMaxLen - Total(Options(p, q.labels))))
  }

  function Lead(p: Profile, q: Question): seq<int> {
    [p.cls] + Heading(p, q) + [p.sep]
  }

  function HeadIds(p: Profile, q: Question): seq<int> {
    Lead(p, q) + Concat(Options(p, q.labels)) + [p.sep]
  }

  function HeadMarkers(p: Profile, q: Question): (r: seq<int>)
    ensures |r| == |q.labels|
  {
    Starts(|Lead(p, q)|, Options(p, q.labels))
  }

  function Room(p: Profile, head: seq<int>): nat {
    Max(0, p.maxLen - |head| - 1)
  }

  function ContextRoom(p: Profile, head: seq<int>): nat {
    if p.contextLimit != 0 then Min(Room(p, head), p.contextLimit) else Room(p, head)
  }

  function RowIds(p: Profile, q: Question, context: seq<int>): seq<int> {
    var head := HeadIds(p, q);
    Take(head + Take(context, ContextRoom(p, head)) + [p.sep], p.maxLen)
  }

  ghost predicate Accepted(p: Profile, q: Question) {
    forall i :: 0 <= i < |HeadMarkers(p, q)| ==> HeadMarkers(p, q)[i] < p.maxLen
  }

  ghost function Layout(p: Profile, q: Question, context: seq<int>): Option<Row> {
    if Accepted(p, q) then Some(Row(RowIds(p, q, context), HeadMarkers(p, q))) else None
  }

  // ----------------------------------------------------------- the three programs

  /** One option encoded: cut to 48 tokens, then the mask token in front. */
  method EncodeLabel(p: Profile, text: seq<int>) returns (ids: seq<int>)
    ensures ids == [p.mask] + Take(text, 48)
  {
    ids := text;
    if |ids| > 48 { ids := ids[..48]; }
    ids := [p.mask] + ids;
  }

  method EncodeLabels(p: Profile, labels: seq<seq<int>>) returns (encoded: seq<seq<int>>, total: nat)
    ensures encoded == Marked(p, labels) && total == Total(encoded)
  {
    encoded, total := [], 0;
    for i := 0 to |labels|
      invariant encoded == Marked(p, labels)[..i] && total == Total(encoded)
    {
      var ids := EncodeLabel(p, labels[i]);
      assert (encoded + [ids])[..i] == encoded;
      encoded := encoded + [ids];
      total := total + |ids|;
      assert encoded == Marked(p, labels)[..i + 1];
    }
  }

  method CutLabels(encoded: seq<seq<int>>, per: nat) returns (cut: seq<seq<int>>, total: nat)
    ensures cut == TakeEach(encoded, per) && total == Total(cut)
  {
    cut, total := [], 0;
    for i := 0 to |encoded|
      invariant cut == TakeEach(encoded, per)[..i] && total == Total(cut)
    {
      var ids := if |encoded[i]| > per then encoded[i][..per] else encoded[i];
      assert (cut + [ids])[..i] == cut;
      cut := cut + [ids];
      total := total + |ids|;
      assert cut == TakeEach(encoded, per)[..i + 1];
    }
  }

  method Assemble(p: Profile, heading: seq<int>, options: seq<seq<int>>) returns (ids: seq<int>, markers: seq<int>)
    ensures ids == [p.cls] + heading + [p.sep] + Concat(options) + [p.sep]
    ensures markers == Starts(|[p.cls] + heading + [p.sep]|, options)
  {
    var lead := [p.cls] + heading + [p.sep];
    ids, markers := lead, [];
    for i := 0 to |options|
      invariant ids == lead + Concat(options[..i]) && markers == Starts(|lead|, options[..i])
    {
      assert options[..i + 1][..i] == options[..i];
      markers := markers + [|ids|];
      ids := ids + options[i];
    }
    assert options[..|options|] == options;
    ids := ids + [p.sep];
  }

  /** The options of src/laya.cpp: subtraction on unsigned sizes, guarded against going below zero. */
  method CppOptions(p: Profile, labels: seq<seq<int>>) returns (options: seq<seq<int>>, total: nat)
    ensures options == Options(p, labels) && total == Total(options)
  {
    options, total := EncodeLabels(p, labels);
    if total + 16 > p.headMaxLen {
      var spare := p.headMaxLen - Min(p.headMaxLen, 16);
      assert spare == Max(0, p.headMaxLen - 16);
      var per := Max(4, spare / Max(1, |options|));
      options, total := CutLabels(options, per);
    }
  }

  method CutHeading(p: Profile, heading: seq<int>, total: nat) returns (cut: seq<int>)
    ensures cut == Take(heading, Max(8, p.headMaxLen - total))
  {
    var budget := if p.headMaxLen > total then p.headMaxLen - total else 8;
    cut := heading;
    if |cut| > Max(8, budget) { cut := cut[..Max(8, budget)]; }
  }

  lemma HeadOf(p: Profile, q: Question, options: seq<seq<int>>, total: nat, heading: seq<int>)
    requires options == Options(p, q.labels) && total == Total(options)
    requires heading == Take(q.heading, Max(8, p.headMaxLen - total))
    ensures HeadIds(p, q) == [p.cls] + heading + [p.sep] + Concat(options) + [p.sep]
    ensures HeadMarkers(p, q) == Starts(|[p.cls] + heading + [p.sep]|, options)
  {
  }

  /** prepare_head of src/laya.cpp. */
  method PrepareHead(p: Profile, q: Question) returns (ids: seq<int>, markers: seq<int>)
    ensures ids == HeadIds(p, q) && markers == HeadMarkers(p, q)
  {
    var options, total := CppOptions(p, q.labels);
    var heading := CutHeading(p, q.heading, total);
    HeadOf(p, q, options, total, heading);
    ids, markers := Assemble(p, heading, options);
  }

  method EncodeState(p: Profile, tokens: seq<int>) returns (state: seq<int>)
    ensures state == Take(tokens, if p.contextLimit != 0 then Min(p.maxLen, p.contextLimit) else p.maxLen)
  {
    var limit := if p.contextLimit != 0 then Min(p.maxLen, p.contextLimit) else p.maxLen;
    state := tokens[..Min(|tokens|, limit)];
  }

  /** build_sequence of src/laya.cpp, and the test of predict_batch that no marker was lost. */
  method CppRow(p: Profile, q: Question, context: seq<int>) returns (row: Option<Row>)
    ensures row == Layout(p, q, context)
  {
    var state := EncodeState(p, context);
    var head, all := PrepareHead(p, q);
    var room := if p.maxLen > |head| + 1 then p.maxLen - |head| - 1 else 0;
    var budget := if p.contextLimit != 0 then Min(room, p.contextLimit) else room;
    var ids := head + state[..Min(|state|, budget)] + [p.sep];
    if |ids| > p.maxLen { ids := ids[..p.maxLen]; }
    var markers := KeepInside(all, |ids|);
    StateCut(p, context, head);
    assert ids == RowIds(p, q, context);
    MarkersInside(p, q, context);
    return if |markers| != |q.labels| then None else Some(Row(ids, markers));
  }

  method KeepInside(markers: seq<int>, size: nat) returns (kept: seq<int>)
    ensures kept == Filter(markers, m => m < size)
  {
    ghost var inside := m => m < size;
    kept := [];
    for i := 0 to |markers|
      invariant kept == Filter(markers[..i], inside)
    {
      FilterNext(markers, i, inside);
      if markers[i] < size { kept := kept + [markers[i]]; }
    }
    assert markers[..|markers|] == markers;
  }

  /** The options of src/laya_native.cpp, which divides by their number: its callers have at least one. */
  method NativeOptions(p: Profile, labels: seq<seq<int>>) returns (options: seq<seq<int>>, used: nat)
    requires labels != []
    ensures options == Options(p, labels) && used == Total(options)
  {
    options, used := EncodeLabels(p, labels);
    if used + 16 > p.headMaxLen {
      var spare := p.headMaxLen - Min(p.headMaxLen, 16);
      assert spare == Max(0, p.headMaxLen - 16) && |labels| == Max(1, |labels|);
      options, used := CutLabels(options, Max(4, spare / |labels|));
    }
  }

  /** prepare_head of src/laya_native.cpp, which throws when the last marker is beyond the sequence limit. */
  method NativeHead(p: Profile, q: Question) returns (head: Option<Row>)
    requires q.labels != []
    ensures head == if HeadMarkers(p, q)[|q.labels| - 1] >= p.maxLen then None
                    else Some(Row(HeadIds(p, q), HeadMarkers(p, q)))
  {
    var options, used := NativeOptions(p, q.labels);
    var heading := CutHeading(p, q.heading, used);
    var ids, markers := Assemble(p, heading, options);
    return if markers[|markers| - 1] >= p.maxLen then None else Some(Row(ids, markers));
  }

  /** Row construction of the native predict_batch: the context was cut before, the room is taken here. */
  method NativeRow(p: Profile, q: Question, context: seq<int>) returns (row: Option<Row>)
    requires q.labels != []
    ensures row == Layout(p, q, context)
  {
    var head := NativeHead(p, q);
    LastDecides(p, q);
    if head.None? { return None; }
    var state := EncodeState(p, context);
    var ids := head.value.ids;
    var room := if p.maxLen > |ids| + 1 then p.maxLen - |ids| - 1 else 0;
    StateCut(p, context, ids);
    ids := ids + state[..Min(room, |state|)] + [p.sep];
    if |ids| > p.maxLen { ids := ids[..p.maxLen]; }
    assert ids == RowIds(p, q, context);
    row := Some(Row(ids, head.value.markers));
  }

  /** The options of benchmarks/laya_latency.py: the budget is signed and the division floors. */
  method FixtureOptions(p: Profile, labels: seq<seq<int>>) returns (options: seq<seq<int>>, budget: int)
    requires labels != []
    ensures options == Options(p, labels) && budget == p.headMaxLen - Total(options)
  {
    var total;
    options, total := EncodeLabels(p, labels);
    budget := p.headMaxLen - total;
    if budget < 16 {
      var per := FixtureShare(p.headMaxLen, |options|);
      options, total := CutLabels(options, per);
      budget := p.headMaxLen - total;
    }
  }

  method FixtureShare(headMaxLen: nat, options: nat) returns (per: nat)
    requires options > 0
    ensures per == Share(headMaxLen, options)
  {
    if headMaxLen < 16 {
      assert (headMaxLen - 16) / options <= 0;
      assert 0 / options == 0;
    }
    per := Max(4, (headMaxLen - 16) / options);
  }

  /** Fixture.tensors of benchmarks/laya_latency.py: slices clamp and nothing is refused. */
  method FixtureRow(p: Profile, q: Question, context: seq<int>) returns (row: Row)
    requires q.labels != []
    ensures row == Row(RowIds(p.(contextLimit := 0), q, context), HeadMarkers(p, q))
  {
    var options, budget := FixtureOptions(p, q.labels);
    var ids, markers := Assemble(p, Take(q.heading, Max(8, budget)), options);
    assert ids == HeadIds(p, q) == HeadIds(p.(contextLimit := 0), q);
    var room := Max(0, p.maxLen - |ids| - 1);
    ids := ids + Take(context, room) + [p.sep];
    row := Row(Take(ids, p.maxLen), markers);
  }

  /** Cutting the context once and then again is cutting it once. */
  lemma StateCut(p: Profile, context: seq<int>, head: seq<int>)
    ensures var limit := if p.contextLimit != 0 then Min(p.maxLen, p.contextLimit) else p.maxLen;
            && Take(Take(context, limit), ContextRoom(p, head)) == Take(context, ContextRoom(p, head))
            && Take(Take(context, limit), Room(p, head)) == Take(context, ContextRoom(p, head))
  {
  }

  // ---------------------------------------------------------- markers and options

  lemma {:induction false} StartsAt(from: nat, parts: seq<seq<int>>, i: nat)
    requires i < |parts|
    ensures Starts(from, parts)[i] == from + Total(parts[..i]) && Total(parts[..i]) + |parts[i]| <= Total(parts)
    ensures Concat(parts)[Total(parts[..i])..Total(parts[..i]) + |parts[i]|] == parts[i]
    decreases |parts|
  {
    var n := |parts| - 1;
    if i == n {
      assert Concat(parts)[Total(parts[..n])..] == parts[n];
    } else {
      StartsAt(from, parts[..n], i);
      assert parts[..n][..i] == parts[..i];
      assert Concat(parts)[..Total(parts[..n])] == Concat(parts[..n]);
      Subslice(Concat(parts), Total(parts[..n]), Total(parts[..i]), Total(parts[..i]) + |parts[i]|);
    }
  }

  lemma Subslice(s: seq<int>, n: nat, a: nat, b: nat)
    requires a <= b <= n <= |s|
    ensures s[..n][a..b] == s[a..b]
  {
  }

  lemma {:induction false} StartsRise(from: nat, parts: seq<seq<int>>)
    requires forall i :: 0 <= i < |parts| ==> parts[i] != []
    ensures forall i, j :: 0 <= i < j < |parts| ==> Starts(from, parts)[i] < Starts(from, parts)[j]
    decreases |parts|
  {
    if parts != [] {
      var n := |parts| - 1;
      StartsRise(from, parts[..n]);
      forall i | 0 <= i < n ensures Starts(from, parts)[i] < Starts(from, parts)[n] {
        StartsAt(from, parts[..n], i);
        assert parts[..n][..i] == parts[..i];
      }
    }
  }

  /** Cutting never takes the mask token: every option keeps it in front. */
  lemma OptionsMarked(p: Profile, q: Question)
    ensures forall i :: 0 <= i < |Options(p, q.labels)| ==>
        Options(p, q.labels)[i] != [] && Options(p, q.labels)[i][0] == p.mask
  {
  }

  /** Each option lies whole and contiguous behind its marker. */
  lemma OptionBehindMarker(p: Profile, q: Question, i: nat)
    requires i < |q.labels|
    ensures var m, option := HeadMarkers(p, q)[i], Options(p, q.labels)[i];
            && 0 <= m && m + |option| < |HeadIds(p, q)| && HeadIds(p, q)[m..m + |option|] == option
  {
    PartBehindStart(Lead(p, q), Options(p, q.labels), p.sep, i);
  }

  lemma PartBehindStart(lead: seq<int>, parts: seq<seq<int>>, last: int, i: nat)
    requires i < |parts|
    ensures var m, all := Starts(|lead|, parts)[i], lead + Concat(parts) + [last];
            0 <= m && m + |parts[i]| < |all| && all[m..m + |parts[i]|] == parts[i]
  {
    StartsAt(|lead|, parts, i);
    var a := Total(parts[..i]);
    Shifted(lead, Concat(parts), last, a, a + |parts[i]|);
  }

  lemma Shifted(lead: seq<int>, middle: seq<int>, last: int, a: nat, b: nat)
    requires a <= b <= |middle|
    ensures (lead + middle + [last])[|lead| + a..|lead| + b] == middle[a..b]
  {
  }

  /** Markers rise, lie inside the head and point at mask tokens. */
  lemma MarkersPoint(p: Profile, q: Question)
    ensures forall i, j :: 0 <= i < j < |q.labels| ==> HeadMarkers(p, q)[i] < HeadMarkers(p, q)[j]
    ensures forall i :: 0 <= i < |q.labels| ==>
              0 <= HeadMarkers(p, q)[i] < |HeadIds(p, q)| - 1 && HeadIds(p, q)[HeadMarkers(p, q)[i]] == p.mask
  {
    OptionsMarked(p, q);
    StartsRise(|Lead(p, q)|, Options(p, q.labels));
    forall i | 0 <= i < |q.labels|
      ensures 0 <= HeadMarkers(p, q)[i] < |HeadIds(p, q)| - 1 && HeadIds(p, q)[HeadMarkers(p, q)[i]] == p.mask
    {
      OptionBehindMarker(p, q, i);
      var m, option := HeadMarkers(p, q)[i], Options(p, q.labels)[i];
      assert HeadIds(p, q)[m..m + |option|][0] == HeadIds(p, q)[m];
    }
  }

  /** The native test of the last marker is the test of every marker. */
  lemma LastDecides(p: Profile, q: Question)
    requires q.labels != []
    ensures Accepted(p, q) <==> HeadMarkers(p, q)[|q.labels| - 1] < p.maxLen
  {
    MarkersPoint(p, q);
    if HeadMarkers(p, q)[|q.labels| - 1] < p.maxLen {
      forall i | 0 <= i < |HeadMarkers(p, q)| ensures HeadMarkers(p, q)[i] < p.maxLen {
        if i < |q.labels| - 1 { assert HeadMarkers(p, q)[i] < HeadMarkers(p, q)[|q.labels| - 1]; }
      }
    }
  }

  /** A row keeps the head as far as the sequence limit allows. */
  lemma RowStart(p: Profile, q: Question, context: seq<int>)
    ensures |RowIds(p, q, context)| <= p.maxLen
    ensures var kept := Min(|HeadIds(p, q)|, p.maxLen);
            kept <= |RowIds(p, q, context)| && RowIds(p, q, context)[..kept] == HeadIds(p, q)[..kept]
  {
    var head := HeadIds(p, q);
    PrefixKept(head, Take(context, ContextRoom(p, head)), p.sep, p.maxLen);
  }

  lemma PrefixKept(head: seq<int>, middle: seq<int>, last: int, n: nat)
    ensures var row, kept := Take(head + middle + [last], n), Min(|head|, n);
            kept <= |row| && row[..kept] == head[..kept]
  {
    assert head + middle + [last] == head + (middle + [last]);
  }

  /** What an accepted row consists of: the head, then as much of the context from its start as the sequence limit and
      the context limit leave room for, then the separator. A context that fits is in the row whole. */
  lemma RowShape(p: Profile, q: Question, context: seq<int>) returns (k: nat)
    requires Accepted(p, q) && |HeadIds(p, q)| < p.maxLen
    ensures k <= |context|
    ensures Layout(p, q, context) == Some(Row(HeadIds(p, q) + context[..k] + [p.sep], HeadMarkers(p, q)))
    ensures |HeadIds(p, q)| + k + 1 <= p.maxLen && (p.contextLimit != 0 ==> k <= p.contextLimit)
    ensures k == |context| || |HeadIds(p, q)| + k + 1 == p.maxLen || k == p.contextLimit != 0
  {
    var head := HeadIds(p, q);
    var taken := Take(context, ContextRoom(p, head));
    k := |taken|;
    assert taken == context[..k];
    assert head + context[..k] + [p.sep] == RowIds(p, q, context);
  }

  /** A head as long as the sequence leaves room for nothing else. */
  lemma RowOfLongHead(p: Profile, q: Question, context: seq<int>)
    requires Accepted(p, q) && |HeadIds(p, q)| >= p.maxLen
    ensures Layout(p, q, context) == Some(Row(HeadIds(p, q)[..p.maxLen], HeadMarkers(p, q)))
  {
    RowStart(p, q, context);
    var row := RowIds(p, q, context);
    assert row == row[..p.maxLen];
  }

  /** What a head consists of. An option is its mask token and up to 48 tokens of its label. When all options together
      leave less than sixteen tokens of the head, each keeps no more than an equal share of what is left beside
      sixteen, but at least four tokens. The heading keeps what the options leave, but at least eight tokens. */
  lemma HeadShape(p: Profile, q: Question) returns (whole: seq<seq<int>>, options: seq<seq<int>>, share: nat, n: nat)
    ensures |whole| == |options| == |q.labels|
    ensures forall i :: 0 <= i < |whole| ==>
              whole[i] == [p.mask] + (if |q.labels[i]| > 48 then q.labels[i][..48] else q.labels[i])
    ensures |Concat(whole)| + 16 <= p.headMaxLen ==> options == whole
    ensures |Concat(whole)| + 16 > p.headMaxLen ==>
              && share >= 4 && (share > 4 ==> share * |q.labels| <= p.headMaxLen - 16)
              && (q.labels != [] ==> p.headMaxLen - 16 < (share + 1) * |q.labels|)
              && forall i :: 0 <= i < |options| ==>
                   options[i] == if |whole[i]| > share then whole[i][..share] else whole[i]
    ensures n <= |q.heading| && (n == |q.heading| || n == 8 || n + |Concat(options)| == p.headMaxLen)
    ensures n < |q.heading| ==> 8 <= n && p.headMaxLen <= n + |Concat(options)|
    ensures n <= 8 || n + |Concat(options)| <= p.headMaxLen
    ensures HeadIds(p, q) == [p.cls] + q.heading[..n] + [p.sep] + Concat(options) + [p.sep]
  {
    whole, options := Marked(p, q.labels), Options(p, q.labels);
    share, n := Share(p.headMaxLen, |q.labels|), |Heading(p, q)|;
    if q.labels != [] {
      ShareIs(p.headMaxLen, |q.labels|, share);
    } else {
      assert Concat(whole) == [];
    }
  }

  lemma ShareIs(headMaxLen: nat, options: nat, share: nat)
    requires options > 0 && share == Share(headMaxLen, options)
    ensures share >= 4 && (share > 4 ==> share * options <= headMaxLen - 16)
    ensures headMaxLen - 16 < (share + 1) * options
  {
    var spare := Max(0, headMaxLen - 16);
    var part := spare / options;
    assert part * options <= spare < (part + 1) * options;
    if share > part { assert (part + 1) * options <= (share + 1) * options; }
  }

  /** The markers the erase loop keeps are all of them exactly when the question is accepted. */
  lemma MarkersInside(p: Profile, q: Question, context: seq<int>)
    ensures var kept := Filter(HeadMarkers(p, q), m => m < |RowIds(p, q, context)|);
            && (|kept| == |q.labels| <==> Accepted(p, q))
            && (Accepted(p, q) ==> kept == HeadMarkers(p, q))
  {
    MarkersPoint(p, q);
    RowStart(p, q, context);
    var size, all := |RowIds(p, q, context)|, HeadMarkers(p, q);
    var inside := m => m < size;
    forall i | 0 <= i < |all| ensures all[i] < size <==> all[i] < p.maxLen {}
    FilterFull(all, inside);
    if Accepted(p, q) {
      FilterAll(all, inside);
    } else {
      var i :| 0 <= i < |all| && all[i] >= p.maxLen;
      assert !inside(all[i]);
    }
  }

  lemma {:induction false} FilterFull(s: seq<int>, keep: int -> bool)
    ensures |Filter(s, keep)| == |s| ==> forall i :: 0 <= i < |s| ==> keep(s[i])
    decreases |s|
  {
    if s != [] { FilterFull(s[..|s| - 1], keep); }
  }

  /** An accepted row: within the sequence limit, one marker per option, rising, inside, each at a mask token. */
  lemma LayoutSound(p: Profile, q: Question, context: seq<int>)
    requires Accepted(p, q)
    ensures var row := Layout(p, q, context).value;
            && |row.ids| <= p.maxLen && |row.markers| == |q.labels|
            && (forall i, j :: 0 <= i < j < |row.markers| ==> row.markers[i] < row.markers[j])
            && (forall i :: 0 <= i < |row.markers| ==>
                  0 <= row.markers[i] < |row.ids| && row.ids[row.markers[i]] == p.mask)
  {
    MarkersPoint(p, q);
    RowStart(p, q, context);
  }

  /** Without a context limit the reference fixture builds the rows of both backends; a question they refuse
      gives it a marker outside its own row. */
  lemma FixtureAgrees(p: Profile, q: Question, context: seq<int>)
    requires p.contextLimit == 0
    ensures var row := Row(RowIds(p.(contextLimit := 0), q, context), HeadMarkers(p, q));
            if Accepted(p, q) then Layout(p, q, context) == Some(row)
            else exists i :: 0 <= i < |row.markers| && row.markers[i] >= |row.ids|
  {
    assert p.(contextLimit := 0) == p;
    RowStart(p, q, context);
    if !Accepted(p, q) {
      var row := Row(RowIds(p.(contextLimit := 0), q, context), HeadMarkers(p, q));
      var i :| 0 <= i < |row.markers| && row.markers[i] >= p.maxLen;
      assert row.markers[i] >= |row.ids|;
    }
  }

  // ----------------------------------------------------------------- head bound

  lemma {:induction false} TotalCut(parts: seq<seq<int>>, n: nat)
    ensures Total(TakeEach(parts, n)) <= |parts| * n
    decreases |parts|
  {
    if parts != [] {
      var k := |parts| - 1;
      TotalCut(parts[..k], n);
      assert TakeEach(parts, n)[..k] == TakeEach(parts[..k], n);
      OneMore(k, n);
    }
  }

  lemma OneMore(k: nat, n: nat)
    ensures (k + 1) * n == k * n + n
  {
  }

  /** A share of four tokens or more, and when more, all shares together leave sixteen. */
  lemma ShareFits(headMaxLen: nat, options: nat)
    requires 8 + 4 * options <= headMaxLen
    ensures options * Share(headMaxLen, options) <= headMaxLen - 8
  {
    if Share(headMaxLen, options) != 4 && options > 0 {
      var spare := Max(0, headMaxLen - 16);
      Quotient(spare, options);
    }
  }

  lemma Quotient(a: nat, b: nat)
    requires b > 0
    ensures b * (a / b) <= a
  {
  }

  lemma HeadFits(p: Profile, q: Question)
    requires 8 + 4 * |q.labels| <= p.headMaxLen
    ensures |HeadIds(p, q)| <= p.headMaxLen + 3
  {
    var marked := Marked(p, q.labels);
    TotalCut(marked, Share(p.headMaxLen, |q.labels|));
    ShareFits(p.headMaxLen, |q.labels|);
    assert Total(Options(p, q.labels)) <= p.headMaxLen - 8;
  }

  lemma {:induction false} UniformTotal(parts: seq<seq<int>>, n: nat)
    requires forall i :: 0 <= i < |parts| ==> |parts[i]| == n
    ensures Total(parts) == |parts| * n
    decreases |parts|
  {
    if parts != [] {
      UniformTotal(parts[..|parts| - 1], n);
      OneMore(|parts| - 1, n);
    }
  }

  function Crowd(options: nat): Question {
    Question(seq(8, _ => 0), seq(options, _ => [0, 0, 0]))
  }

  lemma HeadOverflows(p: Profile, options: nat)
    requires p.headMaxLen < 8 + 4 * options
    ensures |HeadIds(p, Crowd(options))| > p.headMaxLen + 3
  {
    var q := Crowd(options);
    var marked := Marked(p, q.labels);
    UniformTotal(marked, 4);
    SmallShare(p.headMaxLen, options);
    assert TakeEach(marked, 4) == marked;
    assert Options(p, q.labels) == marked;
    assert Heading(p, q) == q.heading;
  }

  lemma SmallShare(headMaxLen: nat, options: nat)
    requires headMaxLen < 8 + 4 * options
    ensures Share(headMaxLen, options) == 4
  {
    if options > 0 && headMaxLen > 16 { SmallQuotient(headMaxLen - 16, options); }
  }

  lemma SmallQuotient(a: nat, b: nat)
    requires b > 0 && a < 4 * b
    ensures a / b < 4
  {
    Product(b, a / b);
    Quotient(a, b);
  }

  lemma Product(b: nat, share: int)
    ensures share >= 4 ==> b * share >= 4 * b
  {
  }

  /** The head stays within head_max_len + 3 tokens for every content exactly when eight heading tokens and
      four tokens an option fit into head_max_len. */
  lemma HeadBound(p: Profile, options: nat)
    ensures (forall q: Question :: |q.labels| == options ==> |HeadIds(p, q)| <= p.headMaxLen + 3)
       <==> 8 + 4 * options <= p.headMaxLen
  {
    if 8 + 4 * options <= p.headMaxLen {
      forall q: Question | |q.labels| == options ensures |HeadIds(p, q)| <= p.headMaxLen + 3 {
        HeadFits(p, q);
      }
    } else {
      HeadOverflows(p, options);
      assert |Crowd(options).labels| == options;
    }
  }

  /** So with room for the head in the sequence, no content is ever refused. */
  lemma NeverRefused(p: Profile, q: Question)
    requires 8 + 4 * |q.labels| <= p.headMaxLen && p.headMaxLen + 2 <= p.maxLen
    ensures Accepted(p, q)
  {
    HeadFits(p, q);
    MarkersPoint(p, q);
  }
}
