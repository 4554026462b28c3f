/** The admission loop of compile_knowledge_context, proved to be the greedy choice in rank order under the
    caller's own token count. */
module ContextCompiler {
  import opened Lists
  import opened KnowledgeGraph
  import opened Ranking
  import opened KnowledgeContext
  import opened Wrappers

  /** The two closures of the compiler, make_input and measure, and the budget they are held to. */
  datatype Prompt = Prompt(makeInput: seq<Fact> -> string, measure: string -> nat, budget: nat)

  function Tokens(p: Prompt, facts: seq<Fact>): nat {
    p.measure(p.makeInput(facts))
  }

  predicate Fits(p: Prompt, facts: seq<Fact>) {
    Tokens(p, facts) <= p.budget
  }

  function PromptOf(r: Request): Prompt
    requires r.countTokens.Some?
  {
    Prompt((facts: seq<Fact>) => InputText(r, facts),
      (input: string) => r.countTokens.value(r.question + "\n" + input), r.tokenBudget)
  }

  /** The elements of s whose mark is `which`. */
  function Pick<T>(s: seq<T>, marks: seq<bool>, which: bool): seq<T>
    requires |s| == |marks|
  {
    if s == [] then []
    else Pick(s[..|s| - 1], marks[..|s| - 1], which) + if marks[|s| - 1] == which then [s[|s| - 1]] else []
  }

  function Ids(facts: seq<Fact>): (ids: seq<string>)
    ensures |ids| == |facts| && forall i :: 0 <= i < |ids| ==> ids[i] == facts[i].id
  {
    seq(|facts|, i requires 0 <= i < |facts| => facts[i].id)
  }

  ghost predicate DecidedAt(p: Prompt, ranked: seq<Fact>, marks: seq<bool>, i: nat)
    requires |marks| == |ranked| && i < |ranked|
  {
    marks[i] <==> Fits(p, Pick(ranked[..i], marks[..i], true) + [ranked[i]])
  }

  /** Fact i is admitted exactly when the prompt still fits with it after those admitted before it. */
  ghost predicate Greedy(p: Prompt, ranked: seq<Fact>, marks: seq<bool>)
    requires |marks| == |ranked|
  {
    forall i :: 0 <= i < |ranked| ==> DecidedAt(p, ranked, marks, i)
  }

  predicate Incomplete(r: Request) {
    r.question == "" || r.schemaId == "" || r.schemaRevision == "" || r.promptRevision == ""
    || r.observation == "" || r.countTokens.None? || r.tokenBudget == 0
  }

  /** What was chosen is the greedy choice, and what is reported describes it. */
  ghost predicate Chosen(p: Prompt, ranked: seq<Fact>, marks: seq<bool>, input: string, tokens: nat,
      admittedIds: seq<string>, omittedIds: seq<string>) {
    && |marks| == |ranked| && Greedy(p, ranked, marks)
    && admittedIds == Ids(Pick(ranked, marks, true)) && omittedIds == Ids(Pick(ranked, marks, false))
    && input == p.makeInput(Pick(ranked, marks, true)) && tokens == p.measure(input) && tokens <= p.budget
  }

  /** The returned context is the greedy one. Marks is the decision taken for each ranked fact: admitted and
      omitted ids are the two halves of the ranked list, the token count is that of the returned input. */
  ghost predicate CompiledFrom(r: Request, c: Compiled, marks: seq<bool>) {
    && r.countTokens.Some?
    && Chosen(PromptOf(r), StableSort(r.facts), marks, c.input, c.tokenCount, c.admittedIds, c.omittedIds)
    && c.question == r.question && c.schemaRevision == r.schemaRevision && c.promptRevision == r.promptRevision
  }

  /** Refusals in the order they are tried: a missing part of the contract, an observation over one mebibyte, a prompt
      without facts over the budget. */
  method Compile(r: Request) returns (result: Result, ghost marks: seq<bool>)
    ensures result == Err(IncompleteContract) <==>
              || r.question == "" || r.schemaId == "" || r.schemaRevision == "" || r.promptRevision == ""
              || r.observation == "" || r.countTokens == None || r.tokenBudget == 0
    ensures result == Err(ObservationTooLong) <==> result != Err(IncompleteContract) && |r.observation| > 1048576
    ensures result == Err(MandatoryTooLong) <==>
              && result != Err(IncompleteContract) && |r.observation| <= 1048576
              && r.countTokens.value(r.question + "\n" + InputText(r, [])) > r.tokenBudget
    ensures result.Ok? ==> CompiledFrom(r, result.context, marks)
  {
    marks := [];
    if Incomplete(r) { return Err(IncompleteContract), marks; }
    if |r.observation| > MAX_OBSERVATION { return Err(ObservationTooLong), marks; }
    var prompt := PromptOf(r);
    var candidates := StableSort(r.facts);
    if !Fits(prompt, []) { return Err(MandatoryTooLong), marks; }
    var input, tokens, admittedIds, omittedIds;
    input, tokens, admittedIds, omittedIds, marks := AdmitFacts(prompt, candidates);
    result := Ok(Compiled(r.question, input, r.schemaRevision, r.promptRevision, admittedIds, omittedIds, tokens));
  }

  /** The loop: push the candidate, measure, and take it back when the prompt overflows. */
  method AdmitFacts(p: Prompt, candidates: seq<Fact>)
      returns (input: string, tokens: nat, admittedIds: seq<string>, omittedIds: seq<string>, ghost marks: seq<bool>)
    requires Fits(p, [])
    ensures Chosen(p, candidates, marks, input, tokens, admittedIds, omittedIds)
  {
    input := p.makeInput([]);
    tokens := p.measure(input);
    admittedIds, omittedIds, marks := [], [], [];
    var admitted: seq<Fact> := [];
    for i := 0 to |candidates|
      invariant |marks| == i && admitted == Pick(candidates[..i], marks, true)
      invariant Chosen(p, candidates[..i], marks, input, tokens, admittedIds, omittedIds)
    {
      admitted := admitted + [candidates[i]];
      var proposed := p.makeInput(admitted);
      var needed := p.measure(proposed);
      ghost var fits := needed <= p.budget;
      Decide(p, candidates, marks, i, fits);
      if needed > p.budget {
        admitted := admitted[..|admitted| - 1];
        omittedIds := omittedIds + [candidates[i].id];
      } else {
        input, tokens := proposed, needed;
        admittedIds := admittedIds + [candidates[i].id];
      }
      marks := marks + [fits];
    }
    assert candidates[..|candidates|] == candidates;
  }

  /** One decision extends the greedy marks and the two id lists. */
  lemma Decide(p: Prompt, candidates: seq<Fact>, marks: seq<bool>, i: nat, fits: bool)
    requires i < |candidates| && |marks| == i && Greedy(p, candidates[..i], marks)
    requires fits <==> Fits(p, Pick(candidates[..i], marks, true) + [candidates[i]])
    ensures Greedy(p, candidates[..i + 1], marks + [fits])
    ensures Pick(candidates[..i + 1], marks + [fits], true)
         == Pick(candidates[..i], marks, true) + if fits then [candidates[i]] else []
    ensures Ids(Pick(candidates[..i + 1], marks + [fits], true))
         == Ids(Pick(candidates[..i], marks, true)) + if fits then [candidates[i].id] else []
    ensures Ids(Pick(candidates[..i + 1], marks + [fits], false))
         == Ids(Pick(candidates[..i], marks, false)) + if fits then [] else [candidates[i].id]
  {
    var c, m := candidates[..i + 1], marks + [fits];
    assert c[..i] == candidates[..i] && m[..i] == marks;
    forall k | 0 <= k < i + 1 ensures DecidedAt(p, c, m, k) {
      if k < i {
        assert c[..k] == candidates[..i][..k] && m[..k] == marks[..k];
        assert DecidedAt(p, candidates[..i], marks, k);
      }
    }
  }

  // ------------------------------------------------------- what greedy admission means

  lemma {:induction false} PickAll<T>(s: seq<T>, marks: seq<bool>)
    requires |s| == |marks|
    ensures multiset(Pick(s, marks, true)) + multiset(Pick(s, marks, false)) == multiset(s)
  {
    if s != [] {
      var front, last := s[..|s| - 1], s[|s| - 1];
      PickAll(front, marks[..|s| - 1]);
      assert s == front + [last];
      assert multiset(s) == multiset(front) + multiset{last};
    }
  }

  /** Nothing is lost: every supplied fact is admitted or omitted, once, and both lists come by priority, then by
      tick. */
  lemma AdmittedAndOmittedPartition(r: Request, marks: seq<bool>)
    requires |marks| == |StableSort(r.facts)|
    ensures var ranked := StableSort(r.facts);
            var admitted, omitted := Pick(ranked, marks, true), Pick(ranked, marks, false);
            && multiset(admitted) + multiset(omitted) == multiset(r.facts) && StableRearrangement(r.facts, ranked)
            && (forall i, j :: 0 <= i < j < |admitted| ==>
                  || admitted[i].priority > admitted[j].priority
                  || (admitted[i].priority == admitted[j].priority && admitted[i].tick >= admitted[j].tick))
            && (forall i, j :: 0 <= i < j < |omitted| ==>
                  || omitted[i].priority > omitted[j].priority
                  || (omitted[i].priority == omitted[j].priority && omitted[i].tick >= omitted[j].tick))
  {
    PickAll(StableSort(r.facts), marks);
    SortedSize(r.facts);
    StableSortCorrect(r.facts);
    PickRanked(StableSort(r.facts), marks, true);
    PickRanked(StableSort(r.facts), marks, false);
  }

  /** The caller counts the prompt with these facts as within the budget. */
  predicate Prompted(r: Request, facts: seq<Fact>)
    requires r.countTokens.Some?
  {
    r.countTokens.value(r.question + "\n" + InputText(r, facts)) <= r.tokenBudget
  }

  /** What a compiled context promises, in the request's own terms: the tokens counted are those of the question, a
      newline and the input returned, within the budget, and each ranked fact is admitted exactly when the caller's
      count of the prompt with it, after those admitted before it, is within the budget. */
  lemma CompiledMeaning(r: Request, c: Compiled, marks: seq<bool>)
    requires CompiledFrom(r, c, marks)
    ensures var ranked, count := StableSort(r.facts), r.countTokens.value;
            && |marks| == |ranked|
            && c.input == InputText(r, Pick(ranked, marks, true))
            && c.tokenCount == count(r.question + "\n" + c.input) && c.tokenCount <= r.tokenBudget
            && (forall i :: 0 <= i < |ranked| ==>
                  (marks[i] <==> Prompted(r, Pick(ranked[..i], marks[..i], true) + [ranked[i]])))
            && |c.admittedIds| + |c.omittedIds| == |r.facts|
            && (forall i :: 0 <= i < |c.admittedIds| ==> c.admittedIds[i] == Pick(ranked, marks, true)[i].id)
            && (forall i :: 0 <= i < |c.omittedIds| ==> c.omittedIds[i] == Pick(ranked, marks, false)[i].id)
  {
    SortedSize(r.facts);
    PickSizes(StableSort(r.facts), marks);
    forall i | 0 <= i < |StableSort(r.facts)|
      ensures marks[i] <==> Prompted(r, Pick(StableSort(r.facts)[..i], marks[..i], true) + [StableSort(r.facts)[i]])
    {
      DecidedByCount(r, StableSort(r.facts), marks, i);
    }
  }

  lemma DecidedByCount(r: Request, ranked: seq<Fact>, marks: seq<bool>, i: nat)
    requires r.countTokens.Some? && |marks| == |ranked| && Greedy(PromptOf(r), ranked, marks) && i < |ranked|
    ensures marks[i] <==> Prompted(r, Pick(ranked[..i], marks[..i], true) + [ranked[i]])
  {
    assert DecidedAt(PromptOf(r), ranked, marks, i);
  }

  lemma {:induction false} PickSizes<T>(s: seq<T>, marks: seq<bool>)
    requires |s| == |marks|
    ensures |Pick(s, marks, true)| + |Pick(s, marks, false)| == |s|
  {
    if s != [] { PickSizes(s[..|s| - 1], marks[..|s| - 1]); }
  }

  lemma {:induction false} PickRanked(s: seq<Fact>, marks: seq<bool>, which: bool)
    requires |s| == |marks| && Ranked(s)
    ensures Ranked(Pick(s, marks, which))
  {
    if s != [] {
      var front := s[..|s| - 1];
      var picked := Pick(front, marks[..|s| - 1], which);
      PickRanked(front, marks[..|s| - 1], which);
      forall j | 0 <= j < |picked| ensures AtLeast(picked[j], s[|s| - 1]) {
        PickedFrom(front, marks[..|s| - 1], which, j);
        var i :| 0 <= i < |front| && front[i] == picked[j];
        assert s[i] == picked[j];
      }
    }
  }

  lemma {:induction false} PickedFrom<T>(s: seq<T>, marks: seq<bool>, which: bool, j: nat)
    requires |s| == |marks| && j < |Pick(s, marks, which)|
    ensures Pick(s, marks, which)[j] in s
    decreases |s|
  {
    var picked := Pick(s[..|s| - 1], marks[..|s| - 1], which);
    if j < |picked| { PickedFrom(s[..|s| - 1], marks[..|s| - 1], which, j); }
  }

  /** The greedy decision is unique: any other marks that obey the rule are the same marks. */
  lemma {:induction false} GreedyUnique(p: Prompt, ranked: seq<Fact>, a: seq<bool>, b: seq<bool>)
    requires |a| == |ranked| == |b| && Greedy(p, ranked, a) && Greedy(p, ranked, b)
    ensures a == b
    decreases |ranked|
  {
    if ranked != [] {
      var n := |ranked| - 1;
      GreedyPrefix(p, ranked, a);
      GreedyPrefix(p, ranked, b);
      GreedyUnique(p, ranked[..n], a[..n], b[..n]);
      assert DecidedAt(p, ranked, a, n) && DecidedAt(p, ranked, b, n);
      assert a == a[..n] + [a[n]] && b == b[..n] + [b[n]];
    }
  }

  lemma GreedyPrefix(p: Prompt, ranked: seq<Fact>, marks: seq<bool>)
    requires |marks| == |ranked| > 0 && Greedy(p, ranked, marks)
    ensures Greedy(p, ranked[..|ranked| - 1], marks[..|ranked| - 1])
  {
    var n := |ranked| - 1;
    forall k | 0 <= k < n ensures DecidedAt(p, ranked[..n], marks[..n], k) {
      assert ranked[..n][..k] == ranked[..k] && marks[..n][..k] == marks[..k];
      assert DecidedAt(p, ranked, marks, k);
    }
  }

  /** An omitted fact did not fit after those admitted before it; and with a tokenizer that never counts a
      longer list of facts as fewer tokens, it would not fit beside everything admitted in the end either. */
  lemma OmittedWouldOverflow(p: Prompt, ranked: seq<Fact>, marks: seq<bool>, i: nat)
    requires |marks| == |ranked| && Greedy(p, ranked, marks) && i < |ranked| && !marks[i]
    ensures !Fits(p, Pick(ranked[..i], marks[..i], true) + [ranked[i]])
    ensures (forall a: seq<Fact>, b: seq<Fact> {:trigger Tokens(p, a), Tokens(p, b)} ::
        |a| <= |b| && multiset(a) <= multiset(b) ==>
               Tokens(p, a) <= Tokens(p, b)) ==>
              !Fits(p, Pick(ranked, marks, true) + [ranked[i]])
  {
    PickPrefix(ranked, marks, i);
    assert DecidedAt(p, ranked, marks, i);
    var a, b := Pick(ranked[..i], marks[..i], true), Pick(ranked, marks, true);
    assert b == a + b[|a|..];
    assert multiset(b) == multiset(a) + multiset(b[|a|..]);
    assert multiset(a + [ranked[i]]) == multiset(a) + multiset{ranked[i]};
    assert multiset(b + [ranked[i]]) == multiset(b) + multiset{ranked[i]};
    assert multiset(a + [ranked[i]]) <= multiset(b + [ranked[i]]);
  }

  lemma {:induction false} PickPrefix<T>(s: seq<T>, marks: seq<bool>, i: nat)
    requires |s| == |marks| && i <= |s|
    ensures Pick(s[..i], marks[..i], true) <= Pick(s, marks, true)
    decreases |s|
  {
    if i == |s| {
      assert s[..i] == s && marks[..i] == marks;
    } else {
      assert s[..|s| - 1][..i] == s[..i] && marks[..|s| - 1][..i] == marks[..i];
      PickPrefix(s[..|s| - 1], marks[..|s| - 1], i);
    }
  }

  /** End to end: what the model is sent can be read back to the observation and exactly the admitted facts, each with
      its evidence named. */
  lemma CompiledReadable(r: Request, c: Compiled, marks: seq<bool>) returns (document: Document)
    requires CompiledFrom(r, c, marks)
    ensures ReadDocument(c.input) == Some(document)
    ensures document.schema == r.schemaId && document.observation == r.observation
    ensures var admitted := Pick(StableSort(r.facts), marks, true);
            && |document.facts| == |admitted|
            && forall i :: 0 <= i < |admitted| ==>
                 document.facts[i] == Semantics(admitted[i].subject, admitted[i].relation, admitted[i].object_,
                   match admitted[i].evidence
                   case ModelHypothesis => "hypothesis"
                   case VerifiedOutcome => "confirmed"
                   case RamObservation => "observed",
                   admitted[i].attributes)
  {
    var admitted := Pick(StableSort(r.facts), marks, true);
    ContextReadable(r, admitted);
    document := Document(r.schemaId, r.observation, Meanings(admitted));
  }
}
