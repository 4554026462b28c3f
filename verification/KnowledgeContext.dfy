/** compile_knowledge_context with a string observation: what it prints is JSON from which everything can be
    read back, and what it admits is decided greedily, in rank order, against the real token count. */
module KnowledgeContext {
  import Json
  import opened Lists
  import opened KnowledgeGraph
  import opened Ranking
  import opened Wrappers

  datatype Request = Request(
    question: string, schemaId: string, schemaRevision: string, promptRevision: string,
    observation: string, facts: seq<Fact>, tokenBudget: nat, countTokens: Option<string -> nat>)

  datatype Compiled = Compiled(
    question: string, input: string, schemaRevision: string, promptRevision: string,
    admittedIds: seq<string>, omittedIds: seq<string>, tokenCount: nat)

  datatype CompileError = IncompleteContract | ObservationTooLong | MandatoryTooLong

  datatype Result = Ok(context: Compiled) | Err(error: CompileError)

  const MAX_OBSERVATION := 1048576

  // ------------------------------------------------------------------ the text

  function EvidenceLabel(f: Fact): string {
    match f.evidence
    case ModelHypothesis => "hypothesis"
    case VerifiedOutcome => "confirmed"
    case RamObservation => "observed"
  }

  function Quoted(name: string): string { "\"" + name + "\"" }

  /** The text before a member's value: what separates it from what came before, its name and a colon. */
  function Label(lead: string, name: string): string { lead + Quoted(name) + ":" }

  datatype Pair = Pair(name: string, value: string)

  /** What is printed of a fact; attributes only when there are some. */
  function Pairs(f: Fact): seq<Pair> {
    [Pair("subject", f.subject), Pair("relation", f.relation),
     Pair("object", f.object_), Pair("evidence", EvidenceLabel(f))]
    + if f.attributes == "" then [] else [Pair("attributes", f.attributes)]
  }

  function PairsText(lead: string, pairs: seq<Pair>): string
    decreases |pairs|
  {
    if pairs == [] then "}"
    else Label(lead, pairs[0].name) + (Json.Quote(pairs[0].value) + PairsText(",", pairs[1..]))
  }

  function FactText(f: Fact): string {
    PairsText("{", Pairs(f))
  }

  /** Texts joined by commas, as the printing loop leaves them. */
  function Joined(text: Fact -> string, facts: seq<Fact>): string {
    if facts == [] then ""
    else Joined(text, facts[..|facts| - 1]) + ((if |facts| > 1 then "," else "") + text(facts[|facts| - 1]))
  }

  function Preamble(r: Request): string {
    Label("{", "schema") + (Json.Quote(r.schemaId)
      + (Label(",", "observation") + (Json.Quote(r.observation) + (Label(",", "knowledge") + "["))))
  }

  function InputText(r: Request, facts: seq<Fact>): string {
    Preamble(r) + Joined(FactText, facts) + "]}"
  }

  method MakeInput(r: Request, admitted: seq<Fact>) returns (out: string)
    ensures out == InputText(r, admitted)
  {
    out := AppendFacts(Preamble(r), FactText, admitted);
    out := out + "]}";
  }

  method AppendFacts(start: string, text: Fact -> string, admitted: seq<Fact>) returns (out: string)
    ensures out == start + Joined(text, admitted)
  {
    out := start;
    for i := 0 to |admitted|
      invariant out == start + Joined(text, admitted[..i])
    {
      assert admitted[..i + 1][..i] == admitted[..i];
      if i > 0 { out := out + ","; }
      out := out + text(admitted[i]);
    }
    assert admitted[..|admitted|] == admitted;
  }

  // ------------------------------------------------------------- reading it back

  /** What the model is told about a fact. */
  datatype Semantics = Semantics(subject: string, relation: string, object_: string, evidence: string,
    attributes: string)

  datatype Document = Document(schema: string, observation: string, facts: seq<Semantics>)

  function Meaning(f: Fact): Semantics {
    Semantics(f.subject, f.relation, f.object_, EvidenceLabel(f), f.attributes)
  }

  function Meanings(facts: seq<Fact>): (r: seq<Semantics>)
    ensures |r| == |facts| && forall i :: 0 <= i < |r| ==> r[i] == Meaning(facts[i])
  {
    seq(|facts|, i requires 0 <= i < |facts| => Meaning(facts[i]))
  }

  function ReadFact(v: Json.Value): Option<Semantics> {
    match v
    case Obj(Member("subject", Str(s), Member("relation", Str(r),
      Member("object", Str(o), Member("evidence", Str(e), more))))) =>
      (match more
       case NoMembers => Some(Semantics(s, r, o, e, ""))
       case Member("attributes", Str(a), NoMembers) => Some(Semantics(s, r, o, e, a))
       case _ => None)
    case _ => None
  }

  function ReadFacts(items: Json.Items): Option<seq<Semantics>> {
    match items
    case NoItems => Some([])
    case Item(first, rest) =>
      var f, fs := ReadFact(first), ReadFacts(rest);
      if f.None? || fs.None? then None else Some([f.value] + fs.value)
  }

  /** An independent reader of compiled contexts: the whole text must be one JSON value of this shape. */
  function ReadDocument(text: string): Option<Document> {
    match Json.Read(text)
    case Some(Parsed(Obj(Member("schema", Str(schema), Member("observation", Str(observation),
                       Member("knowledge", Arr(items), NoMembers)))), "")) =>
      var facts := ReadFacts(items);
      if facts.None? then None else Some(Document(schema, observation, facts.value))
    case _ => None
  }

  function PairMembers(pairs: seq<Pair>): Json.Members {
    if pairs == [] then Json.NoMembers
    else Json.Member(pairs[0].name, Json.Str(pairs[0].value), PairMembers(pairs[1..]))
  }

  function FactValue(f: Fact): Json.Value {
    Json.Obj(PairMembers(Pairs(f)))
  }

  function FactItems(facts: seq<Fact>): Json.Items {
    if facts == [] then Json.NoItems else Json.Item(FactValue(facts[0]), FactItems(facts[1..]))
  }

  function InputValue(r: Request, facts: seq<Fact>): Json.Value {
    Json.Obj(Json.Member("schema", Json.Str(r.schemaId), Json.Member("observation", Json.Str(r.observation),
      Json.Member("knowledge", Json.Arr(FactItems(facts)), Json.NoMembers))))
  }

  /** Text without quotes, backslashes and control characters is printed as it is. */
  ghost predicate Plain(s: string) {
    forall i :: 0 <= i < |s| ==> s[i] != '"' && s[i] != '\\' && s[i] as int >= 0x20
  }

  lemma {:induction false} PlainText(s: string)
    requires Plain(s)
    ensures Json.EscapeAll(s) == s
  {
    if s != "" {
      PlainText(s[1..]);
      assert s == [s[0]] + s[1..];
    }
  }

  lemma QuotedName(name: string)
    requires Plain(name)
    ensures Json.Quote(name) == Quoted(name)
  {
    PlainText(name);
  }

  /** One member regrouped: as printed, or name, colon, value, as defined. */
  lemma Regrouped(lead: string, name: string, value: string, rest: string, close: string)
    ensures (lead + name + ":") + (value + (rest + close)) == (lead + (name + ":" + value + rest)) + close
  {
  }

  function Tail(members: Json.Members): string {
    if members.NoMembers? then "" else "," + Json.PrintMembers(members)
  }

  /** A member as the program prints it is the member as JSON prints it. */
  lemma MemberText(lead: string, name: string, value: Json.Value, rest: Json.Members, restText: string)
    requires Plain(name) && restText == Tail(rest) + "}"
    ensures Label(lead, name) + (Json.Print(value) + restText)
         == lead + Json.PrintMembers(Json.Member(name, value, rest)) + "}"
  {
    QuotedName(name);
    Regrouped(lead, Quoted(name), Json.Print(value), Tail(rest), "}");
  }

  lemma {:induction false} PairsPrinted(pairs: seq<Pair>)
    requires forall k :: 0 <= k < |pairs| ==> Plain(pairs[k].name)
    ensures PairsText(",", pairs) == Tail(PairMembers(pairs)) + "}"
  {
    if pairs != [] {
      PairsPrinted(pairs[1..]);
      assert Plain(pairs[0].name);
      MemberText(",", pairs[0].name, Json.Str(pairs[0].value), PairMembers(pairs[1..]), PairsText(",", pairs[1..]));
    }
  }

  /** The text of a fact is the printed form of its JSON value. */
  lemma FactPrinted(f: Fact)
    ensures FactText(f) == Json.Print(FactValue(f))
  {
    NamesPlain(f);
    ObjectPrinted(Pairs(f));
  }

  lemma {:induction false} ObjectPrinted(pairs: seq<Pair>)
    requires pairs != [] && forall k :: 0 <= k < |pairs| ==> Plain(pairs[k].name)
    ensures PairsText("{", pairs) == Json.Print(Json.Obj(PairMembers(pairs)))
  {
    PairsPrinted(pairs[1..]);
    assert Plain(pairs[0].name);
    MemberText("{", pairs[0].name, Json.Str(pairs[0].value), PairMembers(pairs[1..]), PairsText(",", pairs[1..]));
  }

  lemma NamesPlain(f: Fact)
    ensures forall k :: 0 <= k < |Pairs(f)| ==> Plain(Pairs(f)[k].name)
  {
  }

  lemma {:induction false} JoinedFirst(text: Fact -> string, facts: seq<Fact>)
    requires facts != []
    ensures Joined(text, facts) == text(facts[0]) + (if |facts| == 1 then "" else "," + Joined(text, facts[1..]))
  {
    if |facts| > 1 {
      var front := facts[..|facts| - 1];
      JoinedFirst(text, front);
      assert facts[1..][..|facts[1..]| - 1] == front[1..];
      Shuffle(text(facts[0]), Joined(text, front[1..]), text(facts[|facts| - 1]), |front| == 1);
      assert facts[1..][|facts[1..]| - 1] == facts[|facts| - 1];
      if |front| == 1 { assert Joined(text, front[1..]) == ""; }
    } else {
      assert facts[..0] == [];
    }
  }

  lemma Shuffle(first: string, middle: string, last: string, single: bool)
    requires single ==> middle == ""
    ensures (first + if single then "" else "," + middle) + ("," + last)
         == first + ("," + (middle + ((if single then "" else ",") + last)))
  {
  }

  lemma {:induction false} FactsPrinted(facts: seq<Fact>)
    ensures Joined(FactText, facts) == Json.PrintItems(FactItems(facts))
  {
    if facts != [] {
      FactPrinted(facts[0]);
      FactsPrinted(facts[1..]);
      FirstPrinted(FactText, facts);
    }
  }

  lemma {:induction false} FirstPrinted(text: Fact -> string, facts: seq<Fact>)
    requires facts != [] && text(facts[0]) == Json.Print(FactValue(facts[0]))
    requires Joined(text, facts[1..]) == Json.PrintItems(FactItems(facts[1..]))
    ensures Joined(text, facts) == Json.PrintItems(FactItems(facts))
  {
    JoinedFirst(text, facts);
    assert FactItems(facts) == Json.Item(FactValue(facts[0]), FactItems(facts[1..]));
  }

  /** The compiled input is the printed form of one JSON value. */
  lemma InputPrinted(r: Request, facts: seq<Fact>)
    ensures InputText(r, facts) == Json.Print(InputValue(r, facts))
  {
    FactsPrinted(facts);
    var knowledge := Json.Member("knowledge", Json.Arr(FactItems(facts)), Json.NoMembers);
    KnowledgePrinted(FactItems(facts), knowledge);
    SchemaPrinted(r, Json.PrintItems(FactItems(facts)), knowledge);
  }

  lemma KnowledgePrinted(items: Json.Items, knowledge: Json.Members)
    requires knowledge == Json.Member("knowledge", Json.Arr(items), Json.NoMembers)
    ensures Tail(knowledge) + "}" == Label(",", "knowledge") + "[" + (Json.PrintItems(items) + "]}")
  {
    MemberText(",", "knowledge", Json.Arr(items), Json.NoMembers, "}");
    Bracketed(Label(",", "knowledge"), Json.PrintItems(items));
  }

  lemma SchemaPrinted(r: Request, items: string, knowledge: Json.Members)
    requires Tail(knowledge) + "}" == Label(",", "knowledge") + "[" + (items + "]}")
    ensures Preamble(r) + items + "]}"
         == Json.Print(Json.Obj(Json.Member("schema", Json.Str(r.schemaId),
           Json.Member("observation", Json.Str(r.observation), knowledge))))
  {
    var observation := Json.Member("observation", Json.Str(r.observation), knowledge);
    var t2 := Label(",", "knowledge") + "[" + (items + "]}");
    var t1 := Label(",", "observation") + (Json.Quote(r.observation) + t2);
    ObservationPrinted(r.observation, knowledge, t2);
    SchemaNamed(r.schemaId, observation, t1);
    Assemble(Label("{", "schema"), Json.Quote(r.schemaId), Label(",", "observation"), Json.Quote(r.observation),
             Label(",", "knowledge") + "[", items, t2);
  }

  lemma ObservationPrinted(observation: string, rest: Json.Members, restText: string)
    requires restText == Tail(rest) + "}"
    ensures Label(",", "observation") + (Json.Quote(observation) + restText)
         == Tail(Json.Member("observation", Json.Str(observation), rest)) + "}"
  {
    MemberText(",", "observation", Json.Str(observation), rest, restText);
  }

  lemma SchemaNamed(schema: string, rest: Json.Members, restText: string)
    requires restText == Tail(rest) + "}"
    ensures Label("{", "schema") + (Json.Quote(schema) + restText)
         == Json.Print(Json.Obj(Json.Member("schema", Json.Str(schema), rest)))
  {
    MemberText("{", "schema", Json.Str(schema), rest, restText);
  }

  lemma Bracketed(before: string, items: string)
    ensures before + (("[" + items + "]") + "}") == before + "[" + (items + "]}")
  {
  }

  lemma Assemble(a: string, b: string, c: string, d: string, e: string, items: string, t2: string)
    requires t2 == e + (items + "]}")
    ensures (a + (b + (c + (d + e)))) + items + "]}" == a + (b + (c + (d + t2)))
  {
    assert (d + e) + (items + "]}") == d + t2;
    assert (c + (d + e)) + (items + "]}") == c + (d + t2);
    assert (b + (c + (d + e))) + (items + "]}") == b + (c + (d + t2));
  }

  lemma FourMembers(a: Pair, b: Pair, c: Pair, d: Pair, more: seq<Pair>)
    ensures PairMembers([a, b, c, d] + more)
         == Json.Member(a.name, Json.Str(a.value), Json.Member(b.name, Json.Str(b.value),
              Json.Member(c.name, Json.Str(c.value), Json.Member(d.name, Json.Str(d.value), PairMembers(more)))))
  {
    assert [a, b, c, d] + more == [a] + ([b] + ([c] + ([d] + more)));
    OneMember(d, more);
    OneMember(c, [d] + more);
    OneMember(b, [c] + ([d] + more));
    OneMember(a, [b] + ([c] + ([d] + more)));
  }

  lemma OneMember(p: Pair, more: seq<Pair>)
    ensures PairMembers([p] + more) == Json.Member(p.name, Json.Str(p.value), PairMembers(more))
  {
    assert ([p] + more)[1..] == more;
  }

  lemma FactRead(f: Fact)
    ensures ReadFact(FactValue(f)) == Some(Meaning(f))
  {
    var a, b := Pair("subject", f.subject), Pair("relation", f.relation);
    var c, d := Pair("object", f.object_), Pair("evidence", EvidenceLabel(f));
    var more: seq<Pair> := if f.attributes == "" then [] else [Pair("attributes", f.attributes)];
    assert Pairs(f) == [a, b, c, d] + more;
    FourMembers(a, b, c, d, more);
    AtMostOne(more);
    ReadShape(f.subject, f.relation, f.object_, EvidenceLabel(f), f.attributes);
  }

  /** Attributes are read back as empty exactly when they are missing. */
  lemma ReadShape(subject: string, relation: string, object_: string, evidence: string, attributes: string)
    ensures var more := if attributes == "" then Json.NoMembers
                        else Json.Member("attributes", Json.Str(attributes), Json.NoMembers);
            ReadFact(Json.Obj(Json.Member("subject", Json.Str(subject), Json.Member("relation", Json.Str(relation),
              Json.Member("object", Json.Str(object_), Json.Member("evidence", Json.Str(evidence), more))))))
            == Some(Semantics(subject, relation, object_, evidence, attributes))
  {
  }

  lemma AtMostOne(pairs: seq<Pair>)
    requires |pairs| <= 1
    ensures PairMembers(pairs)
         == if pairs == [] then Json.NoMembers else Json.Member(pairs[0].name, Json.Str(pairs[0].value), Json.NoMembers)
  {
  }

  lemma {:induction false} FactsRead(facts: seq<Fact>)
    ensures ReadFacts(FactItems(facts)) == Some(Meanings(facts))
  {
    if facts != [] {
      FactsRead(facts[1..]);
      FactRead(facts[0]);
      assert Meanings(facts) == [Meaning(facts[0])] + Meanings(facts[1..]);
    }
  }

  /** A reader recovers schema, observation and the semantic fields of every admitted fact exactly, whatever
      bytes they contain. */
  lemma ContextReadable(r: Request, facts: seq<Fact>)
    ensures ReadDocument(InputText(r, facts)) == Some(Document(r.schemaId, r.observation, Meanings(facts)))
  {
    InputPrinted(r, facts);
    Json.RoundTrip(InputValue(r, facts), "");
    Unpadded(Json.Print(InputValue(r, facts)));
    FactsRead(facts);
    DocumentRead(r, FactItems(facts), Meanings(facts), InputText(r, facts));
  }

  lemma Unpadded(s: string)
    ensures s + "" == s
  {
  }

  lemma DocumentRead(r: Request, items: Json.Items, facts: seq<Semantics>, text: string)
    requires ReadFacts(items) == Some(facts)
    requires Json.Read(text) == Some(Json.Parsed(Json.Obj(Json.Member("schema", Json.Str(r.schemaId),
      Json.Member("observation", Json.Str(r.observation),
        Json.Member("knowledge", Json.Arr(items), Json.NoMembers)))), ""))
    ensures ReadDocument(text) == Some(Document(r.schemaId, r.observation, facts))
  {
  }

  /** So distinct contexts never share an input text. */
  lemma ContextInjective(r: Request, facts: seq<Fact>, r2: Request, facts2: seq<Fact>)
    requires InputText(r, facts) == InputText(r2, facts2)
    ensures r.schemaId == r2.schemaId && r.observation == r2.observation && Meanings(facts) == Meanings(facts2)
  {
    ContextReadable(r, facts);
    ContextReadable(r2, facts2);
  }
}
