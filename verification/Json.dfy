/** JSON text as the context compiler prints it, and an independent reader for it: string literals follow
    section 7 of RFC 8259, values are strings, arrays and objects without insignificant whitespace. */
module Json {
  import opened Wrappers

  datatype Value = Str(text: string) | Arr(items: Items) | Obj(members: Members)
  datatype Items = NoItems | Item(first: Value, rest: Items)
  datatype Members = NoMembers | Member(name: string, value: Value, rest: Members)

  // ------------------------------------------------------------------ printing

  const HEX := "0123456789abcdef"

  /** One byte of a string literal. */
  function Escape(c: char): (e: string)
    ensures |e| > 0
  {
    if c == '"' then "\\\""
    else if c == '\\' then "\\\\"
    else if c == '\U{08}' then "\\b"
    else if c == '\U{0C}' then "\\f"
    else if c == '\n' then "\\n"
    else if c == '\r' then "\\r"
    else if c == '\t' then "\\t"
    else if c as int < 0x20 then "\\u00" + [HEX[c as int / 16], HEX[c as int % 16]]
    else [c]
  }

  function EscapeAll(s: string): string {
    if s == "" then "" else Escape(s[0]) + EscapeAll(s[1..])
  }

  function Quote(s: string): string {
    "\"" + EscapeAll(s) + "\""
  }

  function Print(v: Value): string {
    match v
    case Str(text) => Quote(text)
    case Arr(items) => "[" + PrintItems(items) + "]"
    case Obj(members) => "{" + PrintMembers(members) + "}"
  }

  function PrintItems(items: Items): string {
    match items
    case NoItems => ""
    case Item(first, rest) => Print(first) + (if rest.NoItems? then "" else "," + PrintItems(rest))
  }

  function PrintMembers(members: Members): string {
    match members
    case NoMembers => ""
    case Member(name, value, rest) =>
      Quote(name) + ":" + Print(value) + (if rest.NoMembers? then "" else "," + PrintMembers(rest))
  }

  // ------------------------------------------------------------------- reading

  /** What was read, and what follows it. */
  datatype Parsed<+T> = Parsed(value: T, rest: string)

  function HexDigit(c: char): Option<nat> {
    if '0' <= c <= '9' then Some(c as int - '0' as int)
    else if 'a' <= c <= 'f' then Some(c as int - 'a' as int + 10)
    else if 'A' <= c <= 'F' then Some(c as int - 'A' as int + 10)
    else None
  }

  function Hex4(s: string): Option<nat>
    requires |s| >= 4
  {
    var a, b, c, d := HexDigit(s[0]), HexDigit(s[1]), HexDigit(s[2]), HexDigit(s[3]);
    if a.None? || b.None? || c.None? || d.None? then None
    else Some(((a.value * 16 + b.value) * 16 + c.value) * 16 + d.value)
  }

  /** The character after a backslash, or four hexadecimal digits after \u (surrogates are not characters). */
  function Unescape(s: string): (r: Option<Parsed<char>>)
    ensures r.Some? ==> |r.value.rest| < |s|
  {
    if s == "" then None
    else if s[0] == '"' || s[0] == '\\' || s[0] == '/' then Some(Parsed(s[0], s[1..]))
    else if s[0] == 'b' then Some(Parsed('\U{08}', s[1..]))
    else if s[0] == 'f' then Some(Parsed('\U{0C}', s[1..]))
    else if s[0] == 'n' then Some(Parsed('\n', s[1..]))
    else if s[0] == 'r' then Some(Parsed('\r', s[1..]))
    else if s[0] == 't' then Some(Parsed('\t', s[1..]))
    else if s[0] == 'u' && |s| >= 5 then
      match Hex4(s[1..])
      case Some(n) => if n < 0xD800 then Some(Parsed(n as char, s[5..])) else None
      case None => None
    else None
  }

  /** The body of a string literal up to and including the closing quotation mark. */
  function ReadBody(s: string): (r: Option<Parsed<string>>)
    ensures r.Some? ==> |r.value.rest| < |s|
    decreases |s|
  {
    if s == "" || s[0] as int < 0x20 then None
    else if s[0] == '"' then Some(Parsed("", s[1..]))
    else if s[0] == '\\' then
      match Unescape(s[1..])
      case None => None
      case Some(Parsed(c, rest)) =>
        match ReadBody(rest)
        case None => None
        case Some(Parsed(text, rest')) => Some(Parsed([c] + text, rest'))
    else
      match ReadBody(s[1..])
      case None => None
      case Some(Parsed(text, rest)) => Some(Parsed([s[0]] + text, rest))
  }

  function ReadString(s: string): (r: Option<Parsed<string>>)
    ensures r.Some? ==> |r.value.rest| < |s|
  {
    if s != "" && s[0] == '"' then ReadBody(s[1..]) else None
  }

  function Read(s: string): (r: Option<Parsed<Value>>)
    ensures r.Some? ==> |r.value.rest| < |s|
    decreases |s|, 0
  {
    if s == "" then None
    else if s[0] == '"' then
      match ReadString(s)
      case None => None
      case Some(Parsed(text, rest)) => Some(Parsed(Str(text), rest))
    else if s[0] == '[' then
      if |s| > 1 && s[1] == ']' then Some(Parsed(Arr(NoItems), s[2..]))
      else
        match ReadItems(s[1..])
        case None => None
        case Some(Parsed(items, rest)) => Some(Parsed(Arr(items), rest))
    else if s[0] == '{' then
      if |s| > 1 && s[1] == '}' then Some(Parsed(Obj(NoMembers), s[2..]))
      else
        match ReadMembers(s[1..])
        case None => None
        case Some(Parsed(members, rest)) => Some(Parsed(Obj(members), rest))
    else None
  }

  /** One or more values separated by commas, and the closing bracket. */
  function ReadItems(s: string): (r: Option<Parsed<Items>>)
    ensures r.Some? ==> |r.value.rest| < |s|
    decreases |s|, 1
  {
    match Read(s)
    case None => None
    case Some(Parsed(first, rest)) =>
      if rest == "" then None
      else if rest[0] == ']' then Some(Parsed(Item(first, NoItems), rest[1..]))
      else if rest[0] == ',' then
        match ReadItems(rest[1..])
        case None => None
        case Some(Parsed(items, rest')) => Some(Parsed(Item(first, items), rest'))
      else None
  }

  function ReadMembers(s: string): (r: Option<Parsed<Members>>)
    ensures r.Some? ==> |r.value.rest| < |s|
    decreases |s|, 1
  {
    match ReadString(s)
    case None => None
    case Some(Parsed(name, colon)) =>
      if colon == "" || colon[0] != ':' then None
      else
        match Read(colon[1..])
        case None => None
        case Some(Parsed(value, rest)) =>
          if rest == "" then None
          else if rest[0] == '}' then Some(Parsed(Member(name, value, NoMembers), rest[1..]))
          else if rest[0] == ',' then
            match ReadMembers(rest[1..])
            case None => None
            case Some(Parsed(members, rest')) => Some(Parsed(Member(name, value, members), rest'))
          else None
  }

  // ---------------------------------------------------------------- round trip

  /** Each escaped byte is read back as that byte. */
  lemma EscapedByte(c: char, tail: string)
    ensures var s := Escape(c) + tail;
            if Escape(c)[0] == '\\'
            then Unescape(s[1..]) == Some(Parsed(c, tail))
            else s[0] == c && s[1..] == tail && c != '"' && c != '\\' && c as int >= 0x20
  {
    var s := Escape(c) + tail;
    if Escape(c)[0] == '\\' {
      if |Escape(c)| == 2 {
        assert s[1..] == [Escape(c)[1]] + tail;
        assert s[1..][1..] == tail;
      } else {
        ControlByte(c, tail);
      }
    } else {
      assert s[1..] == tail;
    }
  }

  lemma ControlByte(c: char, tail: string)
    requires c as int < 0x20
    ensures Unescape(("\\u00" + [HEX[c as int / 16], HEX[c as int % 16]] + tail)[1..]) == Some(Parsed(c, tail))
  {
    var hi, lo := c as int / 16, c as int % 16;
    var s := ("\\u00" + [HEX[hi], HEX[lo]] + tail)[1..];
    assert s == ['u', '0', '0', HEX[hi], HEX[lo]] + tail;
    HexRead(hi);
    HexRead(lo);
    FourDigits(s, hi, lo, tail);
    assert hi * 16 + lo == c as int;
  }

  lemma FourDigits(s: string, hi: nat, lo: nat, tail: string)
    requires hi < 2 && lo < 16 && s == ['u', '0', '0', HEX[hi], HEX[lo]] + tail
    requires HexDigit(HEX[hi]) == Some(hi) && HexDigit(HEX[lo]) == Some(lo)
    ensures Unescape(s) == Some(Parsed((hi * 16 + lo) as char, tail))
  {
  }

  lemma HexRead(n: nat)
    requires n < 16
    ensures HexDigit(HEX[n]) == Some(n)
  {
  }

  lemma BodyStep(c: char, text: string, more: string, tail: string)
    requires ReadBody(more) == Some(Parsed(text, tail))
    ensures ReadBody(Escape(c) + more) == Some(Parsed([c] + text, tail))
  {
    EscapedByte(c, more);
  }

  /** A printed literal reads back as its text, whatever bytes it holds and whatever follows. */
  lemma {:induction false} BodyRoundTrip(s: string, tail: string)
    ensures ReadBody(EscapeAll(s) + "\"" + tail) == Some(Parsed(s, tail))
  {
    if s == "" {
      assert (EscapeAll(s) + "\"" + tail)[1..] == tail;
    } else {
      BodyRoundTrip(s[1..], tail);
      BodyStep(s[0], s[1..], EscapeAll(s[1..]) + "\"" + tail, tail);
      Regroup(Escape(s[0]), EscapeAll(s[1..]), tail);
      assert s == [s[0]] + s[1..];
    }
  }

  lemma Regroup(first: string, rest: string, tail: string)
    ensures first + rest + "\"" + tail == first + (rest + "\"" + tail)
  {
  }

  /** Regrouping of a literal and what follows it, for any body. */
  lemma Quoted(body: string, tail: string)
    ensures ("\"" + body + "\"" + tail)[0] == '"'
    ensures ("\"" + body + "\"" + tail)[1..] == body + "\"" + tail
  {
  }

  lemma StringRoundTrip(s: string, tail: string)
    ensures ReadString(Quote(s) + tail) == Some(Parsed(s, tail))
    ensures (Quote(s) + tail)[0] == '"' && |Quote(s)| > 0 && Quote(s)[0] == '"'
  {
    BodyRoundTrip(s, tail);
    Quoted(EscapeAll(s), tail);
  }

  /** Regrouping of a list element, the rest of the list and the closing bracket. */
  lemma Listed(first: string, rest: string, close: char, tail: string)
    ensures (first + rest) + [close] + tail == first + (rest + [close] + tail)
    ensures ("," + rest + [close] + tail)[1..] == rest + [close] + tail
    ensures ([close] + tail)[1..] == tail
    ensures ("" + [close] + tail) == [close] + tail
  {
  }

  /** Every printed value reads back as itself and leaves exactly what follows it. */
  lemma {:induction false} RoundTrip(v: Value, tail: string)
    ensures Read(Print(v) + tail) == Some(Parsed(v, tail))
    ensures |Print(v)| > 0 && Print(v)[0] != ']' && Print(v)[0] != '}'
    decreases v, 0
  {
    match v
    case Str(text) => StringRoundTrip(text, tail);
    case Arr(items) =>
      if items.Item? { ItemsRoundTrip(items, tail); }
      Bracketed(PrintItems(items), '[', ']', tail);
      ArrayStep(items, tail);
    case Obj(members) =>
      if members.Member? { MembersRoundTrip(members, tail); }
      Bracketed(PrintMembers(members), '{', '}', tail);
      ObjectStep(members, tail);
  }

  /** Regrouping of brackets around a text. */
  lemma Bracketed(inside: string, open: char, close: char, tail: string)
    ensures ([open] + inside + [close] + tail)[0] == open
    ensures ([open] + inside + [close] + tail)[1..] == inside + [close] + tail
    ensures inside == "" ==> ([open] + inside + [close] + tail)[1] == close
    ensures inside == "" ==> ([open] + inside + [close] + tail)[2..] == tail
    ensures inside != "" ==> ([open] + inside + [close] + tail)[1] == inside[0]
  {
    assert [open] + inside + [close] + tail == [open] + (inside + [close] + tail);
  }

  lemma ArrayStep(items: Items, tail: string)
    requires var s := ['['] + PrintItems(items) + [']'] + tail;
             if items.NoItems? then s[1] == ']' && s[2..] == tail
             else s[1] != ']' && ReadItems(s[1..]) == Some(Parsed(items, tail))
    ensures Read(Print(Arr(items)) + tail) == Some(Parsed(Arr(items), tail))
  {
  }

  lemma ObjectStep(members: Members, tail: string)
    requires var s := ['{'] + PrintMembers(members) + ['}'] + tail;
             if members.NoMembers? then s[1] == '}' && s[2..] == tail
             else s[1] != '}' && ReadMembers(s[1..]) == Some(Parsed(members, tail))
    ensures Read(Print(Obj(members)) + tail) == Some(Parsed(Obj(members), tail))
  {
  }

  lemma {:induction false} ItemsRoundTrip(items: Items, tail: string)
    requires items.Item?
    ensures ReadItems(PrintItems(items) + "]" + tail) == Some(Parsed(items, tail))
    ensures |PrintItems(items)| > 0 && PrintItems(items)[0] != ']'
    decreases items, 1
  {
    var rest := if items.rest.NoItems? then "" else "," + PrintItems(items.rest);
    Listed(Print(items.first), rest, ']', tail);
    RoundTrip(items.first, rest + "]" + tail);
    if items.rest.Item? {
      ItemsRoundTrip(items.rest, tail);
      Listed("", PrintItems(items.rest), ']', tail);
    }
    ItemsStep(items, rest, tail);
  }

  /** One step of the item reader, its pieces already read. */
  lemma ItemsStep(items: Items, rest: string, tail: string)
    requires items.Item?
    requires Read(Print(items.first) + (rest + "]" + tail)) == Some(Parsed(items.first, rest + "]" + tail))
    requires PrintItems(items) + "]" + tail == Print(items.first) + (rest + "]" + tail)
    requires if items.rest.NoItems? then rest == "" && (rest + "]" + tail)[1..] == tail
             else rest != "" && rest[0] == ',' && ReadItems((rest + "]" + tail)[1..]) == Some(Parsed(items.rest, tail))
    ensures ReadItems(PrintItems(items) + "]" + tail) == Some(Parsed(items, tail))
  {
  }

  lemma {:induction false} MembersRoundTrip(members: Members, tail: string)
    requires members.Member?
    ensures ReadMembers(PrintMembers(members) + "}" + tail) == Some(Parsed(members, tail))
    ensures |PrintMembers(members)| > 0 && PrintMembers(members)[0] == '"'
    decreases members, 1
  {
    var rest := if members.rest.NoMembers? then "" else "," + PrintMembers(members.rest);
    var more := rest + "}" + tail;
    NamedValue(Quote(members.name), Print(members.value), rest, tail);
    StringRoundTrip(members.name, ":" + Print(members.value) + more);
    RoundTrip(members.value, more);
    Listed("", rest, '}', tail);
    if members.rest.Member? {
      MembersRoundTrip(members.rest, tail);
      Listed("", PrintMembers(members.rest), '}', tail);
    }
    MembersStep(members, rest, tail);
  }

  lemma NamedValue(name: string, value: string, rest: string, tail: string)
    ensures (name + ":" + value + rest) + "}" + tail == name + (":" + value + (rest + "}" + tail))
    ensures (":" + value + (rest + "}" + tail))[1..] == value + (rest + "}" + tail)
  {
  }

  lemma MembersStep(members: Members, rest: string, tail: string)
    requires members.Member?
    requires var colon := ":" + Print(members.value) + (rest + "}" + tail);
             && ReadString(PrintMembers(members) + "}" + tail) == Some(Parsed(members.name, colon))
             && colon[0] == ':' && Read(colon[1..]) == Some(Parsed(members.value, rest + "}" + tail))
    requires if members.rest.NoMembers? then rest == "" && (rest + "}" + tail)[1..] == tail
             else
               rest != "" && rest[0] == ','
               && ReadMembers((rest + "}" + tail)[1..]) == Some(Parsed(members.rest, tail))
    ensures ReadMembers(PrintMembers(members) + "}" + tail) == Some(Parsed(members, tail))
  {
  }
}
