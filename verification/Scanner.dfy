/** The structural JSON scanner: a character loop with constant state against recursive measures. */
module Scanner {
  import opened Common

  const MAX_JSON_DEPTH := 64
  const MAX_JSON_NODES := 4_194_304

  datatype Problem = Unbalanced | TooDeep | TooManyNodes | Unterminated

  // ---- JSON values and their serialisations (sections 2 to 7 of RFC 8259) ----

  datatype Json =
    | Scalar(token: string)
    | Text(content: seq<Unit>)
    | Array(items: seq<Json>)
    | Object(members: seq<Field>)

  datatype Field = Field(key: seq<Unit>, value: Json)

  /** One step of a string: a character as it is, or a backslash and the character it escapes. The
      four digits of a Unicode escape are plain characters after the escaped `u`. */
  datatype Unit = Plain(c: char) | Escape(c: char)

  /** A serialisation: a value together with the whitespace written around each part. */
  datatype Source =
    | ScalarSource(token: string)
    | TextSource(content: seq<Unit>)
    | ArraySource(inner: string, items: Items)
    | ObjectSource(inner: string, members: Members)

  /** Array items; each is surrounded by whitespace and separated by commas. */
  datatype Items = NoItems | Item(before: string, value: Source, after: string, rest: Items)

  datatype Members =
    | NoMembers
    | Member(before: string, key: seq<Unit>, afterKey: string, beforeValue: string, value: Source,
             after: string, rest: Members)

  predicate IsSpace(c: char) {
    c == ' ' || c == '\t' || c == '\r' || c == '\n'
  }

  predicate Whitespace(s: string) {
    forall c | c in s :: IsSpace(c)
  }

  /** Numbers and the literal names contain none of the structural characters. */
  predicate Token(s: string) {
    s != [] && forall c | c in s :: TokenCharacter(c)
  }

  predicate TokenCharacter(c: char) {
    && !IsSpace(c) && c != ':' && c != ',' && c != '"' && c != '\\'
    && c != '[' && c != ']' && c != '{' && c != '}'
  }

  predicate StringContent(content: seq<Unit>) {
    forall u | u in content :: u.Plain? ==> u.c != '"' && u.c != '\\'
  }

  predicate ValidSource(s: Source) {
    match s
    case ScalarSource(token) => Token(token)
    case TextSource(content) => StringContent(content)
    case ArraySource(inner, items) => Whitespace(inner) && ValidItems(items)
    case ObjectSource(inner, members) => Whitespace(inner) && ValidMembers(members)
  }

  predicate ValidItems(items: Items) {
    match items
    case NoItems => true
    case Item(before, value, after, rest) =>
      Whitespace(before) && ValidSource(value) && Whitespace(after) && ValidItems(rest)
  }

  predicate ValidMembers(members: Members) {
    match members
    case NoMembers => true
    case Member(before, key, afterKey, beforeValue, value, after, rest) =>
      && Whitespace(before) && StringContent(key) && Whitespace(afterKey) && Whitespace(beforeValue)
      && ValidSource(value) && Whitespace(after) && ValidMembers(rest)
  }

  /** The value a serialisation stands for. */
  function ValueOf(s: Source): Json {
    match s
    case ScalarSource(token) => Scalar(token)
    case TextSource(content) => Text(content)
    case ArraySource(_, items) => Array(ItemValues(items))
    case ObjectSource(_, members) => Object(MemberValues(members))
  }

  function ItemValues(items: Items): seq<Json> {
    if items.NoItems? then [] else [ValueOf(items.value)] + ItemValues(items.rest)
  }

  function MemberValues(members: Members): seq<Field> {
    if members.NoMembers? then [] else [Field(members.key, ValueOf(members.value))] + MemberValues(members.rest)
  }

  function RenderUnits(content: seq<Unit>): string {
    if content == [] then ""
    else (if content[0].Plain? then [content[0].c] else ['\\', content[0].c]) + RenderUnits(content[1..])
  }

  function RenderText(content: seq<Unit>): string {
    "\"" + RenderUnits(content) + "\""
  }

  function Comma(more: bool): string {
    if more then "," else ""
  }

  function Render(s: Source): string {
    match s
    case ScalarSource(token) => token
    case TextSource(content) => RenderText(content)
    case ArraySource(inner, items) => "[" + (inner + (RenderItems(items) + "]"))
    case ObjectSource(inner, members) => "{" + (inner + (RenderMembers(members) + "}"))
  }

  function RenderItems(items: Items): string {
    match items
    case NoItems => ""
    case Item(before, value, after, rest) =>
      before + (Render(value) + ((after + Comma(rest.Item?)) + RenderItems(rest)))
  }

  function RenderMembers(members: Members): string {
    match members
    case NoMembers => ""
    case Member(before, key, afterKey, beforeValue, value, after, rest) =>
      before + ((RenderText(key) + ((afterKey + ":" + beforeValue) + Render(value)))
                + ((after + Comma(rest.Member?)) + RenderMembers(rest)))
  }

  // ---- The recursive measures ----

  function Max(a: nat, b: nat): nat {
    if a < b then b else a
  }

  /** Container nesting. */
  function Depth(v: Json): nat {
    match v
    case Array(items) => 1 + DepthOfItems(items)
    case Object(members) => 1 + DepthOfMembers(members)
    case _ => 0
  }

  function DepthOfItems(items: seq<Json>): nat {
    if items == [] then 0 else Max(Depth(items[0]), DepthOfItems(items[1..]))
  }

  function DepthOfMembers(members: seq<Field>): nat {
    if members == [] then 0 else Max(Depth(members[0].value), DepthOfMembers(members[1..]))
  }

  /** Containers, strings (keys included) and scalars. */
  function Nodes(v: Json): nat {
    match v
    case Array(items) => 1 + NodesOfItems(items)
    case Object(members) => 1 + NodesOfMembers(members)
    case _ => 1
  }

  function NodesOfItems(items: seq<Json>): nat {
    if items == [] then 0 else Nodes(items[0]) + NodesOfItems(items[1..])
  }

  function NodesOfMembers(members: seq<Field>): nat {
    if members == [] then 0 else 1 + Nodes(members[0].value) + NodesOfMembers(members[1..])
  }

  // ---- The scanner ----

  datatype Scan = Scan(depth: nat, nodes: nat, quoted: bool, escaped: bool, scalar: bool)

  type Scanned = Result<Scan, Problem>

  const START := Scan(0, 0, false, false, false)

  function Counted(s: Scan): Scanned {
    if s.nodes + 1 > MAX_JSON_NODES then Err(TooManyNodes) else Ok(s.(nodes := s.nodes + 1))
  }

  /** One character of the loop. */
  function Advance(s: Scan, c: char): Scanned {
    if s.quoted then
      if s.escaped then Ok(s.(escaped := false))
      else if c == '\\' then Ok(s.(escaped := true))
      else if c == '"' then Ok(s.(quoted := false))
      else Ok(s)
    else if IsSpace(c) || c == ':' || c == ',' then Ok(s.(scalar := false))
    else if c == ']' || c == '}' then
      if s.depth == 0 then Err(Unbalanced) else Ok(s.(depth := s.depth - 1, scalar := false))
    else if c == '[' || c == '{' then
      if s.depth + 1 > MAX_JSON_DEPTH then Err(TooDeep) else Counted(s.(depth := s.depth + 1, scalar := false))
    else if c == '"' then Counted(s.(quoted := true, scalar := false))
    else if s.scalar then Ok(s)
    else Counted(s.(scalar := true))
  }

  function ScanFrom(state: Scanned, text: string): Scanned
    decreases |text|
  {
    if state.Err? || text == [] then state else ScanFrom(Advance(state.value, text[0]), text[1..])
  }

  function Verdict(state: Scanned): Option<Problem> {
    match state
    case Err(problem) => Some(problem)
    case Ok(s) => if s.quoted || s.depth != 0 then Some(Unterminated) else None
  }

  lemma {:induction false} ScanAppend(state: Scanned, a: string, b: string)
    ensures ScanFrom(state, a + b) == ScanFrom(ScanFrom(state, a), b)
    decreases |a|
  {
    if a == [] {
      assert a + b == b;
    } else if state.Ok? {
      assert (a + b)[1..] == a[1..] + b;
      ScanAppend(Advance(state.value, a[0]), a[1..], b);
    }
  }

  /** `_scan_json_structure`: `None` means that the text is accepted. */
  method ScanJsonStructure(text: string) returns (problem: Option<Problem>)
    ensures problem == Verdict(ScanFrom(Ok(START), text))
    ensures forall pieces, rest | Consists(text, pieces, rest) :: Answers(problem, pieces, rest)
  {
    forall pieces, rest | Consists(text, pieces, rest)
      ensures Answers(Verdict(ScanFrom(Ok(START), text)), pieces, rest)
    {
      VerdictMeans(text, pieces, rest);
    }
    var depth: nat, nodes: nat := 0, 0;
    var quoted, escaped, scalar := false, false, false;
    var i := 0;
    while i < |text|
      invariant 0 <= i <= |text|
      invariant ScanFrom(Ok(START), text) == ScanFrom(Ok(Scan(depth, nodes, quoted, escaped, scalar)), text[i..])
    {
      var character := text[i];
      assert text[i..][1..] == text[i + 1..];
      i := i + 1;
      if quoted {
        if escaped {
          escaped := false;
        } else if character == '\\' {
          escaped := true;
        } else if character == '"' {
          quoted := false;
        }
        continue;
      }
      if character in " \t\r\n:," {
        scalar := false;
        continue;
      }
      if character in "]}" {
        if depth == 0 { return Some(Unbalanced); }
        depth := depth - 1;
        scalar := false;
        continue;
      }
      if character in "[{" {
        depth := depth + 1;
        scalar := false;
        if depth > MAX_JSON_DEPTH { return Some(TooDeep); }
      } else if character == '"' {
        quoted := true;
        scalar := false;
      } else if scalar {
        continue;
      } else {
        scalar := true;
      }
      nodes := nodes + 1;
      if nodes > MAX_JSON_NODES { return Some(TooManyNodes); }
    }
    if quoted || depth != 0 { return Some(Unterminated); }
    problem := None;
  }

  // ---- The loop refines the measures ----

  /** From nesting `d` and count `n`, a part of this depth and size is accepted exactly when both
      limits allow it; the scanner is then outside any string, at the same nesting. */
  predicate Accounts(result: Scanned, d: nat, n: nat, depth: nat, nodes: nat) {
    if d + depth <= MAX_JSON_DEPTH && n + nodes <= MAX_JSON_NODES then
      result.Ok? && result.value.(scalar := false) == Scan(d, n + nodes, false, false, false)
    else result.Err?
  }

  /** Between values: outside any string and not in a scalar. */
  function Ready(d: nat, n: nat): Scan {
    Scan(d, n, false, false, false)
  }

  lemma {:induction false} ScanSpace(s: Scan, w: string)
    requires Whitespace(w) && !s.quoted
    ensures ScanFrom(Ok(s), w) == Ok(if w == [] then s else s.(scalar := false))
    decreases |w|
  {
    if w == [] {
    } else {
      ScanSpace(s.(scalar := false), w[1..]);
    }
  }

  lemma {:induction false} ScanTokenRest(s: Scan, token: string)
    requires !s.quoted && s.scalar && (forall c | c in token :: TokenCharacter(c))
    ensures ScanFrom(Ok(s), token) == Ok(s)
    decreases |token|
  {
    if token == [] {
    } else {
      assert token[0] in token;
      ScanTokenRest(s, token[1..]);
    }
  }

  lemma {:induction false} ScanUnits(s: Scan, content: seq<Unit>)
    requires s.quoted && !s.escaped && StringContent(content)
    ensures ScanFrom(Ok(s), RenderUnits(content)) == Ok(s)
    decreases |content|
  {
    if content != [] {
      var u := content[0];
      var first := if u.Plain? then [u.c] else ['\\', u.c];
      ScanAppend(Ok(s), first, RenderUnits(content[1..]));
      if u.Escape? {
        assert first[1..] == [u.c];
      }
      ScanUnits(s, content[1..]);
    }
  }

  lemma ScanText(d: nat, n: nat, content: seq<Unit>)
    requires StringContent(content) && d <= MAX_JSON_DEPTH
    ensures Accounts(ScanFrom(Ok(Ready(d, n)), RenderText(content)), d, n, 0, 1)
  {
    var inside := Advance(Ready(d, n), '"');
    assert RenderText(content)[1..] == RenderUnits(content) + "\"";
    if inside.Ok? {
      ScanAppend(inside, RenderUnits(content), "\"");
      ScanUnits(inside.value, content);
    }
  }

  /** Whitespace after a value, and the comma when another value follows. */
  lemma ScanSeparator(d: nat, n: nat, scalar: bool, after: string, more: bool)
    requires Whitespace(after)
    ensures var end := ScanFrom(Ok(Ready(d, n).(scalar := scalar)), after + Comma(more));
            end.Ok? && end.value.(scalar := false) == Ready(d, n) && (more ==> end.value == Ready(d, n))
  {
    ScanAppend(Ok(Ready(d, n).(scalar := scalar)), after, Comma(more));
    ScanSpace(Ready(d, n).(scalar := scalar), after);
  }

  lemma ScanColon(d: nat, n: nat, scalar: bool, afterKey: string, beforeValue: string)
    requires Whitespace(afterKey) && Whitespace(beforeValue)
    ensures ScanFrom(Ok(Ready(d, n).(scalar := scalar)), afterKey + ":" + beforeValue) == Ok(Ready(d, n))
  {
    var s := Ready(d, n).(scalar := scalar);
    ScanAppend(Ok(s), afterKey + ":", beforeValue);
    ScanAppend(Ok(s), afterKey, ":");
    ScanSpace(s, afterKey);
    ScanSpace(Ready(d, n), beforeValue);
  }

  /** Whitespace before a value changes nothing. */
  lemma SkipSpace(d: nat, n: nat, space: string, rest: string)
    requires Whitespace(space)
    ensures ScanFrom(Ok(Ready(d, n)), space + rest) == ScanFrom(Ok(Ready(d, n)), rest)
  {
    ScanAppend(Ok(Ready(d, n)), space, rest);
    ScanSpace(Ready(d, n), space);
  }

  /** What follows one element: its separator and the rest of the elements. */
  lemma ScanRest(
    d: nat, n: nat, middle: Scanned, after: string, more: bool, tail: string,
    depth: nat, nodes: nat, restDepth: nat, restNodes: nat)
    requires Whitespace(after) && Accounts(middle, d, n, depth, nodes)
    requires n + nodes <= MAX_JSON_NODES ==>
      Accounts(ScanFrom(Ok(Ready(d, n + nodes)), tail), d, n + nodes, restDepth, restNodes)
    requires !more ==> tail == "" && restDepth == 0 && restNodes == 0
    ensures Accounts(ScanFrom(middle, (after + Comma(more)) + tail), d, n, Max(depth, restDepth), nodes + restNodes)
  {
    if middle.Ok? {
      ScanAppend(middle, after + Comma(more), tail);
      ScanSeparator(d, n + nodes, middle.value.scalar, after, more);
    }
  }

  /** One element of a container, followed by the rest of its elements. */
  lemma ScanElement(
    d: nat, n: nat, before: string, body: string, after: string, more: bool, tail: string,
    depth: nat, nodes: nat, restDepth: nat, restNodes: nat)
    requires Whitespace(before) && Whitespace(after) && d <= MAX_JSON_DEPTH && n <= MAX_JSON_NODES
    requires Accounts(ScanFrom(Ok(Ready(d, n)), body), d, n, depth, nodes)
    requires n + nodes <= MAX_JSON_NODES ==>
      Accounts(ScanFrom(Ok(Ready(d, n + nodes)), tail), d, n + nodes, restDepth, restNodes)
    requires !more ==> tail == "" && restDepth == 0 && restNodes == 0
    ensures Accounts(ScanFrom(Ok(Ready(d, n)), before + (body + ((after + Comma(more)) + tail))),
                     d, n, Max(depth, restDepth), nodes + restNodes)
  {
    var state: Scanned := Ok(Ready(d, n));
    var rest := (after + Comma(more)) + tail;
    SkipSpace(d, n, before, body + rest);
    ScanAppend(state, body, rest);
    ScanRest(d, n, ScanFrom(state, body), after, more, tail, depth, nodes, restDepth, restNodes);
  }

  /** An object key, its colon and its value count as one string and one value. */
  lemma ScanPair(
    d: nat, n: nat, key: seq<Unit>, afterKey: string, beforeValue: string, value: string, depth: nat, nodes: nat)
    requires StringContent(key) && Whitespace(afterKey) && Whitespace(beforeValue)
    requires d <= MAX_JSON_DEPTH && n <= MAX_JSON_NODES
    requires n < MAX_JSON_NODES ==> Accounts(ScanFrom(Ok(Ready(d, n + 1)), value), d, n + 1, depth, nodes)
    ensures Accounts(ScanFrom(Ok(Ready(d, n)), RenderText(key) + ((afterKey + ":" + beforeValue) + value)),
                     d, n, depth, 1 + nodes)
  {
    var colon := afterKey + ":" + beforeValue;
    var state: Scanned := Ok(Ready(d, n));
    ScanAppend(state, RenderText(key), colon + value);
    ScanText(d, n, key);
    var named := ScanFrom(state, RenderText(key));
    if named.Ok? {
      ScanAppend(named, colon, value);
      ScanColon(d, n + 1, named.value.scalar, afterKey, beforeValue);
    }
  }

  /** A container: its bracket counts and nests, then its inside and its closing bracket are scanned. */
  lemma ScanContainer(
    d: nat, n: nat, bracket: char, inner: string, inside: string, closing: char, depth: nat, nodes: nat)
    requires (bracket == '[' && closing == ']') || (bracket == '{' && closing == '}')
    requires Whitespace(inner) && d <= MAX_JSON_DEPTH && n <= MAX_JSON_NODES
    requires d < MAX_JSON_DEPTH && n < MAX_JSON_NODES ==>
      Accounts(ScanFrom(Ok(Ready(d + 1, n + 1)), inside), d + 1, n + 1, depth, nodes)
    ensures Accounts(ScanFrom(Ok(Ready(d, n)), [bracket] + (inner + (inside + [closing]))),
                     d, n, 1 + depth, 1 + nodes)
  {
    var text := [bracket] + (inner + (inside + [closing]));
    assert text[1..] == inner + (inside + [closing]);
    var first := Advance(Ready(d, n), bracket);
    if first.Ok? {
      ScanAppend(first, inner, inside + [closing]);
      ScanSpace(first.value, inner);
      ScanAppend(first, inside, [closing]);
    }
  }

  lemma ScanToken(d: nat, n: nat, token: string)
    requires Token(token) && d <= MAX_JSON_DEPTH && n <= MAX_JSON_NODES
    ensures Accounts(ScanFrom(Ok(Ready(d, n)), token), d, n, 0, 1)
  {
    assert token[0] in token;
    var first := Advance(Ready(d, n), token[0]);
    if first.Ok? { ScanTokenRest(first.value, token[1..]); }
  }

  /** The loop accounts for every serialisation of a value exactly as the measures do. */
  lemma {:induction false} ScanSource(d: nat, n: nat, s: Source)
    requires ValidSource(s) && d <= MAX_JSON_DEPTH && n <= MAX_JSON_NODES
    ensures Accounts(ScanFrom(Ok(Ready(d, n)), Render(s)), d, n, Depth(ValueOf(s)), Nodes(ValueOf(s)))
    decreases s
  {
    match s {
      case ScalarSource(token) =>
        ScanToken(d, n, token);
      case TextSource(content) =>
        ScanText(d, n, content);
      case ArraySource(inner, items) =>
        var values := ItemValues(items);
        if d < MAX_JSON_DEPTH && n < MAX_JSON_NODES { ScanItems(d + 1, n + 1, items); }
        ScanContainer(d, n, '[', inner, RenderItems(items), ']', DepthOfItems(values), NodesOfItems(values));
      case ObjectSource(inner, members) =>
        var values := MemberValues(members);
        if d < MAX_JSON_DEPTH && n < MAX_JSON_NODES { ScanMembers(d + 1, n + 1, members); }
        ScanContainer(d, n, '{', inner, RenderMembers(members), '}', DepthOfMembers(values), NodesOfMembers(values));
    }
  }

  lemma {:induction false} ScanItems(d: nat, n: nat, items: Items)
    requires ValidItems(items) && d <= MAX_JSON_DEPTH && n <= MAX_JSON_NODES
    ensures Accounts(ScanFrom(Ok(Ready(d, n)), RenderItems(items)), d, n,
                     DepthOfItems(ItemValues(items)), NodesOfItems(ItemValues(items)))
    decreases items
  {
    match items {
      case NoItems =>
      case Item(before, value, after, rest) =>
        var v, others := ValueOf(value), ItemValues(rest);
        ScanSource(d, n, value);
        if n + Nodes(v) <= MAX_JSON_NODES { ScanItems(d, n + Nodes(v), rest); }
        ScanElement(d, n, before, Render(value), after, rest.Item?, RenderItems(rest),
                    Depth(v), Nodes(v), DepthOfItems(others), NodesOfItems(others));
        assert ItemValues(items) == [v] + others && ([v] + others)[1..] == others;
    }
  }

  lemma {:induction false} ScanMembers(d: nat, n: nat, members: Members)
    requires ValidMembers(members) && d <= MAX_JSON_DEPTH && n <= MAX_JSON_NODES
    ensures Accounts(ScanFrom(Ok(Ready(d, n)), RenderMembers(members)), d, n,
                     DepthOfMembers(MemberValues(members)), NodesOfMembers(MemberValues(members)))
    decreases members
  {
    match members {
      case NoMembers =>
      case Member(before, key, afterKey, beforeValue, value, after, rest) =>
        var v, others := ValueOf(value), MemberValues(rest);
        if n < MAX_JSON_NODES { ScanSource(d, n + 1, value); }
        ScanPair(d, n, key, afterKey, beforeValue, Render(value), Depth(v), Nodes(v));
        if n + 1 + Nodes(v) <= MAX_JSON_NODES { ScanMembers(d, n + (1 + Nodes(v)), rest); }
        ScanElement(d, n, before, RenderText(key) + ((afterKey + ":" + beforeValue) + Render(value)), after,
                    rest.Member?, RenderMembers(rest), Depth(v), 1 + Nodes(v), DepthOfMembers(others), NodesOfMembers(others));
        assert MemberValues(members) == [Field(key, v)] + others && ([Field(key, v)] + others)[1..] == others;
    }
  }

  /** For every value and every serialisation of it, whatever the whitespace and string escapes, the
      scanner accepts exactly when the nesting is at most 64 and the node count within its limit. */
  lemma ScannerRefinesMeasures(s: Source, leading: string, trailing: string)
    requires ValidSource(s) && Whitespace(leading) && Whitespace(trailing)
    ensures Verdict(ScanFrom(Ok(START), leading + (Render(s) + trailing))) == None
      <==> Depth(ValueOf(s)) <= MAX_JSON_DEPTH && Nodes(ValueOf(s)) <= MAX_JSON_NODES
  {
    ScanAppend(Ok(START), leading, Render(s) + trailing);
    ScanSpace(START, leading);
    ScanAppend(Ok(START), Render(s), trailing);
    ScanSource(0, 0, s);
    var end := ScanFrom(Ok(START), Render(s));
    if end.Ok? { ScanSpace(end.value, trailing); }
  }

  // ---- What the loop says of any text ----

  /** The pieces of any text, whether or not it is JSON: a run is a longest stretch of other characters. */
  datatype Lexeme = Gap(c: char) | Open(c: char) | Close(c: char) | Quoted(content: seq<Unit>) | Run(chars: string)

  predicate RunCharacter(c: char) {
    !IsSpace(c) && c != ':' && c != ',' && c != '"' && c != '[' && c != ']' && c != '{' && c != '}'
  }

  predicate ValidLexeme(x: Lexeme) {
    match x
    case Gap(c) => IsSpace(c) || c == ':' || c == ','
    case Open(c) => c == '[' || c == '{'
    case Close(c) => c == ']' || c == '}'
    case Quoted(content) => StringContent(content)
    case Run(chars) => chars != "" && forall c | c in chars :: RunCharacter(c)
  }

  /** Valid pieces, no two runs side by side. */
  predicate ValidLexemes(pieces: seq<Lexeme>) {
    && (forall x | x in pieces :: ValidLexeme(x))
    && (forall i | 0 < i < |pieces| :: !(pieces[i - 1].Run? && pieces[i].Run?))
  }

  function Spell(x: Lexeme): string {
    match x
    case Gap(c) => [c]
    case Open(c) => [c]
    case Close(c) => [c]
    case Quoted(content) => RenderText(content)
    case Run(chars) => chars
  }

  function SpellAll(pieces: seq<Lexeme>): string {
    if pieces == [] then "" else SpellAll(pieces[..|pieces| - 1]) + Spell(pieces[|pieces| - 1])
  }

  /** A string that the text does not close; its last character may be a backslash that escapes nothing. */
  datatype Unclosed = Closed | Unclosed(content: seq<Unit>, dangling: bool)

  function SpellOpen(rest: Unclosed): string {
    if rest.Closed? then "" else "\"" + (RenderUnits(rest.content) + if rest.dangling then "\\" else "")
  }

  /** The text consists of these pieces and this unclosed string. */
  predicate Consists(text: string, pieces: seq<Lexeme>, rest: Unclosed) {
    && ValidLexemes(pieces) && (rest.Unclosed? ==> StringContent(rest.content))
    && text == SpellAll(pieces) + SpellOpen(rest)
  }

  /** Opening brackets less closing ones. */
  function Nesting(pieces: seq<Lexeme>): int {
    if pieces == [] then 0
    else
      var last := pieces[|pieces| - 1];
      Nesting(pieces[..|pieces| - 1]) + if last.Open? then 1 else if last.Close? then -1 else 0
  }

  /** Opening brackets, strings and runs. */
  function Count(pieces: seq<Lexeme>): nat {
    if pieces == [] then 0
    else
      var last := pieces[|pieces| - 1];
      Count(pieces[..|pieces| - 1]) + if last.Open? || last.Quoted? || last.Run? then 1 else 0
  }

  predicate InLimits(pieces: seq<Lexeme>) {
    0 <= Nesting(pieces) <= MAX_JSON_DEPTH && Count(pieces) <= MAX_JSON_NODES
  }

  /** Every beginning keeps the limits. */
  predicate Within(pieces: seq<Lexeme>) {
    forall k | 0 <= k <= |pieces| :: InLimits(pieces[..k])
  }

  /** All pieces, an unclosed string counting as a string. */
  function Whole(pieces: seq<Lexeme>, rest: Unclosed): seq<Lexeme> {
    if rest.Closed? then pieces else pieces + [Quoted(rest.content)]
  }

  /** What is wrong with the first beginning that leaves the limits. */
  function Fault(pieces: seq<Lexeme>): Problem {
    if Nesting(pieces) < 0 then Unbalanced else if Nesting(pieces) > MAX_JSON_DEPTH then TooDeep else TooManyNodes
  }

  /** The answer: the first beginning outside the limits decides; a text within them is accepted exactly when
      all strings and containers are closed. */
  ghost predicate Answers(problem: Option<Problem>, pieces: seq<Lexeme>, rest: Unclosed) {
    var whole := Whole(pieces, rest);
    && (problem.None? <==> Within(whole) && rest.Closed? && Nesting(whole) == 0)
    && (Within(whole) && problem.Some? ==> problem == Some(Unterminated))
    && (forall k | 0 <= k < |whole| && Within(whole[..k]) && !InLimits(whole[..k + 1]) ::
          problem == Some(if Nesting(whole[..k + 1]) < 0 then Unbalanced
                          else if Nesting(whole[..k + 1]) > MAX_JSON_DEPTH then TooDeep
                          else TooManyNodes))
  }

  /** The fault of the first beginning outside the limits, looked for piece by piece. */
  function Judge(pieces: seq<Lexeme>): Option<Problem> {
    if pieces == [] then None
    else
      var before := Judge(pieces[..|pieces| - 1]);
      if before.Some? then before else if InLimits(pieces) then None else Some(Fault(pieces))
  }

  lemma {:induction false} JudgePrefix(pieces: seq<Lexeme>, k: nat)
    requires k <= |pieces| && Judge(pieces[..k]).Some?
    ensures Judge(pieces) == Judge(pieces[..k])
    decreases |pieces|
  {
    if k == |pieces| {
      assert pieces[..k] == pieces;
    } else {
      var front := pieces[..|pieces| - 1];
      assert front[..k] == pieces[..k];
      JudgePrefix(front, k);
    }
  }

  lemma {:induction false} JudgeNone(pieces: seq<Lexeme>)
    ensures Judge(pieces).None? <==> Within(pieces)
    decreases |pieces|
  {
    if pieces == [] {
      assert InLimits([]);
    } else {
      var front := pieces[..|pieces| - 1];
      JudgeNone(front);
      assert forall k | 0 <= k <= |front| :: front[..k] == pieces[..k];
      assert pieces[..|pieces|] == pieces;
    }
  }

  lemma JudgeFirst(pieces: seq<Lexeme>, k: nat)
    requires k < |pieces| && Within(pieces[..k]) && !InLimits(pieces[..k + 1])
    ensures Judge(pieces) == Some(Fault(pieces[..k + 1]))
  {
    var beginning := pieces[..k + 1];
    assert beginning[..k] == pieces[..k];
    JudgeNone(pieces[..k]);
    JudgePrefix(pieces, k + 1);
  }

  /** The scanner's state after pieces within the limits. */
  function After(pieces: seq<Lexeme>): Scan
    requires InLimits(pieces)
  {
    Scan(Nesting(pieces), Count(pieces), false, false, pieces != [] && pieces[|pieces| - 1].Run?)
  }

  lemma {:induction false} ScanRunRest(s: Scan, chars: string)
    requires !s.quoted && s.scalar && (forall c | c in chars :: RunCharacter(c))
    ensures ScanFrom(Ok(s), chars) == Ok(s)
    decreases |chars|
  {
    if chars == [] {
    } else {
      assert chars[0] in chars;
      ScanRunRest(s, chars[1..]);
    }
  }

  /** One piece: a bracket moves the nesting, a node counts, and nothing else changes. */
  lemma ScanPiece(d: nat, n: nat, scalar: bool, x: Lexeme)
    requires ValidLexeme(x) && !(scalar && x.Run?) && d <= MAX_JSON_DEPTH && n <= MAX_JSON_NODES
    ensures var end := ScanFrom(Ok(Scan(d, n, false, false, scalar)), Spell(x));
      var deep := d + if x.Open? then 1 else if x.Close? then -1 else 0;
      var count := n + if x.Open? || x.Quoted? || x.Run? then 1 else 0;
      end == if deep < 0 then Err(Unbalanced)
             else if deep > MAX_JSON_DEPTH then Err(TooDeep)
             else if count > MAX_JSON_NODES then Err(TooManyNodes)
             else Ok(Scan(deep, count, false, false, x.Run?))
  {
    var s := Scan(d, n, false, false, scalar);
    match x {
      case Gap(c) =>
        assert Spell(x)[1..] == "";
      case Open(c) =>
        assert Spell(x)[1..] == "";
      case Close(c) =>
        assert Spell(x)[1..] == "";
      case Quoted(content) =>
        ScanQuoted(s, content);
      case Run(chars) =>
        assert chars[0] in chars;
        var first := Advance(s, chars[0]);
        if first.Ok? { ScanRunRest(first.value, chars[1..]); }
    }
  }

  lemma ScanQuoted(s: Scan, content: seq<Unit>)
    requires !s.quoted && !s.escaped && StringContent(content)
    ensures ScanFrom(Ok(s), RenderText(content)) == Counted(s.(scalar := false))
  {
    var inside := Advance(s, '"');
    assert RenderText(content)[1..] == RenderUnits(content) + "\"";
    if inside.Ok? {
      ScanAppend(inside, RenderUnits(content), "\"");
      ScanUnits(inside.value, content);
    }
  }

  /** The scanner after any pieces: their state within the limits, and otherwise the fault of the first
      beginning outside them. */
  lemma {:induction false} ScanPieces(pieces: seq<Lexeme>)
    requires ValidLexemes(pieces)
    ensures var end := ScanFrom(Ok(START), SpellAll(pieces));
      if Judge(pieces).None? then InLimits(pieces) && end == Ok(After(pieces)) else end == Err(Judge(pieces).value)
  {
    if pieces == [] {
    } else {
      var front, last := pieces[..|pieces| - 1], pieces[|pieces| - 1];
      ValidFront(pieces);
      ScanPieces(front);
      ScanAppend(Ok(START), SpellAll(front), Spell(last));
      if Judge(front).None? { ScanNext(pieces, front, last); }
    }
  }

  /** One piece after pieces within the limits. */
  lemma ScanNext(pieces: seq<Lexeme>, front: seq<Lexeme>, last: Lexeme)
    requires pieces != [] && front == pieces[..|pieces| - 1] && last == pieces[|pieces| - 1]
    requires InLimits(front) && ValidLexeme(last) && !(front != [] && front[|front| - 1].Run? && last.Run?)
    ensures ScanFrom(Ok(After(front)), Spell(last))
      == if InLimits(pieces) then Ok(After(pieces)) else Err(Fault(pieces))
  {
    ScanPiece(Nesting(front), Count(front), After(front).scalar, last);
  }

  lemma ValidFront(pieces: seq<Lexeme>)
    requires ValidLexemes(pieces) && pieces != []
    ensures var n := |pieces| - 1;
      && ValidLexemes(pieces[..n]) && ValidLexeme(pieces[n])
      && (n > 0 && pieces[n].Run? ==> !pieces[n - 1].Run?)
  {
    assert forall x | x in pieces[..|pieces| - 1] :: x in pieces;
  }

  /** An unclosed string leaves the scanner inside it, counted like any string. */
  lemma ScanOpen(s: Scan, rest: Unclosed)
    requires rest.Unclosed? && StringContent(rest.content) && !s.quoted && !s.escaped
    ensures ScanFrom(Ok(s), SpellOpen(rest)) ==
      var inside := Counted(s.(scalar := false));
      if inside.Err? then inside else Ok(inside.value.(quoted := true, escaped := rest.dangling))
  {
    var inside := Advance(s, '"');
    var mark := if rest.dangling then "\\" else "";
    assert SpellOpen(rest)[1..] == RenderUnits(rest.content) + mark;
    if inside.Ok? {
      ScanAppend(inside, RenderUnits(rest.content), mark);
      ScanUnits(inside.value, rest.content);
    }
  }

  /** The scanner at the end of a text: the fault of its pieces, or else their state, inside a string when one
      is left open. */
  lemma ScanWhole(pieces: seq<Lexeme>, rest: Unclosed)
    requires ValidLexemes(pieces) && (rest.Unclosed? ==> StringContent(rest.content))
    ensures var end := ScanFrom(Ok(START), SpellAll(pieces) + SpellOpen(rest));
      var whole := Whole(pieces, rest);
      if Judge(whole).Some? then end == Err(Judge(whole).value)
      else end.Ok? && end.value.depth == Nesting(whole) && end.value.quoted == rest.Unclosed?
  {
    ScanPieces(pieces);
    ScanAppend(Ok(START), SpellAll(pieces), SpellOpen(rest));
    ScanEnd(pieces, rest, ScanFrom(Ok(START), SpellAll(pieces)));
  }

  /** From the scanner's state after the pieces to its state at the end of the text. */
  lemma ScanEnd(pieces: seq<Lexeme>, rest: Unclosed, state: Scanned)
    requires rest.Unclosed? ==> StringContent(rest.content)
    requires Judge(pieces).None? ==> InLimits(pieces)
    requires state == if Judge(pieces).None? then Ok(After(pieces)) else Err(Judge(pieces).value)
    ensures var end := ScanFrom(state, SpellOpen(rest));
      var whole := Whole(pieces, rest);
      if Judge(whole).Some? then end == Err(Judge(whole).value)
      else end.Ok? && end.value.depth == Nesting(whole) && end.value.quoted == rest.Unclosed?
  {
    if rest.Unclosed? {
      JudgeString(pieces, rest.content);
      if Judge(pieces).None? { ScanOpen(After(pieces), rest); }
    }
  }

  lemma JudgeString(pieces: seq<Lexeme>, content: seq<Unit>)
    ensures var whole := pieces + [Quoted(content)];
      && Nesting(whole) == Nesting(pieces) && Count(whole) == Count(pieces) + 1
      && Judge(whole) == if Judge(pieces).Some? then Judge(pieces) else if InLimits(whole) then None else Some(Fault(whole))
  {
    assert (pieces + [Quoted(content)])[..|pieces|] == pieces;
  }

  /** Whatever a text consists of, the scanner's answer is the answer on its pieces. */
  lemma VerdictMeans(text: string, pieces: seq<Lexeme>, rest: Unclosed)
    requires Consists(text, pieces, rest)
    ensures Answers(Verdict(ScanFrom(Ok(START), text)), pieces, rest)
  {
    var whole := Whole(pieces, rest);
    ScanWhole(pieces, rest);
    JudgeNone(whole);
    forall k | 0 <= k < |whole| && Within(whole[..k]) && !InLimits(whole[..k + 1])
      ensures Judge(whole) == Some(Fault(whole[..k + 1]))
    {
      JudgeFirst(whole, k);
    }
  }

  // ---- Every text has its pieces ----

  lemma {:induction false} RenderAppend(content: seq<Unit>, u: Unit)
    ensures RenderUnits(content + [u]) == RenderUnits(content) + if u.Plain? then [u.c] else ['\\', u.c]
  {
    if content == [] {
      assert content + [u] == [u] && [u][1..] == [];
    } else {
      assert (content + [u])[1..] == content[1..] + [u];
      RenderAppend(content[1..], u);
    }
  }

  /** A further piece, which is no second run. */
  lemma AddPiece(pieces: seq<Lexeme>, x: Lexeme)
    requires ValidLexemes(pieces) && ValidLexeme(x) && !(pieces != [] && pieces[|pieces| - 1].Run? && x.Run?)
    ensures ValidLexemes(pieces + [x]) && SpellAll(pieces + [x]) == SpellAll(pieces) + Spell(x)
  {
    assert (pieces + [x])[..|pieces|] == pieces;
  }

  /** The unclosed string with one character more, unless that is the closing quote. */
  function Longer(rest: Unclosed, c: char): Unclosed
    requires rest.Unclosed?
  {
    if rest.dangling then Unclosed(rest.content + [Escape(c)], false)
    else if c == '\\' then Unclosed(rest.content, true)
    else Unclosed(rest.content + [Plain(c)], false)
  }

  lemma SpellLonger(rest: Unclosed, c: char)
    requires rest.Unclosed? && StringContent(rest.content) && (rest.dangling || c != '"')
    ensures SpellOpen(Longer(rest, c)) == SpellOpen(rest) + [c] && StringContent(Longer(rest, c).content)
  {
    RenderAppend(rest.content, if rest.dangling then Escape(c) else Plain(c));
    assert ['\\', c] == "\\" + [c];
    var units := RenderUnits(rest.content);
    assert "\"" + (units + "\\") + [c] == "\"" + (units + ("\\" + [c]) + "");
    assert "\"" + (units + "") + [c] == "\"" + (units + [c] + "");
  }

  /** The closing quote makes the unclosed string a piece. */
  lemma CloseString(text: string, pieces: seq<Lexeme>, content: seq<Unit>)
    requires Consists(text, pieces, Unclosed(content, false))
    ensures Consists(text + "\"", pieces + [Quoted(content)], Closed)
  {
    AddPiece(pieces, Quoted(content));
    QuoteUnits(SpellAll(pieces), RenderUnits(content));
  }

  lemma QuoteUnits(before: string, units: string)
    ensures before + ("\"" + (units + "")) + "\"" == before + ("\"" + units + "\"") + ""
  {
    assert units + "" == units;
    assert before + ("\"" + units) + "\"" == before + (("\"" + units) + "\"");
  }

  /** Any other character makes it longer. */
  lemma ExtendString(text: string, pieces: seq<Lexeme>, rest: Unclosed, c: char)
    requires Consists(text, pieces, rest) && rest.Unclosed? && (rest.dangling || c != '"')
    ensures Consists(text + [c], pieces, Longer(rest, c))
  {
    SpellLonger(rest, c);
    OneMore(SpellAll(pieces), SpellOpen(rest), c);
  }

  lemma OneMore(a: string, b: string, c: char)
    ensures a + b + [c] == a + (b + [c])
  {
  }

  /** One character more of an unclosed string. */
  lemma StringStep(text: string, pieces: seq<Lexeme>, rest: Unclosed, c: char)
      returns (more: seq<Lexeme>, open: Unclosed)
    requires Consists(text, pieces, rest) && rest.Unclosed?
    ensures Consists(text + [c], more, open)
  {
    if !rest.dangling && c == '"' {
      more, open := pieces + [Quoted(rest.content)], Closed;
      assert rest == Unclosed(rest.content, false);
      CloseString(text, pieces, rest.content);
    } else {
      more, open := pieces, Longer(rest, c);
      ExtendString(text, pieces, rest, c);
    }
  }

  /** One character more outside any string. */
  lemma PlainStep(text: string, pieces: seq<Lexeme>, c: char) returns (more: seq<Lexeme>, open: Unclosed)
    requires Consists(text, pieces, Closed)
    ensures Consists(text + [c], more, open)
  {
    assert text == SpellAll(pieces);
    if c == '"' {
      more, open := pieces, Unclosed([], false);
      assert SpellOpen(open) == [c];
    } else {
      open := Closed;
      if RunCharacter(c) && pieces != [] && pieces[|pieces| - 1].Run? {
        more := GrowRun(pieces, c);
      } else {
        var x := if RunCharacter(c) then Run([c]) else if c == '[' || c == '{' then Open(c)
                 else if c == ']' || c == '}' then Close(c) else Gap(c);
        more := pieces + [x];
        AddPiece(pieces, x);
      }
      assert SpellAll(more) == text + [c] && SpellAll(more) + "" == SpellAll(more);
    }
  }

  lemma GrowRun(pieces: seq<Lexeme>, c: char) returns (more: seq<Lexeme>)
    requires ValidLexemes(pieces) && RunCharacter(c) && pieces != [] && pieces[|pieces| - 1].Run?
    ensures ValidLexemes(more) && SpellAll(more) == SpellAll(pieces) + [c]
  {
    var front, last := pieces[..|pieces| - 1], pieces[|pieces| - 1];
    ValidFront(pieces);
    more := front + [Run(last.chars + [c])];
    AddPiece(front, Run(last.chars + [c]));
    OneMore(SpellAll(front), last.chars, c);
  }

  /** Every text consists of some pieces, so the scanner's answer to it is known. */
  lemma {:induction false} SomePieces(text: string) returns (pieces: seq<Lexeme>, rest: Unclosed)
    ensures Consists(text, pieces, rest)
  {
    pieces, rest := [], Closed;
    if text != "" {
      var n := |text| - 1;
      pieces, rest := SomePieces(text[..n]);
      assert text == text[..n] + [text[n]];
      if rest.Unclosed? {
        pieces, rest := StringStep(text[..n], pieces, rest, text[n]);
      } else {
        pieces, rest := PlainStep(text[..n], pieces, text[n]);
      }
    }
  }
}
