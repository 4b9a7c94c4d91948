/** The printed example calls, read back: every line says what the nesting of the properties asks for. */
module ApiBodies {
  import opened Wrappers
  import opened Text
  import opened ApiMethod
  import opened ApiTree
  import opened ApiReparse
  import opened ApiExamples
  import opened ApiReading
  import opened ApiDocumented

  // What a reader is to see, said of the nesting alone.

  /** What stands behind an entry: the remarks, then whether it must be given, then what it is for. */
  function Remarks(p: Property, notes: seq<string>): string {
    var said := if p.description.Some? && p.description.value != "" then [p.description.value] else [];
    Join(if p.optional then notes + said else notes + ["required"] + said, ", ")
  }

  function ShownExample(p: Property): string {
    if p.exampleValue.None? || p.exampleValue.value == "" then "" else ": " + p.exampleValue.value
  }

  /** An object opens at its indent, shows its content one level further in, and closes where it opened. */
  function NodeShapes(n: Node, indent: nat, notes: Property -> seq<string>): seq<Shape> {
    var p := n.property;
    if p.typeName != "Object" then [Leaf(indent, p.name, ShownExample(p), Remarks(p, notes(p)))]
    else
      [Opens(indent, p.name, ShownExample(p), Remarks(p, notes(p)))]
      + TreeShapes(n.children, indent + 1, notes) + [Closes(indent)]
  }

  function TreeShapes(forest: seq<Node>, indent: nat, notes: Property -> seq<string>): seq<Shape> {
    if forest == [] then [] else NodeShapes(forest[0], indent, notes) + TreeShapes(forest[1..], indent, notes)
  }

  lemma {:induction false} TreeShapesNest(forest: seq<Node>, indent: nat, outer: nat, notes: Property -> seq<string>,
                                          rest: seq<Shape>)
    requires outer <= indent
    ensures Nests(TreeShapes(forest, indent, notes) + rest, indent, outer) == Nests(rest, indent, outer)
  {
    hide Remarks, ShownExample, NodeShapes;
    var shapes := TreeShapes(forest, indent, notes);
    if forest == [] {
      assert shapes + rest == rest;
    } else {
      var more := TreeShapes(forest[1..], indent, notes) + rest;
      ConcatAssociates(NodeShapes(forest[0], indent, notes), TreeShapes(forest[1..], indent, notes), rest);
      NodeShapesNest(forest[0], indent, outer, notes, more);
      TreeShapesNest(forest[1..], indent, outer, notes, rest);
    }
  }

  lemma {:induction false} NodeShapesNest(n: Node, indent: nat, outer: nat, notes: Property -> seq<string>,
                                          rest: seq<Shape>)
    requires outer <= indent
    ensures Nests(NodeShapes(n, indent, notes) + rest, indent, outer) == Nests(rest, indent, outer)
  {
    hide Remarks, ShownExample, TreeShapes;
    var shapes := NodeShapes(n, indent, notes) + rest;
    if n.property.typeName == "Object" {
      var content, closed := TreeShapes(n.children, indent + 1, notes), [Closes(indent)] + rest;
      assert shapes[1..] == content + closed;
      TreeShapesNest(n.children, indent + 1, outer, notes, closed);
      assert closed[1..] == rest;
    } else {
      assert shapes[1..] == rest;
    }
  }

  // What a token is read as.

  /** Content that a line can hold: no line breaks, and no remark inside the example. */
  ghost predicate IsShowable(p: Property) {
    && IsName(p.name) && (p.description.Some? ==> '\n' !in p.description.value)
    && (p.exampleValue.Some? ==>
          '\n' !in p.exampleValue.value && HoldsNoRemark(" " + p.exampleValue.value))
  }

  ghost predicate HoldsNoRemark(s: string) { forall j | 0 <= j :: !OccursAt(s, " // ", j) }

  ghost predicate AreNotes(notes: seq<string>) { forall i | 0 <= i < |notes| :: notes[i] != "" && '\n' !in notes[i] }

  ghost predicate ShowableToken(t: Token) { t.Entry? ==> IsShowable(t.property) && AreNotes(t.notes) }

  function ShapeOf(t: Token): Shape {
    match t
    case Entry(p, indent, notes) =>
      if p.typeName == "Object" then Opens(indent, p.name, ShownExample(p), Remarks(p, notes))
      else Leaf(indent, p.name, ShownExample(p), Remarks(p, notes))
    case Close(indent) => Closes(indent)
  }

  function ShapesOf(tokens: seq<Token>): seq<Shape> {
    if tokens == [] then [] else [ShapeOf(tokens[0])] + ShapesOf(tokens[1..])
  }

  function TokenLine(t: Token): string {
    match t
    case Entry(p, indent, notes) =>
      Indentation(indent) + (p.name + ShownExample(p) + Mark(p.typeName == "Object") + Trailing(Remarks(p, notes)))
    case Close(indent) => Indentation(indent) + "},"
  }

  function TokenLines(tokens: seq<Token>): seq<string> {
    if tokens == [] then [] else [TokenLine(tokens[0])] + TokenLines(tokens[1..])
  }

  lemma {:induction false} RepeatIndents(n: nat)
    ensures Repeat(INDENTATION, n) == Indentation(n)
  {
    if n == 0 { } else { RepeatIndents(n - 1); }
  }

  lemma {:induction false} IndentIsSpace(n: nat)
    ensures '\n' !in Indentation(n)
  {
    if n == 0 { } else { IndentIsSpace(n - 1); }
  }

  lemma {:induction false} JoinSays(notes: seq<string>, sep: string)
    requires AreNotes(notes) && '\n' !in sep
    ensures '\n' !in Join(notes, sep) && (Join(notes, sep) == "" <==> notes == [])
  {
    if |notes| <= 1 {
    } else {
      JoinSays(notes[1..], sep);
    }
  }

  /** The comments of a printed line are the remarks. */
  lemma CommentIsRemarks(p: Property, notes: seq<string>)
    requires IsShowable(p) && AreNotes(notes)
    ensures var comments := notes + (if p.optional then [] else ["required"])
                            + (if p.description.Some? && p.description.value != "" then [p.description.value] else []);
            && (if comments == [] then "" else " // " + Join(comments, ", ")) == Trailing(Remarks(p, notes))
            && '\n' !in Remarks(p, notes)
  {
    hide OccursAt, IsNamePart, Join;
    var said := if p.description.Some? && p.description.value != "" then [p.description.value] else [];
    var comments := notes + (if p.optional then [] else ["required"]) + said;
    assert comments == if p.optional then notes + said else notes + ["required"] + said;
    assert AreNotes(comments);
    JoinSays(comments, ", ");
  }

  lemma EntryPrints(p: Property, indent: nat, notes: seq<string>)
    requires IsShowable(p) && AreNotes(notes)
    ensures PropertyText(p, indent, notes) == TokenLine(Entry(p, indent, notes)) + "\n"
    ensures '\n' !in TokenLine(Entry(p, indent, notes))
  {
    hide Join, Remarks, IsShowable, Repeat, AreNotes, Trailing, Indentation;
    CommentIsRemarks(p, notes);
    RepeatIndents(indent);
    Regroup(Indentation(indent), p.name, ShownExample(p), Mark(p.typeName == "Object"), Trailing(Remarks(p, notes)));
    PartsAreOneLine(p, indent, notes);
  }

  lemma Regroup(a: string, b: string, c: string, d: string, e: string)
    ensures a + b + c + d + e == a + (b + c + d + e)
  {}

  lemma PartsAreOneLine(p: Property, indent: nat, notes: seq<string>)
    requires IsShowable(p) && '\n' !in Remarks(p, notes)
    ensures '\n' !in TokenLine(Entry(p, indent, notes))
  {
    hide HoldsNoRemark, Remarks, Indentation;
    IndentIsSpace(indent);
    assert !IsNamePart('\n');
  }

  lemma EntryReads(p: Property, indent: nat, notes: seq<string>)
    requires IsShowable(p) && AreNotes(notes)
    ensures ReadLine(TokenLine(Entry(p, indent, notes))) == ShapeOf(Entry(p, indent, notes))
  {
    hide ReadLine, Remarks, OccursAt, Mark, Trailing, AreNotes, Indentation;
    assert IsEntry(p.name, ShownExample(p)) by { ExampleIsValue(p); }
    EntryLineIsRead(indent, p.name, ShownExample(p), p.typeName == "Object", Remarks(p, notes));
  }

  lemma ExampleIsValue(p: Property)
    requires IsShowable(p)
    ensures IsEntry(p.name, ShownExample(p))
  {
    hide OccursAt;
    var value := ShownExample(p);
    forall j | 0 <= j ensures !OccursAt(value, " // ", j) {
      if value == "" || j == 0 {
        OccursNotHere(value, j);
      } else {
        assert value == ":" + (" " + p.exampleValue.value);
        OccursBehind(":", " " + p.exampleValue.value, j);
      }
    }
    assert value != "" ==> value[0] == ':';
  }

  lemma OccursNotHere(s: string, j: nat)
    requires s == "" || (j == 0 && s[0] == ':')
    ensures !OccursAt(s, " // ", j)
  {
    if s != "" { NotAcross(s, j, 0); }
  }

  lemma TokenReads(t: Token)
    requires ShowableToken(t)
    ensures TokenText(t) == TokenLine(t) + "\n" && '\n' !in TokenLine(t) && ReadLine(TokenLine(t)) == ShapeOf(t)
  {
    hide PropertyText, ReadLine, IsShowable, AreNotes, Remarks, ShownExample, Repeat;
    match t
    case Entry(p, indent, notes) =>
      EntryPrints(p, indent, notes);
      EntryReads(p, indent, notes);
    case Close(indent) =>
      RepeatIndents(indent);
      IndentIsSpace(indent);
      ClosingIsRead(indent);
      assert "},\n" == "}," + "\n";
      ConcatAssociates(Indentation(indent), "},", "\n");
  }

  /** What a list of tokens prints is lines, and every line reads as its token. */
  lemma {:induction false} TokensRead(tokens: seq<Token>)
    requires ShowableTokens(tokens)
    ensures var lines := TokenLines(tokens);
            Render(tokens) == LinesText(lines) && AreLines(lines) && ReadLines(lines) == ShapesOf(tokens)
  {
    hide TokenText, TokenLine, ShapeOf, ReadLine, ShowableToken;
    if tokens == [] {
    } else {
      var lines := TokenLines(tokens);
      TokenReads(tokens[0]);
      TokensRead(tokens[1..]);
      assert lines[1..] == TokenLines(tokens[1..]);
      assert ReadLines(lines) == [ReadLine(lines[0])] + ReadLines(lines[1..]);
    }
  }

  // The tokens of a tree.

  lemma ShapesStep(tokens: seq<Token>, t: Token, rest: seq<Token>)
    requires tokens == [t] + rest
    ensures ShapesOf(tokens) == [ShapeOf(t)] + ShapesOf(rest)
  {
    hide ShapeOf;
    assert tokens[1..] == rest;
  }

  lemma {:induction false} ShapesConcat(a: seq<Token>, b: seq<Token>)
    ensures ShapesOf(a + b) == ShapesOf(a) + ShapesOf(b)
  {
    hide ShapeOf;
    if a == [] {
      assert a + b == b;
    } else {
      ShapesConcat(a[1..], b);
      ShapesStep(a + b, a[0], a[1..] + b);
      ConcatAssociates([ShapeOf(a[0])], ShapesOf(a[1..]), ShapesOf(b));
    }
  }

  /** Every property of the forest and its notes can be shown. */
  ghost predicate AllShowable(properties: seq<Property>, notes: Property -> seq<string>) {
    forall p | p in properties :: IsShowable(p) && AreNotes(notes(p))
  }

  ghost predicate ShowableTokens(tokens: seq<Token>) { forall i | 0 <= i < |tokens| :: ShowableToken(tokens[i]) }

  lemma {:induction false} TreeTokensAreShapes(forest: seq<Node>, depth: nat, base: nat, notes: Property -> seq<string>)
    requires AllShowable(Flatten(forest), notes)
    ensures ShapesOf(TreeTokens(forest, depth, base, notes)) == TreeShapes(forest, depth + base, notes)
    ensures ShowableTokens(TreeTokens(forest, depth, base, notes))
  {
    hide IsShowable, AreNotes, ShapeOf, NodeTokens, NodeShapes;
    if forest == [] {
    } else {
      NodeTokensAreShapes(forest[0], depth, base, notes);
      TreeTokensAreShapes(forest[1..], depth, base, notes);
      ShapesConcat(NodeTokens(forest[0], depth, base, notes), TreeTokens(forest[1..], depth, base, notes));
    }
  }

  lemma {:induction false} NodeTokensAreShapes(n: Node, depth: nat, base: nat, notes: Property -> seq<string>)
    requires AllShowable([n.property] + Flatten(n.children), notes)
    ensures ShapesOf(NodeTokens(n, depth, base, notes)) == NodeShapes(n, depth + base, notes)
    ensures ShowableTokens(NodeTokens(n, depth, base, notes))
  {
    hide IsShowable, AreNotes, Remarks, ShownExample, TreeTokens, TreeShapes;
    var p := n.property;
    var entry := [Entry(p, depth + base, notes(p))];
    assert p in [p] + Flatten(n.children);
    ShapesOfOne(entry[0]);
    if p.typeName == "Object" {
      var content, close := TreeTokens(n.children, depth + 1, base, notes), [Close(depth + base)];
      TreeTokensAreShapes(n.children, depth + 1, base, notes);
      ShapesConcat(entry, content + close);
      ShapesConcat(content, close);
      ShapesOfOne(close[0]);
    } else {
      assert NodeTokens(n, depth, base, notes) == entry;
    }
  }

  lemma ShapesOfOne(t: Token)
    ensures ShapesOf([t]) == [ShapeOf(t)]
  {
    hide ShapeOf;
    assert ShapesOf([]) == [];
  }

  lemma TreeTokensEmpty(forest: seq<Node>, depth: nat, base: nat, notes: Property -> seq<string>)
    ensures TreeTokens(forest, depth, base, notes) == [] <==> forest == []
  {
    if forest != [] {
      assert |NodeTokens(forest[0], depth, base, notes)| >= 1;
    }
  }

  // The headers, and what stands around the properties.

  const SESSION_REMARK := "This endpoint requires session cookies."
  const HEADERS_REMARK := "Pass the current request headers " + "so CinaAuth can read and set cookies."
  const BEARER_ENTRY := "{ authorization: 'Bearer <token>' }"
  const BEARER_REMARK := "This endpoint requires a " + "bearer authentication token."

  /** The remark on request headers: the session's, or else the given or the usual one. */
  function HeadersRemark(o: Options): Option<string> {
    if o.requireSession then Some(SESSION_REMARK)
    else if !o.requireHeaders then None
    else if o.headersComment.Some? then o.headersComment
    else Some(HEADERS_REMARK)
  }

  function RemarkShapes(o: Options): seq<Shape> {
    (if HeadersRemark(o).Some? then [Remark(1, HeadersRemark(o).value)] else [])
    + (if o.requireBearerToken then [Remark(1, BEARER_REMARK)] else [])
  }

  function HeaderEntries(o: Options): seq<Shape> {
    if HeadersRemark(o).None? then
      if o.requireBearerToken then [Leaf(1, "headers", ": " + BEARER_ENTRY, "")] else []
    else if o.requireBearerToken then
      [Opens(1, "headers", "", ""), Leaf(2, "", "...(await headers())", ""),
       Leaf(2, "authorization", ": " + "'Bearer <token>'", ""), Closes(1)]
    else [Leaf(1, "headers", ": " + "await headers()", "")]
  }

  predicate InQuery(o: Options) { o.forceAsQuery || (o.isGet && !o.forceAsBody && !o.forceAsParam) }

  /** The server takes the properties in one of three places. */
  function Place(o: Options): string { if InQuery(o) then "query" else if o.forceAsParam then "params" else "body" }

  function Placed(name: string, inner: seq<Shape>): seq<Shape> { [Opens(1, name, "", "")] + inner + [Closes(1)] }

  function ClientShapes(forest: seq<Node>, o: Options): seq<Shape> {
    if InQuery(o) then Placed("query", TreeShapes(forest, 2, NoNotes)) else TreeShapes(forest, 1, NoNotes)
  }

  function ServerShapes(forest: seq<Node>, o: Options, notes: Property -> seq<string>): seq<Shape> {
    (if forest == [] then [] else Placed(Place(o), TreeShapes(forest, 2, notes))) + RemarkShapes(o) + HeaderEntries(o)
  }

  /** A line of its own, as the headers are written. */
  function EntryLine(indent: nat, name: string, value: string, opens: bool): string {
    Indentation(indent) + (name + value + Mark(opens) + Trailing(""))
  }

  function RemarkLine(text: string): string { Indentation(1) + ("// " + text) }

  function RemarkLines(o: Options): seq<string> {
    (if HeadersRemark(o).Some? then [RemarkLine(HeadersRemark(o).value)] else [])
    + (if o.requireBearerToken then [RemarkLine(BEARER_REMARK)] else [])
  }

  function EntryLines(o: Options): seq<string> {
    if HeadersRemark(o).None? then
      if o.requireBearerToken then [EntryLine(1, "headers", ": " + BEARER_ENTRY, false)] else []
    else if o.requireBearerToken then
      [EntryLine(1, "headers", "", true), EntryLine(2, "", "...(await headers())", false),
       EntryLine(2, "authorization", ": " + "'Bearer <token>'", false), Indentation(1) + "},"]
    else [EntryLine(1, "headers", ": " + "await headers()", false)]
  }

  /** Lines with their breaks in front. */
  function BreakBefore(lines: seq<string>): string {
    if lines == [] then "" else "\n" + lines[0] + BreakBefore(lines[1..])
  }

  lemma {:induction false} BreaksMove(lines: seq<string>)
    ensures BreakBefore(lines) + "\n" == "\n" + LinesText(lines)
  {
    if lines == [] {
    } else {
      BreaksMove(lines[1..]);
      assert BreakBefore(lines) + "\n" == "\n" + lines[0] + (BreakBefore(lines[1..]) + "\n");
    }
  }

  lemma {:induction false} BreaksConcat(a: seq<string>, b: seq<string>)
    ensures BreakBefore(a + b) == BreakBefore(a) + BreakBefore(b)
  {
    if a == [] {
      assert a + b == b;
    } else {
      BreaksConcat(a[1..], b);
      assert (a + b)[1..] == a[1..] + b;
    }
  }

  lemma Indentations()
    ensures Indentation(1) == "    " && Indentation(2) == "        "
  {
    assert Indentation(0) == "";
  }

  lemma RemarksPrint(o: Options)
    ensures BreakBefore(RemarkLines(o))
         == (if HeadersRemark(o).Some? then "\n    // " + HeadersRemark(o).value else "")
            + (if o.requireBearerToken then "\n    // " + BEARER_REMARK else "")
  {
    hide HeadersRemark, RemarkLine, Indentation;
    var first := if HeadersRemark(o).Some? then [RemarkLine(HeadersRemark(o).value)] else [];
    var second := if o.requireBearerToken then [RemarkLine(BEARER_REMARK)] else [];
    BreaksConcat(first, second);
    if HeadersRemark(o).Some? { RemarkPrints(HeadersRemark(o).value); }
    RemarkPrints(BEARER_REMARK);
    assert BreakBefore([]) == "";
  }

  lemma RemarkPrints(text: string)
    ensures BreakBefore([RemarkLine(text)]) == "\n    // " + text
  {
    Indentations();
    assert BreakBefore([]) == "";
    assert "\n    // " == "\n" + "    " + "// ";
  }

  lemma EntriesPrint(o: Options)
    ensures BreakBefore(EntryLines(o))
         == if HeadersRemark(o).Some? && o.requireBearerToken then
              "\n    headers: {" + "\n        ...(await headers()),"
              + ("\n        authorization: " + "'Bearer <token>'" + ",")
              + "\n    },"
            else if HeadersRemark(o).Some? then "\n    headers: " + "await headers()" + ","
            else if o.requireBearerToken then "\n    headers: " + BEARER_ENTRY + ","
            else ""
  {
    hide HeadersRemark, EntryLine, Indentation;
    OpeningPrints();
    FirstEntryPrints();
    SecondEntryPrints();
    ClosingPrints();
    OneEntryPrints("await headers()");
    OneEntryPrints(BEARER_ENTRY);
    var lines := EntryLines(o);
    assert BreakBefore([]) == "";
    if |lines| == 4 {
      FourBreaks(lines);
      ConcatFour("\n" + lines[0], "\n" + lines[1], "\n" + lines[2], "\n" + lines[3]);
    }
  }

  lemma ConcatFour(a: string, b: string, c: string, d: string)
    ensures a + (b + (c + d)) == a + b + c + d
  {}

  lemma OpeningPrints()
    ensures "\n" + EntryLine(1, "headers", "", true) == "\n    headers: {"
  {
    Indentations();
  }

  lemma FirstEntryPrints()
    ensures "\n" + EntryLine(2, "", "...(await headers())", false) == "\n        ...(await headers()),"
  {
    Indentations();
  }

  lemma SecondEntryPrints()
    ensures "\n" + EntryLine(2, "authorization", ": " + "'Bearer <token>'", false)
         == "\n        authorization: " + "'Bearer <token>'" + ","
  {
    hide EntryLine;
    ValuePrints(2, "authorization", "'Bearer <token>'");
    Indentations();
    assert "\n" + "        " + "authorization" + ": " == "\n        authorization: ";
  }

  lemma ClosingPrints()
    ensures "\n" + (Indentation(1) + "},") == "\n    },"
  {
    Indentations();
  }

  lemma OneEntryPrints(value: string)
    ensures "\n" + EntryLine(1, "headers", ": " + value, false) == "\n    headers: " + value + ","
  {
    hide EntryLine;
    ValuePrints(1, "headers", value);
    Indentations();
    assert "\n" + "    " + "headers" + ": " == "\n    headers: ";
  }

  lemma ValuePrints(indent: nat, name: string, value: string)
    ensures "\n" + EntryLine(indent, name, ": " + value, false)
         == "\n" + Indentation(indent) + name + ": " + value + ","
  {
    hide Indentation;
  }

  lemma FourBreaks(lines: seq<string>)
    requires |lines| == 4
    ensures BreakBefore(lines) == "\n" + lines[0] + ("\n" + lines[1] + ("\n" + lines[2] + ("\n" + lines[3])))
  {
    assert lines[1..][1..] == lines[2..] && lines[2..][1..] == lines[3..] && lines[3..][1..] == [];
    assert BreakBefore(lines[3..]) == "\n" + lines[3];
    assert BreakBefore(lines[2..]) == "\n" + lines[2] + BreakBefore(lines[3..]);
    assert BreakBefore(lines[1..]) == "\n" + lines[1] + BreakBefore(lines[2..]);
  }

  lemma HeadersPrint(o: Options)
    ensures HeadersText(o) == BreakBefore(RemarkLines(o) + EntryLines(o))
  {
    hide BreakBefore, RemarkLines, EntryLines;
    RemarksPrint(o);
    EntriesPrint(o);
    BreaksConcat(RemarkLines(o), EntryLines(o));
  }

  lemma NoSlash(value: string)
    requires '/' !in value
    ensures forall j | 0 <= j :: !OccursAt(value, " // ", j)
  {
    forall j | 0 <= j ensures !OccursAt(value, " // ", j) {
      if j + 4 <= |value| {
        assert value[j..j + 4][1] == value[j + 1];
      }
    }
  }

  lemma EntryLineReads(indent: nat, name: string, value: string, opens: bool)
    requires (forall i | 0 <= i < |name| :: IsNamePart(name[i])) && name + value != "" && '/' !in value
    requires value == "" || value[0] == ':' || value[0] == '.'
    requires '\n' !in value
    ensures ReadLine(EntryLine(indent, name, value, opens))
         == if opens then Opens(indent, name, value, "") else Leaf(indent, name, value, "")
    ensures '\n' !in EntryLine(indent, name, value, opens)
  {
    hide ReadLine, Indentation;
    NoSlash(value);
    EntryLineIsRead(indent, name, value, opens, "");
    IndentIsSpace(indent);
    assert !IsNamePart('\n');
  }

  lemma {:induction false} ReadLinesOf(lines: seq<string>, shapes: seq<Shape>)
    requires |lines| == |shapes| && forall i | 0 <= i < |lines| :: ReadLine(lines[i]) == shapes[i]
    ensures ReadLines(lines) == shapes
  {
    hide ReadLine;
  }

  lemma RemarksRead(o: Options)
    requires o.headersComment.Some? ==> '\n' !in o.headersComment.value
    ensures AreLines(RemarkLines(o)) && ReadLines(RemarkLines(o)) == RemarkShapes(o)
  {
    hide ReadLine, RemarkLine, HeadersRemark;
    RemarksAreOneLine(o);
    if HeadersRemark(o).Some? { RemarkReads(HeadersRemark(o).value); }
    RemarkReads(BEARER_REMARK);
    ReadLinesOf(RemarkLines(o), RemarkShapes(o));
  }

  lemma RemarksAreOneLine(o: Options)
    requires o.headersComment.Some? ==> '\n' !in o.headersComment.value
    ensures '\n' !in BEARER_REMARK && (HeadersRemark(o).Some? ==> '\n' !in HeadersRemark(o).value)
  {
    hide SESSION_REMARK, HEADERS_REMARK, BEARER_REMARK;
    SessionRemarkIsOneLine();
    HeadersRemarkIsOneLine();
    BearerRemarkIsOneLine();
  }

  lemma SessionRemarkIsOneLine()
    ensures '\n' !in SESSION_REMARK
  {}

  lemma HeadersRemarkIsOneLine()
    ensures '\n' !in HEADERS_REMARK
  {
    assert '\n' !in "Pass the current request headers ";
    assert '\n' !in "so CinaAuth can read and set cookies.";
  }

  lemma BearerRemarkIsOneLine()
    ensures '\n' !in BEARER_REMARK
  {
    assert '\n' !in "This endpoint requires a ";
    assert '\n' !in "bearer authentication token.";
  }

  lemma RemarkReads(text: string)
    requires '\n' !in text
    ensures ReadsAs(RemarkLine(text), Remark(1, text))
  {
    hide ReadLine, Indentation;
    RemarkIsRead(1, text);
    IndentIsSpace(1);
  }

  ghost predicate ReadsAs(line: string, shape: Shape) { ReadLine(line) == shape && '\n' !in line }

  lemma EntriesRead(o: Options)
    ensures AreLines(EntryLines(o)) && ReadLines(EntryLines(o)) == HeaderEntries(o)
  {
    hide ReadLine, Indentation, EntryLine, HeadersRemark, IsNamePart;
    SingleEntriesRead();
    ObjectEntriesRead();
    ClosingIsRead(1);
    IndentIsSpace(1);
    ReadLinesOf(EntryLines(o), HeaderEntries(o));
  }

  lemma SingleEntriesRead()
    ensures ReadsAs(EntryLine(1, "headers", ": " + BEARER_ENTRY, false), Leaf(1, "headers", ": " + BEARER_ENTRY, ""))
    ensures ReadsAs(EntryLine(1, "headers", ": " + "await headers()", false),
                    Leaf(1, "headers", ": " + "await headers()", ""))
  {
    hide ReadLine, EntryLine;
    var value := ": " + BEARER_ENTRY;
    assert '/' !in BEARER_ENTRY && '\n' !in BEARER_ENTRY;
    EntryLineReads(1, "headers", value, false);
    EntryLineReads(1, "headers", ": " + "await headers()", false);
  }

  lemma ObjectEntriesRead()
    ensures ReadsAs(EntryLine(1, "headers", "", true), Opens(1, "headers", "", ""))
    ensures ReadsAs(EntryLine(2, "", "...(await headers())", false), Leaf(2, "", "...(await headers())", ""))
    ensures ReadsAs(EntryLine(2, "authorization", ": " + "'Bearer <token>'", false),
                    Leaf(2, "authorization", ": " + "'Bearer <token>'", ""))
  {
    hide ReadLine, EntryLine;
    EntryLineReads(1, "headers", "", true);
    EntryLineReads(2, "", "...(await headers())", false);
    EntryLineReads(2, "authorization", ": " + "'Bearer <token>'", false);
  }

  lemma HeadersRead(o: Options)
    requires o.headersComment.Some? ==> '\n' !in o.headersComment.value
    ensures var lines := RemarkLines(o) + EntryLines(o);
            && HeadersText(o) == BreakBefore(lines) && AreLines(lines)
            && ReadLines(lines) == RemarkShapes(o) + HeaderEntries(o)
  {
    hide RemarkLines, EntryLines, RemarkShapes, HeaderEntries, ReadLine, HeadersText;
    HeadersPrint(o);
    RemarksRead(o);
    EntriesRead(o);
    ReadLinesConcat(RemarkLines(o), EntryLines(o));
  }

  lemma NestsStep(shape: Shape, rest: seq<Shape>, depth: nat, outer: nat)
    ensures Nests([shape] + rest, depth, outer) ==
      match shape
      case Opens(indent, _, _, _) => indent == depth && Nests(rest, depth + 1, outer)
      case Leaf(indent, _, _, _) => indent == depth && Nests(rest, depth, outer)
      case Closes(indent) => depth > outer && indent == depth - 1 && Nests(rest, depth - 1, outer)
      case Remark(indent, _) => indent == depth && Nests(rest, depth, outer)
      case Other => false
  {
    assert ([shape] + rest)[1..] == rest;
  }

  lemma EndNests()
    ensures Nests([], 1, 1)
  {}

  lemma EntriesNest(o: Options)
    ensures Nests(HeaderEntries(o), 1, 1)
  {
    hide HeadersRemark, Nests;
    var entries := HeaderEntries(o);
    EndNests();
    if |entries| == 4 {
      NestsStep(entries[3], [], 2, 1);
      NestsStep(entries[2], [entries[3]], 2, 1);
      NestsStep(entries[1], [entries[2], entries[3]], 2, 1);
      NestsStep(entries[0], [entries[1], entries[2], entries[3]], 1, 1);
      assert [entries[3]] + [] == [entries[3]] && [entries[2]] + [entries[3]] == [entries[2], entries[3]];
      assert [entries[1]] + [entries[2], entries[3]] == [entries[1], entries[2], entries[3]];
      assert [entries[0]] + [entries[1], entries[2], entries[3]] == entries;
    } else if |entries| == 1 {
      NestsStep(entries[0], [], 1, 1);
      assert [entries[0]] + [] == entries;
    }
  }

  lemma HeadersNest(o: Options)
    ensures Nests(RemarkShapes(o) + HeaderEntries(o), 1, 1)
  {
    hide HeadersRemark, HeaderEntries, Nests;
    var entries := HeaderEntries(o);
    var bearer := if o.requireBearerToken then [Remark(1, BEARER_REMARK)] else [];
    EntriesNest(o);
    NestsStep(Remark(1, BEARER_REMARK), entries, 1, 1);
    assert [] + entries == entries;
    assert Nests(bearer + entries, 1, 1);
    if HeadersRemark(o).Some? {
      var first := Remark(1, HeadersRemark(o).value);
      NestsStep(first, bearer + entries, 1, 1);
      assert RemarkShapes(o) + entries == [first] + (bearer + entries);
    } else {
      assert RemarkShapes(o) + entries == bearer + entries;
    }
  }

  lemma PlacedNests(name: string, forest: seq<Node>, notes: Property -> seq<string>, rest: seq<Shape>)
    ensures Nests(Placed(name, TreeShapes(forest, 2, notes)) + rest, 1, 1) == Nests(rest, 1, 1)
  {
    hide TreeShapes, Nests;
    var inner := TreeShapes(forest, 2, notes);
    var closed := [Closes(1)] + rest;
    assert Placed(name, inner) + rest == [Opens(1, name, "", "")] + (inner + closed);
    NestsStep(Opens(1, name, "", ""), inner + closed, 1, 1);
    TreeShapesNest(forest, 2, 1, notes, closed);
    NestsStep(Closes(1), rest, 2, 1);
  }

  /** The lines of a placed object, and how they are read. */
  lemma PlacedReads(name: string, lines: seq<string>, shapes: seq<Shape>)
    requires IsName(name) && AreLines(lines) && ReadLines(lines) == shapes
    ensures var all := [EntryLine(1, name, "", true)] + lines + [Indentation(1) + "},"];
            && AreLines(all) && ReadLines(all) == Placed(name, shapes)
            && LinesText(all) == "    " + name + ": {\n" + LinesText(lines) + "    },\n"
  {
    hide ReadLine, IsNamePart;
    var first, last := EntryLine(1, name, "", true), Indentation(1) + "},";
    EntryLineReads(1, name, "", true);
    ClosingIsRead(1);
    Indentations();
    ReadLinesOf([first] + lines + [last], Placed(name, shapes));
    LinesConcat([first] + lines, [last]);
    LinesConcat([first], lines);
    assert LinesText([]) == "";
    assert first + "\n" == "    " + name + ": {\n";
    assert last + "\n" == "    },\n";
  }

  lemma InQueryIsUsed(o: Options)
    ensures UsesQuery(o) <==> InQuery(o)
  {}

  lemma QueryPrints(inner: string)
    ensures "{\n    query: " + ("{\n" + inner) + "    },\n}"
         == "{\n" + ("    " + "query" + ": {\n" + inner + "    },\n") + "}"
  {
    assert "{\n    query: " == "{\n" + "    " + "query" + ": ";
    assert "    },\n}" == "    },\n" + "}";
  }

  lemma PlacePrints(place: string, inner: string, headers: string, more: string)
    requires headers + "\n" == "\n" + more
    ensures "{\n    " + place + ": " + ("{\n" + inner + "    },") + headers + "\n}"
         == "{\n" + ("    " + place + ": {\n" + inner + "    },\n" + more) + "}"
  {
    assert headers + "\n}" == headers + "\n" + "}" == "\n" + more + "}";
    assert "{\n    " == "{\n" + "    " && ": " + "{\n" == ": {\n" && "    }," + "\n" == "    },\n";
    var front := "{\n    " + place + ": {\n" + inner + "    },";
    assert "{\n    " + place + ": " + ("{\n" + inner + "    },") == front;
    assert front + headers + "\n}" == front + (headers + "\n}");
    assert front + ("\n" + more + "}") == front + "\n" + more + "}";
  }

  lemma OnlyHeadersPrint(headers: string, more: string)
    requires headers + "\n" == "\n" + more
    ensures "{" + headers + "\n}" == "{\n" + more + "}"
  {
    assert "\n}" == "\n" + "}" && "{\n" == "{" + "\n";
    assert "{" + headers + ("\n" + "}") == "{" + (headers + "\n") + "}";
    assert "{" + ("\n" + more) + "}" == "{" + "\n" + more + "}";
  }

  /** The client's argument is empty when it shows no property, and reads as the nesting otherwise. */
  lemma ClientReads(forest: seq<Node>, o: Options)
    requires AllShowable(Flatten(forest), NoNotes)
    ensures var text := ClientText(TreeTokens(forest, 0, if UsesQuery(o) then 2 else 1, NoNotes), UsesQuery(o));
            if forest == [] then text == ""
            else ReadBody(text) == Some(ClientShapes(forest, o)) && Nests(ClientShapes(forest, o), 1, 1)
  {
    hide TreeTokens, TreeShapes, ReadLine, Render, Nests, Split, IsShowable, UsesQuery, InQuery, ReadBody, AreLines;
    InQueryIsUsed(o);
    var base := if UsesQuery(o) then 2 else 1;
    var tokens := TreeTokens(forest, 0, base, NoNotes);
    TreeTokensEmpty(forest, 0, base, NoNotes);
    if forest != [] {
      var lines, shapes := TokenLines(tokens), TreeShapes(forest, base, NoNotes);
      TreeTokensAreShapes(forest, 0, base, NoNotes);
      TokensRead(tokens);
      EndNests();
      if UsesQuery(o) {
        PlacedReads("query", lines, shapes);
        BodyIsRead([EntryLine(1, "query", "", true)] + lines + [Indentation(1) + "},"]);
        QueryPrints(LinesText(lines));
        PlacedNests("query", forest, NoNotes, []);
        assert Placed("query", shapes) + [] == Placed("query", shapes);
      } else {
        BodyIsRead(lines);
        TreeShapesNest(forest, 1, 1, NoNotes, []);
        assert shapes + [] == shapes;
      }
    }
  }

  /** The server's argument is empty when it shows no property and asks for no headers, and reads as the
      nesting of the properties followed by the headers otherwise. */
  lemma ServerReads(forest: seq<Node>, o: Options, notes: Property -> seq<string>)
    requires AllShowable(Flatten(forest), notes) && (o.headersComment.Some? ==> '\n' !in o.headersComment.value)
    ensures var text, shapes := ServerText(TreeTokens(forest, 0, 2, notes), o), ServerShapes(forest, o, notes);
            if shapes == [] then text == "" else ReadBody(text) == Some(shapes) && Nests(shapes, 1, 1)
  {
    hide TreeTokens, ReadLine, Render, Nests, HeadersText, HeaderEntries, RemarkShapes, Place, RemarkLines, EntryLines,
         LinesText, AreLines, ReadBody, AllShowable, UsesQuery, BreakBefore, TreeShapes, Flatten;
    var headers, more, heads := HeadersText(o), RemarkLines(o) + EntryLines(o), RemarkShapes(o) + HeaderEntries(o);
    TreeTokensEmpty(forest, 0, 2, notes);
    HeadersRead(o);
    HeadersNest(o);
    BreaksMove(more);
    if forest != [] {
      PlacedAndHeadersRead(forest, o, notes, more);
      ConcatAssociates(Placed(Place(o), TreeShapes(forest, 2, notes)), RemarkShapes(o), HeaderEntries(o));
    } else {
      assert ServerShapes(forest, o, notes) == heads;
      HeadersAloneRead(headers, more, heads);
    }
  }

  lemma HeadersAloneRead(headers: string, more: seq<string>, heads: seq<Shape>)
    requires headers == BreakBefore(more) && AreLines(more) && ReadLines(more) == heads
    ensures if heads == [] then headers == "" else ReadBody("{" + headers + "\n}") == Some(heads) && headers != ""
  {
    hide ReadLine, LinesText, AreLines, ReadBody;
    assert |heads| == |more|;
    BreaksMove(more);
    if more != [] {
      OnlyHeadersPrint(headers, LinesText(more));
      BodyIsRead(more);
    }
  }

  lemma PlacedAndHeadersRead(forest: seq<Node>, o: Options, notes: Property -> seq<string>, more: seq<string>)
    requires AllShowable(Flatten(forest), notes) && forest != []
    requires HeadersText(o) == BreakBefore(more) && AreLines(more) && Nests(ReadLines(more), 1, 1)
    ensures var shapes := Placed(Place(o), TreeShapes(forest, 2, notes)) + ReadLines(more);
            ReadBody(ServerText(TreeTokens(forest, 0, 2, notes), o)) == Some(shapes) && Nests(shapes, 1, 1)
  {
    hide TreeTokens, ReadLine, Render, Nests, HeadersText, Place, LinesText, AreLines, ReadBody, AllShowable, UsesQuery,
         BreakBefore, TreeShapes, Flatten, EntryLine, Indentation, TokenLines, ReadLines, IsName, Placed, ShapesOf,
         ShowableTokens;
    var tokens, place := TreeTokens(forest, 0, 2, notes), Place(o);
    var lines, shapes := TokenLines(tokens), TreeShapes(forest, 2, notes);
    TreeTokensEmpty(forest, 0, 2, notes);
    BreaksMove(more);
    PlaceIsUsed(o);
    TreeTokensAreShapes(forest, 0, 2, notes);
    TokensRead(tokens);
    PlacedReads(place, lines, shapes);
    var placed := [EntryLine(1, place, "", true)] + lines + [Indentation(1) + "},"];
    LinesConcat(placed, more);
    PlacePrints(place, LinesText(lines), HeadersText(o), LinesText(more));
    ConcatIsLines(placed, more);
    BodyIsRead(placed + more);
    ReadLinesConcat(placed, more);
    PlacedNests(place, forest, notes, ReadLines(more));
  }

  lemma ConcatIsLines(a: seq<string>, b: seq<string>)
    requires AreLines(a) && AreLines(b)
    ensures AreLines(a + b)
  {}

  lemma PlaceIsUsed(o: Options)
    ensures Place(o) == if UsesQuery(o) then "query" else if o.forceAsParam then "params" else "body"
    ensures IsName(Place(o))
  {
    InQueryIsUsed(o);
  }

  // What the parser reads can be shown, except for examples that look like remarks.

  ghost predicate IsContent(p: Property) {
    && IsName(p.name) && (p.description.Some? ==> OneLine(p.description.value))
    && (p.exampleValue.Some? ==> OneLine(p.exampleValue.value))
  }

  ghost predicate AllContent(properties: seq<Property>) { forall p | p in properties :: IsContent(p) }

  lemma TrimIsOneLine(s: string)
    requires OneLine(s)
    ensures OneLine(Trim(s))
  {
    hide TrimStart, TrimEnd, OneLine;
    TrimsAreOneLine(s);
    TrimsAreOneLine(TrimStart(s));
  }

  lemma ExampleIsOneLine(declaration: string)
    requires OneLine(declaration)
    ensures var example := DeclarationOf(declaration).1; example.Some? ==> OneLine(example.value)
  {
    hide Trim, IndexOf;
    var separator := IndexOf(declaration, " = ", 0);
    if separator.Some? {
      TrimIsOneLine(declaration[separator.value + 3..]);
    }
  }

  lemma LineIsContent(line: string)
    requires OneLine(line) && ParsePropertyLine(line).Some?
    ensures var parsed := ParsePropertyLine(line).value;
            IsName(parsed.name) && (parsed.exampleValue.Some? ==> OneLine(parsed.exampleValue.value))
  {
    hide ParsePropertyLine, IsName, DeclarationOf, HasLineTerminator;
    var name, optional, gap, declaration := PropertyTextParts(line);
    PropertyTextReads(line, name, optional, gap, declaration);
    ExampleIsOneLine(declaration);
  }

  lemma DirectiveIsOneLine(value: string, directive: string)
    requires OneLine(value)
    ensures var more := ReadDirective(value, directive); more.Some? ==> OneLine(more.value)
  {
    hide Trim, TrimStart;
    if ReadDirective(value, directive).Some? {
      var rest := value[|directive|..];
      TrimsAreOneLine(rest);
      var dashed := TrimStart(rest);
      TrimIsOneLine(if "-" <= dashed then dashed[1..] else rest);
    }
  }

  lemma CommentIsOneLine(p: Pending, value: string)
    requires OneLine(p.description) && OneLine(value)
    ensures OneLine(ReadComment(p, value).description)
  {
    hide ReadDirective;
    DirectiveIsOneLine(value, "@serverOnly");
    DirectiveIsOneLine(value, "@clientOnly");
    DirectiveIsOneLine(value, "@nullable");
  }

  lemma PropertyIsContent(s: Scanner, line: PropertyLine)
    requires AllContent(s.properties) && OneLine(s.pending.description)
    requires IsName(line.name) && (line.exampleValue.Some? ==> OneLine(line.exampleValue.value))
    ensures var t := ScanProperty(s, line); AllContent(t.properties) && OneLine(t.pending.description)
  {
    hide IsPathRestricted, Trim, OneLine, Join, IsName;
    TrimIsOneLine(s.pending.description);
    assert OneLine("") by { NothingIsOneLine(); }
  }

  lemma NothingIsOneLine()
    ensures OneLine("")
  {}

  lemma LineKeepsContent(s: Scanner, index: nat, line: string)
    requires AllContent(s.properties) && OneLine(s.pending.description) && OneLine(line)
    ensures var t := ScanLine(s, index, line); AllContent(t.properties) && OneLine(t.pending.description)
  {
    hide ScanProperty, ReadComment, ParsePropertyLine, DeclaredName, Trim, IsName, AllContent;
    if "*" <= line {
      OneLineBehind(line, 1);
      TrimIsOneLine(line[1..]);
      CommentIsOneLine(s.pending, Trim(line[1..]));
    }
    if ParsePropertyLine(line).Some? {
      LineIsContent(line);
      PropertyIsContent(s, ParsePropertyLine(line).value);
    }
  }

  lemma OneLineBehind(s: string, k: nat)
    requires OneLine(s) && k <= |s|
    ensures OneLine(s[k..])
  {}

  lemma {:induction false} ScanKeepsContent(lines: seq<string>, n: nat)
    requires n <= |lines| && forall i | 0 <= i < |lines| :: OneLine(lines[i])
    ensures AllContent(Scan(lines, n).properties) && OneLine(Scan(lines, n).pending.description)
  {
    hide ScanLine, Trim, IsContent;
    if n == 0 {
    } else {
      ScanKeepsContent(lines, n - 1);
      TrimIsOneLine(lines[n - 1]);
      LineKeepsContent(Scan(lines, n - 1), n - 1, Trim(lines[n - 1]));
    }
  }

  lemma ParsedIsContent(source: string)
    ensures AllContent(Parse(source).properties)
  {
    hide Scan, Trim, IsContent, OneLine, Lines;
    LinesAreOneLine(source);
    ScanKeepsContent(Lines(source), |Lines(source)|);
  }

  /** No example value of a text looks like a remark. */
  ghost predicate ExamplesAreValues(source: string) {
    forall p | p in Parse(source).properties && p.exampleValue.Some? :: HoldsNoRemark(" " + p.exampleValue.value)
  }

  /** The remark that the server's example carries. */
  function OutermostNotes(p: Property): seq<string> {
    if p.serverOnly && p.path == [] then ["server-only"] else []
  }

  lemma {:induction false} VisibleMembers(side: Side, properties: seq<Property>, p: Property)
    ensures p in Visible(side, properties) <==> p in properties && !Hidden(side, p)
  {
    hide Hidden;
    if properties == [] {
    } else {
      VisibleMembers(side, properties[1..], p);
      assert properties == [properties[0]] + properties[1..];
    }
  }

  lemma ShownIsVisible(source: string, side: Side)
    ensures Flatten(Prune(side, ParsedForest(source))) == Visible(side, Parse(source).properties)
  {
    hide Parse, ParsedForest, Visible, Prune, Flatten, AllInherit, WellFormed;
    ParseRefinesForest(source);
    FilteringPrunes(side, ParsedForest(source), false);
  }

  /** The client is shown every property but those only the server takes, the server every property but
      those only the client takes. */
  lemma ShownExactlyWhen(source: string, p: Property)
    ensures p in Flatten(Prune(Client, ParsedForest(source))) <==> p in Parse(source).properties && !p.serverOnly
    ensures p in Flatten(Prune(Server, ParsedForest(source))) <==> p in Parse(source).properties && !p.clientOnly
  {
    hide Parse, ParsedForest, Visible, Prune, Flatten;
    ShownIsVisible(source, Client);
    ShownIsVisible(source, Server);
    VisibleMembers(Client, Parse(source).properties, p);
    VisibleMembers(Server, Parse(source).properties, p);
  }

  lemma ShownIsShowable(source: string, side: Side, notes: Property -> seq<string>)
    requires ExamplesAreValues(source) && forall p | p in Parse(source).properties :: AreNotes(notes(p))
    ensures AllShowable(Flatten(Prune(side, ParsedForest(source))), notes)
  {
    hide Parse, ParsedForest, Visible, Prune, Flatten, AreNotes, HoldsNoRemark, IsName, Hidden;
    var shown := Flatten(Prune(side, ParsedForest(source)));
    ShownIsVisible(source, side);
    ParsedIsContent(source);
    forall p | p in shown ensures IsShowable(p) && AreNotes(notes(p)) {
      VisibleMembers(side, Parse(source).properties, p);
      assert IsContent(p);
    }
  }

  lemma NotesAreShort(source: string)
    ensures forall p | p in Parse(source).properties ::
              ServerNotes(Parse(source).properties, p) == OutermostNotes(p) && AreNotes(OutermostNotes(p))
    ensures forall p :: AreNotes(NoNotes(p))
  {
    hide Parse, HasParent, ServerNotes;
    forall p | p in Parse(source).properties ensures ServerNotes(Parse(source).properties, p) == OutermostNotes(p) {
      ServerRemarkOnlyOutermost(source, p);
    }
    assert '\n' !in "server-only";
  }

  lemma {:induction false} SameNotesSameShapes(forest: seq<Node>, indent: nat, f: Property -> seq<string>,
                                               g: Property -> seq<string>)
    requires forall p | p in Flatten(forest) :: f(p) == g(p)
    ensures TreeShapes(forest, indent, f) == TreeShapes(forest, indent, g)
  {
    hide Remarks, ShownExample;
    if forest == [] {
    } else {
      var n := forest[0];
      assert n.property in Flatten(forest);
      SameNotesSameShapes(n.children, indent + 1, f, g);
      SameNotesSameShapes(forest[1..], indent, f, g);
    }
  }

  /** Both bodies of a documented method, for every input text: the recursive print of the nesting of the
      properties that a side shows. Read back line by line, they open, close and say what that nesting asks for,
      unless an example itself looks like a remark. */
  method PrintExampleBodies(source: string, o: Options) returns (client: string, server: string)
    ensures var base := if UsesQuery(o) then 2 else 1;
            client == ClientText(TreeTokens(Prune(Client, ParsedForest(source)), 0, base, NoNotes), UsesQuery(o))
    ensures server == ServerText(TreeTokens(Prune(Server, ParsedForest(source)), 0, 2,
                                            p => ServerNotes(Parse(source).properties, p)), o)
    ensures ExamplesAreValues(source) ==>
              var shown := Prune(Client, ParsedForest(source));
              if shown == [] then client == ""
              else ReadBody(client) == Some(ClientShapes(shown, o)) && Nests(ClientShapes(shown, o), 1, 1)
    ensures ExamplesAreValues(source) && (o.headersComment.Some? ==> OneLine(o.headersComment.value)) ==>
              var shapes := ServerShapes(Prune(Server, ParsedForest(source)), o, OutermostNotes);
              if shapes == [] then server == "" else ReadBody(server) == Some(shapes) && Nests(shapes, 1, 1)
  {
    hide *;
    var definition := ParseApiMethod(source);
    client := CreateClientBody(definition.properties, o);
    server := CreateServerBody(definition.properties, o);
    PrintedBracesAreTheNesting(source, Client, if UsesQuery(o) then 2 else 1, NoNotes);
    PrintedBracesAreTheNesting(source, Server, 2, p => ServerNotes(definition.properties, p));
    if ExamplesAreValues(source) {
      BodiesRead(source, o);
    }
  }

  lemma BodiesRead(source: string, o: Options)
    requires ExamplesAreValues(source)
    ensures var shown := Prune(Client, ParsedForest(source));
            var client := ClientText(TreeTokens(shown, 0, if UsesQuery(o) then 2 else 1, NoNotes), UsesQuery(o));
            if shown == [] then client == ""
            else ReadBody(client) == Some(ClientShapes(shown, o)) && Nests(ClientShapes(shown, o), 1, 1)
    ensures (o.headersComment.Some? ==> OneLine(o.headersComment.value)) ==>
            var shown, all := Prune(Server, ParsedForest(source)), Parse(source).properties;
            var server := ServerText(TreeTokens(shown, 0, 2, p => ServerNotes(all, p)), o);
            var shapes := ServerShapes(shown, o, OutermostNotes);
            if shapes == [] then server == "" else ReadBody(server) == Some(shapes) && Nests(shapes, 1, 1)
  {
    hide Parse, ParsedForest, Prune, Flatten, TreeTokens, ReadBody, ClientShapes, Nests, ServerNotes, OutermostNotes,
         ClientText, ServerText, ExamplesAreValues, AllShowable, AreNotes, UsesQuery, NoNotes, TreeShapes;
    var all, forest := Parse(source).properties, ParsedForest(source);
    NotesAreShort(source);
    ShownIsShowable(source, Client, NoNotes);
    ClientReads(Prune(Client, forest), o);
    var notes := p => ServerNotes(all, p);
    ShownIsShowable(source, Server, notes);
    var shown := Prune(Server, forest);
    if o.headersComment.Some? ==> OneLine(o.headersComment.value) {
      ServerReads(shown, o, notes);
      forall p | p in Flatten(shown) ensures notes(p) == OutermostNotes(p) { ShownExactlyWhen(source, p); }
      SameNotesSameShapes(shown, 2, notes, OutermostNotes);
    }
  }
}
