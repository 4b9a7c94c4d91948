/** Printing the example calls of an API method. The loops see only the flat list and the depths in
    it; what they print is the nesting. */
module ApiExamples {
  import opened Wrappers
  import opened Text
  import opened ApiMethod
  import opened ApiTree

  datatype Options = Options(
    isGet: bool, forceAsBody: bool, forceAsParam: bool, forceAsQuery: bool,
    requireSession: bool, requireHeaders: bool, requireBearerToken: bool, headersComment: Option<string>)

  /** What a body is printed from: one entry per property, and closing braces. */
  datatype Token = Entry(property: Property, indent: nat, notes: seq<string>) | Close(indent: nat)

  const INDENTATION := "    "

  function Repeat(s: string, n: nat): string { if n == 0 then "" else s + Repeat(s, n - 1) }

  function PropertyText(p: Property, indent: nat, notes: seq<string>): string {
    var comments := notes + (if p.optional then [] else ["required"])
                    + (if p.description.Some? && p.description.value != "" then [p.description.value] else []);
    var value := if p.exampleValue.Some? && p.exampleValue.value != "" then ": " + p.exampleValue.value else "";
    var comment := if comments == [] then "" else " // " + Join(comments, ", ");
    Repeat(INDENTATION, indent) + p.name + value + (if p.typeName == "Object" then ": {" else ",") + comment + "\n"
  }

  function CloseText(indent: nat): string { Repeat(INDENTATION, indent) + "},\n" }

  function TokenText(t: Token): string {
    match t
    case Entry(p, indent, notes) => PropertyText(p, indent, notes)
    case Close(indent) => CloseText(indent)
  }

  function Render(tokens: seq<Token>): string {
    if tokens == [] then "" else TokenText(tokens[0]) + Render(tokens[1..])
  }

  /** The depth inside a property: an object adds a level. */
  function DepthInside(p: Property): nat { |p.path| + (if p.typeName == "Object" then 1 else 0) }

  /** The closing braces on the way from one depth out to another. */
  function Closers(inside: nat, outside: nat, base: nat): seq<Token> {
    if inside <= outside then [] else [Close(inside - 1 + base)] + Closers(inside - 1, outside, base)
  }

  /** The depth of what follows: the next property, or a given depth. */
  function NextDepth(rest: seq<Property>, after: nat): nat { if rest == [] then after else |rest[0].path| }

  /** A property, then the braces that the next depth asks for. */
  function HeadTokens(p: Property, next: nat, base: nat, notes: Property -> seq<string>): seq<Token> {
    [Entry(p, |p.path| + base, notes(p))] + Closers(DepthInside(p), next, base)
  }

  /** What the loops print. */
  function FlatTokens(properties: seq<Property>, after: nat, base: nat, notes: Property -> seq<string>): seq<Token> {
    if properties == [] then []
    else
      var rest := properties[1..];
      HeadTokens(properties[0], NextDepth(rest, after), base, notes) + FlatTokens(rest, after, base, notes)
  }

  /** What the nesting asks for: an object is its entry, its content and its own closing brace. */
  function TreeTokens(forest: seq<Node>, depth: nat, base: nat, notes: Property -> seq<string>): seq<Token> {
    if forest == [] then []
    else NodeTokens(forest[0], depth, base, notes) + TreeTokens(forest[1..], depth, base, notes)
  }

  function NodeTokens(n: Node, depth: nat, base: nat, notes: Property -> seq<string>): seq<Token> {
    [Entry(n.property, depth + base, notes(n.property))]
    + (if n.property.typeName == "Object" then
         TreeTokens(n.children, depth + 1, base, notes) + [Close(depth + base)]
       else [])
  }

  lemma {:induction false} FlatTokensConcat(a: seq<Property>, b: seq<Property>, after: nat, base: nat,
                                            notes: Property -> seq<string>)
    ensures FlatTokens(a + b, after, base, notes)
         == FlatTokens(a, NextDepth(b, after), base, notes) + FlatTokens(b, after, base, notes)
  {
    if a == [] {
      assert a + b == b;
    } else {
      FlatTokensConcat(a[1..], b, after, base, notes);
      assert (a + b)[1..] == a[1..] + b;
      hide HeadTokens;
      var head := HeadTokens(a[0], NextDepth(a[1..] + b, after), base, notes);
      ConcatAssociates(head, FlatTokens(a[1..], NextDepth(b, after), base, notes), FlatTokens(b, after, base, notes));
    }
  }

  lemma {:induction false} ClosersSplit(inside: nat, middle: nat, outside: nat, base: nat)
    requires outside <= middle <= inside
    ensures Closers(inside, outside, base) == Closers(inside, middle, base) + Closers(middle, outside, base)
  {
    if inside > middle {
      ClosersSplit(inside - 1, middle, outside, base);
    }
  }

  /** The flat loop prints a forest's nesting, and then closes down to the depth that follows. */
  lemma {:induction false} FlatPrintsTree(forest: seq<Node>, path: seq<string>, after: nat, base: nat,
                                          notes: Property -> seq<string>)
    requires WellFormed(forest, path) && forest != [] && after <= |path|
    ensures FlatTokens(Flatten(forest), after, base, notes)
         == TreeTokens(forest, |path|, base, notes) + Closers(|path|, after, base)
  {
    hide HeadTokens, NodeTokens;
    var n, rest := forest[0], forest[1..];
    var then' := if rest == [] then after else |path|;
    var head := [n.property] + Flatten(n.children);
    assert WellFormedNode(n, path);
    FlatTokensConcat(head, Flatten(rest), after, base, notes);
    assert NextDepth(Flatten(rest), after) == then' by {
      if rest != [] { assert WellFormedNode(rest[0], path); }
    }
    FlatPrintsNode(n, path, then', base, notes);
    if rest == [] {
    } else {
      assert forall m | m in rest :: m in forest;
      FlatPrintsTree(rest, path, after, base, notes);
      ConcatAssociates(NodeTokens(n, |path|, base, notes), TreeTokens(rest, |path|, base, notes),
                       Closers(|path|, after, base));
    }
  }

  lemma {:induction false} FlatPrintsNode(n: Node, path: seq<string>, after: nat, base: nat,
                                          notes: Property -> seq<string>)
    requires WellFormedNode(n, path) && after <= |path|
    ensures FlatTokens([n.property] + Flatten(n.children), after, base, notes)
         == NodeTokens(n, |path|, base, notes) + Closers(|path|, after, base)
  {
    var inner := Flatten(n.children);
    var list := [n.property] + inner;
    assert list[1..] == inner;
    if n.property.typeName == "Object" {
      ClosersSplit(|path| + 1, |path|, after, base);
      assert Closers(|path| + 1, |path|, base) == [Close(|path| + base)];
      if n.children != [] {
        assert WellFormedNode(n.children[0], path + [n.property.name]);
        FlatPrintsTree(n.children, path + [n.property.name], after, base, notes);
        ClosersSplit(|path| + 1, |path|, after, base);
      }
    }
  }

  /** Braces match: no brace closes what is not open, every brace closes at its opener's indent,
      every entry stands one level inside what is open, and nothing stays open. */
  predicate Balanced(tokens: seq<Token>, open: seq<nat>, base: nat) {
    if tokens == [] then open == []
    else
      match tokens[0]
      case Entry(p, indent, _) =>
        indent == |open| + base
        && Balanced(tokens[1..], if p.typeName == "Object" then open + [indent] else open, base)
      case Close(indent) =>
        open != [] && open[|open| - 1] == indent && Balanced(tokens[1..], open[..|open| - 1], base)
  }

  lemma {:induction false} TreeTokensBalance(forest: seq<Node>, open: seq<nat>, base: nat,
                                             notes: Property -> seq<string>, rest: seq<Token>)
    ensures Balanced(TreeTokens(forest, |open|, base, notes) + rest, open, base) == Balanced(rest, open, base)
  {
    var tokens := TreeTokens(forest, |open|, base, notes);
    if forest == [] {
      assert tokens + rest == rest;
    } else {
      var more := TreeTokens(forest[1..], |open|, base, notes) + rest;
      assert tokens + rest == NodeTokens(forest[0], |open|, base, notes) + more;
      NodeTokensBalance(forest[0], open, base, notes, more);
      TreeTokensBalance(forest[1..], open, base, notes, rest);
    }
  }

  lemma {:induction false} NodeTokensBalance(n: Node, open: seq<nat>, base: nat, notes: Property -> seq<string>,
                                             rest: seq<Token>)
    ensures Balanced(NodeTokens(n, |open|, base, notes) + rest, open, base) == Balanced(rest, open, base)
  {
    var tokens := NodeTokens(n, |open|, base, notes) + rest;
    if n.property.typeName == "Object" {
      var inside := open + [|open| + base];
      var content := TreeTokens(n.children, |inside|, base, notes);
      var closed := [Close(|open| + base)] + rest;
      assert tokens[1..] == content + closed;
      TreeTokensBalance(n.children, inside, base, notes, closed);
      assert closed[1..] == rest && inside[..|inside| - 1] == open;
    } else {
      assert tokens[1..] == rest;
    }
  }

  /** For every input text, the braces that either printing loop emits are those of a recursive
      printer over the nesting of the visible properties, and they match. */
  lemma PrintedBracesAreTheNesting(source: string, side: Side, base: nat, notes: Property -> seq<string>)
    ensures var printed := FlatTokens(Visible(side, Parse(source).properties), 0, base, notes);
            && printed == TreeTokens(Prune(side, ParsedForest(source)), 0, base, notes)
            && Balanced(printed, [], base)
  {
    hide Parse, ParsedForest, Visible, Prune, FlatTokens, TreeTokens, Inherits, WellFormedNode;
    var forest := ParsedForest(source);
    var shown := Prune(side, forest);
    ParseRefinesForest(source);
    FilteringPrunes(side, forest, false);
    PruneKeepsWellFormed(side, forest, []);
    EmptyPrints(base, notes);
    if shown != [] {
      FlatPrintsTree(shown, [], 0, base, notes);
      assert TreeTokens(shown, 0, base, notes) + [] == TreeTokens(shown, 0, base, notes);
    }
    TreeTokensBalance(shown, [], base, notes, []);
    assert TreeTokens(shown, 0, base, notes) + [] == TreeTokens(shown, 0, base, notes);
  }

  lemma EmptyPrints(base: nat, notes: Property -> seq<string>)
    ensures FlatTokens(Flatten([]), 0, base, notes) == [] == TreeTokens([], 0, base, notes)
    ensures Closers(0, 0, base) == []
  {}

  /** The text of a list of tokens, one token later. */
  lemma RenderStep(tokens: seq<Token>, t: Token, rest: seq<Token>)
    requires tokens == [t] + rest
    ensures Render(tokens) == TokenText(t) + Render(rest)
  {
    hide TokenText;
    assert tokens[1..] == rest;
  }

  lemma {:induction false} RenderConcat(a: seq<Token>, b: seq<Token>)
    ensures Render(a + b) == Render(a) + Render(b)
  {
    hide TokenText;
    if a == [] {
      assert a + b == b;
    } else {
      RenderConcat(a[1..], b);
      RenderStep(a + b, a[0], a[1..] + b);
      ConcatAssociates(TokenText(a[0]), Render(a[1..]), Render(b));
    }
  }

  function NoNotes(p: Property): seq<string> { [] }

  /** Whether some property of the list is the parent that a path names. */
  predicate HasParent(properties: seq<Property>, path: seq<string>) {
    path != [] && exists c | c in properties ::
      Join(c.path, ".") == Join(path[..|path| - 1], ".") && c.name == path[|path| - 1]
  }

  /** The remark on properties that only the server takes. */
  function ServerNotes(properties: seq<Property>, p: Property): seq<string> {
    if p.serverOnly && !HasParent(properties, p.path) then ["server-only"] else []
  }

  function UsesQuery(o: Options): bool {
    if o.forceAsQuery then true else if o.forceAsBody || o.forceAsParam then false else o.isGet
  }

  /** The closing braces after one property of a list. */
  method CloseNestedProperties(properties: seq<Property>, index: nat, base: nat) returns (result: string)
    requires index < |properties|
    ensures result == Render(Closers(DepthInside(properties[index]), NextDepth(properties[index + 1..], 0), base))
  {
    hide CloseText, PropertyText;
    var currentDepth := DepthInside(properties[index]);
    var nextDepth := if index + 1 < |properties| then |properties[index + 1].path| else 0;
    assert nextDepth == NextDepth(properties[index + 1..], 0);
    if nextDepth >= currentDepth {
      return "";
    }
    result := "";
    var depth := currentDepth - 1;
    while depth >= nextDepth
      invariant nextDepth - 1 <= depth < currentDepth
      invariant result + Render(Closers(depth + 1, nextDepth, base)) == Render(Closers(currentDepth, nextDepth, base))
      decreases depth - nextDepth + 1
    {
      ghost var rest := Closers(depth, nextDepth, base);
      RenderStep(Closers(depth + 1, nextDepth, base), Close(depth + base), rest);
      ConcatAssociates(result, CloseText(depth + base), Render(rest));
      result := result + CloseText(depth + base);
      depth := depth - 1;
    }
  }

  /** The lines of a whole list; nothing for an empty one. */
  method PrintProperties(properties: seq<Property>, all: seq<Property>, base: nat, server: bool)
    returns (content: string)
    ensures content ==
      if properties == [] then ""
      else "{\n" + Render(FlatTokens(properties, 0, base, if server then p => ServerNotes(all, p) else NoNotes))
  {
    hide ServerNotes, PropertyText, CloseText, TokenText;
    ghost var notes := if server then p => ServerNotes(all, p) else NoNotes;
    content := "";
    for index := 0 to |properties|
      invariant index == 0 ==> content == ""
      invariant index > 0 ==> |content| > 0
      invariant index > 0 ==>
        content + Render(FlatTokens(properties[index..], 0, base, notes)) ==
          "{\n" + Render(FlatTokens(properties, 0, base, notes))
    {
      var p := properties[index];
      ghost var rest := FlatTokens(properties[index + 1..], 0, base, notes);
      if content == "" {
        content := "{\n";
      }
      var line := PropertyText(p, |p.path| + base, if server then ServerNotes(all, p) else []);
      var closing := CloseNestedProperties(properties, index, base);
      FlatTokensStep(properties, index, base, notes, line, closing);
      assert index == 0 ==> properties[index..] == properties;
      ConcatAssociates(content, line + closing, Render(rest));
      ConcatAssociates(content, line, closing);
      content := content + line + closing;
    }
  }

  lemma FlatTokensStep(properties: seq<Property>, index: nat, base: nat, notes: Property -> seq<string>,
                       line: string, closing: string)
    requires index < |properties|
    requires line == PropertyText(properties[index], |properties[index].path| + base, notes(properties[index]))
    requires closing == Render(Closers(DepthInside(properties[index]), NextDepth(properties[index + 1..], 0), base))
    ensures Render(FlatTokens(properties[index..], 0, base, notes))
         == line + closing + Render(FlatTokens(properties[index + 1..], 0, base, notes))
  {
    hide PropertyText;
    var p, rest := properties[index], FlatTokens(properties[index + 1..], 0, base, notes);
    var closers := Closers(DepthInside(p), NextDepth(properties[index + 1..], 0), base);
    var entry := Entry(p, |p.path| + base, notes(p));
    assert properties[index..][1..] == properties[index + 1..];
    assert FlatTokens(properties[index..], 0, base, notes) == [entry] + (closers + rest);
    RenderStep([entry] + (closers + rest), entry, closers + rest);
    RenderConcat(closers, rest);
    ConcatAssociates(line, closing, Render(rest));
    assert TokenText(entry) == line;
  }

  /** The client's argument, around the lines of the visible properties. */
  function ClientText(lines: seq<Token>, query: bool): string {
    if lines == [] then ""
    else if query then "{\n    query: " + ("{\n" + Render(lines)) + "    },\n}"
    else "{\n" + Render(lines) + "}"
  }

  function HeadersText(o: Options): string {
    (if o.requireSession then "\n    // " + "This endpoint requires session cookies."
     else if o.requireHeaders then
       "\n    // " + (if o.headersComment.Some? then o.headersComment.value
                      else "Pass the current request headers " + "so CinaAuth can read and set cookies.")
     else "")
    + (if o.requireBearerToken then
         "\n    // " + ("This endpoint requires a " + "bearer authentication token.")
       else "")
    + (if (o.requireSession || o.requireHeaders) && o.requireBearerToken then
         "\n    headers: {" + "\n        ...(await headers()),"
         + ("\n        authorization: " + "'Bearer <token>'" + ",")
         + "\n    },"
       else if o.requireSession || o.requireHeaders then "\n    headers: " + "await headers()" + ","
       else if o.requireBearerToken then "\n    headers: " + "{ authorization: 'Bearer <token>' }" + ","
       else "")
  }

  /** The server's argument: the properties under their parameter, and the headers. */
  function ServerText(lines: seq<Token>, o: Options): string {
    var headers := HeadersText(o);
    if lines != [] then
      var parameter := if UsesQuery(o) then "query" else if o.forceAsParam then "params" else "body";
      "{\n    " + parameter + ": " + ("{\n" + Render(lines) + "    },") + headers + "\n}"
    else if headers != "" then "{" + headers + "\n}"
    else ""
  }

  method CreateClientBody(properties: seq<Property>, o: Options) returns (body: string)
    ensures var base := if UsesQuery(o) then 2 else 1;
            body == ClientText(FlatTokens(Visible(Client, properties), 0, base, NoNotes), UsesQuery(o))
  {
    hide Render, Visible, Closers, UsesQuery;
    var query := UsesQuery(o);
    var clientProperties := Visible(Client, properties);
    var content := PrintProperties(clientProperties, properties, if query then 2 else 1, false);
    if content == "" {
      return "";
    }
    body := if query then "{\n    query: " + content + "    },\n}" else content + "}";
  }

  method CreateServerBody(properties: seq<Property>, o: Options) returns (body: string)
    ensures body == ServerText(FlatTokens(Visible(Server, properties), 0, 2, p => ServerNotes(properties, p)), o)
  {
    hide Render, Visible, Closers, UsesQuery, ServerNotes, HeadersText;
    var serverProperties := Visible(Server, properties);
    var content := PrintProperties(serverProperties, properties, 2, true);
    if content != "" {
      content := content + "    },";
    }
    var headers := HeadersText(o);
    if |serverProperties| > 0 {
      var parameter := if UsesQuery(o) then "query" else if o.forceAsParam then "params" else "body";
      return "{\n    " + parameter + ": " + content + headers + "\n}";
    }
    body := if headers != "" then "{" + headers + "\n}" else "";
  }

  lemma {:induction false} ParentIsListed(forest: seq<Node>, path: seq<string>, p: Property)
    requires WellFormed(forest, path) && p in Flatten(forest)
    ensures p.path == path || exists c | c in Flatten(forest) :: c.path + [c.name] == p.path
  {
    var n := forest[0];
    assert WellFormedNode(n, path);
    var inner := path + [n.property.name];
    if p in Flatten(n.children) {
      ParentIsListed(n.children, inner, p);
      if p.path == inner {
        assert n.property in Flatten(forest) && n.property.path + [n.property.name] == p.path;
      } else {
        var c :| c in Flatten(n.children) && c.path + [c.name] == p.path;
        assert c in Flatten(forest);
      }
    } else if p in Flatten(forest[1..]) {
      ParentIsListed(forest[1..], path, p);
      if p.path != path {
        var c :| c in Flatten(forest[1..]) && c.path + [c.name] == p.path;
        assert c in Flatten(forest);
      }
    } else {
      assert p == n.property;
    }
  }

  /** The remark appears on the outermost properties that only the server takes, and on no property
      inside an object, not even one that carries the directive itself. */
  lemma ServerRemarkOnlyOutermost(source: string, p: Property)
    requires p in Parse(source).properties
    ensures ServerNotes(Parse(source).properties, p)
         == if p.serverOnly && p.path == [] then ["server-only"] else []
  {
    hide Parse, ParsedForest;
    var properties := Parse(source).properties;
    ParseRefinesForest(source);
    ParentIsListed(ParsedForest(source), [], p);
    if p.path != [] {
      var c :| c in properties && c.path + [c.name] == p.path;
      assert c.path == p.path[..|p.path| - 1] && c.name == p.path[|p.path| - 1];
      assert HasParent(properties, p.path);
    }
  }
}
