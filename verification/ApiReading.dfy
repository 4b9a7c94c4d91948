/** Reading a printed argument back, line by line: what each line says about names and braces. */
module ApiReading {
  import opened Wrappers
  import opened Text
  import opened ApiMethod

  /** An entry that opens an object, an entry that does not, a closing brace, a remark on a line of its own,
      and anything else. Values and remarks are the texts between the name, the mark and the end. */
  datatype Shape =
    | Opens(indent: nat, name: string, value: string, remark: string)
    | Leaf(indent: nat, name: string, value: string, remark: string)
    | Closes(indent: nat)
    | Remark(indent: nat, remark: string)
    | Other

  function Spaces(s: string): (n: nat)
    ensures n <= |s|
  {
    if s != "" && s[0] == ' ' then 1 + Spaces(s[1..]) else 0
  }

  /** The part before the first `//` between spaces, and the part behind it. */
  function CodeAndRemark(rest: string): (string, string) {
    var at := IndexOf(rest, " // ", 0);
    if at.Some? then (rest[..at.value], rest[at.value + 4..]) else (rest, "")
  }

  function EndsWith(s: string, end: string): bool { |end| <= |s| && s[|s| - |end|..] == end }

  function ReadEntry(indent: nat, rest: string): Shape {
    var (code, remark) := CodeAndRemark(rest);
    var n := NameLength(code);
    var name, behind := code[..n], code[n..];
    if EndsWith(behind, ": {") then Opens(indent, name, behind[..|behind| - 3], remark)
    else if EndsWith(behind, ",") then Leaf(indent, name, behind[..|behind| - 1], remark)
    else Other
  }

  function ReadLine(line: string): Shape {
    var n := Spaces(line);
    var indent, rest := n / 4, line[n..];
    if n % 4 != 0 then Other
    else if rest == "}," then Closes(indent)
    else if "// " <= rest then Remark(indent, rest[3..])
    else ReadEntry(indent, rest)
  }

  function ReadLines(lines: seq<string>): seq<Shape> {
    seq(|lines|, i requires 0 <= i < |lines| => ReadLine(lines[i]))
  }

  /** The lines between an opening and a closing brace. */
  function ReadBody(text: string): Option<seq<Shape>> {
    var lines := Split(text, '\n');
    if |lines| >= 2 && lines[0] == "{" && lines[|lines| - 1] == "}" then Some(ReadLines(lines[1..|lines| - 1]))
    else None
  }

  /** The braces nest: every line stands as deep as objects are open around it, a closing brace as deep as
      the object it closes, and in the end everything is closed that was opened. */
  predicate Nests(shapes: seq<Shape>, depth: nat, outer: nat) {
    if shapes == [] then depth == outer
    else
      match shapes[0]
      case Opens(indent, _, _, _) => indent == depth && Nests(shapes[1..], depth + 1, outer)
      case Leaf(indent, _, _, _) => indent == depth && Nests(shapes[1..], depth, outer)
      case Closes(indent) => depth > outer && indent == depth - 1 && Nests(shapes[1..], depth - 1, outer)
      case Remark(indent, _) => indent == depth && Nests(shapes[1..], depth, outer)
      case Other => false
  }

  function Indentation(n: nat): string { if n == 0 then "" else "    " + Indentation(n - 1) }

  lemma {:induction false} IndentationIsRead(n: nat, rest: string)
    requires rest == "" || rest[0] != ' '
    ensures var line := Indentation(n) + rest; Spaces(line) == 4 * n && line[4 * n..] == rest
  {
    hide Spaces;
    if n == 0 {
      assert Indentation(n) + rest == rest;
      NoSpaces(rest);
    } else {
      var four, inner := "    ", Indentation(n - 1) + rest;
      IndentationIsRead(n - 1, rest);
      ConcatAssociates(four, Indentation(n - 1), rest);
      FourSpaces(inner);
    }
  }

  lemma NoSpaces(s: string)
    requires s == "" || s[0] != ' '
    ensures Spaces(s) == 0
  {}

  lemma FourSpaces(inner: string)
    ensures Spaces("    " + inner) == 4 + Spaces(inner)
    ensures forall i | 0 <= i <= |inner| :: ("    " + inner)[4 + i..] == inner[i..]
  {
    hide Spaces;
    OneSpace(inner);
    OneSpace(" " + inner);
    OneSpace(" " + (" " + inner));
    OneSpace(" " + (" " + (" " + inner)));
    assert "    " + inner == " " + (" " + (" " + (" " + inner)));
    forall i | 0 <= i <= |inner| ensures ("    " + inner)[4 + i..] == inner[i..] { DropBehind("    ", inner, i); }
  }

  lemma OneSpace(s: string)
    ensures Spaces(" " + s) == 1 + Spaces(s)
  {
    assert (" " + s)[1..] == s;
  }

  lemma DropBehind(a: string, b: string, i: nat)
    requires i <= |b|
    ensures (a + b)[|a| + i..] == b[i..]
  {}

  lemma ClosingIsRead(indent: nat)
    ensures ReadLine(Indentation(indent) + "},") == Closes(indent)
  {
    hide ReadEntry, Spaces, Indentation;
    IndentationIsRead(indent, "},");
    assert Spaces(Indentation(indent) + "},") / 4 == indent;
  }

  lemma RemarkIsRead(indent: nat, text: string)
    ensures ReadLine(Indentation(indent) + ("// " + text)) == Remark(indent, text)
  {
    hide ReadLine, Spaces, Indentation;
    var mark := "// ";
    var rest := mark + text;
    assert mark <= rest && rest[0] == '/' && rest[|mark|..] == text;
    IndentationIsRead(indent, rest);
    ReadsRemark(Indentation(indent) + rest, indent, rest);
  }

  lemma ReadsRemark(line: string, indent: nat, rest: string)
    requires Spaces(line) == 4 * indent && 4 * indent <= |line| && line[4 * indent..] == rest
    requires "// " <= rest
    ensures ReadLine(line) == Remark(indent, rest[3..])
  {
    hide ReadEntry, Spaces;
    assert Spaces(line) / 4 == indent && Spaces(line) % 4 == 0;
    assert rest[0] == '/' && "},"[0] == '}';
  }

  /** What an entry is written with: a name or nothing, and a value that cannot be taken for a part of it. */
  ghost predicate IsEntry(name: string, value: string) {
    && (forall i | 0 <= i < |name| :: IsNamePart(name[i]))
    && (value == "" || (!IsNamePart(value[0]) && value[0] != ' ' && value[0] != '}' && value[0] != '/'))
    && name + value != ""
    && forall j | 0 <= j :: !OccursAt(value, " // ", j)
  }

  function Mark(opens: bool): string { if opens then ": {" else "," }

  function Trailing(remark: string): string { if remark == "" then "" else " // " + remark }

  /** A mark does not reach over a character that is not in it. */
  lemma NotAcross(s: string, j: nat, k: nat)
    requires j <= k < |s| && k < j + 4 && s[k] != ' ' && s[k] != '/'
    ensures !OccursAt(s, " // ", j)
  {
    if j + 4 <= |s| {
      assert s[j..j + 4][k - j] == s[k];
      assert forall i | 0 <= i < 4 :: " // "[i] == ' ' || " // "[i] == '/';
    }
  }

  lemma NoRemarkInCode(name: string, value: string, opens: bool, remark: string, j: nat)
    requires IsEntry(name, value) && j < |name + value + Mark(opens)|
    ensures !OccursAt(name + value + Mark(opens) + Trailing(remark), " // ", j)
  {
    hide OccursAt;
    var mark, s := Mark(opens), name + value + Mark(opens) + Trailing(remark);
    var n, m := |name|, |name| + |value|;
    if j < n {
      assert s[j] == name[j] && IsNamePart(s[j]);
      NotAcross(s, j, j);
    } else if j + 4 <= m {
      assert s == name + value + (mark + Trailing(remark));
      OccursInFirst(name + value, mark + Trailing(remark), " // ", j);
      OccursBehind(name, value, j);
    } else {
      var k := if j <= m then m else m + 2;
      assert s[k] == mark[k - m];
      NotAcross(s, j, k);
    }
  }

  lemma OccursBehind(a: string, b: string, j: nat)
    requires |a| <= j
    ensures OccursAt(a + b, " // ", j) <==> OccursAt(b, " // ", j - |a|)
  {
    if j + 4 <= |a + b| {
      assert (a + b)[j..j + 4] == b[j - |a|..j - |a| + 4];
    }
  }

  lemma CodeIsRead(name: string, value: string, opens: bool, remark: string)
    requires IsEntry(name, value)
    ensures CodeAndRemark(name + value + Mark(opens) + Trailing(remark)) == (name + value + Mark(opens), remark)
  {
    hide IsEntry, OccursAt, Mark;
    var code := name + value + Mark(opens);
    var s := code + Trailing(remark);
    forall j | 0 <= j < |code| ensures !OccursAt(s, " // ", j) { NoRemarkInCode(name, value, opens, remark, j); }
    CodeEnds(code, remark);
  }

  lemma CodeEnds(code: string, remark: string)
    requires forall j | 0 <= j < |code| :: !OccursAt(code + Trailing(remark), " // ", j)
    ensures CodeAndRemark(code + Trailing(remark)) == (code, remark)
  {
    hide OccursAt, IndexOf;
    var s := code + Trailing(remark);
    if remark == "" {
      assert s == code;
      forall j | |code| <= j ensures !OccursAt(s, " // ", j) { NotBeyond(s, j); }
      IndexOfNone(s, " // ");
    } else {
      RemarkOccurs(code, remark);
      IndexOfIs(s, " // ", 0, |code|);
      assert s[..|code|] == code && s[|code| + 4..] == remark;
    }
  }

  lemma NotBeyond(s: string, j: nat)
    requires |s| <= j
    ensures !OccursAt(s, " // ", j)
  {}

  lemma RemarkOccurs(code: string, remark: string)
    ensures OccursAt(code + (" // " + remark), " // ", |code|)
  {
    var s := code + (" // " + remark);
    assert s[|code|..|code| + 4] == " // ";
  }

  lemma EntryIsReadBack(indent: nat, name: string, value: string, opens: bool, remark: string)
    requires IsEntry(name, value)
    ensures ReadEntry(indent, name + value + Mark(opens) + Trailing(remark))
         == if opens then Opens(indent, name, value, remark) else Leaf(indent, name, value, remark)
  {
    hide CodeAndRemark, OccursAt, NameLength;
    CodeIsRead(name, value, opens, remark);
    var behind := value + Mark(opens);
    ConcatAssociates(name, value, Mark(opens));
    MarkEndsName(value, opens);
    NameIsRead(name, behind);
    assert (name + behind)[..|name|] == name && (name + behind)[|name|..] == behind;
    MarkIsRead(value, opens);
  }

  lemma MarkEndsName(value: string, opens: bool)
    requires value == "" || !IsNamePart(value[0])
    ensures !IsNamePart((value + Mark(opens))[0])
  {}

  lemma MarkIsRead(value: string, opens: bool)
    ensures var behind := value + Mark(opens);
            && (EndsWith(behind, ": {") <==> opens) && (!opens ==> EndsWith(behind, ","))
            && behind[..|behind| - |Mark(opens)|] == value
  {
    var behind, mark := value + Mark(opens), Mark(opens);
    assert behind[|behind| - |mark|..] == mark;
    assert behind[|behind| - 1] == if opens then '{' else ',';
    if EndsWith(behind, ": {") {
      assert behind[|behind| - 3..][2] == behind[|behind| - 1];
    }
  }

  /** A written entry reads back as itself. */
  lemma EntryLineIsRead(indent: nat, name: string, value: string, opens: bool, remark: string)
    requires IsEntry(name, value)
    ensures ReadLine(Indentation(indent) + (name + value + Mark(opens) + Trailing(remark)))
         == if opens then Opens(indent, name, value, remark) else Leaf(indent, name, value, remark)
  {
    hide *;
    var rest := name + value + Mark(opens) + Trailing(remark);
    FirstCharacter(name, value, opens, remark);
    IndentationIsRead(indent, rest);
    EntryIsReadBack(indent, name, value, opens, remark);
    ReadsEntry(Indentation(indent) + rest, indent, rest);
  }

  lemma ReadsEntry(line: string, indent: nat, rest: string)
    requires Spaces(line) == 4 * indent && 4 * indent <= |line| && line[4 * indent..] == rest
    requires rest != "}," && !("// " <= rest)
    ensures ReadLine(line) == ReadEntry(indent, rest)
  {
    hide ReadEntry, Spaces;
    assert Spaces(line) / 4 == indent && Spaces(line) % 4 == 0;
  }

  lemma FirstCharacter(name: string, value: string, opens: bool, remark: string)
    requires IsEntry(name, value)
    ensures var rest := name + value + Mark(opens) + Trailing(remark);
            rest != "" && rest[0] != ' ' && !("// " <= rest) && rest != "},"
  {
    var rest := name + value + Mark(opens) + Trailing(remark);
    assert rest[0] == if name != "" then name[0] else value[0];
    assert !IsNamePart(' ') && !IsNamePart('/') && !IsNamePart('}');
    assert "// "[0] == '/' && "},"[0] == '}';
  }

  // Texts of lines.

  function LinesText(lines: seq<string>): string { if lines == [] then "" else lines[0] + "\n" + LinesText(lines[1..]) }

  ghost predicate AreLines(lines: seq<string>) { forall i | 0 <= i < |lines| :: '\n' !in lines[i] }

  lemma {:induction false} LinesConcat(a: seq<string>, b: seq<string>)
    ensures LinesText(a + b) == LinesText(a) + LinesText(b)
  {
    if a == [] {
      assert a + b == b;
    } else {
      LinesConcat(a[1..], b);
      assert (a + b)[1..] == a[1..] + b;
      ConcatAssociates(a[0] + "\n", LinesText(a[1..]), LinesText(b));
    }
  }

  lemma {:induction false} LinesSplit(lines: seq<string>, last: string)
    requires AreLines(lines) && '\n' !in last
    ensures Split(LinesText(lines) + last, '\n') == lines + [last]
  {
    hide Split;
    if lines == [] {
      assert LinesText(lines) + last == last;
      SplitPlain(last, '\n');
    } else {
      LinesSplit(lines[1..], last);
      var rest := LinesText(lines[1..]) + last;
      ConcatAssociates(lines[0] + "\n", LinesText(lines[1..]), last);
      SplitAt(lines[0], rest, '\n');
      assert lines == [lines[0]] + lines[1..];
    }
  }

  /** A text of lines between braces is read line by line. */
  lemma BodyIsRead(lines: seq<string>)
    requires AreLines(lines)
    ensures ReadBody("{\n" + LinesText(lines) + "}") == Some(ReadLines(lines))
  {
    hide ReadLine, Split;
    var all := ["{"] + lines;
    LinesConcat(["{"], lines);
    assert LinesText(["{"]) == "{\n" by { assert LinesText([]) == ""; }
    forall i | 0 <= i < |all| ensures '\n' !in all[i] {
      if i > 0 { assert all[i] == lines[i - 1]; }
    }
    LinesSplit(all, "}");
    var split := all + ["}"];
    assert split[1..|split| - 1] == lines;
  }

  lemma ReadLinesConcat(a: seq<string>, b: seq<string>)
    ensures ReadLines(a + b) == ReadLines(a) + ReadLines(b)
  {
    hide ReadLine;
  }
}
