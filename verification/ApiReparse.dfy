/** Parsing the definition that a parse returns gives the same method again. */
module ApiReparse {
  import opened Wrappers
  import opened Text
  import opened ApiMethod

  ghost predicate OneLine(s: string) { '\n' !in s }

  lemma UnifyBreaksStep(s: string)
    ensures UnifyBreaks(s) == if s == [] then []
                              else if |s| >= 2 && s[0] == '\r' && s[1] == '\n' then "\n" + UnifyBreaks(s[2..])
                              else [s[0]] + UnifyBreaks(s[1..])
  {}

  lemma {:induction false} UnifyBreaksConcat(a: string, b: string)
    requires !(a != [] && a[|a| - 1] == '\r' && b != [] && b[0] == '\n')
    ensures UnifyBreaks(a + b) == UnifyBreaks(a) + UnifyBreaks(b)
  {
    hide UnifyBreaks;
    UnifyBreaksStep(a);
    UnifyBreaksStep(a + b);
    if a == [] {
      assert a + b == b;
    } else if |a| >= 2 && a[0] == '\r' && a[1] == '\n' {
      assert (a + b)[2..] == a[2..] + b;
      UnifyBreaksConcat(a[2..], b);
      ConcatAssociates("\n", UnifyBreaks(a[2..]), UnifyBreaks(b));
    } else {
      assert (a + b)[1..] == a[1..] + b;
      UnifyBreaksConcat(a[1..], b);
      ConcatAssociates([a[0]], UnifyBreaks(a[1..]), UnifyBreaks(b));
    }
  }

  lemma {:induction false} UnifyBreaksOfLine(s: string)
    requires OneLine(s)
    ensures UnifyBreaks(s) == s
  {
    if s == [] {
    } else {
      UnifyBreaksOfLine(s[1..]);
      assert s == [s[0]] + s[1..];
    }
  }

  lemma {:induction false} UnifyBreaksOfSpace(s: string)
    requires AllSpace(s)
    ensures AllSpace(UnifyBreaks(s))
    decreases |s|
  {
    if |s| >= 2 && s[0] == '\r' && s[1] == '\n' {
      UnifyBreaksOfSpace(s[2..]);
    } else if s != [] {
      UnifyBreaksOfSpace(s[1..]);
    }
  }

  /** Unifying breaks keeps a first and a last character that are no white space. */
  lemma {:induction false} UnifyBreaksEnds(s: string)
    requires s != []
    ensures var u := UnifyBreaks(s);
            && u != []
            && (!IsSpace(s[0]) ==> u[0] == s[0])
            && (!IsSpace(s[|s| - 1]) ==> u[|u| - 1] == s[|s| - 1])
    decreases |s|
  {
    if |s| >= 2 && s[0] == '\r' && s[1] == '\n' {
      if |s| > 2 { UnifyBreaksEnds(s[2..]); }
    } else if |s| > 1 {
      UnifyBreaksEnds(s[1..]);
    }
  }

  lemma TrimOfSpace(s: string)
    requires AllSpace(s)
    ensures Trim(s) == ""
  {
    TrimSurrounded(s, "", "");
    assert s + "" + "" == s;
  }

  lemma UnifyBreaksAround(a: string, t: string, b: string)
    requires AllSpace(a) && AllSpace(b) && IsTrimmed(t) && t != []
    ensures UnifyBreaks(a + (t + b)) == UnifyBreaks(a) + (UnifyBreaks(t) + UnifyBreaks(b))
  {
    assert (t + b)[0] == t[0];
    UnifyBreaksConcat(a, t + b);
    UnifyBreaksConcat(t, b);
  }

  /** Surrounding white space does not change the lines of a text. */
  lemma LinesOfTrimmed(source: string)
    ensures Lines(Trim(source)) == Lines(source)
  {
    hide UnifyBreaks, Split, Trim, AllSpace, IsTrimmed;
    var t := Trim(source);
    var a, b := TrimParts(source);
    if t == [] {
      BlankText(source);
    } else {
      assert source == a + t + b == a + (t + b);
      TrimmedText(a, t, b);
    }
  }

  lemma BlankText(s: string)
    requires Trim(s) == ""
    ensures Trim(UnifyBreaks(s)) == Trim(UnifyBreaks(""))
  {
    hide Trim, UnifyBreaks;
    var a, b := TrimParts(s);
    assert s == a + b;
    UnifyBreaksOfSpace(s);
    UnifyBreaksOfSpace("");
    TrimOfSpace(UnifyBreaks(s));
    TrimOfSpace(UnifyBreaks(""));
  }

  lemma TrimmedText(a: string, t: string, b: string)
    requires AllSpace(a) && AllSpace(b) && IsTrimmed(t) && t != []
    ensures Trim(UnifyBreaks(a + (t + b))) == Trim(UnifyBreaks(t))
  {
    hide Trim, UnifyBreaks;
    var u, x, y := UnifyBreaks(t), UnifyBreaks(a), UnifyBreaks(b);
    UnifyBreaksAround(a, t, b);
    UnifyBreaksOfSpace(a);
    UnifyBreaksOfSpace(b);
    UnifyBreaksEnds(t);
    assert x + (u + y) == x + u + y;
    TrimSurrounded(x, u, y);
    TrimOfTrimmed(u);
  }

  /** A line as it comes out of unifying breaks, when another line follows. */
  function WithoutReturn(s: string): string {
    if s != [] && s[|s| - 1] == '\r' then s[..|s| - 1] else s
  }

  function WithoutReturns(lines: seq<string>): (r: seq<string>)
    ensures |r| == |lines|
  {
    if |lines| <= 1 then lines else [WithoutReturn(lines[0])] + WithoutReturns(lines[1..])
  }

  lemma {:induction false} UnifyBreaksOfLines(lines: seq<string>)
    requires lines != [] && forall i | 0 <= i < |lines| :: OneLine(lines[i])
    ensures UnifyBreaks(Join(lines, "\n")) == Join(WithoutReturns(lines), "\n")
  {
    if |lines| == 1 {
      UnifyBreaksOfLine(lines[0]);
    } else {
      UnifyBreaksOfLines(lines[1..]);
      UnifyBreaksAfterLine(lines[0], Join(lines[1..], "\n"));
      assert WithoutReturns(lines)[1..] == WithoutReturns(lines[1..]);
    }
  }

  lemma UnifyBreaksAfterLine(line: string, rest: string)
    requires OneLine(line)
    ensures UnifyBreaks(line + "\n" + rest) == WithoutReturn(line) + "\n" + UnifyBreaks(rest)
  {
    hide UnifyBreaks;
    var kept := WithoutReturn(line);
    UnifyBreaksOfLine(kept);
    UnifyBreaksAtBreak(rest);
    ConcatAssociates(kept, "\n", UnifyBreaks(rest));
    if kept == line {
      UnifyBreaksConcat(line, "\n" + rest);
      ConcatAssociates(line, "\n", rest);
    } else {
      UnifyBreaksConcat(kept, "\r\n" + rest);
      assert line == kept + "\r";
      ReturnAndBreak(kept, rest);
    }
  }

  lemma ReturnAndBreak(kept: string, rest: string)
    ensures kept + "\r" + "\n" + rest == kept + ("\r\n" + rest)
  {}

  lemma UnifyBreaksAtBreak(rest: string)
    ensures UnifyBreaks("\n" + rest) == "\n" + UnifyBreaks(rest)
    ensures UnifyBreaks("\r\n" + rest) == "\n" + UnifyBreaks(rest)
  {
    assert ("\n" + rest)[1..] == rest && ("\r\n" + rest)[2..] == rest;
  }

  lemma TrimWithoutReturn(s: string)
    ensures Trim(WithoutReturn(s)) == Trim(s)
  {
    hide Trim;
    var kept := WithoutReturn(s);
    if kept != s {
      var a, b := TrimParts(kept);
      var t := Trim(kept);
      assert s == kept + "\r";
      assert a + t + b + "\r" == a + t + (b + "\r");
      TrimSurrounded(a, t, b + "\r");
    }
  }

  lemma {:induction false} TrimWithoutReturns(lines: seq<string>, i: nat)
    requires i < |lines|
    ensures Trim(WithoutReturns(lines)[i]) == Trim(lines[i])
    ensures OneLine(lines[i]) ==> OneLine(WithoutReturns(lines)[i])
  {
    hide Trim;
    if |lines| > 1 {
      TrimWithoutReturn(lines[0]);
      if i > 0 { TrimWithoutReturns(lines[1..], i - 1); }
    }
  }

  lemma TrimStartKeeps(a: string, b: string)
    requires TrimStart(a) != []
    ensures TrimStart(a + b) == TrimStart(a) + b
  {
    hide TrimStart, AllSpace;
    var t := TrimStart(a);
    var spaces := a[..|a| - |t|];
    SplitBack(a, |a| - |t|);
    ConcatAssociates(spaces, t, b);
    TrimStartSpaces(spaces, t + b);
    TrimStartFixed(t + b);
  }

  lemma TrimEndKeeps(a: string, b: string)
    requires TrimEnd(b) != []
    ensures TrimEnd(a + b) == a + TrimEnd(b)
  {
    hide TrimEnd, AllSpace;
    var t := TrimEnd(b);
    var spaces := b[|t|..];
    SplitBack(b, |t|);
    assert b[..|t|] == t;
    ConcatAssociates(a, t, spaces);
    TrimEndSpaces(a + t, spaces);
    assert (a + t)[|a + t| - 1] == t[|t| - 1];
    TrimEndFixed(a + t);
  }

  lemma TrimOfTrimStart(s: string)
    ensures Trim(TrimStart(s)) == Trim(s)
    ensures Trim(s) != [] ==> TrimStart(s) != []
  {
    assert TrimStart(TrimStart(s)) == TrimStart(s);
  }

  lemma TrimOfTrimEnd(s: string)
    ensures Trim(TrimEnd(s)) == Trim(s)
    ensures Trim(s) != [] ==> TrimEnd(s) != []
  {
    hide Trim;
    var e := TrimEnd(s);
    var a, b := TrimParts(e);
    var t := Trim(e);
    var c := s[|e|..];
    SplitBack(s, |e|);
    assert s == a + t + b + c == a + t + (b + c);
    TrimSurrounded(a, t, b + c);
    if e == [] { TrimOfSpace(s); }
  }

  /** Replaces the last element. */
  function WithLast(lines: seq<string>, last: string): seq<string>
    requires lines != []
  {
    lines[..|lines| - 1] + [last]
  }

  lemma {:induction false} TrimEndOfLines(lines: seq<string>)
    requires lines != [] && TrimEnd(lines[|lines| - 1]) != []
    ensures TrimEnd(Join(lines, "\n")) == Join(WithLast(lines, TrimEnd(lines[|lines| - 1])), "\n")
    ensures TrimEnd(Join(lines, "\n")) != []
  {
    var ended := WithLast(lines, TrimEnd(lines[|lines| - 1]));
    if |lines| > 1 {
      TrimEndOfLines(lines[1..]);
      assert ended[1..] == WithLast(lines[1..], TrimEnd(lines[|lines| - 1]));
      TrimEndKeeps(lines[0] + "\n", Join(lines[1..], "\n"));
    }
  }

  /** The lines of some consecutive lines, of which the first and the last are not blank, are those
      lines up to white space around them. */
  lemma LinesOfJoined(lines: seq<string>)
    requires |lines| >= 2 && forall i | 0 <= i < |lines| :: OneLine(lines[i])
    requires Trim(lines[0]) != [] && Trim(lines[|lines| - 1]) != []
    ensures var again := Lines(Join(lines, "\n"));
            && |again| == |lines|
            && forall i | 0 <= i < |lines| :: Trim(again[i]) == Trim(lines[i])
  {
    hide Trim, Join, Split, UnifyBreaks, WithoutReturns;
    var unified := WithoutReturns(lines);
    UnifyBreaksOfLines(lines);
    forall i | 0 <= i < |lines| ensures Trim(unified[i]) == Trim(lines[i]) && OneLine(unified[i]) {
      TrimWithoutReturns(lines, i);
    }
    JoinedTrims(unified);
  }

  lemma JoinedTrims(lines: seq<string>)
    requires |lines| >= 2 && forall i | 0 <= i < |lines| :: OneLine(lines[i])
    requires Trim(lines[0]) != [] && Trim(lines[|lines| - 1]) != []
    ensures var again := Split(Trim(Join(lines, "\n")), '\n');
            && |again| == |lines|
            && forall i | 0 <= i < |lines| :: Trim(again[i]) == Trim(lines[i])
  {
    hide Join, Split, Trim, OneLine;
    var first, last := TrimStart(lines[0]), TrimEnd(lines[|lines| - 1]);
    TrimOfTrimStart(lines[0]);
    TrimOfTrimEnd(lines[|lines| - 1]);
    TrimOfLines(lines);
    TrimsAreOneLine(lines[0]);
    TrimsAreOneLine(lines[|lines| - 1]);
    EndsReplaced(lines, first, last);
    SplitLines(WithLast([first] + lines[1..], last));
  }

  lemma SplitLines(lines: seq<string>)
    requires lines != [] && forall i | 0 <= i < |lines| :: OneLine(lines[i])
    ensures Split(Join(lines, "\n"), '\n') == lines
  {
    SplitJoin(lines, '\n');
  }

  lemma TrimOfLines(lines: seq<string>)
    requires |lines| >= 2 && TrimStart(lines[0]) != [] && TrimEnd(lines[|lines| - 1]) != []
    ensures Trim(Join(lines, "\n"))
         == Join(WithLast([TrimStart(lines[0])] + lines[1..], TrimEnd(lines[|lines| - 1])), "\n")
  {
    hide Join, TrimStart, TrimEnd;
    var started := [TrimStart(lines[0])] + lines[1..];
    StartedLines(lines);
    assert started[|started| - 1] == lines[|lines| - 1];
    TrimEndOfLines(started);
  }

  lemma TrimsAreOneLine(s: string)
    requires OneLine(s)
    ensures OneLine(TrimStart(s)) && OneLine(TrimEnd(s))
  {
    hide TrimStart, TrimEnd;
  }

  lemma EndsReplaced(lines: seq<string>, first: string, last: string)
    requires |lines| >= 2 && forall i | 0 <= i < |lines| :: OneLine(lines[i])
    requires OneLine(first) && OneLine(last)
    requires Trim(first) == Trim(lines[0]) && Trim(last) == Trim(lines[|lines| - 1])
    ensures var again := WithLast([first] + lines[1..], last);
            && |again| == |lines|
            && forall i | 0 <= i < |lines| :: OneLine(again[i]) && Trim(again[i]) == Trim(lines[i])
  {
    hide Trim;
  }

  lemma HeadAndTail(lines: seq<string>)
    requires lines != []
    ensures lines == [lines[0]] + lines[1..]
  {}

  lemma StartedLines(lines: seq<string>)
    requires |lines| >= 2 && TrimStart(lines[0]) != []
    ensures TrimStart(Join(lines, "\n")) == Join([TrimStart(lines[0])] + lines[1..], "\n")
  {
    hide Join, TrimStart;
    var line, rest := lines[0], lines[1..];
    var joined := Join(rest, "\n");
    HeadAndTail(lines);
    JoinCons(line, rest, "\n");
    JoinCons(TrimStart(line), rest, "\n");
    ConcatAssociates(line, "\n", joined);
    ConcatAssociates(TrimStart(line), "\n", joined);
    TrimStartKeeps(line, "\n" + joined);
  }

  /** The same scan, started a lines later. */
  function Later(s: Scanner, a: nat): Scanner {
    s.(typeStart := if s.typeStart.Some? then Some(s.typeStart.value + a) else None,
       typeEnd := if s.typeEnd.Some? then Some(s.typeEnd.value + a) else None)
  }

  lemma ScanLineLater(s: Scanner, index: nat, line: string, a: nat)
    ensures ScanLine(Later(s, a), index + a, line) == Later(ScanLine(s, index, line), a)
  {
    hide IsClosing, DeclaredName, ParsePropertyLine, ReadComment, IsPathRestricted, Trim, Join;
  }

  lemma {:induction false} ScanLater(lines: seq<string>, again: seq<string>, a: nat, n: nat)
    requires a + n <= |lines| && n <= |again|
    requires forall i | 0 <= i < n :: Trim(again[i]) == Trim(lines[a + i])
    requires Scan(lines, a) == START
    ensures Scan(lines, a + n) == Later(Scan(again, n), a)
  {
    hide ScanLine, Trim;
    if n == 0 {
    } else {
      ScanLater(lines, again, a, n - 1);
      ScanLineLater(Scan(again, n - 1), n - 1, Trim(again[n - 1]), a);
    }
  }

  lemma BlankLinesDoNothing(s: Scanner, index: nat)
    ensures var t := ScanLine(s, index, "");
            t.typeStart == s.typeStart && t.typeEnd == s.typeEnd
  {
    hide ReadComment, IsPathRestricted, Trim, Join, ScanProperty;
  }

  /** Before the declaration nothing is recorded, after the closing line nothing changes, and
      neither line is blank. */
  lemma {:induction false} ScanFacts(lines: seq<string>, n: nat)
    requires n <= |lines|
    ensures var s := Scan(lines, n);
            && (s.typeStart.None? ==> s == START)
            && (s.typeStart.Some? ==> s.typeStart.value < n && Scan(lines, s.typeStart.value) == START
                                      && Trim(lines[s.typeStart.value]) != [])
            && (s.typeEnd.Some? ==> s.typeEnd.value < n && Trim(lines[s.typeEnd.value]) != []
                                    && Scan(lines, s.typeEnd.value + 1) == s)
  {
    hide Trim, ScanLine;
    if n == 0 {
    } else {
      ScanFacts(lines, n - 1);
      var s, line := Scan(lines, n - 1), Trim(lines[n - 1]);
      ScanStep(s, n - 1, line);
    }
  }

  lemma ScanStep(s: Scanner, index: nat, line: string)
    requires s.typeStart.None? ==> s == START
    ensures var t := ScanLine(s, index, line);
            if s.typeEnd.Some? then t == s
            else if s.typeStart.None? then t == s || (t.typeStart == Some(index) && t.typeEnd.None? && line != [])
            else t.typeStart == s.typeStart && (t.typeEnd.None? || (t.typeEnd == Some(index) && line != []))
  {
    hide ReadComment, IsPathRestricted, Trim, Join, ScanProperty, ScanLine;
    ScanLineBounds(s, index, line);
    if line == [] { BlankLinesDoNothing(s, index); }
  }

  /** For every input text, also one that declares nothing, parsing the returned definition gives
      the same function name and properties, and neither prefix nor suffix. */
  lemma ReparseIsSame(source: string)
    ensures var parsed := Parse(source);
            var again := Parse(parsed.typeDefinition);
            && again.functionName == parsed.functionName
            && again.properties == parsed.properties
            && again.codePrefix == "" && again.codeSuffix == ""
  {
    hide Trim, ScanLine, Lines, ScanProperty, Join, UnifyBreaks, Scan, OneLine, Parse;
    var lines := Lines(source);
    var s := Scan(lines, |lines|);
    ScanBounds(lines, |lines|);
    ParsedParts(source);
    if s.typeStart.None? || s.typeEnd.None? {
      LinesOfTrimmed(source);
      ParsedParts(Trim(source));
    } else {
      var a, n := s.typeStart.value, s.typeEnd.value + 1 - s.typeStart.value;
      ScanAgain(source, a, n);
      ParsedParts(Join(lines[a..a + n], "\n"));
      EmptyText();
      var again := Lines(Join(lines[a..a + n], "\n"));
      assert again[..0] == [] && again[n..] == [];
    }
  }

  /** The parts of a parse, by the lines that bound the declaration. */
  lemma ParsedParts(source: string)
    ensures var lines, parsed := Lines(source), Parse(source);
            var s := Scan(lines, |lines|);
            if s.typeStart.None? || s.typeEnd.None? then parsed == ParsedApiMethod("", [], "", "", Trim(source))
            else
              && s.typeStart.value <= s.typeEnd.value < |lines|
              && parsed.functionName == s.functionName && parsed.properties == s.properties
              && parsed.typeDefinition == Join(lines[s.typeStart.value..s.typeEnd.value + 1], "\n")
              && (Trim(Join(lines[..s.typeStart.value], "\n")) == "" ==> parsed.codePrefix == "")
              && (Trim(Join(lines[s.typeEnd.value + 1..], "\n")) == "" ==> parsed.codeSuffix == "")
  {
    hide Trim, ScanLine, Lines, Join, Scan;
    ScanBounds(Lines(source), |Lines(source)|);
  }

  /** Scanning the lines of the declaration alone ends as scanning the whole text did. */
  lemma ScanAgain(source: string, a: nat, n: nat)
    requires var lines := Lines(source);
             var s := Scan(lines, |lines|);
             s.typeStart == Some(a) && s.typeEnd == Some(a + n - 1) && n >= 2 && a + n <= |lines|
    ensures var lines := Lines(source);
            var again := Lines(Join(lines[a..a + n], "\n"));
            && |again| == n && Later(Scan(again, n), a) == Scan(lines, |lines|)
            && Scan(again, n).typeStart == Some(0) && Scan(again, n).typeEnd == Some(n - 1)
  {
    hide Trim, ScanLine, Lines, Join, Scan, OneLine;
    var lines := Lines(source);
    var part := lines[a..a + n];
    LinesAreOneLine(source);
    ScanFacts(lines, |lines|);
    LinesOfJoined(part);
    ScanLater(lines, Lines(Join(part, "\n")), a, n);
  }

  lemma LinesAreOneLine(source: string)
    ensures forall i | 0 <= i < |Lines(source)| :: OneLine(Lines(source)[i])
  {}

  lemma EmptyText()
    ensures Trim(Join([], "\n")) == ""
  {}
}
