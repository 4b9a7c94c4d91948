/** What the lines of a declaration document: which properties there are, and what the comments above
    them say. */
module ApiDocumented {
  import opened Wrappers
  import opened Text
  import opened ApiMethod

  function LineAt(lines: seq<string>, i: nat): string
    requires i < |lines|
  {
    Trim(lines[i])
  }

  predicate IsBlockMark(line: string) { "/*" <= line || "*/" <= line }

  predicate IsCommentLine(line: string) { !IsClosing(line) && !IsBlockMark(line) && "*" <= line }

  predicate IsPropertyLine(line: string) {
    !IsClosing(line) && !IsBlockMark(line) && !("*" <= line) && ParsePropertyLine(line).Some?
  }

  predicate OpensObject(line: string) { IsPropertyLine(line) && ParsePropertyLine(line).value.typeName == "{" }

  /** A line of a comment that begins with a directive, alone or before a space. */
  predicate Carries(line: string, directive: string) {
    IsCommentLine(line)
    && var said := Trim(line[1..]);
       said == directive || directive + " " <= said
  }

  /** Between the previous property, or the beginning, and this line a comment carries the directive. */
  ghost predicate SaidBefore(lines: seq<string>, from: nat, i: nat, directive: string)
    requires i <= |lines|
  {
    exists j | from < j < i ::
      Carries(LineAt(lines, j), directive) && forall m | j < m < i :: !IsPropertyLine(LineAt(lines, m))
  }

  /** The names of the objects that are open before a line. */
  function PathAt(lines: seq<string>, from: nat, i: nat): seq<string>
    requires i <= |lines|
  {
    if i <= from + 1 then []
    else
      var before, line := PathAt(lines, from, i - 1), LineAt(lines, i - 1);
      if IsClosing(line) then (if before == [] then [] else before[..|before| - 1])
      else if OpensObject(line) then before + [ParsePropertyLine(line).value.name]
      else before
  }

  /** An object of this path was opened before a line, and a comment on it carries the directive. */
  ghost predicate OpenedWith(lines: seq<string>, from: nat, i: nat, path: string, directive: string)
    requires i <= |lines|
  {
    exists j | from < j < i ::
      && OpensObject(LineAt(lines, j)) && SaidBefore(lines, from, j, directive)
      && Join(PathAt(lines, from, j + 1), ".") == path
  }

  /** The directive holds for the property of a line: a comment on it carries it, or one on an object that
      was opened under the path of the property itself or of an object around it. */
  ghost predicate Holds(lines: seq<string>, from: nat, i: nat, directive: string)
    requires i < |lines|
  {
    SaidBefore(lines, from, i, directive) || exists n | 1 <= n :: IsUnder(lines, from, i, n, directive)
  }

  /** The n outermost names of the line's path, its own included, are those of an object so opened. */
  ghost predicate IsUnder(lines: seq<string>, from: nat, i: nat, n: nat, directive: string)
    requires i < |lines|
  {
    var path := PathAt(lines, from, i + 1);
    n <= |path| && OpenedWith(lines, from, i + 1, Join(path[..n], "."), directive)
  }

  /** What a line of a comment adds to the description. */
  function SaidOn(line: string): string {
    if !IsCommentLine(line) then ""
    else
      var said := Trim(line[1..]);
      if Carries(line, "@serverOnly") then Behind(said, "@serverOnly")
      else if Carries(line, "@clientOnly") then Behind(said, "@clientOnly")
      else if Carries(line, "@nullable") then Behind(said, "@nullable")
      else if said == "" then "" else said + " "
  }

  function Behind(said: string, directive: string): string {
    var more := ReadDirective(said, directive);
    if more.None? || more.value == "" then "" else more.value + " "
  }

  /** What the comments since the previous property say. */
  function Described(lines: seq<string>, from: nat, i: nat): string
    requires i <= |lines|
  {
    if i <= from + 1 || IsPropertyLine(LineAt(lines, i - 1)) then ""
    else Described(lines, from, i - 1) + SaidOn(LineAt(lines, i - 1))
  }

  ghost function PropertyAt(lines: seq<string>, from: nat, i: nat): Property
    requires i < |lines| && IsPropertyLine(LineAt(lines, i))
  {
    var line, description := ParsePropertyLine(LineAt(lines, i)).value, Trim(Described(lines, from, i));
    Property(line.name, line.optional, if line.typeName == "{" then "Object" else line.typeName, line.exampleValue,
             if description == "" then None else Some(description),
             Holds(lines, from, i, "@serverOnly"), Holds(lines, from, i, "@clientOnly"),
             PathAt(lines, from, i), SaidBefore(lines, from, i, "@nullable"))
  }

  /** The properties of the lines behind the beginning, line by line. */
  ghost function Documented(lines: seq<string>, from: nat, i: nat): seq<Property>
    requires i <= |lines|
  {
    if i <= from + 1 then [] else Documented(lines, from, i - 1) + DocumentedBy(lines, from, i - 1)
  }

  ghost function DocumentedBy(lines: seq<string>, from: nat, i: nat): seq<Property>
    requires i < |lines|
  {
    if IsPropertyLine(LineAt(lines, i)) then [PropertyAt(lines, from, i)] else []
  }

  /** The first line that declares a type, and no line in between that closes it. */
  ghost predicate IsOpenSince(lines: seq<string>, from: nat, i: nat)
    requires i <= |lines|
  {
    && from < i && DeclaredName(LineAt(lines, from)).Some?
    && (forall j | 0 <= j < from :: DeclaredName(LineAt(lines, j)).None?)
    && forall j | from < j < i :: !ClosesDeclaration(lines, from, j)
  }

  predicate ClosesDeclaration(lines: seq<string>, from: nat, j: nat)
    requires j < |lines|
  {
    IsClosing(LineAt(lines, j)) && PathAt(lines, from, j) == []
  }

  /** The lines of the declaration: from the first one that declares a type to the one that closes it. */
  ghost predicate IsDeclaration(lines: seq<string>, from: nat, end: nat) {
    end < |lines| && IsOpenSince(lines, from, end) && ClosesDeclaration(lines, from, end)
  }

  // What the parser has gathered before a line.

  /** The marks since the previous property. */
  ghost predicate PendingMeans(pending: Pending, lines: seq<string>, from: nat, i: nat)
    requires i <= |lines|
  {
    && (pending.serverOnly <==> SaidBefore(lines, from, i, "@serverOnly"))
    && (pending.clientOnly <==> SaidBefore(lines, from, i, "@clientOnly"))
    && (pending.nullable <==> SaidBefore(lines, from, i, "@nullable"))
    && pending.description == Described(lines, from, i)
  }

  ghost predicate PathsMean(paths: set<string>, lines: seq<string>, from: nat, i: nat, directive: string)
    requires i <= |lines|
  {
    forall path :: path in paths <==> OpenedWith(lines, from, i, path, directive)
  }

  lemma SaidStep(lines: seq<string>, from: nat, i: nat, directive: string)
    requires from < i < |lines|
    ensures SaidBefore(lines, from, i + 1, directive) <==>
            !IsPropertyLine(LineAt(lines, i))
            && (Carries(LineAt(lines, i), directive) || SaidBefore(lines, from, i, directive))
  {
    hide Carries, IsPropertyLine, LineAt;
    var line := LineAt(lines, i);
    CommentIsNoProperty(line, directive);
    if !IsPropertyLine(line) && SaidBefore(lines, from, i, directive) {
      var j :| from < j < i && Carries(LineAt(lines, j), directive)
               && forall m | j < m < i :: !IsPropertyLine(LineAt(lines, m));
      assert Carries(LineAt(lines, j), directive);
    }
    if SaidBefore(lines, from, i + 1, directive) {
      var j :| from < j < i + 1 && Carries(LineAt(lines, j), directive)
               && forall m | j < m < i + 1 :: !IsPropertyLine(LineAt(lines, m));
      if j < i {
        assert !IsPropertyLine(LineAt(lines, i));
      }
    }
  }

  lemma CommentIsNoProperty(line: string, directive: string)
    ensures Carries(line, directive) ==> !IsPropertyLine(line)
  {
    hide ParsePropertyLine, IsClosing, Trim;
  }

  lemma OpenedStep(lines: seq<string>, from: nat, i: nat, path: string, directive: string)
    requires from < i < |lines|
    ensures OpenedWith(lines, from, i + 1, path, directive) <==>
            || OpenedWith(lines, from, i, path, directive)
            || (OpensObject(LineAt(lines, i)) && SaidBefore(lines, from, i, directive)
                && Join(PathAt(lines, from, i + 1), ".") == path)
  {
    hide OpensObject, LineAt, SaidBefore, PathAt, Join;
  }

  lemma NothingSaid(lines: seq<string>, from: nat, directive: string)
    requires from < |lines|
    ensures !SaidBefore(lines, from, from + 1, directive) && PathsMean({}, lines, from, from + 1, directive)
  {}

  lemma CarriesMeans(line: string, directive: string)
    requires IsCommentLine(line)
    ensures Carries(line, directive) <==> ReadDirective(Trim(line[1..]), directive).Some?
  {
    hide IsClosing, Trim, IsBlockMark, IsCommentLine;
  }

  /** No line carries two of the directives. */
  lemma OneDirective(line: string)
    ensures Carries(line, "@serverOnly") ==> !Carries(line, "@clientOnly") && !Carries(line, "@nullable")
    ensures Carries(line, "@clientOnly") ==> !Carries(line, "@nullable")
    ensures Carries(line, "@serverOnly") || Carries(line, "@clientOnly") || Carries(line, "@nullable") ==>
              Trim(line[1..]) != ""
  {
    CarriesBegins(line, "@serverOnly");
    CarriesBegins(line, "@clientOnly");
    CarriesBegins(line, "@nullable");
    hide Carries, Trim;
    assert "@serverOnly"[1] == 's' && "@clientOnly"[1] == 'c' && "@nullable"[1] == 'n';
  }

  lemma CarriesBegins(line: string, directive: string)
    requires |directive| > 1
    ensures Carries(line, directive) ==> line != "" && |Trim(line[1..])| > 1 && Trim(line[1..])[1] == directive[1]
  {
    hide IsClosing, Trim, IsBlockMark;
    assert (directive + " ")[1] == directive[1];
  }

  lemma DescriptionMeans(description: string, said: string, directive: string)
    requires ReadDirective(said, directive).Some?
    ensures AddDescription(description, ReadDirective(said, directive).value) == description + Behind(said, directive)
  {
    hide ReadDirective;
    var more := ReadDirective(said, directive).value;
    ConcatAssociates(description, more, " ");
  }

  /** A comment line is read as the directives say. */
  lemma CommentMeans(pending: Pending, line: string)
    requires IsCommentLine(line)
    ensures var read := ReadComment(pending, Trim(line[1..]));
            && (read.serverOnly <==> pending.serverOnly || Carries(line, "@serverOnly"))
            && (read.clientOnly <==> pending.clientOnly || Carries(line, "@clientOnly"))
            && (read.nullable <==> pending.nullable || Carries(line, "@nullable"))
            && read.description == pending.description + SaidOn(line)
  {
    hide IsClosing, Trim, IsBlockMark, Carries, ReadDirective, Behind, AddDescription;
    var said := Trim(line[1..]);
    CarriesMeans(line, "@serverOnly");
    CarriesMeans(line, "@clientOnly");
    CarriesMeans(line, "@nullable");
    OneDirective(line);
    if Carries(line, "@serverOnly") {
      DescriptionMeans(pending.description, said, "@serverOnly");
    } else if Carries(line, "@clientOnly") {
      DescriptionMeans(pending.description, said, "@clientOnly");
    } else if Carries(line, "@nullable") {
      DescriptionMeans(pending.description, said, "@nullable");
    } else if said == "" {
      assert pending.description + "" == pending.description;
    } else {
      ConcatAssociates(pending.description, said, " ");
    }
  }

  /** The marks after one more line. */
  lemma PendingStep(pending: Pending, lines: seq<string>, from: nat, i: nat)
    requires from < i < |lines| && PendingMeans(pending, lines, from, i)
    ensures var line := LineAt(lines, i);
            && (IsPropertyLine(line) ==> PendingMeans(NOTHING_PENDING, lines, from, i + 1))
            && (IsCommentLine(line) ==> PendingMeans(ReadComment(pending, Trim(line[1..])), lines, from, i + 1))
            && (!IsPropertyLine(line) && !IsCommentLine(line) ==> PendingMeans(pending, lines, from, i + 1))
  {
    hide Carries, ReadComment, SaidBefore, IsPropertyLine, IsCommentLine, LineAt, Trim;
    var line := LineAt(lines, i);
    SaidStep(lines, from, i, "@serverOnly");
    SaidStep(lines, from, i, "@clientOnly");
    SaidStep(lines, from, i, "@nullable");
    CommentsApart(line);
    if IsCommentLine(line) {
      CommentMeans(pending, line);
    } else {
      assert pending.description + "" == pending.description;
    }
  }

  lemma CommentsApart(line: string)
    ensures IsCommentLine(line) ==> !IsPropertyLine(line)
    ensures !IsCommentLine(line) ==>
              SaidOn(line) == "" && !Carries(line, "@serverOnly") && !Carries(line, "@clientOnly")
              && !Carries(line, "@nullable")
  {
    hide ParsePropertyLine, IsClosing, Trim;
  }

  /** The restricted paths after one more line. */
  lemma PathsStep(paths: set<string>, lines: seq<string>, from: nat, i: nat, directive: string)
    requires from < i < |lines| && PathsMean(paths, lines, from, i, directive)
    ensures PathsMean(if OpensObject(LineAt(lines, i)) && SaidBefore(lines, from, i, directive)
                      then paths + {Join(PathAt(lines, from, i + 1), ".")} else paths,
                      lines, from, i + 1, directive)
  {
    hide OpensObject, LineAt, SaidBefore, PathAt, Join, OpenedWith;
    forall path ensures OpenedWith(lines, from, i + 1, path, directive) <==>
                        || OpenedWith(lines, from, i, path, directive)
                        || (OpensObject(LineAt(lines, i)) && SaidBefore(lines, from, i, directive)
                            && Join(PathAt(lines, from, i + 1), ".") == path)
    {
      OpenedStep(lines, from, i, path, directive);
    }
  }

  /** A path is restricted exactly when it lies under an object so opened. */
  lemma RestrictedMeans(paths: set<string>, lines: seq<string>, from: nat, i: nat, directive: string)
    requires i < |lines| && PathsMean(paths, lines, from, i + 1, directive)
    ensures IsPathRestricted(paths, PathAt(lines, from, i + 1)) <==>
            exists n | 1 <= n :: IsUnder(lines, from, i, n, directive)
  {
    hide OpenedWith, PathAt, Join;
    var path := PathAt(lines, from, i + 1);
    if IsPathRestricted(paths, path) {
      var length: nat :| 1 <= length <= |path| && Join(path[..length], ".") in paths;
      assert IsUnder(lines, from, i, length, directive);
    }
    if exists n | 1 <= n :: IsUnder(lines, from, i, n, directive) {
      var n :| 1 <= n && IsUnder(lines, from, i, n, directive);
      assert Join(path[..n], ".") in paths;
    }
  }

  /** The state of the parser before a line of an open declaration. */
  ghost predicate ScannerMeans(s: Scanner, lines: seq<string>, from: nat, i: nat)
    requires i <= |lines|
  {
    && s.typeStart == Some(from) && s.typeEnd.None?
    && s.nestedPath == PathAt(lines, from, i)
    && s.properties == Documented(lines, from, i)
    && PendingMeans(s.pending, lines, from, i)
    && PathsMean(s.serverOnlyPaths, lines, from, i, "@serverOnly")
    && PathsMean(s.clientOnlyPaths, lines, from, i, "@clientOnly")
  }

  lemma PropertyStep(s: Scanner, lines: seq<string>, from: nat, i: nat)
    requires from < i < |lines| && ScannerMeans(s, lines, from, i) && IsPropertyLine(LineAt(lines, i))
    ensures ScannerMeans(ScanProperty(s, ParsePropertyLine(LineAt(lines, i)).value), lines, from, i + 1)
  {
    hide SaidBefore, ParsePropertyLine, LineAt, Join, Trim, OpenedWith, PathsMean, IsPathRestricted, IsUnder;
    PendingStep(s.pending, lines, from, i);
    PathsStep(s.serverOnlyPaths, lines, from, i, "@serverOnly");
    PathsStep(s.clientOnlyPaths, lines, from, i, "@clientOnly");
    var t := ScanProperty(s, ParsePropertyLine(LineAt(lines, i)).value);
    assert t.nestedPath == PathAt(lines, from, i + 1);
    RestrictedMeans(t.serverOnlyPaths, lines, from, i, "@serverOnly");
    RestrictedMeans(t.clientOnlyPaths, lines, from, i, "@clientOnly");
    assert t.properties == s.properties + DocumentedBy(lines, from, i);
  }

  lemma OtherStep(s: Scanner, lines: seq<string>, from: nat, i: nat)
    requires from < i < |lines| && ScannerMeans(s, lines, from, i) && !IsPropertyLine(LineAt(lines, i))
    requires !ClosesDeclaration(lines, from, i)
    ensures ScannerMeans(ScanLine(s, i, LineAt(lines, i)), lines, from, i + 1)
  {
    hide SaidBefore, ParsePropertyLine, LineAt, Join, Trim, OpenedWith, PathsMean, ReadComment, IsClosing, ScanProperty;
    PendingStep(s.pending, lines, from, i);
    PathsStep(s.serverOnlyPaths, lines, from, i, "@serverOnly");
    PathsStep(s.clientOnlyPaths, lines, from, i, "@clientOnly");
    assert DocumentedBy(lines, from, i) == [];
    assert s.properties + [] == s.properties;
  }

  lemma {:induction false} NothingYet(lines: seq<string>, i: nat)
    requires i <= |lines| && forall j | 0 <= j < i :: DeclaredName(LineAt(lines, j)).None?
    ensures Scan(lines, i) == START
  {
    hide DeclaredName, Trim;
    if i == 0 {
    } else {
      NothingYet(lines, i - 1);
      assert DeclaredName(LineAt(lines, i - 1)).None?;
    }
  }

  lemma Beginning(lines: seq<string>, from: nat)
    requires from < |lines| && IsOpenSince(lines, from, from + 1)
    ensures ScannerMeans(Scan(lines, from + 1), lines, from, from + 1)
    ensures Scan(lines, from + 1).functionName == DeclaredName(LineAt(lines, from)).value
  {
    hide DeclaredName, Trim, SaidBefore, OpenedWith;
    NothingYet(lines, from);
    NothingSaid(lines, from, "@serverOnly");
    NothingSaid(lines, from, "@clientOnly");
    NothingSaid(lines, from, "@nullable");
  }

  /** Behind the beginning of an open declaration the parser stands for what its lines document. */
  lemma {:induction false} ScanMeans(lines: seq<string>, from: nat, i: nat)
    requires i <= |lines| && IsOpenSince(lines, from, i)
    ensures ScannerMeans(Scan(lines, i), lines, from, i)
    ensures Scan(lines, i).functionName == DeclaredName(LineAt(lines, from)).value
  {
    hide ScannerMeans, DeclaredName, ScanLine, IsOpenSince, ClosesDeclaration, Scan, LineAt;
    OpenReaches(lines, from, i);
    if i == from + 1 {
      Beginning(lines, from);
    } else {
      OpenBefore(lines, from, i);
      ScanMeans(lines, from, i - 1);
      StepMeans(Scan(lines, i - 1), lines, from, i - 1);
      ScanUnfolds(lines, i - 1);
    }
  }

  lemma OpenBefore(lines: seq<string>, from: nat, i: nat)
    requires from + 1 < i <= |lines| && IsOpenSince(lines, from, i)
    ensures IsOpenSince(lines, from, i - 1) && !ClosesDeclaration(lines, from, i - 1)
  {
    hide ClosesDeclaration, DeclaredName, LineAt;
  }

  lemma OpenReaches(lines: seq<string>, from: nat, i: nat)
    requires i <= |lines| && IsOpenSince(lines, from, i)
    ensures from < i
  {}

  lemma ScanUnfolds(lines: seq<string>, i: nat)
    requires i < |lines|
    ensures Scan(lines, i + 1) == ScanLine(Scan(lines, i), i, LineAt(lines, i))
  {
    hide ScanLine, Trim;
  }

  lemma StepMeans(s: Scanner, lines: seq<string>, from: nat, i: nat)
    requires from < i < |lines| && ScannerMeans(s, lines, from, i) && !ClosesDeclaration(lines, from, i)
    ensures var t := ScanLine(s, i, LineAt(lines, i));
            ScannerMeans(t, lines, from, i + 1) && t.functionName == s.functionName
  {
    if IsPropertyLine(LineAt(lines, i)) {
      PropertyStep(s, lines, from, i);
      PropertyLineIsScanned(s, i, LineAt(lines, i));
    } else {
      OtherStep(s, lines, from, i);
    }
    hide ScannerMeans, IsPropertyLine, LineAt;
    ScanLineBounds(s, i, LineAt(lines, i));
    StillOpen(s, lines, from, i);
  }

  lemma StillOpen(s: Scanner, lines: seq<string>, from: nat, i: nat)
    requires i <= |lines| && ScannerMeans(s, lines, from, i)
    ensures s.typeStart.Some? && s.typeEnd.None?
  {}

  lemma PropertyLineIsScanned(s: Scanner, i: nat, line: string)
    requires s.typeStart.Some? && s.typeEnd.None? && IsPropertyLine(line)
    ensures ScanLine(s, i, line) == ScanProperty(s, ParsePropertyLine(line).value)
  {
    hide ScanProperty, ParsePropertyLine, IsClosing, ReadComment, Trim, DeclaredName;
  }

  /** A parsed declaration has the name that its first line declares and the properties that its lines
      document, with what the comments on them and on the objects around them say. */
  lemma ParsedAsDocumented(source: string, from: nat, end: nat)
    requires IsDeclaration(Lines(source), from, end)
    ensures var parsed, lines := Parse(source), Lines(source);
            && parsed.functionName == DeclaredName(LineAt(lines, from)).value
            && parsed.properties == Documented(lines, from, end)
            && parsed.typeDefinition == Join(lines[from..end + 1], "\n")
            && parsed.codePrefix == (var prefix := Trim(Join(lines[..from], "\n"));
                                     if prefix == "" then "" else prefix + "\n")
            && parsed.codeSuffix == (var suffix := Trim(Join(lines[end + 1..], "\n"));
                                     if suffix == "" then "" else "\n" + suffix)
  {
    hide Lines, Trim, DeclaredName, Documented, PendingMeans, PathsMean, Join;
    var lines := Lines(source);
    ScanMeans(lines, from, end);
    ClosingStep(lines, from, end);
    ScanStaysEnded(lines, end + 1, |lines|);
    ScanBounds(lines, |lines|);
  }

  lemma ClosingStep(lines: seq<string>, from: nat, end: nat)
    requires IsDeclaration(lines, from, end) && ScannerMeans(Scan(lines, end), lines, from, end)
    ensures Scan(lines, end + 1) == Scan(lines, end).(typeEnd := Some(end))
  {
    hide DeclaredName, Documented, PendingMeans, PathsMean, IsClosing, ReadComment, ScanProperty, ParsePropertyLine,
         Trim;
    assert Scan(lines, end + 1) == ScanLine(Scan(lines, end), end, LineAt(lines, end));
  }

  /** Without a declaration nothing is parsed. */
  lemma ParsedOnlyDeclarations(source: string)
    requires forall from, end :: !IsDeclaration(Lines(source), from, end)
    ensures Parse(source) == ParsedApiMethod("", [], "", "", Trim(source))
  {
    hide Lines, Trim, DeclaredName, ScanLine, Join;
    var lines := Lines(source);
    NeverEnds(lines, |lines|);
  }

  lemma {:induction false} NeverEnds(lines: seq<string>, i: nat)
    requires i <= |lines| && forall from, end :: !IsDeclaration(lines, from, end)
    ensures Scan(lines, i).typeEnd.None?
    ensures Scan(lines, i).typeStart.None? ==> forall j | 0 <= j < i :: DeclaredName(LineAt(lines, j)).None?
    ensures Scan(lines, i).typeStart.Some? ==> IsOpenSince(lines, Scan(lines, i).typeStart.value, i)
  {
    hide DeclaredName, Trim, ScannerMeans, ClosesDeclaration;
    if i == 0 {
    } else {
      NeverEnds(lines, i - 1);
      var s, line := Scan(lines, i - 1), LineAt(lines, i - 1);
      assert Scan(lines, i) == ScanLine(s, i - 1, line);
      if s.typeStart.Some? {
        var from := s.typeStart.value;
        assert !IsDeclaration(lines, from, i - 1);
        ScanMeans(lines, from, i - 1);
        StepMeans(s, lines, from, i - 1);
        StillOpen(ScanLine(s, i - 1, line), lines, from, i);
        ScanLineBounds(s, i - 1, line);
      } else {
        Declares(s, i - 1, line);
      }
    }
  }

  lemma Declares(s: Scanner, i: nat, line: string)
    requires s.typeStart.None? && s.typeEnd.None?
    ensures var t := ScanLine(s, i, line);
            t.typeEnd.None? && t.typeStart == if DeclaredName(line).Some? then Some(i) else None
  {
    hide DeclaredName;
  }

  // Property by property.

  /** The number of properties documented before a line. */
  function Count(lines: seq<string>, from: nat, i: nat): nat
    requires i <= |lines|
  {
    if i <= from + 1 then 0 else Count(lines, from, i - 1) + (if IsPropertyLine(LineAt(lines, i - 1)) then 1 else 0)
  }

  lemma {:induction false} DocumentedInOrder(lines: seq<string>, from: nat, i: nat, end: nat)
    requires from < i < end <= |lines| && IsPropertyLine(LineAt(lines, i))
    ensures |Documented(lines, from, end)| == Count(lines, from, end) > Count(lines, from, i)
    ensures Documented(lines, from, end)[Count(lines, from, i)] == PropertyAt(lines, from, i)
  {
    hide IsPropertyLine, LineAt, PropertyAt;
    if end == i + 1 {
      CountsDocumented(lines, from, i);
    } else {
      DocumentedInOrder(lines, from, i, end - 1);
    }
  }

  lemma {:induction false} CountsDocumented(lines: seq<string>, from: nat, i: nat)
    requires i <= |lines|
    ensures |Documented(lines, from, i)| == Count(lines, from, i)
  {
    hide IsPropertyLine, LineAt, PropertyAt;
    if i <= from + 1 {
    } else {
      CountsDocumented(lines, from, i - 1);
    }
  }

  /** What is parsed from a line of the declaration: the line's own name, mark, type and example, the objects
      around it, and the directives that a comment on it, or on an object around it, carries. */
  lemma PropertySaysWhatIsDocumented(source: string, from: nat, end: nat, i: nat)
    requires IsDeclaration(Lines(source), from, end) && from < i < end && IsPropertyLine(LineAt(Lines(source), i))
    ensures var lines, properties := Lines(source), Parse(source).properties;
            var k := Count(lines, from, i);
            && |properties| == Count(lines, from, end) > k
            && var line := ParsePropertyLine(LineAt(lines, i)).value;
            && properties[k].name == line.name && properties[k].optional == line.optional
            && properties[k].typeName == (if line.typeName == "{" then "Object" else line.typeName)
            && properties[k].exampleValue == line.exampleValue && properties[k].path == PathAt(lines, from, i)
            && (properties[k].serverOnly <==> Holds(lines, from, i, "@serverOnly"))
            && (properties[k].clientOnly <==> Holds(lines, from, i, "@clientOnly"))
            && (properties[k].nullable <==> SaidBefore(lines, from, i, "@nullable"))
            && OrNothing(properties[k].description) == Trim(Described(lines, from, i))
  {
    hide Lines, Parse, IsDeclaration, IsPropertyLine, LineAt, Holds, SaidBefore, Described, Trim, PathAt;
    ParsedAsDocumented(source, from, end);
    DeclarationEnds(Lines(source), from, end);
    DocumentedInOrder(Lines(source), from, i, end);
  }

  function OrNothing(text: Option<string>): string { if text.Some? then text.value else "" }

  lemma DeclarationEnds(lines: seq<string>, from: nat, end: nat)
    requires IsDeclaration(lines, from, end)
    ensures from < end < |lines|
  {}

  // Lines written out are read back.

  predicate IsName(name: string) {
    name != "" && IsNameStart(name[0]) && forall i | 0 <= i < |name| :: IsNamePart(name[i])
  }

  /** A text that stands on one line, trimmed, and does not end with a mark of its own. */
  predicate IsPlain(text: string) {
    && text != "" && !IsSpace(text[0]) && !IsSpace(text[|text| - 1])
    && text[|text| - 1] != ';' && text[|text| - 1] != ','
    && !HasLineTerminator(text)
  }

  predicate IsMark(mark: string) { mark == "" || mark == ";" || mark == "," }

  /** The type, its example if it has one, and the mark at the end. */
  function Declared(typeName: string, example: Option<string>, mark: string): string {
    typeName + (if example.Some? then " = " + example.value else "") + mark
  }

  lemma MarkIsDropped(text: string, mark: string)
    requires IsPlain(text) && IsMark(mark)
    ensures DropMark(Trim(text + mark)) == text
  {
    hide Trim, HasLineTerminator;
    if mark == "" {
      assert text + mark == text;
      TrimOfTrimmed(text);
    } else {
      var all := text + mark;
      assert all[0] == text[0] && all[|all| - 1] == mark[0] && all[..|all| - 1] == text;
      TrimOfTrimmed(all);
    }
  }

  lemma SeparatorIsFound(typeName: string, rest: string)
    requires forall j | 0 <= j < |typeName| :: !OccursAt(typeName + " = ", " = ", j)
    ensures IndexOf(typeName + " = " + rest, " = ", 0) == Some(|typeName|)
  {
    var head := typeName + " = ";
    forall j | 0 <= j < |typeName| ensures !OccursAt(head + rest, " = ", j) {
      OccursInFirst(head, rest, " = ", j);
    }
    assert head[|typeName|..|typeName| + 3] == " = ";
    OccursInFirst(head, rest, " = ", |typeName|);
    IndexOfIs(head + rest, " = ", 0, |typeName|);
  }

  lemma NoSeparator(typeName: string, mark: string)
    requires IsMark(mark) && forall j | 0 <= j < |typeName| :: !OccursAt(typeName + " = ", " = ", j)
    ensures IndexOf(typeName + mark, " = ", 0) == None
  {
    var s := typeName + mark;
    forall j | 0 <= j ensures !OccursAt(s, " = ", j) {
      if j + 3 <= |typeName| {
        OccursInFirst(typeName, mark, " = ", j);
        OccursInFirst(typeName, " = ", " = ", j);
      } else if j + 3 <= |s| {
        assert s[j..j + 3][2] == s[j + 2] == mark[0];
        assert " = "[2] == ' ';
      }
    }
    IndexOfNone(s, " = ");
  }

  lemma DeclaredIsRead(typeName: string, example: Option<string>, mark: string)
    requires IsPlain(typeName) && (example.Some? ==> IsPlain(example.value)) && IsMark(mark)
    requires forall j | 0 <= j < |typeName| :: !OccursAt(typeName + " = ", " = ", j)
    ensures DeclarationOf(Declared(typeName, example, mark)) == (typeName, example)
  {
    hide DropMark, Trim, IndexOf, OccursAt, IsPlain;
    var d := Declared(typeName, example, mark);
    if example.None? {
      assert d == typeName + mark;
      NoSeparator(typeName, mark);
      MarkIsDropped(typeName, mark);
    } else {
      ConcatAssociates(typeName, " = ", example.value);
      ConcatAssociates(typeName, " = " + example.value, mark);
      assert d == typeName + " = " + (example.value + mark);
      SeparatorIsFound(typeName, example.value + mark);
      assert d[..|typeName|] == typeName + "" && d[|typeName| + 3..] == example.value + mark;
      MarkIsDropped(typeName, "");
      MarkIsDropped(example.value, mark);
    }
  }

  lemma DeclaredIsOneLine(typeName: string, example: Option<string>, mark: string)
    requires IsPlain(typeName) && (example.Some? ==> IsPlain(example.value)) && IsMark(mark)
    ensures var d := Declared(typeName, example, mark);
            d != "" && !IsSpace(d[0]) && !HasLineTerminator(d)
  {
    assert Declared(typeName, example, mark)[0] == typeName[0];
  }

  /** A line that is written from a name, a question mark, a type and an example reads back as those four. */
  lemma PropertyLineReadsBack(name: string, optional: bool, gap: string, typeName: string, example: Option<string>,
                              mark: string)
    requires IsName(name) && AllSpace(gap) && IsMark(mark)
    requires IsPlain(typeName) && (example.Some? ==> IsPlain(example.value))
    requires forall j | 0 <= j < |typeName| :: !OccursAt(typeName + " = ", " = ", j)
    ensures ParsePropertyLine(name + (if optional then "?" else "") + (":" + (gap + Declared(typeName, example, mark))))
         == Some(PropertyLine(name, optional, typeName, example))
  {
    hide DeclarationOf, OccursAt, Declared, IsPlain, TrimStart, NameLength, IsNameStart, IsNamePart, IsSpace,
         HasLineTerminator, ParsePropertyLine, IsName, IsMark, AllSpace;
    var d := Declared(typeName, example, mark);
    var behind, question := ":" + (gap + d), if optional then "?" else "";
    var line := name + question + behind;
    NameComesFirst(name, question, behind);
    DeclaredIsRead(typeName, example, mark);
    DeclaredIsOneLine(typeName, example, mark);
    assert behind[1..] == gap + d;
    TrimmedBehind(gap, d);
    ParsesBy(line, |name|, optional, d);
  }

  lemma ParsesBy(line: string, n: nat, optional: bool, d: string)
    requires line != "" && IsNameStart(line[0]) && NameLength(line) == n && ("?" <= line[n..] <==> optional)
    requires var rest := if optional then line[n + 1..] else line[n..]; ":" <= rest && TrimStart(rest[1..]) == d
    requires d != "" && !HasLineTerminator(d)
    ensures ParsePropertyLine(line) == Some(PropertyLine(line[..n], optional, DeclarationOf(d).0, DeclarationOf(d).1))
  {
    hide DeclarationOf, TrimStart, NameLength, IsNameStart, HasLineTerminator;
  }

  lemma NameComesFirst(name: string, question: string, behind: string)
    requires IsName(name) && (question == "" || question == "?") && ":" <= behind
    ensures var line := name + question + behind;
            && line != "" && IsNameStart(line[0]) && NameLength(line) == |name| && line[..|name|] == name
            && ("?" <= line[|name|..] <==> question == "?")
            && (if question == "?" then |name| + 1 <= |line| && line[|name| + 1..] == behind
                else line[|name|..] == behind)
  {
    hide IsNameStart, IsNamePart, NameLength;
    var line, rest := name + question + behind, question + behind;
    ConcatAssociates(name, question, behind);
    MarksAreNoNames();
    assert rest[0] == (if question == "" then ':' else '?');
    NameIsRead(name, rest);
    assert line[|name|..] == rest && line[0] == name[0];
  }

  lemma MarksAreNoNames()
    ensures !IsNamePart('?') && !IsNamePart(':')
  {}

  /** What a comment says behind its directive is read without the dash that may separate it. */
  lemma DirectiveReadsBack(directive: string, gap: string, dash: string, space: string, text: string)
    requires AllSpace(gap) && AllSpace(space) && IsTrimmed(text) && (dash == "-" || (dash == "" && !("-" <= text)))
    ensures ReadDirective(directive + (" " + (gap + (dash + (space + text)))), directive) == Some(text)
  {
    hide Trim, TrimStart, AllSpace, IsTrimmed, ReadDirective;
    var rest := " " + (gap + (dash + (space + text)));
    if dash == "-" {
      DashIsDropped(gap, space, text);
    } else {
      SpacesAreDropped(gap, space, text);
      assert dash + (space + text) == space + text;
    }
    ReadsBehind(directive, rest, text);
  }

  lemma ReadsBehind(directive: string, rest: string, text: string)
    requires " " <= rest
    requires var dashed := TrimStart(rest); text == Trim(if "-" <= dashed then dashed[1..] else rest)
    ensures ReadDirective(directive + rest, directive) == Some(text)
  {
    hide Trim, TrimStart;
    assert rest == " " + rest[1..];
    ConcatAssociates(directive, " ", rest[1..]);
    BeginsAndEnds(directive + " ", rest[1..]);
    BeginsAndEnds(directive, rest);
  }

  lemma BeginsAndEnds(a: string, b: string)
    ensures a <= a + b && (a + b)[|a|..] == b
  {}

  /** A directive that stands alone says nothing more. */
  lemma LoneDirective(directive: string)
    ensures ReadDirective(directive, directive) == Some("")
  {
    hide Trim, TrimStart;
    assert directive[|directive|..] == "";
    EmptyTrims();
  }

  lemma TrimmedText(space: string, text: string)
    requires AllSpace(space) && IsTrimmed(text)
    ensures Trim(space + text) == text
  {
    hide Trim, AllSpace, IsTrimmed;
    NoSpace();
    TrimSurrounded(space, text, "");
    assert space + text + "" == space + text;
  }

  lemma NoSpace()
    ensures AllSpace("")
  {}

  lemma OneSpaceMore(gap: string)
    requires AllSpace(gap)
    ensures AllSpace(" " + gap)
  {}

  lemma SpacesMore(a: string, b: string)
    requires AllSpace(a) && AllSpace(b)
    ensures AllSpace(a + b)
  {}

  lemma DashIsDropped(gap: string, space: string, text: string)
    requires AllSpace(gap) && AllSpace(space) && IsTrimmed(text)
    ensures var dashed := TrimStart(" " + (gap + ("-" + (space + text))));
            "-" <= dashed && Trim(dashed[1..]) == text
  {
    hide Trim, TrimStart, AllSpace, IsTrimmed;
    var tail := "-" + (space + text);
    OneSpaceMore(gap);
    ConcatAssociates(" ", gap, tail);
    assert tail[0] == '-' && tail[1..] == space + text && !IsSpace('-');
    TrimmedBehind(" " + gap, tail);
    TrimmedText(space, text);
  }

  lemma SpacesAreDropped(gap: string, space: string, text: string)
    requires AllSpace(gap) && AllSpace(space) && IsTrimmed(text) && !("-" <= text)
    ensures var rest := " " + (gap + (space + text));
            !("-" <= TrimStart(rest)) && Trim(rest) == text
  {
    hide Trim, TrimStart, AllSpace, IsTrimmed;
    var spaces := " " + gap + space;
    OneSpaceMore(gap);
    SpacesMore(" " + gap, space);
    ConcatAssociates(" " + gap, space, text);
    ConcatAssociates(" ", gap, space + text);
    TrimmedText(spaces, text);
    TrimStartSpaces(spaces, text);
    BeginsTrimmed(text);
  }

  lemma EmptyTrims()
    ensures Trim("") == "" && TrimStart("") == "" && !("-" <= "")
  {
    hide TrimStart, TrimEnd;
    TrimsOfNothing();
  }

  lemma BeginsTrimmed(text: string)
    requires IsTrimmed(text)
    ensures TrimStart(text) == text
  {}

  /** A declaration's first line reads back as the declared name. */
  lemma DeclarationReadsBack(name: string, gap: string, before: string, behind: string)
    requires IsName(name) && AllSpace(gap) && gap != "" && AllSpace(before) && AllSpace(behind)
    ensures DeclaredName("type" + (gap + (name + (before + ("=" + (behind + "{")))))) == Some(name)
  {
    hide TrimStart, NameLength, IsNamePart, IsNameStart, IsSpace, AllSpace, DeclaredName;
    var tail := "=" + (behind + "{");
    var named := name + (before + tail);
    DeclarationParts(name, gap, before, behind);
    SpacesAreNoNames(name, before);
    GapIsSpace(gap);
    TrimmedBehind(gap, named);
    NameIsRead(name, before + tail);
    TrimmedBehind(before, tail);
    TrimmedBehind(behind, "{");
    DeclaresBy("type" + (gap + named), named, |name|, tail);
  }

  lemma DeclarationParts(name: string, gap: string, before: string, behind: string)
    requires gap != "" && name != ""
    ensures var tail := "=" + (behind + "{");
            var named := name + (before + tail);
            var line := "type" + (gap + named);
            && "type" <= line && |line| > 4 && line[4] == gap[0] && line[4..] == gap + named
            && named[0] == name[0] && named[..|name|] == name && named[|name|..] == before + tail
            && "=" <= tail && tail[0] == '=' && tail[1..] == behind + "{"
            && (before + tail)[0] == (if before == "" then '=' else before[0])
  {}

  lemma GapIsSpace(gap: string)
    requires AllSpace(gap) && gap != ""
    ensures IsSpace(gap[0])
  {}

  lemma DeclaresBy(line: string, named: string, n: nat, tail: string)
    requires "type" <= line && |line| > 4 && IsSpace(line[4]) && TrimStart(line[4..]) == named
    requires named != "" && IsNameStart(named[0]) && NameLength(named) == n && TrimStart(named[n..]) == tail
    requires "=" <= tail && TrimStart(tail[1..]) == "{"
    ensures DeclaredName(line) == Some(named[..n])
  {
    hide TrimStart, NameLength, IsNameStart, IsSpace;
  }

  lemma SpacesAreNoNames(name: string, spaces: string)
    requires IsName(name) && AllSpace(spaces)
    ensures !IsSpace(name[0]) && !IsNamePart('=') && !IsSpace('=') && !IsSpace('{')
    ensures spaces != "" ==> !IsNamePart(spaces[0]) && IsSpace(spaces[0])
  {}

  // Every line that is read was written so.

  /** The first line of a declaration, from its parts. */
  ghost predicate IsTypeLine(line: string, name: string, gap: string, before: string, behind: string) {
    && IsName(name) && AllSpace(gap) && gap != "" && AllSpace(before) && AllSpace(behind)
    && line == "type" + (gap + (name + (before + ("=" + (behind + "{")))))
  }

  /** A line declares a name exactly when it is written so. */
  lemma DeclaredExactlyWhen(line: string, name: string)
    ensures DeclaredName(line) == Some(name) <==>
            exists gap, before, behind :: IsTypeLine(line, name, gap, before, behind)
  {
    hide DeclaredName, IsTypeLine;
    if DeclaredName(line) == Some(name) {
      var gap, before, behind := TypeLineParts(line, name);
    }
    forall gap, before, behind | IsTypeLine(line, name, gap, before, behind) ensures DeclaredName(line) == Some(name) {
      TypeLineDeclares(line, name, gap, before, behind);
    }
  }

  lemma TypeLineDeclares(line: string, name: string, gap: string, before: string, behind: string)
    requires IsTypeLine(line, name, gap, before, behind)
    ensures DeclaredName(line) == Some(name)
  {
    hide DeclaredName, IsName, AllSpace;
    DeclarationReadsBack(name, gap, before, behind);
  }

  /** Trimming the start splits off white space. */
  lemma TrimSplits(s: string) returns (spaces: string)
    ensures AllSpace(spaces) && s == spaces + TrimStart(s)
    ensures s != "" && IsSpace(s[0]) ==> spaces != ""
  {
    hide TrimStart, AllSpace, IsSpace;
    spaces := s[..|s| - |TrimStart(s)|];
    SplitBack(s, |s| - |TrimStart(s)|);
    if s != "" && IsSpace(s[0]) { GapIsNeeded(s, TrimStart(s)); }
  }

  lemma BeginsWith(s: string, beginning: string)
    requires beginning <= s
    ensures s == beginning + s[|beginning|..]
  {}

  lemma ReadsTypeLine(line: string, name: string) returns (rest: string, named: string, tail: string)
    requires DeclaredName(line) == Some(name)
    ensures line == "type" + rest && rest != "" && IsSpace(rest[0]) && named == TrimStart(rest)
    ensures named != "" && IsNameStart(named[0]) && name == named[..NameLength(named)]
    ensures TrimStart(named[NameLength(named)..]) == "=" + tail && TrimStart(tail) == "{"
  {
    hide TrimStart, IsNameStart, NameLength, IsSpace;
    var keyword, mark := "type", "=";
    BeginsWith(line, keyword);
    rest := line[|keyword|..];
    named := TrimStart(rest);
    var behind := TrimStart(named[NameLength(named)..]);
    BeginsWith(behind, mark);
    tail := behind[|mark|..];
  }

  lemma TypeLineParts(line: string, name: string) returns (gap: string, before: string, behind: string)
    requires DeclaredName(line) == Some(name)
    ensures IsTypeLine(line, name, gap, before, behind)
  {
    hide DeclaredName, TrimStart, AllSpace, IsNameStart, NameLength, IsSpace, IsName;
    var rest, named, tail := ReadsTypeLine(line, name);
    gap := TrimSplits(rest);
    before := TrimSplits(named[NameLength(named)..]);
    behind := TrimSplits(tail);
    LeadingNameIsName(named);
    SplitBack(named, NameLength(named));
  }

  lemma LeadingNameIsName(s: string)
    requires s != "" && IsNameStart(s[0])
    ensures IsName(s[..NameLength(s)])
  {
    hide IsNameStart, IsNamePart, NameLength;
    NamesAreWords(s);
  }

  lemma GapIsNeeded(rest: string, named: string)
    requires rest != "" && IsSpace(rest[0]) && named == TrimStart(rest)
    ensures |named| < |rest|
  {}

  /** A line of a property, from its parts. */
  ghost predicate IsPropertyText(line: string, name: string, optional: bool, gap: string, declaration: string) {
    && IsName(name) && AllSpace(gap) && declaration != "" && !IsSpace(declaration[0]) && !HasLineTerminator(declaration)
    && line == name + (if optional then "?" else "") + (":" + (gap + declaration))
  }

  /** A line is read as a property exactly when it is written as a name, a question mark or none, a colon and a
      declaration on one line, and then these are what is read. */
  lemma PropertyExactlyWhen(line: string, name: string, optional: bool, declaration: string)
    ensures (ParsePropertyLine(line).Some? <==>
               exists name, optional, gap, declaration :: IsPropertyText(line, name, optional, gap, declaration))
    ensures (exists gap :: IsPropertyText(line, name, optional, gap, declaration)) ==>
              ParsePropertyLine(line)
              == Some(PropertyLine(name, optional, DeclarationOf(declaration).0, DeclarationOf(declaration).1))
  {
    hide ParsePropertyLine, IsPropertyText, DeclarationOf;
    if ParsePropertyLine(line).Some? {
      var itsName, isOptional, gap, itsDeclaration := PropertyTextParts(line);
    }
    forall name, optional, gap, declaration | IsPropertyText(line, name, optional, gap, declaration)
      ensures ParsePropertyLine(line)
              == Some(PropertyLine(name, optional, DeclarationOf(declaration).0, DeclarationOf(declaration).1))
    {
      PropertyTextReads(line, name, optional, gap, declaration);
    }
  }

  lemma PropertyTextReads(line: string, name: string, optional: bool, gap: string, declaration: string)
    requires IsPropertyText(line, name, optional, gap, declaration)
    ensures ParsePropertyLine(line)
         == Some(PropertyLine(name, optional, DeclarationOf(declaration).0, DeclarationOf(declaration).1))
  {
    hide ParsePropertyLine, IsName, AllSpace, IsSpace, HasLineTerminator, DeclarationOf, TrimStart, NameLength,
         IsNameStart;
    var behind := ":" + (gap + declaration);
    NameComesFirst(name, if optional then "?" else "", behind);
    TrimmedBehind(gap, declaration);
    assert behind[1..] == gap + declaration;
    ParsesBy(line, |name|, optional, declaration);
  }

  lemma ReadsPropertyText(line: string) returns (n: nat, optional: bool, rest: string)
    requires ParsePropertyLine(line).Some?
    ensures line != "" && IsNameStart(line[0]) && n == NameLength(line)
    ensures line[n..] == (if optional then "?" else "") + (":" + rest) && TrimStart(rest) != ""
    ensures !HasLineTerminator(TrimStart(rest))
  {
    hide DeclarationOf, TrimStart, NameLength, IsNameStart, HasLineTerminator;
    n := NameLength(line);
    optional := "?" <= line[n..];
    var colon := if optional then line[n + 1..] else line[n..];
    rest := colon[1..];
    QuestionSplits(line[n..]);
    BeginsWith(colon, ":");
    assert optional ==> line[n..][1..] == colon;
  }

  lemma PropertyTextParts(line: string) returns (name: string, optional: bool, gap: string, declaration: string)
    requires ParsePropertyLine(line).Some?
    ensures IsPropertyText(line, name, optional, gap, declaration)
  {
    hide ParsePropertyLine, TrimStart, NameLength, IsNameStart, HasLineTerminator, AllSpace, IsSpace, IsName;
    var n, question, rest := ReadsPropertyText(line);
    optional := question;
    name := line[..n];
    gap := TrimSplits(rest);
    declaration := TrimStart(rest);
    LeadingNameIsName(line);
    SplitBack(line, n);
    ConcatAssociates(name, if optional then "?" else "", ":" + (gap + declaration));
  }

  lemma QuestionSplits(s: string)
    ensures "?" <= s ==> s == "?" + s[1..]
  {}

  /** An object or the declaration is closed by a brace, with or without a mark. */
  lemma ClosesExactlyWhen(line: string)
    ensures IsClosing(line) <==> exists mark | IsMark(mark) :: line == "}" + mark
  {
    if IsClosing(line) {
      assert IsMark(line[1..]) && line == "}" + line[1..];
    }
  }
}
