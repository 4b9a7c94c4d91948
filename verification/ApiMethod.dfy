/** Parsing the type declaration that documents an API method into a flat list of properties. */
module ApiMethod {
  import opened Wrappers
  import opened Text

  datatype Property = Property(
    name: string, optional: bool, typeName: string, exampleValue: Option<string>, description: Option<string>,
    serverOnly: bool, clientOnly: bool, path: seq<string>, nullable: bool)

  datatype ParsedApiMethod = ParsedApiMethod(
    functionName: string, properties: seq<Property>, codePrefix: string, codeSuffix: string, typeDefinition: string)

  predicate IsNameStart(c: char) { IsLetter(c) || c == '_' || c == '$' }

  predicate IsNamePart(c: char) { IsNameStart(c) || IsDigit(c) }

  /** How many leading characters a name can take. */
  function NameLength(s: string): (n: nat)
    ensures n <= |s|
  {
    if s != [] && IsNamePart(s[0]) then 1 + NameLength(s[1..]) else 0
  }

  lemma {:induction false} NameIsRead(name: string, rest: string)
    requires (forall i | 0 <= i < |name| :: IsNamePart(name[i])) && (rest == "" || !IsNamePart(rest[0]))
    ensures NameLength(name + rest) == |name|
  {
    hide IsNamePart;
    if name == "" {
      assert name + rest == rest;
    } else {
      assert (name + rest)[1..] == name[1..] + rest;
      NameIsRead(name[1..], rest);
    }
  }

  lemma {:induction false} NamesAreWords(s: string)
    ensures forall i | 0 <= i < NameLength(s) :: IsNamePart(s[i])
    ensures s != "" && IsNameStart(s[0]) ==> NameLength(s) > 0
  {
    if s == "" {
    } else {
      NamesAreWords(s[1..]);
      assert forall i | 0 < i < |s| :: s[i] == s[1..][i - 1];
    }
  }

  /** The name that `/^type\s+([A-Za-z_$][\w$]*)\s*=\s*\{$/` captures. */
  function DeclaredName(line: string): Option<string> {
    if !("type" <= line && |line| > 4 && IsSpace(line[4])) then None else
    var named := TrimStart(line[4..]);
    if named == [] || !IsNameStart(named[0]) then None else
    var n := NameLength(named);
    var tail := TrimStart(named[n..]);
    if "=" <= tail && TrimStart(tail[1..]) == "{" then Some(named[..n]) else None
  }

  predicate IsClosing(line: string) { line == "}" || line == "}," || line == "};" }

  datatype PropertyLine = PropertyLine(name: string, optional: bool, typeName: string, exampleValue: Option<string>)

  /** `s.replace(/[;,]$/, "")`. */
  function DropMark(s: string): string {
    if s != [] && (s[|s| - 1] == ';' || s[|s| - 1] == ',') then s[..|s| - 1] else s
  }

  /** The type, and the example if one follows. */
  function DeclarationOf(declaration: string): (string, Option<string>) {
    var separator := IndexOf(declaration, " = ", 0);
    if separator.None? then (DropMark(Trim(declaration)), None)
    else
      (DropMark(Trim(declaration[..separator.value])), Some(DropMark(Trim(declaration[separator.value + 3..]))))
  }

  /** Reads `name?: declaration` from a trimmed line. */
  function ParsePropertyLine(line: string): Option<PropertyLine> {
    if line == [] || !IsNameStart(line[0]) then None else
    var n := NameLength(line);
    var optional := "?" <= line[n..];
    var rest := if optional then line[n + 1..] else line[n..];
    if !(":" <= rest) then None else
    var declaration := TrimStart(rest[1..]);
    if declaration == [] || HasLineTerminator(declaration) then None else
    var (typeName, exampleValue) := DeclarationOf(declaration);
    Some(PropertyLine(line[..n], optional, typeName, exampleValue))
  }

  function ReadDirective(value: string, directive: string): Option<string> {
    if value != directive && !(directive + " " <= value) then None else
    var rest := value[|directive|..];
    var dashed := TrimStart(rest);
    Some(Trim(if "-" <= dashed then dashed[1..] else rest))
  }

  predicate IsPathRestricted(restricted: set<string>, path: seq<string>) {
    exists length: nat | 1 <= length <= |path| :: Join(path[..length], ".") in restricted
  }

  /** What comments have said since the last property. */
  datatype Pending = Pending(description: string, serverOnly: bool, clientOnly: bool, nullable: bool)

  const NOTHING_PENDING := Pending("", false, false, false)

  /** The variables of the parsing loop. */
  datatype Scanner = Scanner(
    properties: seq<Property>, nestedPath: seq<string>, serverOnlyPaths: set<string>, clientOnlyPaths: set<string>,
    functionName: string, typeStart: Option<nat>, typeEnd: Option<nat>, pending: Pending)

  const START := Scanner([], [], {}, {}, "", None, None, NOTHING_PENDING)

  function AddDescription(description: string, more: string): string {
    if more == "" then description else description + more + " "
  }

  /** A line of a comment, without its star. */
  function ReadComment(p: Pending, value: string): Pending {
    if value == "" then p else
    match ReadDirective(value, "@serverOnly")
    case Some(more) => p.(serverOnly := true, description := AddDescription(p.description, more))
    case None =>
      match ReadDirective(value, "@clientOnly")
      case Some(more) => p.(clientOnly := true, description := AddDescription(p.description, more))
      case None =>
        match ReadDirective(value, "@nullable")
        case Some(more) => p.(nullable := true, description := AddDescription(p.description, more))
        case None => p.(description := p.description + value + " ")
  }

  function ScanProperty(s: Scanner, line: PropertyLine): Scanner {
    var nested := line.typeName == "{";
    var nestedPath := if nested then s.nestedPath + [line.name] else s.nestedPath;
    var serverOnlyPaths :=
      if nested && s.pending.serverOnly then s.serverOnlyPaths + {Join(nestedPath, ".")} else s.serverOnlyPaths;
    var clientOnlyPaths :=
      if nested && s.pending.clientOnly then s.clientOnlyPaths + {Join(nestedPath, ".")} else s.clientOnlyPaths;
    var description := Trim(s.pending.description);
    var property := Property(
      line.name, line.optional, if nested then "Object" else line.typeName, line.exampleValue,
      if description == "" then None else Some(description),
      s.pending.serverOnly || IsPathRestricted(serverOnlyPaths, nestedPath),
      s.pending.clientOnly || IsPathRestricted(clientOnlyPaths, nestedPath),
      s.nestedPath, s.pending.nullable);
    s.(properties := s.properties + [property], nestedPath := nestedPath, serverOnlyPaths := serverOnlyPaths,
       clientOnlyPaths := clientOnlyPaths, pending := NOTHING_PENDING)
  }

  /** One turn of the loop, on a trimmed line. After the closing brace nothing changes any more. */
  function ScanLine(s: Scanner, index: nat, line: string): Scanner {
    if s.typeEnd.Some? then s
    else if s.typeStart.None? then
      match DeclaredName(line)
      case Some(name) => s.(functionName := name, typeStart := Some(index))
      case None => s
    else if IsClosing(line) then
      if s.nestedPath != [] then s.(nestedPath := s.nestedPath[..|s.nestedPath| - 1])
      else s.(typeEnd := Some(index))
    else if "/*" <= line || "*/" <= line then s
    else if "*" <= line then s.(pending := ReadComment(s.pending, Trim(line[1..])))
    else
      match ParsePropertyLine(line)
      case Some(parsed) => ScanProperty(s, parsed)
      case None => s
  }

  /** The state after the first n lines. */
  function Scan(lines: seq<string>, n: nat): Scanner
    requires n <= |lines|
  {
    if n == 0 then START else ScanLine(Scan(lines, n - 1), n - 1, Trim(lines[n - 1]))
  }

  /** A comment or a property does not touch the bounds of the declaration. */
  lemma ScanLineBounds(s: Scanner, index: nat, line: string)
    ensures var t := ScanLine(s, index, line);
            if s.typeEnd.Some? then t == s
            else if s.typeStart.None? then
              t == s || t == s.(functionName := t.functionName, typeStart := Some(index))
            else t.functionName == s.functionName && t.typeStart == s.typeStart && t.typeEnd in {None, Some(index)}
  {
    hide IsClosing, DeclaredName, ParsePropertyLine, ReadComment, IsPathRestricted, Trim, Join;
  }

  lemma {:induction false} ScanBounds(lines: seq<string>, n: nat)
    requires n <= |lines|
    ensures var s := Scan(lines, n);
            && (s.typeStart.Some? ==> s.typeStart.value < n)
            && (s.typeEnd.Some? ==> s.typeStart.Some? && s.typeStart.value < s.typeEnd.value < n)
  {
    hide ScanLine, Trim;
    if n == 0 {
    } else {
      ScanBounds(lines, n - 1);
      ScanLineBounds(Scan(lines, n - 1), n - 1, Trim(lines[n - 1]));
    }
  }

  /** `s.replaceAll("\r\n", "\n")`. */
  function UnifyBreaks(s: string): string {
    if |s| >= 2 && s[0] == '\r' && s[1] == '\n' then "\n" + UnifyBreaks(s[2..])
    else if s == [] then []
    else [s[0]] + UnifyBreaks(s[1..])
  }

  function Lines(source: string): seq<string> { Split(Trim(UnifyBreaks(source)), '\n') }

  /** What the loop's result is turned into. */
  function Parse(source: string): ParsedApiMethod {
    var lines := Lines(source);
    var s := Scan(lines, |lines|);
    if s.typeStart.None? || s.typeEnd.None? then ParsedApiMethod("", [], "", "", Trim(source)) else
    ScanBounds(lines, |lines|);
    var first, end := s.typeStart.value, s.typeEnd.value + 1;
    var prefix, suffix := Trim(Join(lines[..first], "\n")), Trim(Join(lines[end..], "\n"));
    ParsedApiMethod(s.functionName, s.properties, if prefix == "" then "" else prefix + "\n",
                    if suffix == "" then "" else "\n" + suffix, Join(lines[first..end], "\n"))
  }

  lemma {:induction false} ScanStaysEnded(lines: seq<string>, n: nat, m: nat)
    requires n <= m <= |lines| && Scan(lines, n).typeEnd.Some?
    ensures Scan(lines, m) == Scan(lines, n)
  {
    hide ScanLine, Trim;
    if n < m {
      ScanStaysEnded(lines, n, m - 1);
      ScanLineBounds(Scan(lines, m - 1), m - 1, Trim(lines[m - 1]));
    }
  }

  method ScanLines(lines: seq<string>) returns (scanned: Scanner)
    ensures scanned == Scan(lines, |lines|)
  {
    hide IsClosing, DeclaredName, ParsePropertyLine, ReadComment, IsPathRestricted, Trim, Join;
    var properties: seq<Property> := [];
    var nestedPath: seq<string> := [];
    var serverOnlyPaths: set<string> := {};
    var clientOnlyPaths: set<string> := {};
    var functionName := "";
    var typeStart: Option<nat> := None;
    var typeEnd: Option<nat> := None;
    var pending := NOTHING_PENDING;

    var index := 0;
    while index < |lines| && typeEnd.None?
      invariant 0 <= index <= |lines|
      invariant Scan(lines, index) ==
        Scanner(properties, nestedPath, serverOnlyPaths, clientOnlyPaths, functionName, typeStart, typeEnd,
                pending)
      decreases |lines| - index
    {
      var line := Trim(lines[index]);
      index := index + 1;
      if typeStart.None? {
        var declaration := DeclaredName(line);
        if declaration.Some? {
          functionName, typeStart := declaration.value, Some(index - 1);
        }
        continue;
      }
      if IsClosing(line) {
        if |nestedPath| > 0 {
          nestedPath := nestedPath[..|nestedPath| - 1];
          continue;
        }
        typeEnd := Some(index - 1);
        continue;
      }
      if "/*" <= line || "*/" <= line {
        continue;
      }
      if "*" <= line {
        pending := ReadComment(pending, Trim(line[1..]));
        continue;
      }
      var found := ParsePropertyLine(line);
      if found.None? {
        continue;
      }
      var propertyPath := nestedPath;
      var nested := found.value.typeName == "{";
      if nested {
        nestedPath := nestedPath + [found.value.name];
        if pending.serverOnly {
          serverOnlyPaths := serverOnlyPaths + {Join(nestedPath, ".")};
        }
        if pending.clientOnly {
          clientOnlyPaths := clientOnlyPaths + {Join(nestedPath, ".")};
        }
      }
      var text := Trim(pending.description);
      properties := properties + [Property(
        found.value.name, found.value.optional, if nested then "Object" else found.value.typeName,
        found.value.exampleValue, if text == "" then None else Some(text),
        pending.serverOnly || IsPathRestricted(serverOnlyPaths, nestedPath),
        pending.clientOnly || IsPathRestricted(clientOnlyPaths, nestedPath),
        propertyPath, pending.nullable)];
      pending := NOTHING_PENDING;
    }
    if typeEnd.Some? {
      ScanStaysEnded(lines, index, |lines|);
    }
    scanned := Scanner(properties, nestedPath, serverOnlyPaths, clientOnlyPaths, functionName, typeStart, typeEnd,
                       pending);
  }

  method ParseApiMethod(source: string) returns (parsed: ParsedApiMethod)
    ensures parsed == Parse(source)
  {
    hide ScanLine, Trim, Join, Lines, Scan;
    var lines := Lines(source);
    var s := ScanLines(lines);
    ScanBounds(lines, |lines|);
    if s.typeStart.None? || s.typeEnd.None? {
      return ParsedApiMethod("", [], "", "", Trim(source));
    }
    var prefix := Trim(Join(lines[..s.typeStart.value], "\n"));
    var suffix := Trim(Join(lines[s.typeEnd.value + 1..], "\n"));
    parsed := ParsedApiMethod(s.functionName, s.properties, if prefix != "" then prefix + "\n" else "",
                              if suffix != "" then "\n" + suffix else "",
                              Join(lines[s.typeStart.value..s.typeEnd.value + 1], "\n"));
  }
}
