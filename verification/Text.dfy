/** The string operations that several components share: prefixes, trimming,
    splitting on a character and joining. */
module Text {
  import opened Wrappers

  /** The characters that `String.prototype.trim` removes and `\s` matches. */
  predicate IsSpace(c: char) {
    || c == '\t' || c == '\n' || c == '\U{b}' || c == '\U{c}' || c == '\r' || c == ' '
    || c == '\U{a0}' || c == '\U{1680}' || '\U{2000}' <= c <= '\U{200a}'
    || c == '\U{2028}' || c == '\U{2029}' || c == '\U{202f}' || c == '\U{205f}'
    || c == '\U{3000}' || c == '\U{feff}'
  }

  /** The characters that `.` does not match. */
  predicate IsLineTerminator(c: char) {
    c == '\n' || c == '\r' || c == '\U{2028}' || c == '\U{2029}'
  }

  predicate HasLineTerminator(s: string) { exists i | 0 <= i < |s| :: IsLineTerminator(s[i]) }

  predicate IsDigit(c: char) { '0' <= c <= '9' }

  predicate IsLetter(c: char) { 'a' <= c <= 'z' || 'A' <= c <= 'Z' }

  /** The base64url alphabet. */
  predicate IsBase64Url(c: char) { IsLetter(c) || IsDigit(c) || c == '-' || c == '_' }

  ghost predicate AllSpace(s: string) { forall i | 0 <= i < |s| :: IsSpace(s[i]) }

  ghost predicate IsTrimmed(s: string) {
    s != [] ==> !IsSpace(s[0]) && !IsSpace(s[|s| - 1])
  }

  function TrimStart(s: string): (r: string)
    ensures |r| <= |s| && r == s[|s| - |r|..] && AllSpace(s[..|s| - |r|])
    ensures r != [] ==> !IsSpace(r[0])
  {
    if s != [] && IsSpace(s[0]) then
      var r := TrimStart(s[1..]);
      OneMoreSpace(s, r);
      r
    else s
  }

  lemma OneMoreSpace(s: string, r: string)
    requires s != [] && IsSpace(s[0]) && |r| < |s| && r == s[1..][|s| - 1 - |r|..] && AllSpace(s[1..][..|s| - 1 - |r|])
    ensures r == s[|s| - |r|..] && AllSpace(s[..|s| - |r|])
  {
    hide IsSpace;
    assert s[..|s| - |r|] == [s[0]] + s[1..][..|s| - 1 - |r|];
  }

  function TrimEnd(s: string): (r: string)
    ensures r <= s && AllSpace(s[|r|..])
    ensures r != [] ==> !IsSpace(r[|r| - 1])
  {
    if s != [] && IsSpace(s[|s| - 1]) then
      var r := TrimEnd(s[..|s| - 1]);
      assert s[|r|..] == s[..|s| - 1][|r|..] + [s[|s| - 1]];
      r
    else s
  }

  function Trim(s: string): (r: string)
    ensures IsTrimmed(r) && |r| <= |s|
  {
    TrimEnd(TrimStart(s))
  }

  lemma {:induction false} TrimStartSpaces(a: string, s: string)
    requires AllSpace(a)
    ensures TrimStart(a + s) == TrimStart(s)
  {
    if a == [] {
      assert a + s == s;
    } else {
      assert (a + s)[1..] == a[1..] + s;
      TrimStartSpaces(a[1..], s);
    }
  }

  lemma {:induction false} TrimEndSpaces(s: string, b: string)
    requires AllSpace(b)
    ensures TrimEnd(s + b) == TrimEnd(s)
  {
    if b == [] {
      assert s + b == s;
    } else {
      assert (s + b)[..|s + b| - 1] == s + b[..|b| - 1];
      TrimEndSpaces(s, b[..|b| - 1]);
    }
  }

  /** Whatever white space surrounds a trimmed text, trimming removes exactly it. */
  lemma TrimSurrounded(a: string, t: string, b: string)
    requires AllSpace(a) && AllSpace(b) && IsTrimmed(t)
    ensures Trim(a + t + b) == t
  {
    hide AllSpace;
    if t == [] {
      assert a + t + b == a + b;
      TrimAllSpace(a, b);
    } else {
      ConcatAssociates(a, t, b);
      TrimAroundText(a, t, b);
    }
  }

  lemma TrimAllSpace(a: string, b: string)
    requires AllSpace(a) && AllSpace(b)
    ensures Trim(a + b) == ""
  {
    hide AllSpace, TrimStart, TrimEnd;
    TrimStartSpaces(a, b);
    TrimStartSpaces(b, "");
    assert b + "" == b;
    TrimsOfNothing();
  }

  lemma TrimsOfNothing()
    ensures TrimStart("") == "" && TrimEnd("") == ""
  {}

  lemma TrimAroundText(a: string, t: string, b: string)
    requires AllSpace(a) && AllSpace(b) && t != [] && !IsSpace(t[0]) && !IsSpace(t[|t| - 1])
    ensures Trim(a + (t + b)) == t
  {
    hide TrimStart, TrimEnd, AllSpace;
    TrimStartSpaces(a, t + b);
    TrimStartFixed(t + b);
    TrimEndSpaces(t, b);
    TrimEndFixed(t);
  }

  lemma TrimmedBehind(spaces: string, text: string)
    requires AllSpace(spaces) && text != "" && !IsSpace(text[0])
    ensures TrimStart(spaces + text) == text
  {
    hide TrimStart, AllSpace, IsSpace;
    TrimStartSpaces(spaces, text);
    TrimStartFixed(text);
  }

  lemma TrimStartFixed(s: string)
    requires s != [] && !IsSpace(s[0])
    ensures TrimStart(s) == s
  {}

  lemma TrimEndFixed(s: string)
    requires s != [] && !IsSpace(s[|s| - 1])
    ensures TrimEnd(s) == s
  {}

  lemma TrimOfTrimmed(t: string)
    requires IsTrimmed(t)
    ensures Trim(t) == t
  {
    TrimSurrounded("", t, "");
    assert "" + t + "" == t;
  }

  /** Every text is its trimmed part between two runs of white space. */
  lemma TrimParts(s: string) returns (a: string, b: string)
    ensures AllSpace(a) && AllSpace(b) && s == a + Trim(s) + b
  {
    hide TrimStart, TrimEnd, AllSpace;
    var r := TrimStart(s);
    var t := TrimEnd(r);
    a, b := s[..|s| - |r|], r[|t|..];
    SplitBack(s, |s| - |r|);
    SplitBack(r, |t|);
    ConcatAssociates(a, t, b);
  }

  lemma SplitBack(s: string, k: nat)
    requires k <= |s|
    ensures s == s[..k] + s[k..]
  {}

  /** `s.split(c)`. */
  function Split(s: string, c: char): (parts: seq<string>)
    ensures parts != []
    ensures forall i | 0 <= i < |parts| :: c !in parts[i]
  {
    if s == [] then [""]
    else
      var rest := Split(s[1..], c);
      if s[0] == c then [""] + rest
      else [[s[0]] + rest[0]] + rest[1..]
  }

  /** `parts.join(sep)`. */
  function Join(parts: seq<string>, sep: string): string {
    if parts == [] then ""
    else if |parts| == 1 then parts[0]
    else parts[0] + sep + Join(parts[1..], sep)
  }

  lemma JoinCons(a: string, rest: seq<string>, sep: string)
    requires rest != []
    ensures Join([a] + rest, sep) == a + sep + Join(rest, sep)
  {
    assert ([a] + rest)[1..] == rest;
  }

  lemma JoinFive(a: string, b: string, c: string, d: string, e: string, sep: string)
    ensures Join([a, b, c, d, e], sep) == a + sep + (b + sep + (c + sep + (d + sep + e)))
  {
    assert [d] + [e] == [d, e] && [c] + [d, e] == [c, d, e];
    assert [b] + [c, d, e] == [b, c, d, e] && [a] + [b, c, d, e] == [a, b, c, d, e];
    JoinCons(d, [e], sep);
    JoinCons(c, [d, e], sep);
    JoinCons(b, [c, d, e], sep);
    JoinCons(a, [b, c, d, e], sep);
  }

  lemma ConcatAssociates<T>(a: seq<T>, b: seq<T>, c: seq<T>)
    ensures a + b + c == a + (b + c)
  {}

  lemma PrefixCancel(a: string, s: string, t: string)
    requires a + s == a + t
    ensures s == t
  {
    assert s == (a + s)[|a|..] == (a + t)[|a|..] == t;
  }

  lemma {:induction false} JoinSplit(s: string, c: char)
    ensures Join(Split(s, c), [c]) == s
  {
    if s == [] {
    } else {
      JoinSplit(s[1..], c);
      var rest := Split(s[1..], c);
      if s[0] == c {
        assert Split(s, c)[1..] == rest;
      } else {
        assert Split(s, c)[1..] == rest[1..];
        assert s == [s[0]] + s[1..];
      }
    }
  }

  lemma {:induction false} SplitPlain(s: string, c: char)
    requires c !in s
    ensures Split(s, c) == [s]
  {
    if s == [] {
    } else {
      SplitPlain(s[1..], c);
      assert s == [s[0]] + s[1..];
    }
  }

  lemma {:induction false} SplitAt(a: string, b: string, c: char)
    requires c !in a
    ensures Split(a + [c] + b, c) == [a] + Split(b, c)
  {
    if a == [] {
      assert (a + [c] + b)[1..] == b;
    } else {
      SplitAt(a[1..], b, c);
      assert (a + [c] + b)[1..] == a[1..] + [c] + b;
      assert a == [a[0]] + a[1..];
    }
  }

  lemma {:induction false} SplitJoin(parts: seq<string>, c: char)
    requires parts != [] && forall i | 0 <= i < |parts| :: c !in parts[i]
    ensures Split(Join(parts, [c]), c) == parts
  {
    if |parts| == 1 {
      SplitPlain(parts[0], c);
    } else {
      SplitJoin(parts[1..], c);
      SplitAt(parts[0], Join(parts[1..], [c]), c);
      assert parts == [parts[0]] + parts[1..];
    }
  }

  ghost predicate NoRepeats(s: seq<string>) { forall i, j | 0 <= i < j < |s| :: s[i] != s[j] }

  predicate OccursAt(s: string, pattern: string, i: nat) { i + |pattern| <= |s| && s[i..i + |pattern|] == pattern }

  /** `s.indexOf(pattern, from)`. */
  function IndexOf(s: string, pattern: string, from: nat): (r: Option<nat>)
    ensures r.Some? ==> from <= r.value && OccursAt(s, pattern, r.value)
    ensures r.Some? ==> forall i | from <= i < r.value :: !OccursAt(s, pattern, i)
    ensures r.None? ==> forall i | from <= i :: !OccursAt(s, pattern, i)
    decreases |s| - from
  {
    if from + |pattern| > |s| then None
    else if OccursAt(s, pattern, from) then Some(from)
    else IndexOf(s, pattern, from + 1)
  }

  lemma IndexOfIs(s: string, pattern: string, from: nat, i: nat)
    requires from <= i && OccursAt(s, pattern, i) && forall j | from <= j < i :: !OccursAt(s, pattern, j)
    ensures IndexOf(s, pattern, from) == Some(i)
  {
    hide OccursAt;
  }

  lemma IndexOfNone(s: string, pattern: string)
    requires forall j | 0 <= j :: !OccursAt(s, pattern, j)
    ensures IndexOf(s, pattern, 0) == None
  {
    hide OccursAt;
  }

  /** What fits in the first part occurs there. */
  lemma OccursInFirst(a: string, b: string, pattern: string, i: nat)
    requires i + |pattern| <= |a|
    ensures OccursAt(a + b, pattern, i) <==> OccursAt(a, pattern, i)
  {
    assert (a + b)[i..i + |pattern|] == a[i..i + |pattern|];
  }

  /** The decimal digits of a number, most significant first. */
  function Decimal(n: nat): (s: string)
    ensures s != [] && forall i | 0 <= i < |s| :: IsDigit(s[i])
  {
    var digit := ['0' + (n % 10) as char];
    if n < 10 then digit else Decimal(n / 10) + digit
  }

  lemma {:induction false} DecimalInjective(m: nat, n: nat)
    requires Decimal(m) == Decimal(n)
    ensures m == n
  {
    var s := Decimal(m);
    assert s[|s| - 1] == '0' + (m % 10) as char == '0' + (n % 10) as char;
    assert m % 10 == n % 10;
    assert |Decimal(m)| == 1 <==> m < 10;
    assert |Decimal(n)| == 1 <==> n < 10;
    if m >= 10 {
      assert Decimal(m / 10) == s[..|s| - 1] == Decimal(n / 10);
      DecimalInjective(m / 10, n / 10);
    }
  }
}
