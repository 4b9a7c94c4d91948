/** Links between the versions of the documentation: prefixing, stripping, scoping, and finding the
    closest page of another version. */
module DocsVersions {
  import opened Wrappers
  import opened Text

  /** The configured versions; the latest one has no segment in its paths. */
  datatype Version = Latest | Release16

  const DOCS := "/docs"
  const SEGMENT := "1.6"
  const PREFIX := "/docs/1.6"
  const INTRODUCTION := "/docs/introduction"

  predicate StartsWith(s: string, prefix: string) { prefix <= s }

  predicate BeginsQuery(s: string) { s != "" && (s[0] == '?' || s[0] == '#') }

  /** The query and hash after a root path, or nothing when the path is not a root path: after the
      mark that begins them, no line may end. */
  function RootSuffix(path: string): Option<string> {
    if !StartsWith(path, DOCS) then None
    else
      var rest := if StartsWith(path[5..], "/") then path[6..] else path[5..];
      if rest == "" then Some("")
      else if BeginsQuery(rest) && !HasLineTerminator(rest[1..]) then Some(rest)
      else None
  }

  function VersionedHref(path: string, version: Version): string {
    if version.Latest? then path
    else
      match RootSuffix(path)
      case Some(suffix) => PREFIX + "/introduction" + suffix
      case None => PREFIX + (if StartsWith(path, DOCS) then path[5..] else path)
  }

  function StripPrefix(pathname: string, version: Version): string {
    if version.Latest? then pathname
    else if pathname == PREFIX || pathname == PREFIX + "/" then DOCS
    else if StartsWith(pathname, PREFIX + "/") then DOCS + pathname[9..]
    else pathname
  }

  function VersionOf(pathname: string): Version {
    if pathname == PREFIX || StartsWith(pathname, PREFIX + "/") then Release16 else Latest
  }

  /** The part before the first `?` or `#`. */
  function PathOnly(href: string): string {
    if href == "" || BeginsQuery(href) then "" else [href[0]] + PathOnly(href[1..])
  }

  predicate IsDocsLink(href: string) {
    StartsWith(href, DOCS) && (|href| == 5 || href[5] == '/' || BeginsQuery(href[5..]))
  }

  predicate NamesRelease(href: string) {
    var segments := Split(PathOnly(href), '/');
    |segments| > 2 && segments[2] == SEGMENT
  }

  function ScopeHref(href: Option<string>, version: Version): Option<string> {
    if href.None? || href.value == "" || version.Latest? then href
    else if !IsDocsLink(href.value) then href
    else if NamesRelease(href.value) then href
    else Some(VersionedHref(href.value, version))
  }

  // Prefixing and stripping.

  /** The paths that name a page of the latest version below the root. */
  predicate IsPage(path: string) { StartsWith(path, DOCS + "/") && RootSuffix(path).None? }

  lemma PageVersioned(path: string)
    requires IsPage(path)
    ensures VersionedHref(path, Release16) == PREFIX + path[5..]
    ensures |path| > 6 && path == DOCS + path[5..] && path[5] == '/'
  {}

  lemma StripOfPrefixed(rest: string)
    ensures rest != "" && rest[0] == '/' && rest != "/" ==> StripPrefix(PREFIX + rest, Release16) == DOCS + rest
    ensures rest == "" || rest == "/" ==> StripPrefix(PREFIX + rest, Release16) == DOCS
    ensures rest != "" && rest[0] != '/' ==> StripPrefix(PREFIX + rest, Release16) == PREFIX + rest
  {
    if rest != "" {
      assert (PREFIX + rest)[9] == rest[0];
      assert (PREFIX + rest)[9..] == rest;
      if rest[0] == '/' {
        assert PREFIX + rest == PREFIX + "/" + rest[1..];
      }
    }
  }

  /** Stripping undoes prefixing exactly on the pages below the root. */
  lemma StripUndoesVersioned(path: string)
    ensures StripPrefix(VersionedHref(path, Release16), Release16) == path <==> IsPage(path)
  {
    match RootSuffix(path)
    case Some(suffix) =>
      var rest := "/introduction" + suffix;
      assert VersionedHref(path, Release16) == PREFIX + rest;
      StripOfPrefixed(rest);
      assert |path| <= 6 + |suffix| < |DOCS + rest|;
    case None =>
      var rest := if StartsWith(path, DOCS) then path[5..] else path;
      StripOfPrefixed(rest);
      if StartsWith(path, DOCS) { assert path == DOCS + path[5..]; }
  }

  lemma VersionOfPrefixed(rest: string)
    ensures VersionOf(PREFIX + rest) == Release16 <==> rest == "" || rest[0] == '/'
  {
    if rest != "" {
      assert (PREFIX + rest)[9] == rest[0];
      if rest[0] == '/' {
        assert PREFIX + rest == PREFIX + "/" + rest[1..];
      }
    }
  }

  // Scoping.

  lemma {:induction false} PathOnlyOfConcat(a: string, b: string)
    requires forall i | 0 <= i < |a| :: a[i] != '?' && a[i] != '#'
    ensures PathOnly(a + b) == a + PathOnly(b)
  {
    if a == [] {
      assert a + b == b;
    } else {
      assert (a + b)[1..] == a[1..] + b;
      PathOnlyOfConcat(a[1..], b);
    }
  }

  lemma DocsSegments(rest: string)
    requires rest == "" || rest[0] == '/'
    ensures Split(DOCS + rest, '/') == ["", "docs"] + (if rest == "" then [] else Split(rest[1..], '/'))
  {
    hide Split;
    assert DOCS + rest == "" + ['/'] + ("docs" + rest);
    SplitAt("", "docs" + rest, '/');
    if rest == "" {
      assert "docs" + rest == "docs";
      SplitPlain("docs", '/');
    } else {
      assert "docs" + rest == "docs" + ['/'] + rest[1..];
      SplitAt("docs", rest[1..], '/');
    }
  }

  lemma PathOnlyKeepsSlash(rest: string)
    requires rest == "" || rest[0] == '/' || BeginsQuery(rest)
    ensures PathOnly(rest) == "" || PathOnly(rest)[0] == '/'
  {}

  /** A link names the release exactly when its path is, or lies below, the prefix of the release. */
  lemma NamesReleaseMeans(href: string)
    requires IsDocsLink(href)
    ensures NamesRelease(href) <==> VersionOf(PathOnly(href)) == Release16
  {
    hide Split, PathOnly;
    var rest := href[5..];
    assert href == DOCS + rest;
    PathOnlyOfConcat(DOCS, rest);
    PathOnlyKeepsSlash(rest);
    DocsSegments(PathOnly(rest));
    if PathOnly(rest) != "" {
      SegmentFirst(PathOnly(rest)[1..]);
      assert PathOnly(rest) == "/" + PathOnly(rest)[1..];
      PathBelow(PathOnly(rest)[1..]);
    }
  }

  lemma SplitHead(s: string, c: char)
    ensures |Split(s, c)| == 1 ==> s == Split(s, c)[0]
    ensures |Split(s, c)| > 1 ==> Split(s, c)[0] + [c] <= s
  {
    JoinSplit(s, c);
    hide Split;
    var parts := Split(s, c);
    if |parts| > 1 {
      assert s == parts[0] + [c] + Join(parts[1..], [c]);
    }
  }

  lemma SegmentFirst(tail: string)
    ensures Split(tail, '/')[0] == SEGMENT <==> tail == SEGMENT || StartsWith(tail, SEGMENT + "/")
  {
    hide Split;
    SplitHead(tail, '/');
    if StartsWith(tail, SEGMENT + "/") {
      assert tail == SEGMENT + ['/'] + tail[4..];
      SplitAt(SEGMENT, tail[4..], '/');
    } else if tail == SEGMENT {
      SplitPlain(SEGMENT, '/');
    }
  }

  lemma PathBelow(tail: string)
    ensures VersionOf(DOCS + ("/" + tail)) == Release16 <==> tail == SEGMENT || StartsWith(tail, SEGMENT + "/")
  {
    var path := DOCS + ("/" + tail);
    assert path[6..] == tail;
    assert PREFIX[6..] == SEGMENT && (PREFIX + "/")[6..] == SEGMENT + "/";
    if tail == SEGMENT {
      assert path == PREFIX;
    }
    if StartsWith(tail, SEGMENT + "/") {
      assert tail == SEGMENT + "/" + tail[4..];
      assert path == PREFIX + "/" + tail[4..];
    }
    if StartsWith(path, PREFIX + "/") {
      assert path == PREFIX + "/" + path[10..];
      assert tail == SEGMENT + "/" + path[10..];
    }
  }

  /** What a versioned link looks like: the prefix, then nothing, a segment, a query or a hash. */
  lemma VersionedShape(href: string) returns (rest: string)
    requires IsDocsLink(href)
    ensures VersionedHref(href, Release16) == PREFIX + rest
    ensures rest == "" || rest[0] == '/' || BeginsQuery(rest)
  {
    match RootSuffix(href)
    case Some(suffix) =>
      rest := "/introduction" + suffix;
    case None =>
      rest := href[5..];
  }

  lemma PrefixedNamesRelease(rest: string)
    requires rest == "" || rest[0] == '/' || BeginsQuery(rest)
    ensures IsDocsLink(PREFIX + rest) && VersionOf(PathOnly(PREFIX + rest)) == Release16
  {
    hide PathOnly, VersionOf;
    PathOnlyOfConcat(PREFIX, rest);
    PathOnlyKeepsSlash(rest);
    VersionOfPrefixed(PathOnly(rest));
    PrefixedIsDocsLink(rest);
  }

  lemma PrefixedIsDocsLink(rest: string)
    ensures IsDocsLink(PREFIX + rest)
  {
    assert (PREFIX + rest)[5] == '/' && (PREFIX + rest)[..5] == DOCS;
  }

  /** On a release, every documentation link stays on that release. */
  lemma ScopedLinksStay(href: string)
    requires IsDocsLink(href)
    ensures ScopeHref(Some(href), Release16).Some?
    ensures VersionOf(PathOnly(ScopeHref(Some(href), Release16).value)) == Release16
  {
    hide PathOnly, NamesRelease, RootSuffix;
    if NamesRelease(href) {
      NamesReleaseMeans(href);
    } else {
      var rest := VersionedShape(href);
      PrefixedNamesRelease(rest);
    }
  }

  /** Scoping a link twice is scoping it once, for every link and version. */
  lemma ScopingTwice(href: Option<string>, version: Version)
    ensures ScopeHref(ScopeHref(href, version), version) == ScopeHref(href, version)
  {
    hide PathOnly, NamesRelease, RootSuffix;
    if href.Some? && version.Release16? && IsDocsLink(href.value) && !NamesRelease(href.value) {
      var rest := VersionedShape(href.value);
      PrefixedNamesRelease(rest);
      NamesReleaseMeans(PREFIX + rest);
    }
  }

  // Route segments.

  /** The version and the rest of a catch-all route. */
  function ResolveSlug(slug: seq<string>): (Version, seq<string>) {
    if slug != [] && slug[0] == SEGMENT then (Release16, slug[1..]) else (Latest, slug)
  }

  /** The path of a page by its route segments; no segments are the root. */
  function SlugPath(slug: seq<string>): string { if slug == [] then DOCS else DOCS + ("/" + Join(slug, "/")) }

  /** The route segments and the path agree on the version, except exactly when the first segment itself
      holds a slash right behind the release. */
  lemma SlugAgreesWithPath(slug: seq<string>)
    ensures VersionOf(SlugPath(slug)) == ResolveSlug(slug).0
            <==> !(slug != [] && StartsWith(slug[0], SEGMENT + "/"))
  {
    if slug == [] {
    } else {
      hide VersionOf, Join;
      PathBelow(Join(slug, "/"));
      BeginsWithRelease(slug);
    }
  }

  lemma BeginsWithRelease(slug: seq<string>)
    requires slug != []
    ensures var tail := Join(slug, "/");
            tail == SEGMENT || StartsWith(tail, SEGMENT + "/")
            <==> slug[0] == SEGMENT || StartsWith(slug[0], SEGMENT + "/")
  {
    if |slug| == 1 {
    } else {
      var head, rest := slug[0], Join(slug[1..], "/");
      assert Join(slug, "/") == head + "/" + rest;
      hide Join;
      var tail, mark := head + "/" + rest, SEGMENT + "/";
      assert tail[|head|] == '/';
      if |head| >= 4 {
        assert tail[..4] == head[..4];
      } else if |head| == 3 {
        assert tail[..3] == head;
      } else {
        assert mark[|head|] != '/';
      }
    }
  }

  /** They also agree on what is left: stripping the path gives the path of the remaining segments,
      except exactly when a single empty segment remains. */
  lemma SlugRestAgreesWithPath(slug: seq<string>)
    ensures var (version, rest) := ResolveSlug(slug);
            StripPrefix(SlugPath(slug), version) == SlugPath(rest) <==> !(version.Release16? && rest == [""])
  {
    if slug != [] && slug[0] == SEGMENT {
      var rest := slug[1..];
      ReleasePath(rest);
      assert slug == [SEGMENT] + rest;
      StripOfPrefixed(if rest == [] then "" else "/" + Join(rest, "/"));
      JoinIsEmpty(rest);
    }
  }

  lemma ReleasePath(rest: seq<string>)
    ensures SlugPath([SEGMENT] + rest) == PREFIX + (if rest == [] then "" else "/" + Join(rest, "/"))
  {
    if rest == [] {
      assert [SEGMENT] + rest == [SEGMENT];
    } else {
      JoinCons(SEGMENT, rest, "/");
      hide Join;
      assert SEGMENT + "/" + Join(rest, "/") == SEGMENT + ("/" + Join(rest, "/"));
      assert DOCS + ("/" + (SEGMENT + ("/" + Join(rest, "/")))) == PREFIX + ("/" + Join(rest, "/"));
    }
  }

  lemma JoinIsEmpty(rest: seq<string>)
    ensures Join(rest, "/") == "" <==> rest == [] || rest == [""]
  {}

  // The closest page.

  function DropEmpty(segments: seq<string>): seq<string> {
    if segments == [] then []
    else (if segments[0] == "" then [] else [segments[0]]) + DropEmpty(segments[1..])
  }

  /** The segments of a path after its first one. */
  function Segments(path: string): seq<string> {
    var segments := DropEmpty(Split(path, '/'));
    if segments == [] then [] else segments[1..]
  }

  /** The number of leading segments that two lists share. */
  function Shared(left: seq<string>, right: seq<string>): (n: nat)
    ensures n <= |left| && n <= |right| && left[..n] == right[..n]
    ensures n < |left| && n < |right| ==> left[n] != right[n]
  {
    if left != [] && right != [] && left[0] == right[0] then
      var n := 1 + Shared(left[1..], right[1..]);
      assert left[..n] == [left[0]] + left[1..][..n - 1] && right[..n] == [right[0]] + right[1..][..n - 1];
      n
    else 0
  }

  function Score(left: string, right: string): nat { Shared(Segments(left), Segments(right)) }

  method MatchingPathSegments(left: string, right: string) returns (matches: nat)
    ensures matches == Score(left, right)
    ensures forall first, other, a, b, n: nat | Holds(left, [first] + a) && Holds(right, [other] + b) ::
              Agree(a, b, n) <==> n <= matches
  {
    var leftSegments, rightSegments := Segments(left), Segments(right);
    matches := 0;
    while matches < |leftSegments| && matches < |rightSegments| && leftSegments[matches] == rightSegments[matches]
      invariant matches <= |leftSegments| && matches <= |rightSegments|
      invariant forall i | 0 <= i < matches :: leftSegments[i] == rightSegments[i]
    {
      matches := matches + 1;
    }
    assert leftSegments[..matches] == rightSegments[..matches];
    SharedIsUnique(leftSegments, rightSegments, matches);
    hide Holds, Score;
    forall first, other, a, b, n: nat | Holds(left, [first] + a) && Holds(right, [other] + b)
      ensures Agree(a, b, n) <==> n <= Score(left, right)
    {
      ScoreCounts(left, right, first, other, a, b, n);
    }
  }

  /** The shared segments are the longest common start. */
  lemma SharedIsUnique(left: seq<string>, right: seq<string>, n: nat)
    requires n <= |left| && n <= |right| && left[..n] == right[..n]
    requires n < |left| && n < |right| ==> left[n] != right[n]
    ensures n == Shared(left, right)
  {
    var m := Shared(left, right);
    assert forall i | 0 <= i < n :: left[i] == left[..n][i] && right[i] == right[..n][i];
    assert forall i | 0 <= i < m :: left[i] == left[..m][i] && right[i] == right[..m][i];
  }

  /** The first page with the highest score above zero. */
  function Closest(canonicalPath: string, paths: seq<string>): Option<string> {
    if paths == [] then None
    else
      var before := Closest(canonicalPath, paths[..|paths| - 1]);
      var last := paths[|paths| - 1];
      if Score(canonicalPath, last) <= ClosestScore(canonicalPath, before) then before else Some(last)
  }

  function ClosestScore(canonicalPath: string, closest: Option<string>): nat {
    if closest.None? then 0 else Score(canonicalPath, closest.value)
  }

  type Availability = Version -> seq<string>

  function TargetHref(pathname: string, current: Version, target: Version, availability: Availability): string {
    var canonicalPath := StripPrefix(pathname, current);
    var targetPaths := availability(target);
    if canonicalPath in targetPaths then VersionedHref(canonicalPath, target)
    else
      match Closest(canonicalPath, targetPaths)
      case Some(path) => VersionedHref(path, target)
      case None => FallbackHref(target, targetPaths)
  }

  /** The introduction, else the first page, else the root. The first page is used as it is when it is
      the empty text. */
  function FallbackHref(target: Version, targetPaths: seq<string>): string {
    if INTRODUCTION in targetPaths then VersionedHref(INTRODUCTION, target)
    else if targetPaths == [] then VersionedHref(DOCS, target)
    else if targetPaths[0] == "" then ""
    else VersionedHref(targetPaths[0], target)
  }

  method GetVersionTargetHref(pathname: string, current: Version, target: Version, availability: Availability)
    returns (href: string)
    ensures href == TargetHref(pathname, current, target, availability)
  {
    hide VersionedHref, StripPrefix, Score;
    var canonicalPath := StripPrefix(pathname, current);
    var targetPaths := availability(target);
    if canonicalPath in targetPaths { return VersionedHref(canonicalPath, target); }
    var closestPath: Option<string>, closestScore := None, 0;
    for i := 0 to |targetPaths|
      invariant closestPath == Closest(canonicalPath, targetPaths[..i])
      invariant closestScore == ClosestScore(canonicalPath, closestPath)
    {
      assert targetPaths[..i + 1][..i] == targetPaths[..i];
      var score := MatchingPathSegments(canonicalPath, targetPaths[i]);
      if score <= closestScore { continue; }
      closestPath, closestScore := Some(targetPaths[i]), score;
    }
    assert targetPaths[..|targetPaths|] == targetPaths;
    ClosestIsBest(canonicalPath, targetPaths);
    if closestPath.Some? && closestPath.value != "" { return VersionedHref(closestPath.value, target); }
    EmptyPathScoresNothing(canonicalPath);
    href := FallbackHref(target, targetPaths);
  }

  lemma EmptyPathScoresNothing(canonicalPath: string)
    ensures Score(canonicalPath, "") == 0
  {
    assert Split("", '/') == [""];
  }

  /** The closest page is available and scores above zero, and no available page scores higher. */
  lemma {:induction false} ClosestIsBest(canonicalPath: string, paths: seq<string>)
    ensures var closest := Closest(canonicalPath, paths);
            && (closest.Some? ==> closest.value in paths && Score(canonicalPath, closest.value) > 0)
            && forall p | p in paths :: Score(canonicalPath, p) <= ClosestScore(canonicalPath, closest)
  {
    hide Score;
    if paths == [] {
    } else {
      ClosestIsBest(canonicalPath, paths[..|paths| - 1]);
      assert paths == paths[..|paths| - 1] + [paths[|paths| - 1]];
    }
  }

  /** The link is the versioned form of an available page that no available page beats. */
  ghost predicate LandsOnClosest(href: string, canonicalPath: string, target: Version, paths: seq<string>) {
    exists p | p in paths ::
      href == VersionedHref(p, target) && forall q | q in paths :: Score(canonicalPath, q) <= Score(canonicalPath, p)
  }

  /** The last resort on a release whose first page is the empty text. */
  predicate FallsOnEmptyPath(canonicalPath: string, target: Version, paths: seq<string>) {
    && target.Release16? && paths != [] && paths[0] == ""
    && canonicalPath !in paths && INTRODUCTION !in paths
    && forall p | p in paths :: Score(canonicalPath, p) == 0
  }

  lemma ScoreAtMostOwn(path: string, other: string)
    ensures Score(path, other) <= Score(path, path)
  {
    SharedIsUnique(Segments(path), Segments(path), |Segments(path)|);
  }

  lemma VersionedIsNotEmpty(path: string)
    ensures VersionedHref(path, Release16) != ""
  {}

  /** With some page available, the switcher lands on a closest page, except exactly when its last
      resort is an empty path. */
  lemma SwitcherLandsOnClosest(pathname: string, current: Version, target: Version, availability: Availability)
    requires availability(target) != []
    ensures var canonicalPath := StripPrefix(pathname, current);
            LandsOnClosest(TargetHref(pathname, current, target, availability), canonicalPath, target,
                           availability(target))
            <==> !FallsOnEmptyPath(canonicalPath, target, availability(target))
  {
    hide StripPrefix, Score;
    var canonicalPath, paths := StripPrefix(pathname, current), availability(target);
    var href := TargetHref(pathname, current, target, availability);
    ClosestIsBest(canonicalPath, paths);
    if FallsOnEmptyPath(canonicalPath, target, paths) {
      assert href == "";
      forall p | p in paths ensures href != VersionedHref(p, target) { VersionedIsNotEmpty(p); }
    } else {
      hide VersionedHref;
      assert VersionedHref("", Latest) == "" by { VersionedLatest(""); }
      forall q ensures Score(canonicalPath, q) <= Score(canonicalPath, canonicalPath) {
        ScoreAtMostOwn(canonicalPath, q);
      }
      var landed := if canonicalPath in paths then canonicalPath
                    else if Closest(canonicalPath, paths).Some? then Closest(canonicalPath, paths).value
                    else if INTRODUCTION in paths then INTRODUCTION else paths[0];
      assert landed in paths && href == VersionedHref(landed, target);
    }
  }

  /** Such a case: the release lists only an empty path. */
  lemma EmptyPathIsReached()
    ensures FallsOnEmptyPath(DOCS, Release16, [""]) && TargetHref(DOCS, Latest, Release16, _ => [""]) == ""
  {
    EmptyPathScoresNothing(DOCS);
    assert Closest(DOCS, [""]) == None by {
      assert [""][..0] == [];
    }
  }

  lemma VersionedLatest(path: string)
    ensures VersionedHref(path, Latest) == path
  {}

  /** From a page below the root that both versions have, switching to the release and back returns to
      the start; the path alone tells which version each stop belongs to. */
  lemma SwitchAwayAndBack(page: string, availability: Availability)
    requires IsPage(page) && VersionOf(page) == Latest
    requires page in availability(Latest) && page in availability(Release16)
    ensures var away := TargetHref(page, VersionOf(page), Release16, availability);
            && VersionOf(away) == Release16
            && TargetHref(away, VersionOf(away), Latest, availability) == page
  {
    PageVersioned(page);
    VersionOfPrefixed(page[5..]);
    StripUndoesVersioned(page);
  }

  /** The same from a page of the release. */
  lemma SwitchBackAndAway(pathname: string, availability: Availability)
    requires VersionOf(pathname) == Release16
    requires var page := StripPrefix(pathname, Release16);
             && IsPage(page) && VersionOf(page) == Latest
             && page in availability(Latest) && page in availability(Release16)
    ensures var away := TargetHref(pathname, Release16, Latest, availability);
            && VersionOf(away) == Latest
            && TargetHref(away, VersionOf(away), Release16, availability) == pathname
  {
    var page := StripPrefix(pathname, Release16);
    PageVersioned(page);
    assert pathname == PREFIX + pathname[9..];
    StripOfPrefixed(pathname[9..]);
    assert page[5..] == pathname[9..];
  }

  // What the score counts.

  function Slashes(n: nat): string { if n == 0 then "" else "/" + Slashes(n - 1) }

  /** The segments one after the other, each behind one slash or more, and slashes at the end. */
  ghost function Spelled(segments: seq<string>, runs: seq<nat>, end: nat): string
    requires |runs| == |segments|
  {
    if segments == [] then Slashes(end)
    else "/" + Slashes(runs[0]) + segments[0] + Spelled(segments[1..], runs[1..], end)
  }

  ghost predicate AreSegments(segments: seq<string>) { forall s | s in segments :: s != "" && '/' !in s }

  /** The path holds exactly these segments, however its slashes are repeated. */
  ghost predicate Holds(path: string, segments: seq<string>) {
    AreSegments(segments) && exists runs: seq<nat>, end ::
      |runs| == |segments| && path == Spelled(segments, runs, end)
  }

  lemma {:induction false} DropSlashes(n: nat, rest: string)
    ensures DropEmpty(Split(Slashes(n) + rest, '/')) == DropEmpty(Split(rest, '/'))
  {
    if n == 0 {
      assert Slashes(n) + rest == rest;
    } else {
      DropSlashes(n - 1, rest);
      assert Slashes(n) + rest == "" + ['/'] + (Slashes(n - 1) + rest);
      SplitAt("", Slashes(n - 1) + rest, '/');
      ConsEmpty(Split(Slashes(n - 1) + rest, '/'));
    }
  }

  lemma ConsEmpty(segments: seq<string>)
    ensures DropEmpty([""] + segments) == DropEmpty(segments)
  {
    assert ([""] + segments)[1..] == segments;
  }

  lemma ConsSegment(segment: string, rest: string)
    requires segment != "" && '/' !in segment && (rest == "" || rest[0] == '/')
    ensures DropEmpty(Split(segment + rest, '/')) == [segment] + DropEmpty(Split(rest, '/'))
  {
    if rest == "" {
      assert segment + rest == segment;
      SplitPlain(segment, '/');
      SplitPlain("", '/');
      assert DropEmpty([""]) == [] && [segment][1..] == [];
    } else {
      assert segment + rest == segment + ['/'] + rest[1..];
      SplitAt(segment, rest[1..], '/');
      assert rest == "" + ['/'] + rest[1..];
      SplitAt("", rest[1..], '/');
      hide Split;
      ConsEmpty(Split(rest[1..], '/'));
      assert ([segment] + Split(rest[1..], '/'))[1..] == Split(rest[1..], '/');
    }
  }

  lemma SlashesAreSlashes(n: nat)
    ensures Slashes(n) == "" || Slashes(n)[0] == '/'
  {}

  lemma SpelledStep(segments: seq<string>, runs: seq<nat>, end: nat)
    requires |runs| == |segments| > 0
    ensures Spelled(segments, runs, end)
         == Slashes(runs[0] + 1) + (segments[0] + Spelled(segments[1..], runs[1..], end))
    ensures Spelled(segments, runs, end)[0] == '/'
  {
    hide Spelled;
    SpelledUnfolds(segments, runs, end);
    var rest := Spelled(segments[1..], runs[1..], end);
    assert Slashes(runs[0] + 1) == "/" + Slashes(runs[0]);
    ConcatAssociates(Slashes(runs[0] + 1), segments[0], rest);
  }

  lemma SpelledUnfolds(segments: seq<string>, runs: seq<nat>, end: nat)
    requires |runs| == |segments| > 0
    ensures Spelled(segments, runs, end)
         == "/" + Slashes(runs[0]) + segments[0] + Spelled(segments[1..], runs[1..], end)
  {}

  lemma {:induction false} SpelledSplits(segments: seq<string>, runs: seq<nat>, end: nat)
    requires |runs| == |segments| && AreSegments(segments)
    ensures DropEmpty(Split(Spelled(segments, runs, end), '/')) == segments
    ensures Spelled(segments, runs, end) == "" || Spelled(segments, runs, end)[0] == '/'
  {
    if segments == [] {
      hide Split, DropEmpty;
      SlashesAreSlashes(end);
      assert Slashes(end) + "" == Slashes(end);
      DropSlashes(end, "");
      EmptyDrops();
    } else {
      hide Split, DropEmpty, Spelled, Slashes;
      var rest := Spelled(segments[1..], runs[1..], end);
      assert segments[0] in segments && forall s | s in segments[1..] :: s in segments;
      SpelledSplits(segments[1..], runs[1..], end);
      ConsSegment(segments[0], rest);
      SpelledStep(segments, runs, end);
      DropSlashes(runs[0] + 1, segments[0] + rest);
      assert segments == [segments[0]] + segments[1..];
    }
  }

  lemma EmptyDrops()
    ensures DropEmpty(Split("", '/')) == []
  {
    SplitPlain("", '/');
  }

  /** The first segments agree at least so far. */
  ghost predicate Agree(a: seq<string>, b: seq<string>, n: nat) { n <= |a| && n <= |b| && a[..n] == b[..n] }

  /** The score of two paths is the length of the longest common start of their segments behind the
      first one, whatever that is and however slashes are repeated. */
  lemma ScoreCounts(left: string, right: string, first: string, other: string, a: seq<string>, b: seq<string>,
                    n: nat)
    requires Holds(left, [first] + a) && Holds(right, [other] + b)
    ensures Agree(a, b, n) <==> n <= Score(left, right)
  {
    hide Split, DropEmpty, Spelled;
    HoldsSegments(left, [first] + a);
    HoldsSegments(right, [other] + b);
    assert Segments(left) == a && Segments(right) == b;
    var m := Shared(a, b);
    if n <= m {
      assert a[..n] == a[..m][..n] && b[..n] == b[..m][..n];
    } else if Agree(a, b, n) {
      assert forall i | 0 <= i < n :: a[i] == a[..n][i] && b[i] == b[..n][i];
    }
  }

  lemma HoldsSegments(path: string, segments: seq<string>)
    requires Holds(path, segments)
    ensures DropEmpty(Split(path, '/')) == segments
  {
    hide Split, DropEmpty, Spelled;
    var runs: seq<nat>, end :| |runs| == |segments| && path == Spelled(segments, runs, end);
    SpelledSplits(segments, runs, end);
  }

  /** The plain path of some segments holds them, and so does the root. */
  lemma {:induction false} PathHolds(segments: seq<string>)
    requires segments != [] && AreSegments(segments)
    ensures Holds("/" + Join(segments, "/"), segments)
  {
    var runs := seq(|segments|, _ => 0);
    PlainIsSpelled(segments);
    assert |runs| == |segments| && "/" + Join(segments, "/") == Spelled(segments, runs, 0);
  }

  lemma {:induction false} PlainIsSpelled(segments: seq<string>)
    requires segments != []
    ensures "/" + Join(segments, "/") == Spelled(segments, seq(|segments|, _ => 0), 0)
  {
    var runs := seq(|segments|, _ => 0);
    assert runs[1..] == seq(|segments[1..]|, _ => 0);
    if |segments| == 1 {
      assert Spelled(segments[1..], runs[1..], 0) == "";
    } else {
      PlainIsSpelled(segments[1..]);
      assert "/" + Slashes(0) + segments[0] + ("/" + Join(segments[1..], "/")) == "/" + Join(segments, "/");
    }
  }

  /** By segments: the switcher lands on an available page that shares as many leading segments with the
      current one as any other page does. */
  lemma SwitcherSharesMost(pathname: string, current: Version, target: Version, availability: Availability,
                           here: seq<string>, pages: seq<seq<string>>)
    requires Holds(StripPrefix(pathname, current), ["docs"] + here)
    requires |pages| == |availability(target)| > 0
    requires forall k | 0 <= k < |pages| :: Holds(availability(target)[k], ["docs"] + pages[k])
    ensures exists k | 0 <= k < |pages| ::
              && TargetHref(pathname, current, target, availability) == VersionedHref(availability(target)[k], target)
              && forall m, n: nat | 0 <= m < |pages| && Agree(here, pages[m], n) :: Agree(here, pages[k], n)
  {
    hide Holds, TargetHref, VersionedHref, Score, StripPrefix;
    var canonicalPath, paths := StripPrefix(pathname, current), availability(target);
    SwitcherLandsOnClosest(pathname, current, target, availability);
    HoldsSomething(paths[0], ["docs"] + pages[0]);
    var p :| p in paths && TargetHref(pathname, current, target, availability) == VersionedHref(p, target)
             && forall q | q in paths :: Score(canonicalPath, q) <= Score(canonicalPath, p);
    var k :| 0 <= k < |paths| && paths[k] == p;
    forall m, n: nat | 0 <= m < |pages| && Agree(here, pages[m], n) ensures Agree(here, pages[k], n) {
      ScoreCounts(canonicalPath, paths[m], "docs", "docs", here, pages[m], n);
      ScoreCounts(canonicalPath, paths[k], "docs", "docs", here, pages[k], n);
      assert paths[m] in paths;
    }
  }

  lemma HoldsSomething(path: string, segments: seq<string>)
    requires Holds(path, segments) && segments != []
    ensures path != ""
  {
    HoldsSegments(path, segments);
    EmptyDrops();
  }

  /** Of the closest pages the first one is taken. */
  lemma {:induction false} ClosestIsFirst(canonicalPath: string, paths: seq<string>) returns (k: nat)
    requires Closest(canonicalPath, paths).Some?
    ensures k < |paths| && Closest(canonicalPath, paths) == Some(paths[k])
    ensures forall m | 0 <= m < k :: Score(canonicalPath, paths[m]) < Score(canonicalPath, paths[k])
  {
    hide Score;
    var front := paths[..|paths| - 1];
    if Closest(canonicalPath, front) == Closest(canonicalPath, paths) {
      k := ClosestIsFirst(canonicalPath, front);
    } else {
      k := |paths| - 1;
      ClosestIsBest(canonicalPath, front);
      forall m | 0 <= m < k ensures Score(canonicalPath, paths[m]) < Score(canonicalPath, paths[k]) {
        assert front[m] in front;
      }
    }
  }

  /** The order of preference: the page itself, then the first of the closest, then the introduction, then
      the first page. */
  lemma SwitcherPrefers(pathname: string, current: Version, target: Version, availability: Availability)
    ensures var canonicalPath, paths := StripPrefix(pathname, current), availability(target);
            var href := TargetHref(pathname, current, target, availability);
            && (canonicalPath in paths ==> href == VersionedHref(canonicalPath, target))
            && (canonicalPath !in paths && (exists p | p in paths :: Score(canonicalPath, p) > 0) ==>
                  exists k | 0 <= k < |paths| ::
                    && href == VersionedHref(paths[k], target)
                    && (forall m | 0 <= m < k :: Score(canonicalPath, paths[m]) < Score(canonicalPath, paths[k]))
                    && forall m | k <= m < |paths| :: Score(canonicalPath, paths[m]) <= Score(canonicalPath, paths[k]))
            && (canonicalPath !in paths && (forall p | p in paths :: Score(canonicalPath, p) == 0) ==>
                  && (INTRODUCTION in paths ==> href == VersionedHref(INTRODUCTION, target))
                  && (INTRODUCTION !in paths && paths != [] && paths[0] != "" ==>
                        href == VersionedHref(paths[0], target))
                  && (paths == [] ==> href == VersionedHref(DOCS, target)))
  {
    hide StripPrefix, VersionedHref, Score;
    var canonicalPath, paths := StripPrefix(pathname, current), availability(target);
    ClosestIsBest(canonicalPath, paths);
    if canonicalPath !in paths && Closest(canonicalPath, paths).Some? {
      var k := ClosestIsFirst(canonicalPath, paths);
      forall m | k <= m < |paths| ensures Score(canonicalPath, paths[m]) <= Score(canonicalPath, paths[k]) {
        assert paths[m] in paths;
      }
    }
  }

  // Roots and scoped links.

  /** A path that stands for the root, with what follows it: nothing, or a query or hash on one line. */
  ghost predicate IsRootWith(path: string, suffix: string) {
    && (path == "/docs" + suffix || path == "/docs/" + suffix)
    && (suffix == "" || ((suffix[0] == '?' || suffix[0] == '#') && !HasLineTerminator(suffix[1..])))
  }

  /** Versioning keeps the latest paths. On a release it sends the root to the introduction, with the root's query
      or hash, and puts the release behind the documentation's own beginning, or before anything else. */
  lemma VersionedAs(path: string, suffix: string)
    ensures VersionedHref(path, Latest) == path
    ensures IsRootWith(path, suffix) ==> VersionedHref(path, Release16) == "/docs/1.6" + "/introduction" + suffix
    ensures (forall any :: !IsRootWith(path, any)) && path == "/docs" + suffix ==>
              VersionedHref(path, Release16) == "/docs/1.6" + suffix
    ensures !("/docs" <= path) ==> VersionedHref(path, Release16) == "/docs/1.6" + path
  {
    hide HasLineTerminator;
    if IsRootWith(path, suffix) { RootIsRead(path, suffix); }
    if RootSuffix(path).Some? { RootIsWritten(path); }
    assert path == "/docs" + suffix ==> path[5..] == suffix;
  }

  lemma RootIsRead(path: string, suffix: string)
    requires IsRootWith(path, suffix)
    ensures RootSuffix(path) == Some(suffix)
  {
    assert path == "/docs" + suffix ==> path[5..] == suffix;
    assert path == "/docs/" + suffix ==> path[5..] == "/" + suffix && path[6..] == suffix;
  }

  lemma RootIsWritten(path: string)
    requires RootSuffix(path).Some?
    ensures IsRootWith(path, RootSuffix(path).value)
  {
    var suffix := RootSuffix(path).value;
    assert path == "/docs" + path[5..];
    if "/" <= path[5..] { assert path == "/docs/" + path[6..]; }
  }

  /** A link leads to documentation when its path is or is under `/docs`, with or without a query or hash. */
  lemma DocsLinkExactlyWhen(href: string)
    ensures IsDocsLink(href) <==> "/docs" <= href && (href == "/docs" || href[5] in "/?#")
  {
    if "/docs" <= href && |href| == 5 { assert href == "/docs"; }
  }

  /** A link changes exactly on a release, when it leads to documentation and not to the release already. */
  lemma ScopedExactlyWhen(href: string, version: Version)
    ensures ScopeHref(Some(href), version) != Some(href) <==>
            version.Release16? && IsDocsLink(href) && VersionOf(PathOnly(href)) == Latest
  {
    hide PathOnly, NamesRelease, RootSuffix;
    if version.Release16? && IsDocsLink(href) {
      NamesReleaseMeans(href);
      if !NamesRelease(href) {
        var rest := VersionedShape(href);
        PrefixedNamesRelease(rest);
      }
    }
  }
}
