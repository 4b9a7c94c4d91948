/** Rewriting the documentation links of a page in place: the spans to replace, their order, and the
    splice from right to left. */
module MarkdownLinks {
  import opened Wrappers
  import opened Text
  import opened DocsVersions

  datatype Replacement = Replacement(start: nat, end: nat, value: string)

  function Min(a: nat, b: nat): nat { if a < b then a else b }

  /** `s.slice(from, to)` on natural offsets. */
  function Slice(s: string, from: nat, to: nat): string {
    if from < Min(to, |s|) then s[from..Min(to, |s|)] else ""
  }

  /** One more than the last occurrence of the pattern, or 0. */
  function AfterLast(s: string, pattern: string): (r: nat)
    ensures r > 0 ==> OccursAt(s, pattern, r - 1)
    ensures forall i | r <= i :: !OccursAt(s, pattern, i)
  {
    AfterLastBelow(s, pattern, |s| + 1)
  }

  function AfterLastBelow(s: string, pattern: string, limit: nat): (r: nat)
    requires forall i | limit <= i :: !OccursAt(s, pattern, i)
    ensures r > 0 ==> OccursAt(s, pattern, r - 1)
    ensures forall i | r <= i :: !OccursAt(s, pattern, i)
  {
    if limit == 0 || OccursAt(s, pattern, limit - 1) then limit else AfterLastBelow(s, pattern, limit - 1)
  }

  /** A node of the parsed page that holds a link, and its place in the text when the parser knows it. */
  datatype Link =
    | MarkdownLink(url: string, place: Option<Place>)
    | Definition(url: string, place: Option<Place>)
    | HrefAttribute(url: string, place: Option<Place>)

  datatype Place = Place(start: nat, end: nat)

  /** Where in the source of the node the destination is looked for. */
  function SearchFrom(content: string, link: Link, place: Place): nat {
    var rawNode := Slice(content, place.start, place.end);
    match link
    case MarkdownLink(_, _) => AfterLast(rawNode, "](") + 1
    case Definition(_, _) => if IndexOf(rawNode, ":", 0).Some? then IndexOf(rawNode, ":", 0).value + 1 else 0
    case HrefAttribute(_, _) => 0
  }

  function AddReplacement(replacements: seq<Replacement>, content: string, start: nat, end: nat, href: string,
                          scopedHref: string, searchFrom: nat): seq<Replacement>
  {
    match IndexOf(Slice(content, start, end), href, searchFrom)
    case None => replacements
    case Some(valueStart) => replacements + [Replacement(start + valueStart, start + valueStart + |href|, scopedHref)]
  }

  function Visit(replacements: seq<Replacement>, content: string, link: Link, version: Version): seq<Replacement> {
    var scopedHref := ScopeHref(Some(link.url), version).value;
    if scopedHref == "" || scopedHref == link.url || link.place.None? then replacements
    else
      var place := link.place.value;
      AddReplacement(replacements, content, place.start, place.end, link.url, scopedHref,
                     SearchFrom(content, link, place))
  }

  function VisitAll(content: string, links: seq<Link>, version: Version): seq<Replacement> {
    if links == [] then []
    else Visit(VisitAll(content, links[..|links| - 1], version), content, links[|links| - 1], version)
  }

  /** The order that sorting by descending start leaves, equal starts staying in place. */
  function InsertDescending(r: Replacement, sorted: seq<Replacement>): seq<Replacement> {
    if sorted == [] || sorted[0].start < r.start then [r] + sorted
    else [sorted[0]] + InsertDescending(r, sorted[1..])
  }

  function SortDescending(rs: seq<Replacement>): seq<Replacement> {
    if rs == [] then [] else InsertDescending(rs[|rs| - 1], SortDescending(rs[..|rs| - 1]))
  }

  function SpliceOne(text: string, r: Replacement): string {
    Slice(text, 0, r.start) + r.value + Slice(text, r.end, |text|)
  }

  function SpliceAll(text: string, rs: seq<Replacement>): string
    decreases |rs|
  {
    if rs == [] then text else SpliceAll(SpliceOne(text, rs[0]), rs[1..])
  }

  method ScopeMarkdownLinks(content: string, links: seq<Link>, version: Version) returns (result: string)
    ensures result == if version.Latest? then content
                      else SpliceAll(content, SortDescending(VisitAll(content, links, version)))
  {
    if version.Latest? { return content; }
    hide Visit, SortDescending, SpliceOne;
    var replacements: seq<Replacement> := [];
    for i := 0 to |links|
      invariant replacements == VisitAll(content, links[..i], version)
    {
      assert links[..i + 1][..i] == links[..i];
      replacements := Visit(replacements, content, links[i], version);
    }
    assert links[..|links|] == links;
    replacements := SortDescending(replacements);
    result := content;
    for i := 0 to |replacements|
      invariant SpliceAll(result, replacements[i..]) == SpliceAll(content, replacements)
    {
      assert replacements[i..][1..] == replacements[i + 1..];
      result := SpliceOne(result, replacements[i]);
    }
  }

  // What a replacement covers.

  /** Every replacement covers an occurrence of a link's own address, inside its node and inside the text:
      the first one from where its destination is looked for. It puts there that address scoped to the version. */
  ghost predicate ComesFrom(r: Replacement, content: string, link: Link, version: Version) {
    && link.place.Some? && link.place.value.start <= r.start < r.end <= Min(link.place.value.end, |content|)
    && content[r.start..r.end] == link.url
    && Some(r.value) == ScopeHref(Some(link.url), version) && r.value != link.url
    && var place := link.place.value;
       IndexOf(Slice(content, place.start, place.end), link.url, SearchFrom(content, link, place))
       == Some(r.start - place.start)
  }

  lemma FoundInPlace(content: string, start: nat, end: nat, href: string, searchFrom: nat)
    requires href != "" && IndexOf(Slice(content, start, end), href, searchFrom).Some?
    ensures var from := start + IndexOf(Slice(content, start, end), href, searchFrom).value;
            from + |href| <= Min(end, |content|) && content[from..from + |href|] == href
  {
    hide IndexOf;
    var slice := Slice(content, start, end);
    var found := IndexOf(slice, href, searchFrom).value;
    assert OccursAt(slice, href, found) && slice == content[start..Min(end, |content|)];
    PartOfPart(content, start, Min(end, |content|), found, found + |href|);
  }

  lemma PartOfPart(s: string, from: nat, to: nat, a: nat, b: nat)
    requires from <= to <= |s| && a <= b <= to - from
    ensures s[from..to][a..b] == s[from + a..from + b]
  {
    forall i | 0 <= i < b - a ensures s[from..to][a..b][i] == s[from + a..from + b][i] {
      assert s[from..to][a..b][i] == s[from..to][a + i] == s[from + (a + i)];
    }
  }

  lemma AddedComesFrom(content: string, link: Link, version: Version)
    requires Visit([], content, link, version) != []
    ensures Visit([], content, link, version) == [Visit([], content, link, version)[0]]
    ensures ComesFrom(Visit([], content, link, version)[0], content, link, version)
  {
    hide ScopeHref, SearchFrom, Slice, IndexOf, Min;
    ScopedLink(link.url, version);
    var place := link.place.value;
    FoundInPlace(content, place.start, place.end, link.url, SearchFrom(content, link, place));
  }

  // Which occurrence is replaced.

  lemma AfterLastIs(s: string, pattern: string, i: nat)
    requires OccursAt(s, pattern, i) && forall j | i < j :: !OccursAt(s, pattern, j)
    ensures AfterLast(s, pattern) == i + 1
  {
    hide OccursAt;
  }

  /** Only a documentation link is scoped, and it begins with a slash. */
  lemma ScopedStartsWithSlash(url: string, version: Version)
    requires ScopeHref(Some(url), version) != Some(url)
    ensures url != "" && url[0] == '/'
  {}

  /** Behind a gap without a slash, the first occurrence of a documentation link is right there. */
  lemma FirstAfterGap(before: string, gap: string, url: string, post: string)
    requires url != "" && url[0] == '/' && '/' !in gap
    ensures IndexOf(before + gap + url + post, url, |before|) == Some(|before| + |gap|)
  {
    var s, at := before + gap + url + post, |before| + |gap|;
    assert s[at..at + |url|] == url;
    forall j | |before| <= j < at ensures !OccursAt(s, url, j) {
      assert s[j] == gap[j - |before|] && (j + |url| <= |s| ==> s[j..j + |url|][0] == s[j]);
    }
    IndexOfIs(s, url, |before|, at);
  }

  /** The link's own destination: the address behind the given place of the node's text. */
  ghost predicate ReplacesAt(content: string, link: Link, version: Version, place: Place, offset: nat) {
    Visit([], content, link, version)
    == [Replacement(place.start + offset, place.start + offset + |link.url|, ScopeHref(Some(link.url), version).value)]
  }

  lemma FoundReplaces(content: string, link: Link, version: Version, offset: nat)
    requires link.place.Some? && ScopeHref(Some(link.url), version) != Some(link.url)
    requires ScopeHref(Some(link.url), version).Some? && ScopeHref(Some(link.url), version).value != ""
    requires var place := link.place.value;
             IndexOf(Slice(content, place.start, place.end), link.url, SearchFrom(content, link, place)) == Some(offset)
    ensures ReplacesAt(content, link, version, link.place.value, offset)
  {
    hide ScopeHref, SearchFrom, Slice, IndexOf;
  }

  lemma ScopedIsNotEmpty(url: string, version: Version)
    requires ScopeHref(Some(url), version) != Some(url)
    ensures ScopeHref(Some(url), version).Some? && ScopeHref(Some(url), version).value != ""
  {}

  /** In `[label](destination)` the destination is replaced, whatever the label says: the address that
      follows the last `](` of the node. */
  lemma MarkdownDestination(content: string, link: Link, version: Version, pre: string, gap: string, post: string)
    requires link.MarkdownLink? && link.place.Some? && ScopeHref(Some(link.url), version) != Some(link.url)
    requires Slice(content, link.place.value.start, link.place.value.end) == pre + "](" + gap + link.url + post
    requires '/' !in gap
    requires forall j | |pre| < j :: !OccursAt(pre + "](" + gap + link.url + post, "](", j)
    ensures ReplacesAt(content, link, version, link.place.value, |pre| + 2 + |gap|)
  {
    hide ScopeHref, Slice, AfterLast, IndexOf, ReplacesAt;
    var s := pre + "](" + gap + link.url + post;
    ScopedStartsWithSlash(link.url, version);
    ScopedIsNotEmpty(link.url, version);
    assert OccursAt(s, "](", |pre|) by { assert s[|pre|..|pre| + 2] == "]("; }
    AfterLastIs(s, "](", |pre|);
    FirstAfterGap(pre + "](", gap, link.url, post);
    FoundReplaces(content, link, version, |pre| + 2 + |gap|);
  }

  /** In `[label]: destination` it is the address that follows the first colon. */
  lemma DefinitionDestination(content: string, link: Link, version: Version, pre: string, gap: string, post: string)
    requires link.Definition? && link.place.Some? && ScopeHref(Some(link.url), version) != Some(link.url)
    requires Slice(content, link.place.value.start, link.place.value.end) == pre + ":" + gap + link.url + post
    requires '/' !in gap && ':' !in pre
    ensures ReplacesAt(content, link, version, link.place.value, |pre| + 1 + |gap|)
  {
    hide ScopeHref, Slice, IndexOf, ReplacesAt;
    var s := pre + ":" + gap + link.url + post;
    ScopedStartsWithSlash(link.url, version);
    ScopedIsNotEmpty(link.url, version);
    assert s[|pre|..|pre| + 1] == ":";
    forall j | 0 <= j < |pre| ensures !OccursAt(s, ":", j) {
      assert s[j] == pre[j] && s[j..j + 1][0] == s[j];
    }
    IndexOfIs(s, ":", 0, |pre|);
    FirstAfterGap(pre + ":", gap, link.url, post);
    FoundReplaces(content, link, version, |pre| + 1 + |gap|);
  }

  /** In an attribute such as `href="destination"` it is the address behind the opening quote. */
  lemma AttributeDestination(content: string, link: Link, version: Version, pre: string, post: string)
    requires link.HrefAttribute? && link.place.Some? && ScopeHref(Some(link.url), version) != Some(link.url)
    requires Slice(content, link.place.value.start, link.place.value.end) == pre + link.url + post && '/' !in pre
    ensures ReplacesAt(content, link, version, link.place.value, |pre|)
  {
    hide ScopeHref, Slice, IndexOf, ReplacesAt;
    ScopedStartsWithSlash(link.url, version);
    ScopedIsNotEmpty(link.url, version);
    FirstAfterGap("", pre, link.url, post);
    assert "" + pre == pre;
    FoundReplaces(content, link, version, |pre|);
  }

  lemma ScopedLink(href: string, version: Version)
    ensures ScopeHref(Some(href), version).Some? && (href == "" ==> ScopeHref(Some(href), version).value == "")
  {}

  lemma VisitAppends(replacements: seq<Replacement>, content: string, link: Link, version: Version)
    ensures Visit(replacements, content, link, version) == replacements + Visit([], content, link, version)
  {
    hide ScopeHref, SearchFrom, Slice;
  }

  // Sorting.

  ghost predicate Descending(rs: seq<Replacement>) { forall i, j | 0 <= i < j < |rs| :: rs[i].start >= rs[j].start }

  lemma {:induction false} InsertKeepsAll(r: Replacement, sorted: seq<Replacement>)
    ensures multiset(InsertDescending(r, sorted)) == multiset{r} + multiset(sorted)
  {
    if sorted == [] || sorted[0].start < r.start {
    } else {
      InsertKeepsAll(r, sorted[1..]);
      assert sorted == [sorted[0]] + sorted[1..];
    }
  }

  lemma {:induction false} InsertDescends(r: Replacement, sorted: seq<Replacement>, bound: nat)
    requires Descending(sorted) && r.start <= bound && forall i | 0 <= i < |sorted| :: sorted[i].start <= bound
    ensures Descending(InsertDescending(r, sorted))
    ensures forall i | 0 <= i < |InsertDescending(r, sorted)| :: InsertDescending(r, sorted)[i].start <= bound
  {
    if sorted == [] || sorted[0].start < r.start {
    } else {
      InsertDescends(r, sorted[1..], sorted[0].start);
    }
  }

  lemma InsertKeeps(r: Replacement, sorted: seq<Replacement>)
    requires Descending(sorted)
    ensures multiset(InsertDescending(r, sorted)) == multiset{r} + multiset(sorted)
    ensures Descending(InsertDescending(r, sorted))
  {
    hide InsertDescending;
    InsertKeepsAll(r, sorted);
    var bound := if sorted == [] || sorted[0].start < r.start then r.start else sorted[0].start;
    InsertDescends(r, sorted, bound);
  }

  /** Sorting keeps the replacements and puts later starts first. */
  lemma {:induction false} SortKeeps(rs: seq<Replacement>)
    ensures multiset(SortDescending(rs)) == multiset(rs) && Descending(SortDescending(rs))
  {
    hide InsertDescending, Descending;
    if rs == [] {
      NothingDescends();
    } else {
      SortKeeps(rs[..|rs| - 1]);
      InsertKeeps(rs[|rs| - 1], SortDescending(rs[..|rs| - 1]));
      assert rs == rs[..|rs| - 1] + [rs[|rs| - 1]];
    }
  }

  /** The replacements that begin at a place, in their order. */
  ghost function BeginningAt(rs: seq<Replacement>, start: nat): seq<Replacement> {
    if rs == [] then []
    else
      BeginningAt(rs[..|rs| - 1], start) + (if rs[|rs| - 1].start == start then [rs[|rs| - 1]] else [])
  }

  lemma {:induction false} BeginningConcat(a: seq<Replacement>, b: seq<Replacement>, start: nat)
    ensures BeginningAt(a + b, start) == BeginningAt(a, start) + BeginningAt(b, start)
  {
    if b == [] {
      assert a + b == a;
    } else {
      BeginningConcat(a, b[..|b| - 1], start);
      assert (a + b)[..|a + b| - 1] == a + b[..|b| - 1];
    }
  }

  lemma InsertSteps(r: Replacement, sorted: seq<Replacement>)
    ensures InsertDescending(r, sorted) == if sorted == [] || sorted[0].start < r.start then [r] + sorted
                                           else [sorted[0]] + InsertDescending(r, sorted[1..])
  {}

  lemma {:induction false} InsertIsStable(r: Replacement, sorted: seq<Replacement>, start: nat)
    requires Descending(sorted)
    ensures BeginningAt(InsertDescending(r, sorted), start)
         == BeginningAt(sorted, start) + (if r.start == start then [r] else [])
  {
    hide BeginningAt, InsertDescending;
    BeginningOfOne(r, start);
    InsertSteps(r, sorted);
    if sorted == [] || sorted[0].start < r.start {
      BeginningConcat([r], sorted, start);
      if r.start == start { NoneBeginsThere(sorted, start); }
    } else {
      var first, rest := [sorted[0]], sorted[1..];
      InsertIsStable(r, rest, start);
      BeginningConcat(first, InsertDescending(r, rest), start);
      BeginningConcat(first, rest, start);
      assert sorted == first + rest;
      ConcatAssociates(BeginningAt(first, start), BeginningAt(rest, start), if r.start == start then [r] else []);
    }
  }

  lemma BeginningOfOne(r: Replacement, start: nat)
    ensures BeginningAt([r], start) == if r.start == start then [r] else []
  {
    assert [r][..0] == [];
  }

  lemma {:induction false} NoneBeginsThere(rs: seq<Replacement>, start: nat)
    requires forall i | 0 <= i < |rs| :: rs[i].start < start
    ensures BeginningAt(rs, start) == []
  {
    if rs == [] {
    } else {
      NoneBeginsThere(rs[..|rs| - 1], start);
    }
  }

  /** Sorting leaves replacements that begin at one place in the order in which they were found. */
  lemma {:induction false} SortIsStable(rs: seq<Replacement>, start: nat)
    ensures BeginningAt(SortDescending(rs), start) == BeginningAt(rs, start)
  {
    hide InsertDescending;
    if rs == [] {
    } else {
      SortIsStable(rs[..|rs| - 1], start);
      SortKeeps(rs[..|rs| - 1]);
      InsertIsStable(rs[|rs| - 1], SortDescending(rs[..|rs| - 1]), start);
    }
  }

  lemma NothingDescends()
    ensures Descending([])
  {}

  // The meaning of replacing all spans at once.

  ghost predicate InRange(rs: seq<Replacement>, limit: nat) { forall r | r in rs :: r.start < r.end <= limit }

  ghost predicate Apart(r: Replacement, q: Replacement) { r.end <= q.start || q.end <= r.start }

  ghost predicate Disjoint(rs: seq<Replacement>) { forall i, j | 0 <= i < j < |rs| :: Apart(rs[i], rs[j]) }

  ghost function StartingAt(rs: seq<Replacement>, i: nat): (found: Option<Replacement>)
    ensures found.Some? ==> found.value in rs && found.value.start == i
    ensures found.None? ==> forall r | r in rs :: r.start != i
  {
    if rs == [] then None else if rs[0].start == i then Some(rs[0]) else StartingAt(rs[1..], i)
  }

  /** Simultaneous substitution: walk the text once, writing the value of a span where one starts and
      each character outside the spans as it is. */
  ghost function Substituted(content: string, rs: seq<Replacement>, i: nat): string
    requires InRange(rs, |content|) && i <= |content|
    decreases |content| - i
  {
    if i == |content| then ""
    else
      var found := StartingAt(rs, i);
      if found.Some? then found.value.value + Substituted(content, rs, found.value.end)
      else [content[i]] + Substituted(content, rs, i + 1)
  }

  lemma {:induction false} NothingLeft(content: string, rs: seq<Replacement>, i: nat)
    requires InRange(rs, |content|) && i <= |content| && forall r | r in rs :: r.start < i
    ensures Substituted(content, rs, i) == content[i..]
    decreases |content| - i
  {
    if i < |content| {
      NothingLeft(content, rs, i + 1);
    }
  }

  /** Not inside a span. */
  ghost predicate Outside(rs: seq<Replacement>, i: nat) { forall r | r in rs :: i <= r.start || r.end <= i }

  lemma OneStep(content: string, rs: seq<Replacement>, i: nat)
    requires InRange(rs, |content|) && i < |content|
    ensures var found := StartingAt(rs, i);
            Substituted(content, rs, i)
            == if found.Some? then found.value.value + Substituted(content, rs, found.value.end)
               else [content[i]] + Substituted(content, rs, i + 1)
  {}

  lemma Regroup(a: string, b: string, c: string, d: string)
    ensures a + (b + c + d) == (a + b) + c + d
  {}

  /** The span that starts last comes last in the substituted text. */
  lemma {:induction false} LastSpan(content: string, last: Replacement, rest: seq<Replacement>, i: nat)
    requires InRange([last] + rest, |content|) && InRange(rest, last.start) && i <= last.start && Outside(rest, i)
    requires Disjoint(rest) && last.start < last.end
    ensures Substituted(content, [last] + rest, i)
            == Substituted(content[..last.start], rest, i) + last.value + content[last.end..]
    decreases last.start - i
  {
    var all, before := [last] + rest, content[..last.start];
    if i == last.start {
      assert StartingAt(all, i) == Some(last);
      assert last in all;
      NothingLeft(content, all, last.end);
      assert Substituted(before, rest, i) == "";
      OneStep(content, all, i);
    } else {
      StartingAtCons(last, rest, i);
      OneStep(content, all, i);
      OneStep(before, rest, i);
      hide Substituted, StartingAt;
      var found := StartingAt(rest, i);
      var step := if found.Some? then found.value.value else [content[i]];
      var next := if found.Some? then found.value.end else i + 1;
      StillOutside(rest, i);
      LastSpan(content, last, rest, next);
      Regroup(step, Substituted(before, rest, next), last.value, content[last.end..]);
    }
  }

  lemma StartingAtCons(last: Replacement, rest: seq<Replacement>, i: nat)
    requires i != last.start
    ensures StartingAt([last] + rest, i) == StartingAt(rest, i)
  {
    assert ([last] + rest)[1..] == rest;
  }

  /** The walk never enters a span. */
  lemma StillOutside(rs: seq<Replacement>, i: nat)
    requires Disjoint(rs) && Outside(rs, i) && forall r | r in rs :: r.start < r.end
    ensures var found := StartingAt(rs, i); Outside(rs, if found.Some? then found.value.end else i + 1)
  {
    hide StartingAt;
    var found := StartingAt(rs, i);
    if found.Some? {
      forall r | r in rs ensures found.value.end <= r.start || r.end <= found.value.end {
        if r != found.value { MembersApart(rs, r, found.value); }
      }
    }
  }

  lemma MembersApart(rs: seq<Replacement>, r: Replacement, q: Replacement)
    requires Disjoint(rs) && r in rs && q in rs && r != q
    ensures Apart(r, q)
  {
    var i :| 0 <= i < |rs| && rs[i] == r;
    var j :| 0 <= j < |rs| && rs[j] == q;
    assert i < j || j < i;
  }

  /** Splicing at or before a place does not touch what comes after it. */
  lemma {:induction false} SplicesStayLeft(text: string, rs: seq<Replacement>, k: nat)
    requires k <= |text| && InRange(rs, k) && Descending(rs) && Disjoint(rs)
    ensures SpliceAll(text, rs) == SpliceAll(text[..k], rs) + text[k..]
    decreases |rs|
  {
    if rs == [] {
      assert text == text[..k] + text[k..];
    } else {
      var r := rs[0];
      RestIsLeft(rs, k);
      var spliced, splicedLeft := SpliceOne(text, r), SpliceOne(text[..k], r);
      hide SpliceOne, Descending, Disjoint;
      SpliceOneParts(text, r);
      SpliceOneParts(text[..k], r);
      SpliceOneLeft(text, r, k);
      SplicesStayLeft(spliced, rs[1..], r.start);
      SplicesStayLeft(splicedLeft, rs[1..], r.start);
      ConcatAssociates(SpliceAll(text[..r.start], rs[1..]), splicedLeft[r.start..], text[k..]);
    }
  }

  lemma SpliceOneLeft(text: string, r: Replacement, k: nat)
    requires r.start < r.end <= k <= |text|
    ensures text[..k][..r.start] == text[..r.start]
    ensures r.value + text[r.end..] == (r.value + text[..k][r.end..]) + text[k..]
  {}

  lemma RestIsLeft(rs: seq<Replacement>, k: nat)
    requires rs != [] && InRange(rs, k) && Descending(rs) && Disjoint(rs)
    ensures InRange(rs[1..], rs[0].start) && Descending(rs[1..]) && Disjoint(rs[1..])
  {
    forall r | r in rs[1..] ensures r.start < r.end <= rs[0].start {
      var j :| 1 <= j < |rs| && rs[j] == r;
      assert Apart(rs[0], rs[j]);
    }
  }

  /** Splicing a span first leaves the spans before it to the text before it. */
  lemma SpliceSplits(content: string, rs: seq<Replacement>)
    requires rs != [] && InRange(rs, |content|) && Descending(rs) && Disjoint(rs)
    ensures InRange(rs[1..], rs[0].start) && Descending(rs[1..]) && Disjoint(rs[1..])
    ensures SpliceAll(content, rs)
            == SpliceAll(content[..rs[0].start], rs[1..]) + (rs[0].value + content[rs[0].end..])
  {
    var r := rs[0];
    RestIsLeft(rs, |content|);
    SpliceOneParts(content, r);
    SplicesStayLeft(SpliceOne(content, r), rs[1..], r.start);
    hide SpliceOne, InRange, Descending, Disjoint;
  }

  lemma SpliceOneParts(text: string, r: Replacement)
    requires r.start < r.end <= |text|
    ensures |SpliceOne(text, r)| >= r.start
    ensures SpliceOne(text, r)[..r.start] == text[..r.start]
    ensures SpliceOne(text, r)[r.start..] == r.value + text[r.end..]
  {}

  lemma {:induction false} SortedSpliceSubstitutes(content: string, rs: seq<Replacement>)
    requires InRange(rs, |content|) && Descending(rs) && Disjoint(rs)
    ensures SpliceAll(content, rs) == Substituted(content, rs, 0)
  {
    if rs == [] {
      NothingLeft(content, rs, 0);
    } else {
      hide Descending, Disjoint, Substituted, SpliceAll;
      SpliceSplits(content, rs);
      SortedSpliceSubstitutes(content[..rs[0].start], rs[1..]);
      assert rs == [rs[0]] + rs[1..];
      assert rs[0] in rs;
      LastSpan(content, rs[0], rs[1..], 0);
      ConcatAssociates(Substituted(content[..rs[0].start], rs[1..], 0), rs[0].value, content[rs[0].end..]);
    }
  }

  lemma {:induction false} SubstitutedUnordered(content: string, rs: seq<Replacement>, qs: seq<Replacement>, i: nat)
    requires InRange(rs, |content|) && InRange(qs, |content|) && i <= |content| && Disjoint(rs)
    requires forall r :: r in rs <==> r in qs
    ensures Substituted(content, rs, i) == Substituted(content, qs, i)
    decreases |content| - i
  {
    if i < |content| {
      var found, other := StartingAt(rs, i), StartingAt(qs, i);
      if found.Some? && other.Some? && found != other { MembersApart(rs, found.value, other.value); }
      SubstitutedUnordered(content, rs, qs, if found.Some? then found.value.end else i + 1);
    }
  }

  /** Counts of the same multiset keep disjointness. */
  lemma DisjointUnordered(rs: seq<Replacement>, qs: seq<Replacement>)
    requires multiset(rs) == multiset(qs) && Disjoint(rs) && forall r | r in rs :: r.start < r.end
    ensures Disjoint(qs) && forall r :: r in rs <==> r in qs
  {
    assert forall r :: r in rs <==> r in multiset(rs);
    assert forall r :: r in qs <==> r in multiset(qs);
    forall i, j | 0 <= i < j < |qs| ensures Apart(qs[i], qs[j]) {
      if qs[i] == qs[j] {
        TwiceIn(qs, i, j);
        OnceEach(rs, qs[i]);
      } else {
        MembersApart(rs, qs[i], qs[j]);
      }
    }
  }

  lemma TwiceIn(qs: seq<Replacement>, i: nat, j: nat)
    requires i < j < |qs| && qs[i] == qs[j]
    ensures multiset(qs)[qs[i]] >= 2
  {
    assert qs == qs[..j] + qs[j..];
    assert qs[..j][i] == qs[i] && qs[j..][0] == qs[i];
    assert qs[i] in multiset(qs[..j]) && qs[i] in multiset(qs[j..]);
  }

  lemma {:induction false} OnceEach(rs: seq<Replacement>, r: Replacement)
    requires Disjoint(rs) && r.start < r.end
    ensures multiset(rs)[r] <= 1
  {
    if rs == [] {
    } else {
      assert rs == [rs[0]] + rs[1..];
      OnceEach(rs[1..], r);
      if rs[0] == r {
        forall j | 1 <= j < |rs| ensures rs[j] != r { assert Apart(rs[0], rs[j]); }
      }
    }
  }

  /** For disjoint spans the splice from right to left is simultaneous substitution. */
  lemma SpliceSubstitutes(content: string, rs: seq<Replacement>)
    requires InRange(rs, |content|) && Disjoint(rs)
    ensures SpliceAll(content, SortDescending(rs)) == Substituted(content, rs, 0)
  {
    hide Substituted, SpliceAll, SortDescending;
    SortKeeps(rs);
    DisjointUnordered(rs, SortDescending(rs));
    SortedSpliceSubstitutes(content, SortDescending(rs));
    SubstitutedUnordered(content, rs, SortDescending(rs), 0);
  }

  // Lengths and positions.

  /** How far the spans that end by `p` push what follows them. */
  ghost function Shift(rs: seq<Replacement>, p: nat): int {
    if rs == [] then 0
    else (if rs[0].end <= p then |rs[0].value| - (rs[0].end - rs[0].start) else 0) + Shift(rs[1..], p)
  }

  lemma {:induction false} ShiftOfAll(rs: seq<Replacement>, p: nat, q: nat)
    requires InRange(rs, p) && p <= q
    ensures Shift(rs, p) == Shift(rs, q)
  {
    if rs == [] {
    } else {
      ShiftOfAll(rs[1..], p, q);
    }
  }

  lemma {:induction false} SplicedLength(content: string, rs: seq<Replacement>)
    requires InRange(rs, |content|) && Descending(rs) && Disjoint(rs)
    ensures |SpliceAll(content, rs)| == |content| + Shift(rs, |content|)
  {
    if rs == [] {
    } else {
      SpliceSplits(content, rs);
      SplicedLength(content[..rs[0].start], rs[1..]);
      ShiftOfAll(rs[1..], rs[0].start, |content|);
    }
  }

  lemma {:induction false} SplicedPositions(content: string, rs: seq<Replacement>, p: nat)
    requires InRange(rs, |content|) && Descending(rs) && Disjoint(rs) && p < |content|
    requires forall r | r in rs :: p < r.start || r.end <= p
    ensures 0 <= p + Shift(rs, p) < |SpliceAll(content, rs)|
    ensures SpliceAll(content, rs)[p + Shift(rs, p)] == content[p]
  {
    hide SpliceAll, Descending, Disjoint, Shift;
    if rs == [] {
      NothingSpliced(content, p);
    } else {
      var r, rest := rs[0], rs[1..];
      assert r in rs;
      SpliceSplits(content, rs);
      ShiftStep(rs, p);
      if p < r.start {
        SplicedPositions(content[..r.start], rest, p);
      } else {
        SplicedLength(content[..r.start], rest);
        ShiftOfAll(rest, r.start, p);
      }
    }
  }

  lemma NothingSpliced(content: string, p: nat)
    ensures SpliceAll(content, []) == content && Shift([], p) == 0
  {}

  lemma ShiftStep(rs: seq<Replacement>, p: nat)
    requires rs != []
    ensures Shift(rs, p)
            == (if rs[0].end <= p then |rs[0].value| - (rs[0].end - rs[0].start) else 0) + Shift(rs[1..], p)
  {}

  lemma {:induction false} SplicedValues(content: string, rs: seq<Replacement>, r: Replacement)
    requires InRange(rs, |content|) && Descending(rs) && Disjoint(rs) && r in rs
    ensures var from := r.start + Shift(rs, r.start);
            0 <= from && OccursAt(SpliceAll(content, rs), r.value, from)
  {
    hide SpliceAll, Descending, Disjoint, OccursAt, Shift;
    var last, rest := rs[0], rs[1..];
    assert last in rs;
    SpliceSplits(content, rs);
    var before := SpliceAll(content[..last.start], rest);
    LaterSpanDoesNotShift(rs, r.start);
    if r == last {
      SplicedLength(content[..last.start], rest);
      OccursInConcat(before, r.value, content[last.end..]);
    } else {
      SplicedValues(content[..last.start], rest, r);
      OccursInStart(before, last.value + content[last.end..], r.value, r.start + Shift(rest, r.start));
    }
  }

  lemma LaterSpanDoesNotShift(rs: seq<Replacement>, p: nat)
    requires rs != []
    ensures rs[0].end > p ==> Shift(rs, p) == Shift(rs[1..], p)
  {}

  lemma OccursInConcat(a: string, pattern: string, b: string)
    ensures OccursAt(a + (pattern + b), pattern, |a|)
  {}

  lemma OccursInStart(a: string, b: string, pattern: string, i: nat)
    requires OccursAt(a, pattern, i)
    ensures OccursAt(a + b, pattern, i)
  {
    assert (a + b)[i..i + |pattern|] == a[i..i + |pattern|];
  }

  lemma {:induction false} ShiftOfInsert(r: Replacement, sorted: seq<Replacement>, p: nat)
    ensures Shift(InsertDescending(r, sorted), p) == Shift([r], p) + Shift(sorted, p)
  {
    if sorted == [] || sorted[0].start < r.start {
    } else {
      ShiftOfInsert(r, sorted[1..], p);
    }
  }

  lemma {:induction false} ShiftOfConcat(a: seq<Replacement>, r: Replacement, p: nat)
    ensures Shift(a + [r], p) == Shift(a, p) + Shift([r], p)
  {
    if a == [] {
      assert a + [r] == [r];
    } else {
      assert (a + [r])[1..] == a[1..] + [r];
      ShiftOfConcat(a[1..], r, p);
    }
  }

  lemma {:induction false} ShiftOfSorted(rs: seq<Replacement>, p: nat)
    ensures Shift(SortDescending(rs), p) == Shift(rs, p)
  {
    if rs == [] {
    } else {
      var front, last := rs[..|rs| - 1], rs[|rs| - 1];
      ShiftOfSorted(front, p);
      ShiftOfInsert(last, SortDescending(front), p);
      ShiftOfConcat(front, last, p);
      assert rs == front + [last];
    }
  }

  lemma SortedMembers(rs: seq<Replacement>, limit: nat)
    requires InRange(rs, limit) && Disjoint(rs)
    ensures var sorted := SortDescending(rs);
            InRange(sorted, limit) && Disjoint(sorted) && Descending(sorted) && forall r :: r in rs <==> r in sorted
  {
    hide SortDescending, Disjoint, Descending;
    SortKeeps(rs);
    DisjointUnordered(rs, SortDescending(rs));
  }

  /** A place that no span covers. */
  ghost predicate Uncovered(rs: seq<Replacement>, p: nat) { forall r | r in rs :: p < r.start || r.end <= p }

  /** The character at a place is found where the spans before it push it. */
  ghost predicate KeptAt(content: string, rs: seq<Replacement>, result: string, p: nat)
    requires p < |content|
  {
    0 <= p + Shift(rs, p) < |result| && result[p + Shift(rs, p)] == content[p]
  }

  /** So is the value of a span. */
  ghost predicate HeldAt(rs: seq<Replacement>, result: string, r: Replacement) {
    0 <= r.start + Shift(rs, r.start) && OccursAt(result, r.value, r.start + Shift(rs, r.start))
  }

  lemma UncoveredIsKept(content: string, rs: seq<Replacement>, p: nat)
    requires InRange(rs, |content|) && Disjoint(rs) && p < |content| && Uncovered(rs, p)
    ensures KeptAt(content, rs, SpliceAll(content, SortDescending(rs)), p)
  {
    hide SpliceAll, SortDescending, Shift, Disjoint, Descending;
    SortedMembers(rs, |content|);
    SplicedPositions(content, SortDescending(rs), p);
    ShiftOfSorted(rs, p);
  }

  lemma SpanIsHeld(content: string, rs: seq<Replacement>, r: Replacement)
    requires InRange(rs, |content|) && Disjoint(rs) && r in rs
    ensures HeldAt(rs, SpliceAll(content, SortDescending(rs)), r)
  {
    hide SpliceAll, SortDescending, Shift, Disjoint, Descending, OccursAt;
    SortedMembers(rs, |content|);
    SplicedValues(content, SortDescending(rs), r);
    ShiftOfSorted(rs, r.start);
  }

  /** The text outside the spans is kept verbatim and in order, every span holds its new value at its
      shifted place, and the length changes by the sum of the differences. */
  lemma TextOutsideIsKept(content: string, rs: seq<Replacement>)
    requires InRange(rs, |content|) && Disjoint(rs)
    ensures var result := SpliceAll(content, SortDescending(rs));
            && |result| == |content| + Shift(rs, |content|)
            && (forall p | 0 <= p < |content| && Uncovered(rs, p) :: KeptAt(content, rs, result, p))
            && (forall r | r in rs :: HeldAt(rs, result, r))
  {
    hide SpliceAll, SortDescending, Shift, Disjoint, Descending, Uncovered, KeptAt, HeldAt;
    var sorted := SortDescending(rs);
    SortedMembers(rs, |content|);
    SplicedLength(content, sorted);
    ShiftOfSorted(rs, |content|);
    forall p | 0 <= p < |content| && Uncovered(rs, p) ensures KeptAt(content, rs, SpliceAll(content, sorted), p) {
      UncoveredIsKept(content, rs, p);
    }
    forall r | r in rs ensures HeldAt(rs, SpliceAll(content, sorted), r) {
      SpanIsHeld(content, rs, r);
    }
  }

  // The page as a whole.

  ghost predicate PlacesApart(links: seq<Link>) {
    forall i, j | 0 <= i < j < |links| && links[i].place.Some? && links[j].place.Some? ::
      links[i].place.value.end <= links[j].place.value.start || links[j].place.value.end <= links[i].place.value.start
  }

  ghost predicate ComesFromSome(r: Replacement, content: string, links: seq<Link>, version: Version) {
    exists i | 0 <= i < |links| :: ComesFrom(r, content, links[i], version)
  }

  /** Links that stand apart give spans that stand apart, each from one of the links. */
  lemma {:induction false} VisitsStandApart(content: string, links: seq<Link>, version: Version)
    requires PlacesApart(links)
    ensures forall r | r in VisitAll(content, links, version) :: ComesFromSome(r, content, links, version)
    ensures InRange(VisitAll(content, links, version), |content|) && Disjoint(VisitAll(content, links, version))
  {
    hide ComesFrom, Visit;
    if links == [] {
    } else {
      var front, last := links[..|links| - 1], links[|links| - 1];
      VisitsStandApart(content, front, version);
      var before := VisitAll(content, front, version);
      VisitAppends(before, content, last, version);
      var added := Visit([], content, last, version);
      forall r | r in before
        ensures ComesFromSome(r, content, links, version) && (added != [] ==> Apart(r, added[0]))
      {
        var i :| 0 <= i < |front| && ComesFrom(r, content, front[i], version);
        assert links[i] == front[i];
        if added != [] {
          AddedComesFrom(content, last, version);
          ComesFromApart(r, added[0], content, links, i, version);
        }
      }
      if added != [] {
        AddedComesFrom(content, last, version);
        assert ComesFrom(added[0], content, links[|links| - 1], version);
        ComesFromInRange(added[0], content, last, version);
      }
    }
  }

  lemma ComesFromInRange(r: Replacement, content: string, link: Link, version: Version)
    requires ComesFrom(r, content, link, version)
    ensures r.start < r.end <= |content|
  {}

  lemma ComesFromApart(r: Replacement, q: Replacement, content: string, links: seq<Link>, i: nat, version: Version)
    requires PlacesApart(links) && i < |links| - 1
    requires ComesFrom(r, content, links[i], version) && ComesFrom(q, content, links[|links| - 1], version)
    ensures Apart(r, q)
  {}

  /** Scoping a page whose links stand apart substitutes, all at once, scoped addresses for the
      addresses of its links. */
  lemma ScopedPageSubstitutes(content: string, links: seq<Link>, version: Version)
    requires PlacesApart(links)
    ensures var rs := VisitAll(content, links, version);
            && InRange(rs, |content|) && Disjoint(rs)
            && (forall r | r in rs :: ComesFromSome(r, content, links, version))
            && SpliceAll(content, SortDescending(rs)) == Substituted(content, rs, 0)
  {
    VisitsStandApart(content, links, version);
    SpliceSubstitutes(content, VisitAll(content, links, version));
  }
}
