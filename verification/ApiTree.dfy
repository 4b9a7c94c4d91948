/** The nesting that the flat property list stands for, and what hiding properties does to it. */
module ApiTree {
  import opened Wrappers
  import opened Text
  import opened ApiMethod

  datatype Node = Node(property: Property, children: seq<Node>)

  /** The list form of a forest: every node before its children. */
  function Flatten(forest: seq<Node>): seq<Property> {
    if forest == [] then []
    else [forest[0].property] + Flatten(forest[0].children) + Flatten(forest[1..])
  }

  /** Every node's path names its ancestors, and only objects have children. */
  ghost predicate WellFormed(forest: seq<Node>, path: seq<string>) {
    forall n | n in forest :: WellFormedNode(n, path)
  }

  ghost predicate WellFormedNode(n: Node, path: seq<string>) {
    && n.property.path == path
    && (n.children != [] ==> n.property.typeName == "Object")
    && forall c | c in n.children :: WellFormedNode(c, path + [n.property.name])
  }

  /** The two sides that documentation is rendered for. */
  datatype Side = Client | Server

  predicate Hidden(side: Side, p: Property) {
    match side
    case Client => p.serverOnly
    case Server => p.clientOnly
  }

  /** Whatever is below a hidden node is hidden. */
  ghost predicate Inherits(side: Side, n: Node, inherited: bool) {
    && (inherited ==> Hidden(side, n.property))
    && forall c | c in n.children :: Inherits(side, c, Hidden(side, n.property))
  }

  ghost predicate AllInherit(side: Side, forest: seq<Node>, inherited: bool) {
    forall n | n in forest :: Inherits(side, n, inherited)
  }

  /** The properties a side shows, of a list and of a forest. */
  function Visible(side: Side, properties: seq<Property>): seq<Property> {
    if properties == [] then []
    else (if Hidden(side, properties[0]) then [] else [properties[0]]) + Visible(side, properties[1..])
  }

  /** Hiding a node together with everything below it. */
  function Prune(side: Side, forest: seq<Node>): seq<Node> {
    if forest == [] then []
    else if Hidden(side, forest[0].property) then Prune(side, forest[1..])
    else [Node(forest[0].property, Prune(side, forest[0].children))] + Prune(side, forest[1..])
  }

  lemma {:induction false} FlattenConcat(a: seq<Node>, b: seq<Node>)
    ensures Flatten(a + b) == Flatten(a) + Flatten(b)
  {
    if a == [] {
      assert a + b == b;
    } else {
      FlattenConcat(a[1..], b);
      assert (a + b)[1..] == a[1..] + b;
      ConcatAssociates([a[0].property] + Flatten(a[0].children), Flatten(a[1..]), Flatten(b));
    }
  }

  lemma {:induction false} VisibleConcat(side: Side, a: seq<Property>, b: seq<Property>)
    ensures Visible(side, a + b) == Visible(side, a) + Visible(side, b)
  {
    if a == [] {
      assert a + b == b;
    } else {
      hide Hidden;
      VisibleConcat(side, a[1..], b);
      assert (a + b)[1..] == a[1..] + b;
      ConcatAssociates(if Hidden(side, a[0]) then [] else [a[0]], Visible(side, a[1..]), Visible(side, b));
    }
  }

  lemma {:induction false} HiddenBelow(side: Side, forest: seq<Node>)
    requires AllInherit(side, forest, true)
    ensures Visible(side, Flatten(forest)) == []
  {
    if forest == [] {
    } else {
      var n := forest[0];
      assert Inherits(side, n, true);
      HiddenBelow(side, n.children);
      HiddenBelow(side, forest[1..]);
      VisibleConcat(side, [n.property] + Flatten(n.children), Flatten(forest[1..]));
      VisibleConcat(side, [n.property], Flatten(n.children));
    }
  }

  /** Because hiding is inherited, filtering the list is pruning the forest. */
  lemma {:induction false} FilteringPrunes(side: Side, forest: seq<Node>, inherited: bool)
    requires AllInherit(side, forest, inherited)
    ensures Visible(side, Flatten(forest)) == Flatten(Prune(side, forest))
  {
    if forest == [] {
    } else {
      var n := forest[0];
      assert Inherits(side, n, inherited);
      FilteringPrunes(side, forest[1..], inherited);
      VisibleConcat(side, [n.property] + Flatten(n.children), Flatten(forest[1..]));
      VisibleConcat(side, [n.property], Flatten(n.children));
      if Hidden(side, n.property) {
        HiddenBelow(side, n.children);
      } else {
        FilteringPrunes(side, n.children, false);
        FlattenConcat([Node(n.property, Prune(side, n.children))], Prune(side, forest[1..]));
        assert Flatten([Node(n.property, Prune(side, n.children))]) == [n.property] + Flatten(Prune(side, n.children));
      }
    }
  }

  lemma {:induction false} PruneKeepsWellFormed(side: Side, forest: seq<Node>, path: seq<string>)
    requires WellFormed(forest, path)
    ensures WellFormed(Prune(side, forest), path)
  {
    if forest == [] {
    } else {
      var n := forest[0];
      assert WellFormedNode(n, path);
      PruneKeepsWellFormed(side, forest[1..], path);
      PruneKeepsWellFormed(side, n.children, path + [n.property.name]);
      assert n.children == [] ==> Prune(side, n.children) == [];
    }
  }

  // Reading the tree off the lines: completed siblings at each level, and the objects still open.

  datatype Frame = Frame(siblings: seq<Node>, open: Property)

  datatype OpenTree = OpenTree(frames: seq<Frame>, here: seq<Node>)

  function Names(frames: seq<Frame>): seq<string> { seq(|frames|, i requires 0 <= i < |frames| => frames[i].open.name) }

  function FlattenOpen(t: OpenTree): seq<Property>
    decreases |t.frames|
  {
    if t.frames == [] then Flatten(t.here)
    else
      var f := t.frames[|t.frames| - 1];
      FlattenOpen(OpenTree(t.frames[..|t.frames| - 1], f.siblings)) + [f.open] + Flatten(t.here)
  }

  ghost predicate WellFormedOpen(t: OpenTree)
    decreases |t.frames|
  {
    && WellFormed(t.here, Names(t.frames))
    && (t.frames != [] ==>
          var outer := t.frames[..|t.frames| - 1];
          var f := t.frames[|t.frames| - 1];
          f.open.path == Names(outer) && f.open.typeName == "Object" && WellFormedOpen(OpenTree(outer, f.siblings)))
  }

  ghost predicate HiddenInside(side: Side, frames: seq<Frame>) {
    frames != [] && Hidden(side, frames[|frames| - 1].open)
  }

  ghost predicate OpenInherits(side: Side, t: OpenTree)
    decreases |t.frames|
  {
    && AllInherit(side, t.here, HiddenInside(side, t.frames))
    && (t.frames != [] ==>
          var outer := t.frames[..|t.frames| - 1];
          (HiddenInside(side, outer) ==> HiddenInside(side, t.frames))
          && OpenInherits(side, OpenTree(outer, t.frames[|t.frames| - 1].siblings)))
  }

  /** Every hidden open object is recorded as a restricted path. */
  ghost predicate Restricts(side: Side, restricted: set<string>, frames: seq<Frame>) {
    forall k | 0 < k <= |frames| :: HiddenInside(side, frames[..k]) ==> IsPathRestricted(restricted, Names(frames[..k]))
  }

  /** The tree after one line: a property becomes a leaf or opens an object, a closing brace completes one. */
  function GrowLine(t: OpenTree, s: Scanner, line: string): OpenTree {
    if s.typeEnd.Some? || s.typeStart.None? then t
    else if IsClosing(line) then
      if t.frames == [] then t
      else
        var f := t.frames[|t.frames| - 1];
        OpenTree(t.frames[..|t.frames| - 1], f.siblings + [Node(f.open, t.here)])
    else if "/*" <= line || "*/" <= line || "*" <= line then t
    else
      match ParsePropertyLine(line)
      case None => t
      case Some(parsed) => GrowProperty(t, s, parsed)
  }

  function GrowProperty(t: OpenTree, s: Scanner, line: PropertyLine): OpenTree {
    var added := ScanProperty(s, line).properties;
    var property := added[|added| - 1];
    if line.typeName == "{" then OpenTree(t.frames + [Frame(t.here, property)], [])
    else OpenTree(t.frames, t.here + [Node(property, [])])
  }

  function Grow(lines: seq<string>, n: nat): OpenTree
    requires n <= |lines|
  {
    if n == 0 then OpenTree([], []) else GrowLine(Grow(lines, n - 1), Scan(lines, n - 1), Trim(lines[n - 1]))
  }

  /** The scanner's list and path are those of the tree read so far. */
  ghost predicate Refines(s: Scanner, t: OpenTree) {
    && s.properties == FlattenOpen(t)
    && s.nestedPath == Names(t.frames)
    && WellFormedOpen(t)
    && OpenInherits(Client, t) && OpenInherits(Server, t)
    && Restricts(Client, s.serverOnlyPaths, t.frames) && Restricts(Server, s.clientOnlyPaths, t.frames)
  }

  lemma {:induction false} RestrictionGrows(restricted: set<string>, more: set<string>, path: seq<string>,
                                            longer: seq<string>)
    requires IsPathRestricted(restricted, path) && restricted <= more && path <= longer
    ensures IsPathRestricted(more, longer)
  {
    var length: nat :| 1 <= length <= |path| && Join(path[..length], ".") in restricted;
    assert longer[..length] == path[..length];
  }

  lemma {:induction false} CloseRefines(s: Scanner, t: OpenTree)
    requires Refines(s, t) && t.frames != []
    ensures var f := t.frames[|t.frames| - 1];
            Refines(s.(nestedPath := s.nestedPath[..|s.nestedPath| - 1]),
                    OpenTree(t.frames[..|t.frames| - 1], f.siblings + [Node(f.open, t.here)]))
  {
    hide IsPathRestricted, Restricts;
    var outer, f := t.frames[..|t.frames| - 1], t.frames[|t.frames| - 1];
    var n, before := Node(f.open, t.here), OpenTree(outer, f.siblings);
    assert Names(t.frames) == Names(outer) + [f.open.name];
    assert Names(outer) == s.nestedPath[..|s.nestedPath| - 1];
    AppendNode(before, n);
    assert FlattenOpen(t) == FlattenOpen(before) + ([f.open] + Flatten(t.here));
    assert Flatten([n]) == [f.open] + Flatten(t.here);
    assert Inherits(Client, n, HiddenInside(Client, outer)) && Inherits(Server, n, HiddenInside(Server, outer));
    RestrictsOuter(Client, s.serverOnlyPaths, t.frames);
    RestrictsOuter(Server, s.clientOnlyPaths, t.frames);
  }

  lemma {:induction false} RestrictsOuter(side: Side, restricted: set<string>, frames: seq<Frame>)
    requires Restricts(side, restricted, frames) && frames != []
    ensures Restricts(side, restricted, frames[..|frames| - 1])
  {
    hide IsPathRestricted, HiddenInside;
    var outer := frames[..|frames| - 1];
    forall k | 0 < k <= |outer| && HiddenInside(side, outer[..k])
      ensures IsPathRestricted(restricted, Names(outer[..k]))
    {
      assert outer[..k] == frames[..k];
    }
  }

  /** Adding a node at the innermost level. */
  lemma {:induction false} AppendNode(t: OpenTree, n: Node)
    requires WellFormedOpen(t) && WellFormedNode(n, Names(t.frames))
    ensures var u := OpenTree(t.frames, t.here + [n]);
            && FlattenOpen(u) == FlattenOpen(t) + Flatten([n])
            && WellFormedOpen(u)
            && (forall side | OpenInherits(side, t) && Inherits(side, n, HiddenInside(side, t.frames)) ::
                  OpenInherits(side, u))
  {
    FlattenConcat(t.here, [n]);
    var u := OpenTree(t.frames, t.here + [n]);
    if t.frames == [] {
    } else {
      var f := t.frames[|t.frames| - 1];
      var outer := FlattenOpen(OpenTree(t.frames[..|t.frames| - 1], f.siblings));
      assert FlattenOpen(u) == outer + [f.open] + Flatten(t.here + [n]);
    }
  }

  /** What a new property is: at the open path, and hidden where anything around it is. */
  lemma {:induction false} AddedProperty(s: Scanner, t: OpenTree, line: PropertyLine)
    requires Refines(s, t)
    ensures var s' := ScanProperty(s, line);
            var p := s'.properties[|s'.properties| - 1];
            && s'.properties == s.properties + [p]
            && p.name == line.name && p.path == Names(t.frames)
            && (HiddenInside(Client, t.frames) ==> p.serverOnly)
            && (HiddenInside(Server, t.frames) ==> p.clientOnly)
            && s.serverOnlyPaths <= s'.serverOnlyPaths && s.clientOnlyPaths <= s'.clientOnlyPaths
            && (line.typeName == "{" ==>
                  && p.typeName == "Object" && s'.nestedPath == s.nestedPath + [p.name]
                  && (p.serverOnly ==> IsPathRestricted(s'.serverOnlyPaths, s'.nestedPath))
                  && (p.clientOnly ==> IsPathRestricted(s'.clientOnlyPaths, s'.nestedPath)))
            && (line.typeName != "{" ==> s'.nestedPath == s.nestedPath)
  {
    hide Join, Trim, FlattenOpen, WellFormedOpen, OpenInherits;
    var s' := ScanProperty(s, line);
    assert t.frames[..|t.frames|] == t.frames;
    assert s.nestedPath <= s'.nestedPath;
    if HiddenInside(Client, t.frames) {
      RestrictionGrows(s.serverOnlyPaths, s'.serverOnlyPaths, s.nestedPath, s'.nestedPath);
    }
    if HiddenInside(Server, t.frames) {
      RestrictionGrows(s.clientOnlyPaths, s'.clientOnlyPaths, s.nestedPath, s'.nestedPath);
    }
    assert s'.nestedPath[..|s'.nestedPath|] == s'.nestedPath;
  }

  lemma {:induction false} RestrictsGrows(side: Side, restricted: set<string>, more: set<string>, frames: seq<Frame>)
    requires Restricts(side, restricted, frames) && restricted <= more
    ensures Restricts(side, more, frames)
  {
    hide IsPathRestricted, HiddenInside;
    forall k | 0 < k <= |frames| && HiddenInside(side, frames[..k])
      ensures IsPathRestricted(more, Names(frames[..k]))
    {
      RestrictionGrows(restricted, more, Names(frames[..k]), Names(frames[..k]));
    }
  }

  lemma {:induction false} LeafRefines(s: Scanner, t: OpenTree, line: PropertyLine)
    requires Refines(s, t) && line.typeName != "{"
    ensures Refines(ScanProperty(s, line), GrowProperty(t, s, line))
  {
    hide ScanProperty, FlattenOpen, WellFormedOpen, OpenInherits, Restricts;
    AddedProperty(s, t, line);
    var s' := ScanProperty(s, line);
    var p := s'.properties[|s'.properties| - 1];
    AppendNode(t, Node(p, []));
    assert Flatten([Node(p, [])]) == [p];
    RestrictsGrows(Client, s.serverOnlyPaths, s'.serverOnlyPaths, t.frames);
    RestrictsGrows(Server, s.clientOnlyPaths, s'.clientOnlyPaths, t.frames);
  }

  lemma {:induction false} ObjectRefines(s: Scanner, t: OpenTree, line: PropertyLine)
    requires Refines(s, t) && line.typeName == "{"
    ensures Refines(ScanProperty(s, line), GrowProperty(t, s, line))
  {
    hide ScanProperty, Restricts;
    AddedProperty(s, t, line);
    var s', u := ScanProperty(s, line), GrowProperty(t, s, line);
    var p := s'.properties[|s'.properties| - 1];
    assert u.frames[..|t.frames|] == t.frames && OpenTree(t.frames, t.here) == t;
    assert Names(u.frames) == Names(t.frames) + [p.name];
    assert FlattenOpen(u) == FlattenOpen(t) + [p] + [];
    RestrictsGrows(Client, s.serverOnlyPaths, s'.serverOnlyPaths, t.frames);
    RestrictsGrows(Server, s.clientOnlyPaths, s'.clientOnlyPaths, t.frames);
    RestrictsOpened(Client, s'.serverOnlyPaths, t.frames, Frame(t.here, p));
    RestrictsOpened(Server, s'.clientOnlyPaths, t.frames, Frame(t.here, p));
  }

  lemma {:induction false} RestrictsOpened(side: Side, restricted: set<string>, frames: seq<Frame>, f: Frame)
    requires Restricts(side, restricted, frames)
    requires Hidden(side, f.open) ==> IsPathRestricted(restricted, Names(frames + [f]))
    ensures Restricts(side, restricted, frames + [f])
  {
    hide IsPathRestricted;
    var more := frames + [f];
    forall k | 0 < k <= |more| && HiddenInside(side, more[..k])
      ensures IsPathRestricted(restricted, Names(more[..k]))
    {
      if k <= |frames| {
        assert more[..k] == frames[..k];
      } else {
        assert more[..k] == more;
      }
    }
  }

  lemma {:induction false} ScanRefinesTree(lines: seq<string>, n: nat)
    requires n <= |lines|
    ensures Refines(Scan(lines, n), Grow(lines, n))
    ensures var s := Scan(lines, n);
            && (s.typeStart.None? ==> Grow(lines, n) == OpenTree([], []))
            && (s.typeEnd.Some? ==> Grow(lines, n).frames == [])
  {
    hide IsClosing, DeclaredName, ParsePropertyLine, ReadComment, Trim, ScanProperty, GrowProperty, Restricts,
         FlattenOpen, WellFormedOpen, OpenInherits;
    if n == 0 {
      EmptyTreeRefines();
    } else {
      ScanRefinesTree(lines, n - 1);
      var s, t, line := Scan(lines, n - 1), Grow(lines, n - 1), Trim(lines[n - 1]);
      if IsClosing(line) && t.frames != [] {
        CloseRefines(s, t);
      }
      var parsed := ParsePropertyLine(line);
      if parsed.Some? {
        ScanPropertyKeepsBounds(s, parsed.value);
        if parsed.value.typeName == "{" {
          ObjectRefines(s, t, parsed.value);
        } else {
          LeafRefines(s, t, parsed.value);
        }
      }
    }
  }

  lemma {:induction false} ScanPropertyKeepsBounds(s: Scanner, line: PropertyLine)
    ensures var s' := ScanProperty(s, line);
            s'.typeStart == s.typeStart && s'.typeEnd == s.typeEnd
  {}

  lemma {:induction false} EmptyTreeRefines()
    ensures Refines(START, OpenTree([], []))
  {}

  /** The nesting of a parsed declaration; nothing when the text declares none. */
  function ParsedForest(source: string): seq<Node> {
    var lines := Lines(source);
    if Scan(lines, |lines|).typeEnd.Some? && Scan(lines, |lines|).typeStart.Some? then Grow(lines, |lines|).here else []
  }

  /** For every input text the flat property list is the list form of its nesting, with paths that
      name the enclosing objects, and whatever is inside a hidden object is hidden. */
  lemma {:induction false} ParseRefinesForest(source: string)
    ensures Parse(source).properties == Flatten(ParsedForest(source))
    ensures WellFormed(ParsedForest(source), [])
    ensures forall side :: AllInherit(side, ParsedForest(source), false)
  {
    hide Scan, Grow, Lines, Trim, Join, Restricts;
    var lines := Lines(source);
    ScanRefinesTree(lines, |lines|);
    var s, t := Scan(lines, |lines|), Grow(lines, |lines|);
    if s.typeEnd.Some? && s.typeStart.Some? {
      assert Names(t.frames) == [];
      assert OpenInherits(Client, t) && OpenInherits(Server, t);
    }
  }
}
