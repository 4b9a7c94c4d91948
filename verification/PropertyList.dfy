/** The table that lists an API method's properties: it groups the flat list by path prefixes,
    level by level, and so rebuilds the nesting. */
module PropertyList {
  import opened Text
  import opened ApiMethod
  import opened ApiTree

  datatype Group = Group(property: Property, children: seq<Property>)

  /** How many leading properties lie under a path. */
  function Span(properties: seq<Property>, parent: seq<string>): (n: nat)
    ensures n <= |properties|
  {
    if properties != [] && parent <= properties[0].path then 1 + Span(properties[1..], parent) else 0
  }

  function Groups(properties: seq<Property>): seq<Group>
    decreases |properties|
  {
    if properties == [] then []
    else
      var p := properties[0];
      var n := if p.typeName == "Object" then Span(properties[1..], p.path + [p.name]) else 0;
      [Group(p, properties[1..1 + n])] + Groups(properties[1 + n..])
  }

  /** The table: every group shows its property, and below it the table of its children. */
  function Nest(properties: seq<Property>): seq<Node>
    decreases |properties|
  {
    if properties == [] then []
    else
      var p := properties[0];
      var n := if p.typeName == "Object" then Span(properties[1..], p.path + [p.name]) else 0;
      [Node(p, Nest(properties[1..1 + n]))] + Nest(properties[1 + n..])
  }

  /** The test of the inner loop: the path is long enough and repeats every segment of the parent. */
  predicate LiesUnder(path: seq<string>, parentSegments: seq<string>) {
    |path| >= |parentSegments| && forall i | 0 <= i < |parentSegments| :: path[i] == parentSegments[i]
  }

  lemma LiesUnderIsPrefix(path: seq<string>, parentSegments: seq<string>)
    ensures LiesUnder(path, parentSegments) <==> parentSegments <= path
  {}

  /** Whatever the list, the table shows each property exactly once and in the order of the list. */
  lemma {:induction false} NestShowsAllInOrder(properties: seq<Property>)
    ensures Flatten(Nest(properties)) == properties
    decreases |properties|
  {
    hide Nest, Span;
    NestOfNone();
    if properties == [] {
    } else {
      var p := properties[0];
      var n := if p.typeName == "Object" then Span(properties[1..], p.path + [p.name]) else 0;
      var inner, rest := properties[1..1 + n], properties[1 + n..];
      NestStep(properties, n);
      NestShowsAllInOrder(inner);
      NestShowsAllInOrder(rest);
      FlattenCons(p, Nest(inner), Nest(rest));
      assert properties == [p] + inner + rest;
    }
  }

  lemma NestOfNone()
    ensures Nest([]) == [] && Flatten([]) == []
  {}

  lemma NestStep(properties: seq<Property>, n: nat)
    requires properties != [] && n < |properties|
    requires var p := properties[0];
             n == if p.typeName == "Object" then Span(properties[1..], p.path + [p.name]) else 0
    ensures Nest(properties) == [Node(properties[0], Nest(properties[1..1 + n]))] + Nest(properties[1 + n..])
  {}

  lemma FlattenCons(p: Property, inner: seq<Node>, rest: seq<Node>)
    ensures Flatten([Node(p, inner)] + rest) == [p] + Flatten(inner) + Flatten(rest)
  {
    assert ([Node(p, inner)] + rest)[1..] == rest;
  }

  lemma {:induction false} SpanAll(inner: seq<Property>, rest: seq<Property>, parent: seq<string>)
    requires forall p | p in inner :: parent <= p.path
    requires rest != [] ==> !(parent <= rest[0].path)
    ensures Span(inner + rest, parent) == |inner|
  {
    if inner == [] {
      assert inner + rest == rest;
    } else {
      assert inner[0] in inner;
      SpanAll(inner[1..], rest, parent);
      assert (inner + rest)[1..] == inner[1..] + rest;
    }
  }

  lemma {:induction false} PathsBelow(forest: seq<Node>, path: seq<string>)
    requires WellFormed(forest, path)
    ensures forall p | p in Flatten(forest) :: path <= p.path
    ensures forest != [] ==> Flatten(forest) != [] && Flatten(forest)[0].path == path
  {
    if forest == [] {
    } else {
      var n := forest[0];
      assert WellFormedNode(n, path);
      PathsBelow(n.children, path + [n.property.name]);
      PathsBelow(forest[1..], path);
    }
  }

  /** Grouping the list form of a nesting by path prefixes gives back that nesting. */
  lemma {:induction false} NestRebuilds(forest: seq<Node>, path: seq<string>)
    requires WellFormed(forest, path)
    ensures Nest(Flatten(forest)) == forest
  {
    if forest == [] {
    } else {
      var n, rest := forest[0], forest[1..];
      assert WellFormedNode(n, path);
      var parent := path + [n.property.name];
      NestRebuilds(n.children, parent);
      NestRebuilds(rest, path);
      PathsBelow(n.children, parent);
      PathsBelow(rest, path);
      assert n.property.typeName != "Object" ==> n.children == [];
      NestHead(n.property, Flatten(n.children), Flatten(rest));
      assert n == Node(n.property, n.children);
    }
  }

  /** The first group is exactly what the prefix test delimits. */
  lemma NestHead(p: Property, inner: seq<Property>, outer: seq<Property>)
    requires p.typeName != "Object" ==> inner == []
    requires forall q | q in inner :: p.path + [p.name] <= q.path
    requires outer != [] ==> outer[0].path == p.path
    ensures Nest([p] + inner + outer) == [Node(p, Nest(inner))] + Nest(outer)
  {
    var list := [p] + inner + outer;
    assert list[1..] == inner + outer;
    SpanAll(inner, outer, p.path + [p.name]);
    assert list[1..1 + |inner|] == inner && list[1 + |inner|..] == outer;
  }

  /** Every node sits as deep as its path is long. */
  ghost predicate DepthIsPathLength(forest: seq<Node>, depth: nat) {
    forall n | n in forest :: NodeDepthIsPathLength(n, depth)
  }

  ghost predicate NodeDepthIsPathLength(n: Node, depth: nat) {
    |n.property.path| == depth && forall c | c in n.children :: NodeDepthIsPathLength(c, depth + 1)
  }

  lemma {:induction false} WellFormedDepths(forest: seq<Node>, path: seq<string>)
    requires WellFormed(forest, path)
    ensures DepthIsPathLength(forest, |path|)
  {
    forall n | n in forest ensures NodeDepthIsPathLength(n, |path|) {
      assert WellFormedNode(n, path);
      WellFormedDepths(n.children, path + [n.property.name]);
    }
  }

  /** For every input text and either side, the table of the visible properties is the nesting of the
      declaration without what the side hides; it shows exactly the visible properties, in order,
      each as deep as its path is long. */
  lemma TableIsTheNesting(source: string, side: Side)
    ensures var visible := Visible(side, Parse(source).properties);
            && Nest(visible) == Prune(side, ParsedForest(source))
            && Flatten(Nest(visible)) == visible
            && DepthIsPathLength(Nest(visible), 0)
  {
    hide Parse, ParsedForest, Visible, Prune, Nest, Flatten, DepthIsPathLength, Inherits, WellFormedNode;
    var forest := ParsedForest(source);
    ParseRefinesForest(source);
    FilteringPrunes(side, forest, false);
    PruneKeepsWellFormed(side, forest, []);
    NestRebuilds(Prune(side, forest), []);
    WellFormedDepths(Prune(side, forest), []);
  }

  /** The grouping loops. */
  method GroupProperties(properties: seq<Property>) returns (groups: seq<Group>)
    ensures groups == Groups(properties)
  {
    hide Groups, Span;
    groups := [];
    var propertyIndex := 0;
    GroupsOfNone();
    while propertyIndex < |properties|
      invariant 0 <= propertyIndex <= |properties|
      invariant groups + Groups(properties[propertyIndex..]) == Groups(properties)
    {
      var property := properties[propertyIndex];
      ghost var rest := properties[propertyIndex..];
      propertyIndex := propertyIndex + 1;
      assert rest[1..] == properties[propertyIndex..];
      var children: seq<Property> := [];
      if property.typeName == "Object" {
        var parentSegments := property.path + [property.name];
        children, propertyIndex := TakeChildren(properties, propertyIndex, parentSegments);
      }
      GroupsStep(rest, |children|);
      assert rest[1..1 + |children|] == children && rest[1 + |children|..] == properties[propertyIndex..];
      ConcatAssociates(groups, [Group(property, children)], Groups(properties[propertyIndex..]));
      groups := groups + [Group(property, children)];
    }
    assert properties[propertyIndex..] == [];
    assert groups + [] == groups;
  }

  lemma GroupsOfNone()
    ensures Groups([]) == []
  {}

  lemma GroupsStep(rest: seq<Property>, n: nat)
    requires rest != [] && n <= |rest| - 1
    requires n == if rest[0].typeName == "Object" then Span(rest[1..], rest[0].path + [rest[0].name]) else 0
    ensures Groups(rest) == [Group(rest[0], rest[1..1 + n])] + Groups(rest[1 + n..])
  {}

  /** The inner loop: the run of properties under a path, from an index on. */
  method TakeChildren(properties: seq<Property>, first: nat, parentSegments: seq<string>)
    returns (children: seq<Property>, propertyIndex: nat)
    requires first <= |properties|
    ensures |children| == Span(properties[first..], parentSegments)
    ensures propertyIndex == first + |children| <= |properties| && children == properties[first..propertyIndex]
  {
    children, propertyIndex := [], first;
    while propertyIndex < |properties| && LiesUnder(properties[propertyIndex].path, parentSegments)
      invariant first <= propertyIndex <= |properties|
      invariant children == properties[first..propertyIndex]
      invariant |children| + Span(properties[propertyIndex..], parentSegments)
               == Span(properties[first..], parentSegments)
    {
      LiesUnderIsPrefix(properties[propertyIndex].path, parentSegments);
      assert properties[propertyIndex..][1..] == properties[propertyIndex + 1..];
      children := children + [properties[propertyIndex]];
      propertyIndex := propertyIndex + 1;
    }
    if propertyIndex < |properties| { LiesUnderIsPrefix(properties[propertyIndex].path, parentSegments); }
  }

  /** The table, rendered group by group. */
  method RenderPropertyList(properties: seq<Property>) returns (table: seq<Node>)
    ensures table == Nest(properties)
    decreases |properties|
  {
    hide Groups, Nest, Span;
    var groups := GroupProperties(properties);
    table := [];
    GroupsOfNone();
    NestOfNone();
    ghost var rest := properties;
    for i := 0 to |groups|
      invariant groups[i..] == Groups(rest) && |rest| <= |properties|
      invariant table + Nest(rest) == Nest(properties)
    {
      GroupsShrink(rest);
      var below := RenderPropertyList(groups[i].children);
      ConcatAssociates(table, [Node(groups[i].property, below)], Nest(rest[1 + |groups[i].children|..]));
      table := table + [Node(groups[i].property, below)];
      rest := rest[1 + |groups[i].children|..];
      assert groups[i..][1..] == groups[i + 1..];
    }
    SomeGroups(rest);
  }

  lemma SomeGroups(properties: seq<Property>)
    ensures Groups(properties) == [] <==> properties == []
  {}

  lemma GroupsShrink(properties: seq<Property>)
    requires Groups(properties) != []
    ensures var g := Groups(properties)[0];
            && |g.children| < |properties|
            && Groups(properties)[1..] == Groups(properties[1 + |g.children|..])
            && Nest(properties) == [Node(g.property, Nest(g.children))] + Nest(properties[1 + |g.children|..])
  {
    hide Groups, Nest, Span;
    GroupsOfNone();
    var p := properties[0];
    var n := if p.typeName == "Object" then Span(properties[1..], p.path + [p.name]) else 0;
    GroupsStep(properties, n);
    NestStep(properties, n);
  }
}
