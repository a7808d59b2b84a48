/** The tree builder (`HRML::visitor_HRML`, `HRML::generator_HRML`): nesting is
    recovered from the flat structural tokens, under a synthetic root. */
module Builder {
  import opened Errors
  import opened Parser
  import opened Seqs

  datatype Element = Element(name: string, props: map<string, string>, children: seq<Element>)

  const RootName: string := "_root_"

  /** HRML::next: move the cursor one structural token on; passing the end is an error. */
  function NextTag(tags: seq<Tag>, index: nat): (r: Result<nat>)
    ensures r.Ok? ==> r.value == index + 1 && r.value < |tags|
    ensures r.Err? ==> r.error == UnexpectedEndOfTokens && index + 1 >= |tags|
  {
    if index + 1 < |tags| then Ok(index + 1) else Err(UnexpectedEndOfTokens)
  }

  /** The guard of the child loop as written: the loop goes on while the token at
      the cursor is not a closing tag AND does not carry the element's own name.
      So it stops at ANY closing tag, whatever its name, and at an opening tag
      that repeats the element's name. */
  predicate Continues(t: Tag, name: string) {
    t.kind != CloseTag && t.name != name
  }

  /** `done` children already built, followed by what `r` builds. */
  function PrefixedChildren(done: seq<Element>, r: Result<Parsed<seq<Element>>>): Result<Parsed<seq<Element>>> {
    match r
    case Ok(p) => Ok(Parsed(done + p.value, p.index))
    case Err(e) => Err(e)
  }

  // ---------------------------------------------------------------------------
  // Specification of the visitor and the generator

  /** visitor_HRML at cursor `index`: an element and the cursor on the token that
      ended its child loop. */
  function Tree(tags: seq<Tag>, index: nat): (r: Result<Parsed<Element>>)
    requires index < |tags|
    ensures r.Ok? ==> tags[index].kind == OpenTag
    ensures r.Ok? ==> index < r.value.index < |tags| && !Continues(tags[r.value.index], tags[index].name)
    ensures r.Ok? ==> r.value.value.name == tags[index].name && r.value.value.props == tags[index].props
    decreases |tags| - index, 0
  {
    if tags[index].kind != OpenTag then Err(UnexpectedStartOfTokens)
    else
      var i :- NextTag(tags, index);
      var c :- Children(tags, i, tags[index].name);
      Ok(Parsed(Element(tags[index].name, tags[index].props, c.value), c.index))
  }

  /** The child loop of visitor_HRML from cursor `index`, for an element named `name`. */
  function Children(tags: seq<Tag>, index: nat, name: string): (r: Result<Parsed<seq<Element>>>)
    requires index < |tags|
    ensures r.Ok? ==> index <= r.value.index < |tags| && !Continues(tags[r.value.index], name)
    decreases |tags| - index, 1
  {
    if !Continues(tags[index], name) then Ok(Parsed([], index))
    else
      var child :- Tree(tags, index);
      var j :- NextTag(tags, child.index);
      var rest :- Children(tags, j, name);
      Ok(Parsed([child.value] + rest.value, rest.index))
  }

  /** The loop of generator_HRML from cursor `index`: the top-level elements. */
  function Forest(tags: seq<Tag>, index: nat): Result<seq<Element>>
    decreases |tags| - index
  {
    if index >= |tags| then Ok([])
    else
      var c :- Tree(tags, index);
      var rest :- Forest(tags, c.index + 1);
      Ok([c.value] + rest)
  }

  /** generator_HRML: the synthetic root, holding the top-level elements. */
  function Document(tags: seq<Tag>): (r: Result<Element>)
    ensures r.Ok? ==> r.value.name == RootName && r.value.props == map[]
    ensures tags == [] ==> r == Ok(Element(RootName, map[], []))
  {
    var cs :- Forest(tags, 0);
    Ok(Element(RootName, map[], cs))
  }

  // ---------------------------------------------------------------------------
  // The visitor and the generator as the program runs them

  method Visit(tags: seq<Tag>, index: nat) returns (r: Result<Parsed<Element>>)
    requires index < |tags|
    ensures r == Tree(tags, index)
    decreases |tags| - index
  {
    if tags[index].kind != OpenTag { return Err(UnexpectedStartOfTokens); }
    var name := tags[index].name;
    var props := tags[index].props;
    var children: seq<Element> := [];
    var i :- NextTag(tags, index);
    match Children(tags, i, name) {
      case Ok(p) => assert [] + p.value == p.value;
      case Err(_) =>
    }
    while Continues(tags[i], name)
      invariant index < i < |tags|
      invariant Children(tags, index + 1, name) == PrefixedChildren(children, Children(tags, i, name))
      decreases |tags| - i
    {
      var child :- Visit(tags, i);
      var j :- NextTag(tags, child.index);
      match Children(tags, j, name) {
        case Ok(p) => assert children + ([child.value] + p.value) == children + [child.value] + p.value;
        case Err(_) =>
      }
      children := children + [child.value];
      i := j;
    }
    assert children + [] == children;
    return Ok(Parsed(Element(name, props, children), i));
  }

  method Generate(tags: seq<Tag>) returns (r: Result<Element>)
    ensures r == Document(tags)
  {
    var index := 0;
    var children: seq<Element> := [];
    PrefixedNil(Forest(tags, 0));
    while index < |tags|
      invariant index <= |tags|
      invariant Forest(tags, 0) == Prefixed(children, Forest(tags, index))
      decreases |tags| - index
    {
      var c :- Visit(tags, index);
      PrefixedAssoc(children, [c.value], Forest(tags, c.index + 1));
      children := children + [c.value];
      index := c.index + 1;
    }
    assert children + [] == children;
    return Ok(Element(RootName, map[], children));
  }

  // ---------------------------------------------------------------------------
  // A reference rendering: the structural tokens of a tree, and what the
  // builder recovers from them

  function OpenOf(e: Element): Tag {
    Tag(OpenTag, e.name, e.props)
  }

  function CloseOf(e: Element): Tag {
    Tag(CloseTag, e.name, map[])
  }

  /** The structural tokens of an element: its opening tag, its children's tokens
      in order, its closing tag. */
  function TreeTags(e: Element): seq<Tag>
    decreases e, 1
  {
    [OpenOf(e)] + ForestTags(e.children) + [CloseOf(e)]
  }

  function ForestTags(es: seq<Element>): seq<Tag>
    decreases es, 0
  {
    if es == [] then [] else TreeTags(es[0]) + ForestTags(es[1..])
  }

  /** No element has a child carrying its own name (the one shape of nesting the
      child loop's name test would cut short). */
  ghost predicate NoSameNamedChild(e: Element)
    decreases e, 1
  {
    (forall k :: 0 <= k < |e.children| ==> e.children[k].name != e.name) &&
    NoneSameNamed(e.children)
  }

  ghost predicate NoneSameNamed(es: seq<Element>)
    decreases es, 0
  {
    forall k :: 0 <= k < |es| ==> NoSameNamedChild(es[k])
  }

  function Size(e: Element): nat
    decreases e, 1
  {
    1 + ForestSize(e.children)
  }

  function ForestSize(es: seq<Element>): nat
    decreases es, 0
  {
    if es == [] then 0 else Size(es[0]) + ForestSize(es[1..])
  }

  function CountOpen(tags: seq<Tag>): nat
    decreases |tags|
  {
    if tags == [] then 0 else (if tags[0].kind == OpenTag then 1 else 0) + CountOpen(tags[1..])
  }

  lemma {:induction false} CountOpenAppend(a: seq<Tag>, b: seq<Tag>)
    ensures CountOpen(a + b) == CountOpen(a) + CountOpen(b)
    decreases |a|
  {
    if a == [] {
      assert [] + b == b;
    } else {
      assert (a + b)[1..] == a[1..] + b;
      CountOpenAppend(a[1..], b);
    }
  }

  /** The rendering of a tree holds one opening tag per element. */
  lemma {:induction false} CountOpenTree(e: Element)
    ensures CountOpen(TreeTags(e)) == Size(e)
    decreases e, 1
  {
    CountOpenForest(e.children);
    CountOpenAppend([OpenOf(e)] + ForestTags(e.children), [CloseOf(e)]);
    CountOpenAppend([OpenOf(e)], ForestTags(e.children));
    assert CountOpen([CloseOf(e)]) == 0 by {
      assert [CloseOf(e)][1..] == [];
    }
    assert CountOpen([OpenOf(e)]) == 1 by {
      assert [OpenOf(e)][1..] == [];
    }
  }

  lemma {:induction false} CountOpenForest(es: seq<Element>)
    ensures CountOpen(ForestTags(es)) == ForestSize(es)
    decreases es, 0
  {
    if es != [] {
      CountOpenTree(es[0]);
      CountOpenForest(es[1..]);
      CountOpenAppend(TreeTags(es[0]), ForestTags(es[1..]));
    }
  }

  // The round trip is proved in small steps. `...Fit` says that the tokens at
  // the cursor are the rendering of some elements the builder can rebuild;
  // `...Rebuilt` says that the builder, started at the cursor, returns them.

  /** The tag at `index` starts a rendered tree without same-named nesting. */
  ghost predicate TreeFit(tags: seq<Tag>, index: nat, e: Element) {
    IsAt(tags, index, TreeTags(e)) && NoSameNamedChild(e)
  }

  /** The visitor at `index` returns `e`, with the cursor on `e`'s closing tag. */
  ghost predicate TreeRebuilt(tags: seq<Tag>, index: nat, e: Element)
    requires index < |tags|
  {
    Tree(tags, index) == Ok(Parsed(e, index + |TreeTags(e)| - 1))
  }

  /** Children rendered at `index`, then a token that ends the child loop of an
      element named `name`; no child carries that name or has same-named nesting. */
  ghost predicate ChildrenFit(tags: seq<Tag>, index: nat, es: seq<Element>, name: string) {
    IsAt(tags, index, ForestTags(es)) &&
    index + |ForestTags(es)| < |tags| && !Continues(tags[index + |ForestTags(es)|], name) &&
    (forall k :: 0 <= k < |es| ==> es[k].name != name) &&
    NoneSameNamed(es)
  }

  /** The child loop at `index` returns `es`, with the cursor right after their tokens. */
  ghost predicate ChildrenRebuilt(tags: seq<Tag>, index: nat, es: seq<Element>, name: string)
    requires index < |tags|
  {
    Children(tags, index, name) == Ok(Parsed(es, index + |ForestTags(es)|))
  }

  lemma ForestTagsLength(es: seq<Element>)
    requires es != []
    ensures |ForestTags(es)| == |TreeTags(es[0])| + |ForestTags(es[1..])|
  {
  }

  /** The parts of a fitting tree: its opening tag at the cursor, its children
      fitting after it and its closing tag, which ends their loop. */
  lemma TreeTagsAt(tags: seq<Tag>, index: nat, e: Element)
    requires IsAt(tags, index, TreeTags(e))
    ensures index + 1 < |tags| && tags[index] == OpenOf(e)
    ensures IsAt(tags, index + 1, ForestTags(e.children))
    ensures index + 1 + |ForestTags(e.children)| < |tags| && tags[index + 1 + |ForestTags(e.children)|] == CloseOf(e)
    ensures index + |TreeTags(e)| - 1 == index + 1 + |ForestTags(e.children)|
  {
    var inner := ForestTags(e.children);
    var last := index + 1 + |inner|;
    assert TreeTags(e) == [OpenOf(e)] + (inner + [CloseOf(e)]);
    IsAtSplit(tags, index, [OpenOf(e)], inner + [CloseOf(e)]);
    IsAtSplit(tags, index + 1, inner, [CloseOf(e)]);
    IsAtElements(tags, index, [OpenOf(e)]);
    IsAtElements(tags, last, [CloseOf(e)]);
  }

  lemma TreeFitParts(tags: seq<Tag>, index: nat, e: Element)
    requires TreeFit(tags, index, e)
    ensures index + 1 < |tags| && tags[index] == OpenOf(e)
    ensures ChildrenFit(tags, index + 1, e.children, e.name)
    ensures index + |TreeTags(e)| - 1 == index + 1 + |ForestTags(e.children)|
  {
    TreeTagsAt(tags, index, e);
    assert !Continues(CloseOf(e), e.name);
  }

  /** An opening tag and its rebuilt children: the rebuilt tree. */
  lemma TreeOpen(tags: seq<Tag>, index: nat, e: Element)
    requires index + 1 < |tags| && tags[index] == OpenOf(e)
    requires ChildrenRebuilt(tags, index + 1, e.children, e.name)
    requires index + |TreeTags(e)| - 1 == index + 1 + |ForestTags(e.children)|
    ensures TreeRebuilt(tags, index, e)
  {
    assert NextTag(tags, index) == Ok(index + 1);
    assert Element(e.name, e.props, e.children) == e;
  }

  /** Tokens rendered from a tree with no same-named child are rebuilt into that
      very tree; the visitor leaves the cursor on the tree's closing tag. */
  lemma {:induction false} TreeAccepts(tags: seq<Tag>, index: nat, e: Element)
    requires IsAt(tags, index, TreeTags(e))
    requires NoSameNamedChild(e)
    ensures index < |tags| && TreeRebuilt(tags, index, e)
    decreases e, 1
  {
    TreeFitParts(tags, index, e);
    ChildrenAccept(tags, index + 1, e.children, e.name);
    TreeOpen(tags, index, e);
  }

  /** The first of several fitting children is a fitting tree whose opening tag
      continues the loop. */
  lemma ChildrenFitFirst(tags: seq<Tag>, index: nat, es: seq<Element>, name: string)
    requires es != [] && ChildrenFit(tags, index, es, name)
    ensures TreeFit(tags, index, es[0])
    ensures index < |tags| && Continues(tags[index], name)
  {
    var first, more := TreeTags(es[0]), ForestTags(es[1..]);
    assert ForestTags(es) == first + more;
    IsAtSplit(tags, index, first, more);
    IsAtElements(tags, index, first);
    assert first[0] == OpenOf(es[0]);
  }

  /** The children after the first fit right after it. */
  lemma ChildrenFitRest(tags: seq<Tag>, index: nat, es: seq<Element>, name: string)
    requires es != [] && ChildrenFit(tags, index, es, name)
    ensures ChildrenFit(tags, index + |TreeTags(es[0])|, es[1..], name)
  {
    var first, more := TreeTags(es[0]), ForestTags(es[1..]);
    assert ForestTags(es) == first + more;
    IsAtSplit(tags, index, first, more);
    assert forall k :: 0 <= k < |es[1..]| ==> es[1..][k] == es[k + 1];
  }

  /** One pass of the child loop: the first child, then the others. */
  lemma ChildrenCons(tags: seq<Tag>, index: nat, es: seq<Element>, name: string)
    requires es != [] && index < |tags| && Continues(tags[index], name)
    requires TreeRebuilt(tags, index, es[0])
    requires index + |TreeTags(es[0])| < |tags| && ChildrenRebuilt(tags, index + |TreeTags(es[0])|, es[1..], name)
    ensures ChildrenRebuilt(tags, index, es, name)
  {
    ForestTagsLength(es);
    assert [es[0]] + es[1..] == es;
  }

  /** Rendered children followed by a token that ends the loop are rebuilt in
      document order, provided none of them carries the parent's name. */
  lemma {:induction false} ChildrenAccept(tags: seq<Tag>, index: nat, es: seq<Element>, name: string)
    requires ChildrenFit(tags, index, es, name)
    ensures index < |tags| && ChildrenRebuilt(tags, index, es, name)
    decreases es, 0
  {
    if es == [] {
      assert ForestTags(es) == [];
    } else {
      ChildrenFitFirst(tags, index, es, name);
      ChildrenFitRest(tags, index, es, name);
      TreeAccepts(tags, index, es[0]);
      ChildrenAccept(tags, index + |TreeTags(es[0])|, es[1..], name);
      ChildrenCons(tags, index, es, name);
    }
  }

  /** The generator's loop over rendered trees: the first tree, then the others. */
  lemma ForestCons(tags: seq<Tag>, index: nat, es: seq<Element>)
    requires es != [] && index < |tags|
    requires TreeRebuilt(tags, index, es[0])
    requires Forest(tags, index + |TreeTags(es[0])|) == Ok(es[1..])
    ensures Forest(tags, index) == Ok(es)
  {
    assert [es[0]] + es[1..] == es;
  }

  /** The trees after the first of a rendered sequence are rendered right after it. */
  lemma ForestRest(tags: seq<Tag>, index: nat, es: seq<Element>)
    requires es != [] && IsAt(tags, index, ForestTags(es)) && index + |ForestTags(es)| == |tags|
    requires NoneSameNamed(es)
    ensures IsAt(tags, index, TreeTags(es[0])) && NoSameNamedChild(es[0])
    ensures IsAt(tags, index + |TreeTags(es[0])|, ForestTags(es[1..]))
    ensures index + |TreeTags(es[0])| + |ForestTags(es[1..])| == |tags|
    ensures NoneSameNamed(es[1..])
  {
    var first, more := TreeTags(es[0]), ForestTags(es[1..]);
    assert ForestTags(es) == first + more;
    IsAtSplit(tags, index, first, more);
    assert forall k :: 0 <= k < |es[1..]| ==> es[1..][k] == es[k + 1];
  }

  lemma {:induction false} ForestAccepts(tags: seq<Tag>, index: nat, es: seq<Element>)
    requires IsAt(tags, index, ForestTags(es)) && index + |ForestTags(es)| == |tags|
    requires NoneSameNamed(es)
    ensures Forest(tags, index) == Ok(es)
    decreases es
  {
    if es != [] {
      ForestRest(tags, index, es);
      TreeAccepts(tags, index, es[0]);
      ForestAccepts(tags, index + |TreeTags(es[0])|, es[1..]);
      ForestCons(tags, index, es);
    }
  }

  /** Round trip: the structural tokens of top-level trees without same-named
      children are rebuilt into a root holding exactly these trees, and the
      rebuilt document has one element per opening tag. */
  lemma DocumentRoundTrip(es: seq<Element>)
    requires NoneSameNamed(es)
    ensures Document(ForestTags(es)) == Ok(Element(RootName, map[], es))
    ensures ForestSize(Document(ForestTags(es)).value.children) == CountOpen(ForestTags(es))
  {
    ForestAccepts(ForestTags(es), 0, es);
    CountOpenForest(es);
  }

  // ---------------------------------------------------------------------------
  // Token sequences on which the loop guard shows how lenient it is

  function OpenNamed(name: string): Tag {
    Tag(OpenTag, name, map[])
  }

  function CloseNamed(name: string): Tag {
    Tag(CloseTag, name, map[])
  }

  /** `<a><b></a>`: the closing tag ends `b`; the cursor then passes the last
      token while `a` is still open, which is an error. */
  lemma UnclosedChildFails()
    ensures Document([OpenNamed("a"), OpenNamed("b"), CloseNamed("a")]) == Err(UnexpectedEndOfTokens)
  {
    var tags := [OpenNamed("a"), OpenNamed("b"), CloseNamed("a")];
    assert Children(tags, 2, "b") == Ok(Parsed([], 2));
    assert Tree(tags, 1) == Ok(Parsed(Element("b", map[], []), 2));
    assert Children(tags, 1, "a") == Err(UnexpectedEndOfTokens);
  }

  /** `<a><b></c></a>`: closing tags are not matched by name, so the mismatched
      `</c>` silently closes `b`. */
  lemma MismatchedCloseAccepted()
    ensures Document([OpenNamed("a"), OpenNamed("b"), CloseNamed("c"), CloseNamed("a")]) ==
            Ok(Element(RootName, map[], [Element("a", map[], [Element("b", map[], [])])]))
  {
    var tags := [OpenNamed("a"), OpenNamed("b"), CloseNamed("c"), CloseNamed("a")];
    assert Children(tags, 2, "b") == Ok(Parsed([], 2));
    assert Tree(tags, 1) == Ok(Parsed(Element("b", map[], []), 2));
    assert Children(tags, 3, "a") == Ok(Parsed([], 3));
    assert [Element("b", map[], [])] + [] == [Element("b", map[], [])];
    assert Children(tags, 1, "a") == Ok(Parsed([Element("b", map[], [])], 3));
    assert Tree(tags, 0) == Ok(Parsed(Element("a", map[], [Element("b", map[], [])]), 3));
    assert Forest(tags, 4) == Ok([]);
    var a := Element("a", map[], [Element("b", map[], [])]);
    assert [a] + [] == [a];
  }

  /** `<a><a></a></a>`: the inner opening tag repeats the outer name, which ends
      the outer loop at once; the generator then meets a closing tag where an
      element must start, which is an error. */
  lemma SameNamedChildFails()
    ensures Document([OpenNamed("a"), OpenNamed("a"), CloseNamed("a"), CloseNamed("a")]) == Err(UnexpectedStartOfTokens)
  {
    var tags := [OpenNamed("a"), OpenNamed("a"), CloseNamed("a"), CloseNamed("a")];
    assert Children(tags, 1, "a") == Ok(Parsed([], 1));
    assert Tree(tags, 0) == Ok(Parsed(Element("a", map[], []), 1));
    assert Tree(tags, 2) == Err(UnexpectedStartOfTokens);
  }

  // ---------------------------------------------------------------------------
  // Element names are never empty

  /** The element and all its descendants have non-empty names and non-empty
      attribute keys and values. */
  predicate WellLabelled(e: Element)
    decreases e
  {
    e.name != "" && PropsNonEmpty(e.props) &&
    forall k :: 0 <= k < |e.children| ==> WellLabelled(e.children[k])
  }

  predicate AllLabelled(tags: seq<Tag>) {
    forall t :: t in tags ==> Labelled(t)
  }

  /** Labelled tokens build well-labelled trees. */
  lemma {:induction false} TreeLabelled(tags: seq<Tag>, index: nat)
    requires index < |tags| && AllLabelled(tags)
    requires Tree(tags, index).Ok?
    ensures WellLabelled(Tree(tags, index).value.value)
    decreases |tags| - index, 0
  {
    assert tags[index] in tags;
    ChildrenLabelled(tags, index + 1, tags[index].name);
  }

  lemma {:induction false} ChildrenLabelled(tags: seq<Tag>, index: nat, name: string)
    requires index < |tags| && AllLabelled(tags)
    requires Children(tags, index, name).Ok?
    ensures forall k :: 0 <= k < |Children(tags, index, name).value.value| ==>
              WellLabelled(Children(tags, index, name).value.value[k])
    decreases |tags| - index, 1
  {
    if Continues(tags[index], name) {
      var child := Tree(tags, index).value;
      TreeLabelled(tags, index);
      ChildrenLabelled(tags, child.index + 1, name);
    }
  }

  lemma {:induction false} ForestLabelled(tags: seq<Tag>, index: nat)
    requires AllLabelled(tags)
    requires Forest(tags, index).Ok?
    ensures forall k :: 0 <= k < |Forest(tags, index).value| ==> WellLabelled(Forest(tags, index).value[k])
    decreases |tags| - index
  {
    if index < |tags| {
      var c := Tree(tags, index).value;
      TreeLabelled(tags, index);
      ForestLabelled(tags, c.index + 1);
    }
  }

  /** Every element the generator hangs under the root is well labelled. */
  lemma DocumentLabelled(tags: seq<Tag>)
    requires AllLabelled(tags)
    requires Document(tags).Ok?
    ensures forall k :: 0 <= k < |Document(tags).value.children| ==> WellLabelled(Document(tags).value.children[k])
  {
    ForestLabelled(tags, 0);
  }
}
