/** The query evaluator (`HRML::query_parser`, `query_search`, `query_HRML`):
    a `.`/`~` path is split into marker-prefixed steps, which are then followed
    from an element down its first-match children to an attribute. */
module Query {
  import opened Errors
  import opened Builder

  /** The soft-miss answer of a well-formed query that does not resolve. */
  const NotFound: string := "Not Found!"

  const NameMarker: char := '.'
  const PropMarker: char := '~'

  /** Characters allowed in a query label: ASCII letters, digits, `-` and `_`. */
  predicate IsQueryChar(c: char) {
    ('a' <= c <= 'z') || ('A' <= c <= 'Z') || ('0' <= c <= '9') || c == '-' || c == '_'
  }

  predicate IsMarker(c: char) {
    c == NameMarker || c == PropMarker
  }

  // ---------------------------------------------------------------------------
  // Splitting a query into steps

  /** The steps of the rest `q` of a query when `buffer` holds the step being
      collected. The last step is always emitted at the end of the query. */
  function Split(q: string, buffer: string): Result<seq<string>>
    decreases |q|
  {
    if q == [] then Ok([buffer])
    else if IsQueryChar(q[0]) then Split(q[1..], buffer + [q[0]])
    else if IsMarker(q[0]) then Prefixed([buffer], Split(q[1..], [q[0]]))
    else Err(UnexpectedQueryChar(q[0]))
  }

  /** The steps of a whole query; the first step is implicitly a `.` step. */
  function Steps(query: string): Result<seq<string>> {
    Split(query, [NameMarker])
  }

  /** query_parser */
  method ParseQuery(query: string) returns (r: Result<seq<string>>)
    ensures r == Steps(query)
  {
    var tokens: seq<string> := [];
    var buffer: string := [NameMarker];
    assert query[0..] == query;
    PrefixedNil(Split(query, buffer));
    for i := 0 to |query|
      invariant Steps(query) == Prefixed(tokens, Split(query[i..], buffer))
    {
      var c := query[i];
      assert query[i..][0] == c && query[i..][1..] == query[i + 1..];
      if IsQueryChar(c) {
        buffer := buffer + [c];
      } else {
        match c {
          case '.' =>
          case '~' =>
          case _ =>
            return Err(UnexpectedQueryChar(c));
        }
        PrefixedAssoc(tokens, [buffer], Split(query[i + 1..], [c]));
        tokens := tokens + [buffer];
        buffer := "";
        buffer := buffer + [c];
        assert buffer == [c];
      }
    }
    assert query[|query|..] == [];
    return Ok(tokens + [buffer]);
  }

  // ---------------------------------------------------------------------------
  // Following the steps through the tree

  /** The position of the first child named `name`, or the number of children
      when there is none. */
  function FirstChild(children: seq<Element>, name: string): (k: nat)
    ensures k <= |children|
    ensures k < |children| ==> children[k].name == name
    ensures forall j :: 0 <= j < k ==> children[j].name != name
    decreases |children|
  {
    if children == [] then 0
    else if children[0].name == name then 0
    else 1 + FirstChild(children[1..], name)
  }

  /** query_search: the answer of steps `index..` asked of `elem`. */
  function Search(steps: seq<string>, elem: Element, index: nat): Result<string>
    decreases elem
  {
    if index >= |steps| then Err(OutOfBounds)
    else if |steps[index]| == 0 then Err(EmptyQueryStep)
    else
      var selector := steps[index][0];
      var name := steps[index][1..];
      if selector == NameMarker then
        var k := FirstChild(elem.children, name);
        if k < |elem.children| then Search(steps, elem.children[k], index + 1) else Ok(NotFound)
      else if selector == PropMarker then
        if name in elem.props then Ok(elem.props[name]) else Ok(NotFound)
      else Err(UnexpectedSelector)
  }

  /** The answer of a query asked of an element (the document root, in the program). */
  function Answer(query: string, root: Element): Result<string> {
    var steps :- Steps(query);
    Search(steps, root, 0)
  }

  /** query_HRML */
  method Ask(query: string, root: Element) returns (r: Result<string>)
    ensures r == Answer(query, root)
  {
    var steps :- ParseQuery(query);
    r := Search(steps, root, 0);
  }

  // ---------------------------------------------------------------------------
  // Properties of the query parser

  predicate AllowedInQuery(c: char) {
    IsQueryChar(c) || IsMarker(c)
  }

  predicate AllQueryChars(w: string) {
    forall j :: 0 <= j < |w| ==> IsQueryChar(w[j])
  }

  /** A step: a marker followed by label characters only. */
  predicate IsStep(w: string) {
    |w| >= 1 && IsMarker(w[0]) && AllQueryChars(w[1..])
  }

  function MarkerCount(q: string): nat
    decreases |q|
  {
    if q == [] then 0 else (if IsMarker(q[0]) then 1 else 0) + MarkerCount(q[1..])
  }

  function Concat(ws: seq<string>): string
    decreases |ws|
  {
    if ws == [] then "" else ws[0] + Concat(ws[1..])
  }

  /** Splitting succeeds exactly when every character is a label character or a
      marker; otherwise the first other character is reported. */
  lemma {:induction false} SplitOkIff(q: string, buffer: string)
    ensures Split(q, buffer).Ok? <==> forall k :: 0 <= k < |q| ==> AllowedInQuery(q[k])
    ensures forall k :: 0 <= k < |q| && !AllowedInQuery(q[k]) && (forall j :: 0 <= j < k ==> AllowedInQuery(q[j])) ==>
              Split(q, buffer) == Err(UnexpectedQueryChar(q[k]))
    decreases |q|
  {
    if q != [] {
      if IsQueryChar(q[0]) {
        SplitOkIff(q[1..], buffer + [q[0]]);
      } else if IsMarker(q[0]) {
        SplitOkIff(q[1..], [q[0]]);
      }
      forall k | 1 <= k < |q| ensures q[k] == q[1..][k - 1] { }
    }
  }

  /** The shape of a successful split: the steps put back together give the
      pending buffer followed by the query; there is one step more than there
      are markers; every step is a marker followed by label characters; the
      first step begins with the buffer. */
  lemma {:induction false} SplitShape(q: string, buffer: string)
    requires IsStep(buffer)
    requires Split(q, buffer).Ok?
    ensures Concat(Split(q, buffer).value) == buffer + q
    ensures |Split(q, buffer).value| == 1 + MarkerCount(q)
    ensures forall k :: 0 <= k < |Split(q, buffer).value| ==> IsStep(Split(q, buffer).value[k])
    ensures |Split(q, buffer).value[0]| >= 1 && Split(q, buffer).value[0][0] == buffer[0]
    decreases |q|
  {
    var r := Split(q, buffer).value;
    if q == [] {
      assert Concat(r) == buffer + Concat([]);
      assert buffer + [] == buffer;
    } else if IsQueryChar(q[0]) {
      var b := buffer + [q[0]];
      assert b[1..] == buffer[1..] + [q[0]];
      SplitShape(q[1..], b);
      assert b + q[1..] == buffer + q;
    } else {
      var b := [q[0]];
      assert b[1..] == [];
      SplitShape(q[1..], b);
      var rest := Split(q[1..], b).value;
      assert r == [buffer] + rest;
      assert r[1..] == rest;
      assert Concat(r) == buffer + Concat(rest);
      assert buffer + (b + q[1..]) == buffer + q;
    }
  }

  /** What the query parser promises of its result. */
  lemma StepsShape(query: string)
    requires Steps(query).Ok?
    ensures Concat(Steps(query).value) == [NameMarker] + query
    ensures |Steps(query).value| == 1 + MarkerCount(query)
    ensures forall k :: 0 <= k < |Steps(query).value| ==> IsStep(Steps(query).value[k])
    ensures |Steps(query).value[0]| >= 1 && Steps(query).value[0][0] == NameMarker
  {
    assert [NameMarker][1..] == [];
    SplitShape(query, [NameMarker]);
  }

  lemma StepsOkIff(query: string)
    ensures Steps(query).Ok? <==> forall k :: 0 <= k < |query| ==> AllowedInQuery(query[k])
    ensures forall k :: 0 <= k < |query| && !AllowedInQuery(query[k]) && (forall j :: 0 <= j < k ==> AllowedInQuery(query[j])) ==>
              Steps(query) == Err(UnexpectedQueryChar(query[k]))
  {
    SplitOkIff(query, [NameMarker]);
  }

  /** Label characters only extend the step being collected. */
  lemma {:induction false} SplitRun(w: string, rest: string, buffer: string)
    requires AllQueryChars(w)
    ensures Split(w + rest, buffer) == Split(rest, buffer + w)
    decreases |w|
  {
    if w == [] {
      assert [] + rest == rest && buffer + [] == buffer;
    } else {
      assert (w + rest)[0] == w[0] && (w + rest)[1..] == w[1..] + rest;
      SplitRun(w[1..], rest, buffer + [w[0]]);
      assert buffer + [w[0]] + w[1..] == buffer + w;
    }
  }

  // A path query as written: `n0.n1. ... .nk~attr`

  /** `.n1 ... .nk~attr`: the part of a path query after its first name. */
  function PathTail(names: seq<string>, attr: string): string
    decreases |names|
  {
    if names == [] then [PropMarker] + attr else [NameMarker] + names[0] + PathTail(names[1..], attr)
  }

  function PathQuery(first: string, more: seq<string>, attr: string): string {
    first + PathTail(more, attr)
  }

  /** The `.` steps of a chain of names. */
  function DescendSteps(names: seq<string>): (r: seq<string>)
    ensures |r| == |names|
    ensures forall k :: 0 <= k < |names| ==> r[k] == [NameMarker] + names[k]
    decreases |names|
  {
    if names == [] then [] else [[NameMarker] + names[0]] + DescendSteps(names[1..])
  }

  lemma {:induction false} SplitPathTail(names: seq<string>, attr: string, buffer: string)
    requires forall k :: 0 <= k < |names| ==> AllQueryChars(names[k])
    requires AllQueryChars(attr)
    ensures Split(PathTail(names, attr), buffer) == Ok([buffer] + DescendSteps(names) + [[PropMarker] + attr])
    decreases |names|
  {
    if names == [] {
      var q := [PropMarker] + attr;
      assert q[0] == PropMarker && q[1..] == attr;
      SplitRun(attr, [], [PropMarker]);
      assert attr + [] == attr;
      assert Split([], [PropMarker] + attr) == Ok([[PropMarker] + attr]);
      assert Split(attr, [PropMarker]) == Ok([[PropMarker] + attr]);
      assert Split(q, buffer) == Prefixed([buffer], Split(attr, [PropMarker]));
      assert [buffer] + DescendSteps(names) + [[PropMarker] + attr] == [buffer] + [[PropMarker] + attr];
    } else {
      var q := [NameMarker] + names[0] + PathTail(names[1..], attr);
      assert q[0] == NameMarker && q[1..] == names[0] + PathTail(names[1..], attr);
      SplitRun(names[0], PathTail(names[1..], attr), [NameMarker]);
      SplitPathTail(names[1..], attr, [NameMarker] + names[0]);
      assert [buffer] + ([[NameMarker] + names[0]] + DescendSteps(names[1..]) + [[PropMarker] + attr])
          == [buffer] + DescendSteps(names) + [[PropMarker] + attr];
    }
  }

  /** A path query written with label characters only splits into one `.` step
      per name and a final `~` step. */
  lemma StepsOfPath(first: string, more: seq<string>, attr: string)
    requires AllQueryChars(first)
    requires forall k :: 0 <= k < |more| ==> AllQueryChars(more[k])
    requires AllQueryChars(attr)
    ensures Steps(PathQuery(first, more, attr)) == Ok(DescendSteps([first] + more) + [[PropMarker] + attr])
  {
    SplitRun(first, PathTail(more, attr), [NameMarker]);
    SplitPathTail(more, attr, [NameMarker] + first);
    assert ([first] + more)[1..] == more;
  }

  // ---------------------------------------------------------------------------
  // Properties of the search

  /** The element reached by descending, name by name, into the first child
      that carries the name; none when some name has no such child. */
  function Lookup(elem: Element, names: seq<string>): Option<Element>
    decreases |names|
  {
    if names == [] then Some(elem)
    else
      var k := FirstChild(elem.children, names[0]);
      if k < |elem.children| then Lookup(elem.children[k], names[1..]) else None
  }

  datatype Option<+T> = None | Some(value: T)

  /** The value of attribute `attr` of the element found, or the soft miss. */
  function ReadProp(found: Option<Element>, attr: string): string {
    match found
    case Some(e) => if attr in e.props then e.props[attr] else NotFound
    case None => NotFound
  }

  /** Name steps followed by one attribute step answer the attribute of the
      element the names lead to, or "Not Found!" when a name or the attribute
      is missing; they never fail. */
  lemma {:induction false} SearchPath(steps: seq<string>, elem: Element, index: nat, names: seq<string>, attr: string)
    requires index <= |steps| && steps[index..] == DescendSteps(names) + [[PropMarker] + attr]
    ensures Search(steps, elem, index) == Ok(ReadProp(Lookup(elem, names), attr))
    decreases |names|
  {
    assert steps[index] == steps[index..][0];
    if names == [] {
      assert steps[index] == [PropMarker] + attr;
      assert steps[index][1..] == attr;
    } else {
      assert steps[index] == [NameMarker] + names[0];
      assert steps[index][1..] == names[0];
      var k := FirstChild(elem.children, names[0]);
      if k < |elem.children| {
        assert steps[index + 1..] == steps[index..][1..];
        assert DescendSteps(names)[1..] == DescendSteps(names[1..]);
        SearchPath(steps, elem.children[k], index + 1, names[1..], attr);
      }
    }
  }

  /** Name steps alone, with no attribute step: a chain that resolves runs past
      the last step, which is an error; a chain that breaks is a soft miss. */
  lemma {:induction false} SearchNamesOnly(steps: seq<string>, elem: Element, index: nat, names: seq<string>)
    requires index <= |steps| && steps[index..] == DescendSteps(names)
    ensures Search(steps, elem, index) == if Lookup(elem, names).Some? then Err(OutOfBounds) else Ok(NotFound)
    decreases |names|
  {
    if names != [] {
      assert steps[index] == steps[index..][0] == [NameMarker] + names[0];
      assert steps[index][1..] == names[0];
      var k := FirstChild(elem.children, names[0]);
      if k < |elem.children| {
        assert steps[index + 1..] == steps[index..][1..];
        assert DescendSteps(names)[1..] == DescendSteps(names[1..]);
        SearchNamesOnly(steps, elem.children[k], index + 1, names[1..]);
      }
    }
  }

  /** A path query of label characters answers the attribute at the end of the
      first-match chain of its names, or "Not Found!". */
  lemma AnswerPath(first: string, more: seq<string>, attr: string, root: Element)
    requires AllQueryChars(first)
    requires forall k :: 0 <= k < |more| ==> AllQueryChars(more[k])
    requires AllQueryChars(attr)
    ensures Answer(PathQuery(first, more, attr), root) == Ok(ReadProp(Lookup(root, [first] + more), attr))
  {
    StepsOfPath(first, more, attr);
    var steps := DescendSteps([first] + more) + [[PropMarker] + attr];
    assert steps[0..] == steps;
    SearchPath(steps, root, 0, [first] + more, attr);
  }

  /** Against a root with no children every well-formed query is a soft miss. */
  lemma AnswerOnEmptyRoot(query: string, props: map<string, string>)
    requires Steps(query).Ok?
    ensures Answer(query, Element(RootName, props, [])) == Ok(NotFound)
  {
    StepsShape(query);
  }
}
