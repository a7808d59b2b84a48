/** The stages chained as the program's driver chains them: content text to
    lexical tokens to structural tokens to the document tree, then queries. */
module Pipeline {
  import opened Errors
  import opened Lexer
  import opened Parser
  import opened Builder
  import opened Query

  /** The document of a content buffer, or the first error of any stage. */
  function Load(content: string): Result<Element> {
    var tokens :- Tokens(content);
    var tags :- Structure(tokens);
    Document(tags)
  }

  // ---------------------------------------------------------------------------
  // Text of written units

  /** ` k="v"` for every pair, in order. */
  function AttrText(attrs: seq<Attr>): string
    decreases |attrs|
  {
    if attrs == [] then ""
    else " " + attrs[0].0 + "=\"" + attrs[0].1 + "\"" + AttrText(attrs[1..])
  }

  function MarkupText(u: Markup): string {
    "<" + (if u.kind == CloseTag then "/" else "") + u.name + AttrText(u.attrs) + ">"
  }

  function MarkupsText(us: seq<Markup>): string
    decreases |us|
  {
    if us == [] then "" else MarkupText(us[0]) + MarkupsText(us[1..])
  }

  predicate IsLabel(w: string) {
    w != "" && AllLabelChars(w)
  }

  predicate WellWritten(u: Markup) {
    IsLabel(u.name) && forall k :: 0 <= k < |u.attrs| ==> IsLabel(u.attrs[k].0) && IsLabel(u.attrs[k].1)
  }

  /** A separator first: the pending run, then the separator's token. */
  lemma ScanSeparator(p: char, v: string, buffer: string)
    requires IsSeparator(p)
    ensures Scan([p] + v, buffer) == Prefixed(Flush(buffer) + Punctuation(p).value, Scan(v, ""))
  {
    assert ([p] + v)[0] == p && ([p] + v)[1..] == v;
  }

  /** A label run ended by a separator, with nothing pending before it. */
  lemma ScanLabelThen(w: string, p: char, v: string)
    requires IsLabel(w)
    requires IsSeparator(p)
    ensures Scan(w + ([p] + v), "") == Prefixed([Label(w)] + Punctuation(p).value, Scan(v, ""))
  {
    ScanRun(w, [p] + v, "");
    assert "" + w == w;
    ScanSeparator(p, v, w);
  }

  /** The text of one attribute, ` k="v"`, is lexed into its five tokens. */
  lemma ScanAttr(a: Attr, tail: string, buffer: string)
    requires IsLabel(a.0) && IsLabel(a.1)
    ensures Scan(AttrText([a]) + tail, buffer) == Prefixed(Flush(buffer) + AttrTokens([a]), Scan(tail, ""))
  {
    var k, v := a.0, a.1;
    var s3 := v + (['"'] + tail);
    var s2 := ['"'] + s3;
    var s1 := k + (['='] + s2);
    assert [a][1..] == [];
    assert AttrText([a]) + tail == [' '] + s1;
    var r := Scan(tail, "");
    assert Punctuation('"') == Ok([Quote]) && Punctuation('=') == Ok([Equal]) && Punctuation(' ') == Ok([]);
    assert [Label(v)] + [Quote] == [Label(v), Quote];
    assert [Label(k)] + [Equal] == [Label(k), Equal];
    assert [Quote] + [Label(v), Quote] == [Quote, Label(v), Quote];
    assert [Label(k), Equal] + [Quote, Label(v), Quote] == [Label(k), Equal, Quote, Label(v), Quote];
    ScanLabelThen(v, '"', tail);
    assert Scan(s3, "") == Prefixed([Label(v), Quote], r);
    ScanSeparator('"', s3, "");
    assert Flush("") + [Quote] == [Quote];
    PrefixedAssoc([Quote], [Label(v), Quote], r);
    assert Scan(s2, "") == Prefixed([Quote, Label(v), Quote], r);
    ScanLabelThen(k, '=', s2);
    PrefixedAssoc([Label(k), Equal], [Quote, Label(v), Quote], r);
    assert Scan(s1, "") == Prefixed([Label(k), Equal, Quote, Label(v), Quote], r);
    ScanSeparator(' ', s1, buffer);
    PrefixedAssoc(Flush(buffer), [Label(k), Equal, Quote, Label(v), Quote], r);
    assert Flush(buffer) + [] == Flush(buffer);
    assert AttrTokens([a]) == [Label(k), Equal, Quote, Label(v), Quote] + AttrTokens([]);
    assert AttrTokens([a]) == [Label(k), Equal, Quote, Label(v), Quote];
    assert Scan([' '] + s1, buffer) == Prefixed(Flush(buffer) + AttrTokens([a]), r);
  }

  lemma AttrTextHead(attrs: seq<Attr>)
    requires attrs != []
    ensures AttrText(attrs) == AttrText([attrs[0]]) + AttrText(attrs[1..])
  {
    var a := attrs[0];
    var w := " " + a.0 + "=\"" + a.1 + "\"";
    assert [a][1..] == [];
    assert AttrText([a]) == w + AttrText([]);
    assert w + "" == w;
  }

  lemma AttrTextCons(attrs: seq<Attr>, rest: string)
    requires attrs != []
    ensures AttrText(attrs) + rest == AttrText([attrs[0]]) + (AttrText(attrs[1..]) + rest)
  {
    AttrTextHead(attrs);
    var x, y := AttrText([attrs[0]]), AttrText(attrs[1..]);
    assert x + y + rest == x + (y + rest);
  }

  lemma AttrTokensCons(attrs: seq<Attr>)
    requires attrs != []
    ensures AttrTokens(attrs) == AttrTokens([attrs[0]]) + AttrTokens(attrs[1..])
  {
    var a := attrs[0];
    var w := [Label(a.0), Equal, Quote, Label(a.1), Quote];
    assert [a][1..] == [];
    assert AttrTokens([a]) == w + AttrTokens([]);
    assert w + [] == w;
    assert AttrTokens(attrs) == w + AttrTokens(attrs[1..]);
  }

  /** Two scans in a row: the tokens of the first part, then those of the second. */
  lemma ScanChain(first: string, rest: string, buffer: string, p: seq<LexToken>, q: seq<LexToken>, r: Result<seq<LexToken>>)
    requires Scan(first, buffer) == Prefixed(Flush(buffer) + p, Scan(rest, ""))
    requires Scan(rest, "") == Prefixed(Flush("") + q, r)
    ensures Scan(first, buffer) == Prefixed(Flush(buffer) + (p + q), r)
  {
    assert Flush("") + q == q;
    PrefixedAssoc(Flush(buffer) + p, q, r);
    assert Flush(buffer) + p + q == Flush(buffer) + (p + q);
  }

  lemma {:induction false} ScanAttrText(attrs: seq<Attr>, rest: string, buffer: string)
    requires forall k :: 0 <= k < |attrs| ==> IsLabel(attrs[k].0) && IsLabel(attrs[k].1)
    ensures Scan(AttrText(attrs) + (">" + rest), buffer) == Prefixed(Flush(buffer) + (AttrTokens(attrs) + [Close]), Scan(rest, ""))
    decreases |attrs|
  {
    if attrs == [] {
      assert AttrText(attrs) + (">" + rest) == ['>'] + rest;
      ScanSeparator('>', rest, buffer);
      assert Punctuation('>') == Ok([Close]);
      assert AttrTokens(attrs) + [Close] == [Close];
    } else {
      var tail := AttrText(attrs[1..]) + (">" + rest);
      AttrTextCons(attrs, ">" + rest);
      ScanAttr(attrs[0], tail, buffer);
      assert forall j :: 0 <= j < |attrs[1..]| ==> attrs[1..][j] == attrs[j + 1];
      ScanAttrText(attrs[1..], rest, "");
      ScanChain(AttrText(attrs) + (">" + rest), tail, buffer, AttrTokens([attrs[0]]), AttrTokens(attrs[1..]) + [Close], Scan(rest, ""));
      AttrTokensCons(attrs);
      assert AttrTokens([attrs[0]]) + (AttrTokens(attrs[1..]) + [Close]) == AttrTokens(attrs) + [Close];
    }
  }

  /** The name and attributes of a unit, up to and including its `>`. */
  lemma ScanNameAndAttrs(u: Markup, rest: string)
    requires WellWritten(u)
    ensures Scan(u.name + (AttrText(u.attrs) + (">" + rest)), "") ==
            Prefixed([Label(u.name)] + AttrTokens(u.attrs) + [Close], Scan(rest, ""))
  {
    var after := AttrText(u.attrs) + (">" + rest);
    ScanRun(u.name, after, "");
    assert "" + u.name == u.name;
    ScanAttrText(u.attrs, rest, u.name);
    assert Flush(u.name) == [Label(u.name)];
    assert [Label(u.name)] + (AttrTokens(u.attrs) + [Close]) == [Label(u.name)] + AttrTokens(u.attrs) + [Close];
  }

  /** A punctuation mark with nothing pending puts its token in front. */
  lemma ScanMark(p: char, inner: string, ts: seq<LexToken>, r: Result<seq<LexToken>>)
    requires IsSeparator(p) && p != ' '
    requires Scan(inner, "") == Prefixed(ts, r)
    ensures Scan([p] + inner, "") == Prefixed(Punctuation(p).value + ts, r)
  {
    ScanSeparator(p, inner, "");
    assert Flush("") + Punctuation(p).value == Punctuation(p).value;
    PrefixedAssoc(Punctuation(p).value, ts, r);
  }

  /** The text of a unit before `rest`: `<`, a `/` for a closing tag, then
      the name, the attributes and `>`. */
  lemma MarkupTextShape(u: Markup, rest: string)
    ensures MarkupText(u) + rest ==
            ['<'] + ((if u.kind == CloseTag then ['/'] else []) + (u.name + (AttrText(u.attrs) + (">" + rest))))
  {
  }

  /** The text of a well-written unit is lexed into the unit's tokens. */
  lemma ScanMarkupText(u: Markup, rest: string)
    requires WellWritten(u)
    ensures Scan(MarkupText(u) + rest, "") == Prefixed(MarkupTokens(u), Scan(rest, ""))
  {
    var r := Scan(rest, "");
    var body := u.name + (AttrText(u.attrs) + (">" + rest));
    var t := [Label(u.name)] + AttrTokens(u.attrs) + [Close];
    var slash := if u.kind == CloseTag then ['/'] else [];
    var marks := if u.kind == CloseTag then [Slash] else [];
    ScanNameAndAttrs(u, rest);
    assert Scan(slash + body, "") == Prefixed(marks + t, r) by {
      if u.kind == CloseTag {
        assert Punctuation('/') == Ok([Slash]);
        ScanMark('/', body, t, r);
      } else {
        assert slash + body == body && marks + t == t;
      }
    }
    assert Punctuation('<') == Ok([Open]);
    ScanMark('<', slash + body, marks + t, r);
    MarkupTextShape(u, rest);
    assert [Open] + (marks + t) == MarkupTokens(u);
  }

  /** The text of well-written units is lexed into their tokens, in order. */
  lemma {:induction false} TokensOfMarkups(us: seq<Markup>)
    requires forall k :: 0 <= k < |us| ==> WellWritten(us[k])
    ensures Tokens(MarkupsText(us)) == Ok(MarkupsTokens(us))
    decreases |us|
  {
    if us != [] {
      assert forall k :: 0 <= k < |us[1..]| ==> us[1..][k] == us[k + 1];
      TokensOfMarkups(us[1..]);
      ScanMarkupText(us[0], MarkupsText(us[1..]));
    }
  }

  /** Lexing then parsing the text of well-written units gives one structural
      token per unit, in source order. */
  lemma LoadMarkups(us: seq<Markup>)
    requires forall k :: 0 <= k < |us| ==> WellWritten(us[k])
    ensures Load(MarkupsText(us)) == Document(TagsOf(us))
  {
    TokensOfMarkups(us);
    StructureRoundTrip(us);
  }

  /** End to end: the text of well-written units that render trees with no
      same-named nesting loads into a root holding exactly those trees, with one
      element per opening tag. */
  lemma LoadTrees(us: seq<Markup>, es: seq<Element>)
    requires forall k :: 0 <= k < |us| ==> WellWritten(us[k])
    requires TagsOf(us) == ForestTags(es)
    requires NoneSameNamed(es)
    ensures Load(MarkupsText(us)) == Ok(Element(RootName, map[], es))
    ensures ForestSize(es) == CountOpen(TagsOf(us))
  {
    LoadMarkups(us);
    DocumentRoundTrip(es);
  }

  /** Whatever content loads, the root is `_root_` and every element under it has
      a non-empty name and non-empty attribute keys and values. */
  lemma LoadLabelled(content: string)
    requires Load(content).Ok?
    ensures Load(content).value.name == RootName
    ensures forall k :: 0 <= k < |Load(content).value.children| ==> WellLabelled(Load(content).value.children[k])
  {
    TokensLabelsNonEmpty(content);
    var tokens := Tokens(content).value;
    StructureLabelled(tokens);
    DocumentLabelled(Structure(tokens).value);
  }

  // ---------------------------------------------------------------------------
  // A sample document, end to end

  /** `<a x="1"><b y="2"></b></a>`, unit by unit. */
  function SampleUnits(): seq<Markup> {
    [Markup(OpenTag, "a", [("x", "1")]), Markup(OpenTag, "b", [("y", "2")]),
     Markup(CloseTag, "b", []), Markup(CloseTag, "a", [])]
  }

  function SampleTree(): Element {
    Element("a", map["x" := "1"], [Element("b", map["y" := "2"], [])])
  }

  lemma SampleOpenTexts()
    ensures MarkupText(SampleUnits()[0]) == "<a x=\"1\">"
    ensures MarkupText(SampleUnits()[1]) == "<b y=\"2\">"
  {
    assert AttrText([("x", "1")]) == " x=\"1\"";
    assert AttrText([("y", "2")]) == " y=\"2\"";
  }

  lemma SampleCloseTexts()
    ensures MarkupsText(SampleUnits()[2..]) == "</b></a>"
  {
    var us := SampleUnits();
    assert MarkupsText(us[3..]) == "</a>" by {
      assert us[3..][1..] == [];
      assert MarkupText(us[3]) == "</a>";
    }
    assert us[2..][1..] == us[3..];
    assert MarkupText(us[2]) == "</b>";
  }

  lemma SampleText()
    ensures MarkupsText(SampleUnits()) == "<a x=\"1\"><b y=\"2\"></b></a>"
  {
    var us := SampleUnits();
    SampleOpenTexts();
    SampleCloseTexts();
    assert MarkupsText(us[1..]) == "<b y=\"2\"></b></a>" by { assert us[1..][1..] == us[2..]; }
  }

  lemma SampleTags()
    ensures TagsOf(SampleUnits()) == ForestTags([SampleTree()])
  {
    var a, b := SampleTree(), SampleTree().children[0];
    assert Assign(map[], [("x", "1")]) == map["x" := "1"] by { assert [("x", "1")][1..] == []; }
    assert Assign(map[], [("y", "2")]) == map["y" := "2"] by { assert [("y", "2")][1..] == []; }
    assert TreeTags(b) == [OpenOf(b), CloseOf(b)] by { assert ForestTags(b.children) == []; }
    assert ForestTags(a.children) == TreeTags(b) by { assert a.children[1..] == []; }
    assert ForestTags([a]) == TreeTags(a) by { assert [a][1..] == []; }
    assert TreeTags(a) == [OpenOf(a), OpenOf(b), CloseOf(b), CloseOf(a)];
  }

  lemma SampleWellWritten()
    ensures forall k :: 0 <= k < |SampleUnits()| ==> WellWritten(SampleUnits()[k])
  {
    assert IsLabel("a") && IsLabel("b") && IsLabel("x") && IsLabel("y") && IsLabel("1") && IsLabel("2");
  }

  lemma SampleDistinct()
    ensures NoneSameNamed([SampleTree()])
  {
    var a := SampleTree();
    assert NoSameNamedChild(a.children[0]);
    assert NoSameNamedChild(a);
  }

  lemma SampleUnitsLoad()
    ensures Load(MarkupsText(SampleUnits())) == Ok(Element(RootName, map[], [SampleTree()]))
  {
    SampleWellWritten();
    SampleTags();
    SampleDistinct();
    LoadTrees(SampleUnits(), [SampleTree()]);
  }

  /** The sample text loads into a root holding `a` (with `x` = 1), which holds
      `b` (with `y` = 2). */
  lemma SampleLoad()
    ensures Load("<a x=\"1\"><b y=\"2\"></b></a>") == Ok(Element(RootName, map[], [SampleTree()]))
  {
    SampleText();
    SampleUnitsLoad();
  }

  /** `<a><b></a>`, unit by unit. */
  function UnclosedUnits(): seq<Markup> {
    [Markup(OpenTag, "a", []), Markup(OpenTag, "b", []), Markup(CloseTag, "a", [])]
  }

  lemma UnclosedText()
    ensures MarkupsText(UnclosedUnits()) == "<a><b></a>"
  {
    var us := UnclosedUnits();
    assert AttrText([]) == "";
    assert MarkupsText(us[2..]) == "</a>" by { assert us[2..][1..] == []; }
    assert MarkupsText(us[1..]) == "<b></a>" by { assert us[1..][1..] == us[2..]; }
  }

  lemma UnclosedTags()
    ensures TagsOf(UnclosedUnits()) == [OpenNamed("a"), OpenNamed("b"), CloseNamed("a")]
  {
    assert Assign(map[], []) == map[];
  }

  /** Text in which a child is never closed does not load: the build passes the
      last token while the parent is still open. */
  lemma UnclosedLoadFails()
    ensures Load("<a><b></a>") == Err(UnexpectedEndOfTokens)
  {
    var us := UnclosedUnits();
    assert forall k :: 0 <= k < |us| ==> WellWritten(us[k]) by {
      assert IsLabel("a") && IsLabel("b");
    }
    UnclosedText();
    LoadMarkups(us);
    UnclosedTags();
    UnclosedChildFails();
  }

  function SampleRoot(): Element {
    Element(RootName, map[], [SampleTree()])
  }

  /** `a.b~y` on the sample reads `y` of `b` inside `a`. */
  lemma SampleNestedQuery()
    ensures Answer("a.b~y", SampleRoot()) == Ok("2")
  {
    assert AllQueryChars("a") && AllQueryChars("b") && AllQueryChars("y");
    assert PathQuery("a", ["b"], "y") == "a.b~y" by { assert ["b"][1..] == []; }
    AnswerPath("a", ["b"], "y", SampleRoot());
    var a := SampleTree();
    assert FirstChild(SampleRoot().children, "a") == 0;
    assert FirstChild(a.children, "b") == 0;
    assert Lookup(SampleRoot(), ["a", "b"]) == Some(a.children[0]) by {
      assert ["a", "b"][1..] == ["b"] && ["b"][1..] == [];
    }
  }

  /** `a~x` on the sample reads `x` of `a`. */
  lemma SampleTopQuery()
    ensures Answer("a~x", SampleRoot()) == Ok("1")
  {
    assert AllQueryChars("a") && AllQueryChars("x");
    assert PathQuery("a", [], "x") == "a~x";
    AnswerPath("a", [], "x", SampleRoot());
    assert FirstChild(SampleRoot().children, "a") == 0;
    assert Lookup(SampleRoot(), ["a"]) == Some(SampleTree()) by { assert ["a"][1..] == []; }
  }

  /** A name with no such child answers the soft miss. */
  lemma SampleMissingChild()
    ensures Answer("a.c~y", SampleRoot()) == Ok(NotFound)
  {
    assert AllQueryChars("a") && AllQueryChars("c") && AllQueryChars("y");
    assert PathQuery("a", ["c"], "y") == "a.c~y" by { assert ["c"][1..] == []; }
    AnswerPath("a", ["c"], "y", SampleRoot());
    assert FirstChild(SampleRoot().children, "a") == 0;
    assert FirstChild(SampleTree().children, "c") == 1;
    assert Lookup(SampleRoot(), ["a", "c"]) == None by {
      assert ["a", "c"][1..] == ["c"];
    }
  }

  /** An attribute the element lacks answers the soft miss. */
  lemma SampleMissingAttribute()
    ensures Answer("a~y", SampleRoot()) == Ok(NotFound)
  {
    assert AllQueryChars("a") && AllQueryChars("y");
    assert PathQuery("a", [], "y") == "a~y";
    AnswerPath("a", [], "y", SampleRoot());
    assert FirstChild(SampleRoot().children, "a") == 0;
    assert Lookup(SampleRoot(), ["a"]) == Some(SampleTree()) by { assert ["a"][1..] == []; }
  }

  /** A query of names only that reaches an element runs out of steps. */
  lemma SampleNamesOnly()
    ensures Answer("a.b", SampleRoot()) == Err(OutOfBounds)
  {
    var q := "a.b";
    assert Split("b", ".") == Ok([".b"]) by {
      assert "b"[1..] == [] && "." + ['b'] == ".b";
    }
    assert Split(".b", ".a") == Ok([".a", ".b"]) by {
      assert ".b"[1..] == "b" && [".b"[0]] == "." && IsMarker('.') && !IsQueryChar('.');
      assert Prefixed([".a"], Ok([".b"])) == Ok([".a"] + [".b"]);
      assert Split(".b", ".a") == Prefixed([".a"], Split("b", "."));
      assert [".a"] + [".b"] == [".a", ".b"];
    }
    assert Steps(q) == Ok([".a", ".b"]) by {
      assert q[1..] == ".b" && "." + ['a'] == ".a";
    }
    var steps := [".a", ".b"];
    assert steps[0..] == DescendSteps(["a", "b"]) by { assert ["a", "b"][1..] == ["b"] && ["b"][1..] == []; }
    SearchNamesOnly(steps, SampleRoot(), 0, ["a", "b"]);
    assert FirstChild(SampleRoot().children, "a") == 0;
    assert FirstChild(SampleTree().children, "b") == 0;
    assert Lookup(SampleRoot(), ["a", "b"]).Some? by {
      assert ["a", "b"][1..] == ["b"] && ["b"][1..] == [];
    }
  }

  /** Empty content loads into an empty root, of which every well-formed query
      is a soft miss. */
  lemma EmptyContent(query: string)
    requires Steps(query).Ok?
    ensures Load("") == Ok(Element(RootName, map[], []))
    ensures Answer(query, Element(RootName, map[], [])) == Ok(NotFound)
  {
    AnswerOnEmptyRoot(query, map[]);
  }
}
