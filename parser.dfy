/** The structural parser (namespace `parser`): a recursive-descent recogniser
    over the lexical tokens, driven by one shared cursor. Each `<...>` unit
    becomes one structural token. A C++ function that takes `int &index` is
    modelled as one that receives the cursor and returns where it ends. */
module Parser {
  import opened Errors
  import opened Lexer
  import opened Seqs

  datatype TagKind = OpenTag | CloseTag

  /** A structural token. Closing tags run the same attribute loop as opening
      tags, so a closing tag may carry attributes too. */
  datatype Tag = Tag(kind: TagKind, name: string, props: map<string, string>)

  /** parser::next: move the cursor one token on; passing the end is an error. */
  function Next(tokens: seq<LexToken>, index: nat): (r: Result<nat>)
    ensures r.Ok? <==> index + 1 < |tokens|
    ensures r.Ok? ==> r.value == index + 1
    ensures r.Err? ==> r.error == UnexpectedEndOfFile
  {
    if index + 1 < |tokens| then Ok(index + 1) else Err(UnexpectedEndOfFile)
  }

  // ---------------------------------------------------------------------------
  // Specification of each parsing function, on the token sequence and cursor

  /** parser_props: pairs `LABEL = " LABEL "` are read until a `>` token; each
      pair is stored into the token's attributes, a later key replacing an earlier one. */
  function AttrList(tokens: seq<LexToken>, index: nat, token: Tag): (r: Result<Parsed<Tag>>)
    requires index < |tokens|
    ensures r.Ok? ==> index <= r.value.index < |tokens| && tokens[r.value.index] == Close
    ensures r.Ok? ==> r.value.value.kind == token.kind && r.value.value.name == token.name
    decreases |tokens| - index
  {
    if tokens[index] == Close then Ok(Parsed(token, index))
    else if !tokens[index].Label? then Err(UnexpectedToken)
    else
      var key := Value(tokens[index]);
      var i1 :- Next(tokens, index);
      if tokens[i1] != Equal then Err(UnexpectedToken) else
      var i2 :- Next(tokens, i1);
      if tokens[i2] != Quote then Err(UnexpectedToken) else
      var i3 :- Next(tokens, i2);
      if !tokens[i3].Label? then Err(UnexpectedToken) else
      var value := Value(tokens[i3]);
      var i4 :- Next(tokens, i3);
      if tokens[i4] != Quote then Err(UnexpectedToken) else
      var i5 :- Next(tokens, i4);
      AttrList(tokens, i5, token.(props := token.props[key := value]))
  }

  /** parser_name: the label at the cursor names the token; its attributes follow. */
  function NameTail(tokens: seq<LexToken>, index: nat, token: Tag): (r: Result<Parsed<Tag>>)
    requires index < |tokens|
    ensures r.Ok? ==> index < r.value.index < |tokens| && tokens[r.value.index] == Close
    ensures r.Ok? ==> r.value.value.kind == token.kind && r.value.value.name == Value(tokens[index])
  {
    var i :- Next(tokens, index);
    AttrList(tokens, i, token.(name := Value(tokens[index])))
  }

  /** parser_slash: after `/` the closing tag's name must follow. */
  function SlashTail(tokens: seq<LexToken>, index: nat, token: Tag): (r: Result<Parsed<Tag>>)
    requires index < |tokens|
    ensures r.Ok? ==> index + 1 < r.value.index < |tokens| && tokens[r.value.index] == Close
    ensures r.Ok? ==> tokens[index + 1].Label? && r.value.value.kind == token.kind && r.value.value.name == tokens[index + 1].text
  {
    var i :- Next(tokens, index);
    if tokens[i].Label? then NameTail(tokens, i, token) else Err(UnexpectedToken)
  }

  /** parser_open: the token after `<` decides the unit's kind: `/` makes a closing
      tag, a label an opening tag; anything else is an error. */
  function Unit(tokens: seq<LexToken>, index: nat): (r: Result<Parsed<Tag>>)
    requires index < |tokens|
    ensures r.Ok? ==> index + 1 < r.value.index < |tokens| && tokens[r.value.index] == Close
    ensures r.Ok? ==> (tokens[index + 1] == Slash || tokens[index + 1].Label?)
    ensures r.Ok? ==> (r.value.value.kind == CloseTag <==> tokens[index + 1] == Slash)
    ensures index + 1 < |tokens| && tokens[index + 1] != Slash && !tokens[index + 1].Label? ==> r == Err(UnexpectedToken)
  {
    var i :- Next(tokens, index);
    match tokens[i]
    case Slash => SlashTail(tokens, i, Tag(CloseTag, "", map[]))
    case Label(_) => NameTail(tokens, i, Tag(OpenTag, "", map[]))
    case _ => Err(UnexpectedToken)
  }

  /** parser_HRML from cursor `index` on: units follow each other until the
      tokens are exhausted; each must begin with `<`. */
  function Units(tokens: seq<LexToken>, index: nat): Result<seq<Tag>>
    decreases |tokens| - index
  {
    if index >= |tokens| then Ok([])
    else if tokens[index] != Open then Err(UnexpectedStart)
    else
      var u :- Unit(tokens, index);
      var next := if u.index < |tokens| then u.index + 1 else u.index;
      var rest :- Units(tokens, next);
      Ok([u.value] + rest)
  }

  /** The structural tokens of a whole lexical token sequence. */
  function Structure(tokens: seq<LexToken>): Result<seq<Tag>> {
    Units(tokens, 0)
  }

  // ---------------------------------------------------------------------------
  // The parsing functions as the program runs them

  method ParseProps(tokens: seq<LexToken>, index: nat, token: Tag) returns (r: Result<Parsed<Tag>>)
    requires index < |tokens|
    ensures r == AttrList(tokens, index, token)
  {
    var i := index;
    var tok := token;
    while tokens[i] != Close
      invariant i < |tokens|
      invariant AttrList(tokens, i, tok) == AttrList(tokens, index, token)
      decreases |tokens| - i
    {
      if !tokens[i].Label? { return Err(UnexpectedToken); }
      var key := Value(tokens[i]);
      i :- Next(tokens, i);

      if tokens[i] != Equal { return Err(UnexpectedToken); }
      i :- Next(tokens, i);

      if tokens[i] != Quote { return Err(UnexpectedToken); }
      i :- Next(tokens, i);

      if !tokens[i].Label? { return Err(UnexpectedToken); }
      var value := Value(tokens[i]);
      i :- Next(tokens, i);

      if tokens[i] != Quote { return Err(UnexpectedToken); }
      i :- Next(tokens, i);

      tok := tok.(props := tok.props[key := value]);
    }
    return Ok(Parsed(tok, i));
  }

  method ParseName(tokens: seq<LexToken>, index: nat, token: Tag) returns (r: Result<Parsed<Tag>>)
    requires index < |tokens|
    ensures r == NameTail(tokens, index, token)
  {
    var tok := token.(name := Value(tokens[index]));
    var i :- Next(tokens, index);
    r := ParseProps(tokens, i, tok);
  }

  method ParseSlash(tokens: seq<LexToken>, index: nat, token: Tag) returns (r: Result<Parsed<Tag>>)
    requires index < |tokens|
    ensures r == SlashTail(tokens, index, token)
  {
    var i :- Next(tokens, index);
    if tokens[i].Label? {
      r := ParseName(tokens, i, token);
    } else {
      r := Err(UnexpectedToken);
    }
  }

  method ParseOpen(tokens: seq<LexToken>, index: nat) returns (r: Result<Parsed<Tag>>)
    requires index < |tokens|
    ensures r == Unit(tokens, index)
  {
    var i :- Next(tokens, index);
    match tokens[i] {
      case Slash =>
        r := ParseSlash(tokens, i, Tag(CloseTag, "", map[]));
      case Label(_) =>
        r := ParseName(tokens, i, Tag(OpenTag, "", map[]));
      case _ =>
        r := Err(UnexpectedToken);
    }
  }

  method ParseHrml(tokens: seq<LexToken>) returns (r: Result<seq<Tag>>)
    ensures r == Structure(tokens)
  {
    var index := 0;
    var parsed: seq<Tag> := [];
    PrefixedNil(Units(tokens, 0));
    while index < |tokens|
      invariant Structure(tokens) == Prefixed(parsed, Units(tokens, index))
      decreases |tokens| - index
    {
      if tokens[index] != Open { return Err(UnexpectedStart); }
      var u :- ParseOpen(tokens, index);
      var next := if u.index < |tokens| then u.index + 1 else u.index;
      PrefixedAssoc(parsed, [u.value], Units(tokens, next));
      parsed := parsed + [u.value];
      index := next;
    }
    assert parsed + [] == parsed;
    return Ok(parsed);
  }

  // ---------------------------------------------------------------------------
  // A reference rendering: the lexical tokens of a unit as it is written

  /** An attribute pair as written, key first. */
  type Attr = (string, string)

  /** A `<...>` unit as written: its kind, its name and its attribute pairs in
      source order (duplicates allowed). */
  datatype Markup = Markup(kind: TagKind, name: string, attrs: seq<Attr>)

  /** The tokens of `k="v"` for every pair, in order. */
  function AttrTokens(attrs: seq<Attr>): seq<LexToken>
    decreases |attrs|
  {
    if attrs == [] then []
    else [Label(attrs[0].0), Equal, Quote, Label(attrs[0].1), Quote] + AttrTokens(attrs[1..])
  }

  function MarkupTokens(u: Markup): seq<LexToken> {
    [Open] + (if u.kind == CloseTag then [Slash] else []) + [Label(u.name)] + AttrTokens(u.attrs) + [Close]
  }

  function MarkupsTokens(us: seq<Markup>): seq<LexToken>
    decreases |us|
  {
    if us == [] then [] else MarkupTokens(us[0]) + MarkupsTokens(us[1..])
  }

  /** The pairs stored one after the other into `m`. */
  function Assign(m: map<string, string>, attrs: seq<Attr>): map<string, string>
    decreases |attrs|
  {
    if attrs == [] then m else Assign(m[attrs[0].0 := attrs[0].1], attrs[1..])
  }

  /** The structural token a written unit stands for. */
  function TagOf(u: Markup): Tag {
    Tag(u.kind, u.name, Assign(map[], u.attrs))
  }

  function TagsOf(us: seq<Markup>): (ts: seq<Tag>)
    ensures |ts| == |us|
    ensures forall k :: 0 <= k < |us| ==> ts[k] == TagOf(us[k])
    decreases |us|
  {
    if us == [] then [] else [TagOf(us[0])] + TagsOf(us[1..])
  }

  ghost predicate Declares(attrs: seq<Attr>, key: string) {
    exists j :: 0 <= j < |attrs| && attrs[j].0 == key
  }

  /** Storing pairs one by one: a key is present exactly when it was present
      before or some pair declares it; the last pair that declares it decides
      its value; a key no pair declares keeps its old value. */
  lemma {:induction false} AssignLastWins(m: map<string, string>, attrs: seq<Attr>, key: string)
    ensures key in Assign(m, attrs) <==> key in m || Declares(attrs, key)
    ensures forall j :: 0 <= j < |attrs| && attrs[j].0 == key && (forall l :: j < l < |attrs| ==> attrs[l].0 != key) ==>
              key in Assign(m, attrs) && Assign(m, attrs)[key] == attrs[j].1
    ensures key in m && !Declares(attrs, key) ==> key in Assign(m, attrs) && Assign(m, attrs)[key] == m[key]
    decreases |attrs|
  {
    if attrs != [] {
      var rest := attrs[1..];
      var m' := m[attrs[0].0 := attrs[0].1];
      AssignLastWins(m', rest, key);
      assert forall l :: 1 <= l < |attrs| ==> attrs[l] == rest[l - 1];
      if Declares(rest, key) {
        var j :| 0 <= j < |rest| && rest[j].0 == key;
        assert attrs[j + 1].0 == key;
      }
      if Declares(attrs, key) && attrs[0].0 != key {
        var j :| 0 <= j < |attrs| && attrs[j].0 == key;
        assert rest[j - 1].0 == key;
      }
      forall j | 0 <= j < |attrs| && attrs[j].0 == key && (forall l :: j < l < |attrs| ==> attrs[l].0 != key)
        ensures key in Assign(m, attrs) && Assign(m, attrs)[key] == attrs[j].1
      {
        if j == 0 {
          assert !Declares(rest, key);
        } else {
          assert rest[j - 1].0 == key;
        }
      }
    }
  }

  /** The attribute loop from `index` has read the pairs `attrs` as written and
      stopped on the `>` after them, every pair stored in order. */
  ghost predicate AttrsRead(tokens: seq<LexToken>, index: nat, token: Tag, attrs: seq<Attr>)
    requires index < |tokens|
  {
    IsAt(tokens, index, AttrTokens(attrs) + [Close]) &&
    AttrList(tokens, index, token) == Ok(Parsed(token.(props := Assign(token.props, attrs)), index + |AttrTokens(attrs)|))
  }

  /** One pass of the attribute loop over `LABEL = " LABEL "`. */
  lemma AttrListUnfold(tokens: seq<LexToken>, index: nat, token: Tag, a: Attr)
    requires index + 5 < |tokens|
    requires tokens[index] == Label(a.0) && tokens[index + 1] == Equal && tokens[index + 2] == Quote
    requires tokens[index + 3] == Label(a.1) && tokens[index + 4] == Quote
    ensures AttrList(tokens, index, token) == AttrList(tokens, index + 5, token.(props := token.props[a.0 := a.1]))
  {
  }

  lemma AttrsReadNil(tokens: seq<LexToken>, index: nat, token: Tag)
    requires index < |tokens| && tokens[index] == Close
    ensures AttrsRead(tokens, index, token, [])
  {
    assert AttrTokens([]) + [Close] == [Close];
    assert tokens[index..index + 1] == [Close];
    assert token.(props := token.props) == token;
  }

  lemma AttrsReadCons(tokens: seq<LexToken>, index: nat, token: Tag, a: Attr, more: seq<Attr>)
    requires index + 5 < |tokens|
    requires tokens[index] == Label(a.0) && tokens[index + 1] == Equal && tokens[index + 2] == Quote
    requires tokens[index + 3] == Label(a.1) && tokens[index + 4] == Quote
    requires AttrsRead(tokens, index + 5, token.(props := token.props[a.0 := a.1]), more)
    ensures AttrsRead(tokens, index, token, [a] + more)
  {
    AttrListUnfold(tokens, index, token, a);
    var attrs := [a] + more;
    assert attrs[0] == a && attrs[1..] == more;
    assert AttrTokens(attrs) == [Label(a.0), Equal, Quote, Label(a.1), Quote] + AttrTokens(more);
    assert tokens[index..index + 5] == [Label(a.0), Equal, Quote, Label(a.1), Quote];
    IsAtSplit(tokens, index, [Label(a.0), Equal, Quote, Label(a.1), Quote], AttrTokens(more) + [Close]);
    assert AttrTokens(attrs) + [Close] == [Label(a.0), Equal, Quote, Label(a.1), Quote] + (AttrTokens(more) + [Close]);
  }

  lemma AttrAt(tokens: seq<LexToken>, i: nat, attrs: seq<Attr>)
    requires attrs != []
    requires IsAt(tokens, i, AttrTokens(attrs) + [Close])
    ensures i + 5 < |tokens| && IsAt(tokens, i + 5, AttrTokens(attrs[1..]) + [Close])
    ensures tokens[i] == Label(attrs[0].0) && tokens[i + 1] == Equal && tokens[i + 2] == Quote
    ensures tokens[i + 3] == Label(attrs[0].1) && tokens[i + 4] == Quote
  {
    var a := attrs[0];
    var w := [Label(a.0), Equal, Quote, Label(a.1), Quote];
    assert AttrTokens(attrs) + [Close] == w + (AttrTokens(attrs[1..]) + [Close]);
    IsAtSplit(tokens, i, w, AttrTokens(attrs[1..]) + [Close]);
    var s := tokens[i..i + 5];
    assert s == w;
    assert tokens[i] == s[0] && tokens[i + 1] == s[1] && tokens[i + 2] == s[2];
    assert tokens[i + 3] == s[3] && tokens[i + 4] == s[4];
  }

  /** Well-formed attributes followed by `>` are read completely: the cursor stops
      on the `>` and every pair has been stored in order. */
  lemma {:induction false} AttrListAccepts(tokens: seq<LexToken>, index: nat, token: Tag, attrs: seq<Attr>)
    requires IsAt(tokens, index, AttrTokens(attrs) + [Close])
    ensures index < |tokens| && AttrsRead(tokens, index, token, attrs)
    decreases |attrs|
  {
    if attrs == [] {
      IsAtElements(tokens, index, AttrTokens(attrs) + [Close]);
      assert (AttrTokens(attrs) + [Close])[0] == Close;
      AttrsReadNil(tokens, index, token);
    } else {
      var a := attrs[0];
      AttrAt(tokens, index, attrs);
      AttrListAccepts(tokens, index + 5, token.(props := token.props[a.0 := a.1]), attrs[1..]);
      AttrsReadCons(tokens, index, token, a, attrs[1..]);
      assert [a] + attrs[1..] == attrs;
    }
  }

  /** One pass of the attribute loop, when it succeeds. */
  lemma AttrListStep(tokens: seq<LexToken>, index: nat, token: Tag)
    requires index < |tokens| && tokens[index] != Close
    requires AttrList(tokens, index, token).Ok?
    ensures index + 5 < |tokens|
    ensures tokens[index].Label? && tokens[index + 1] == Equal && tokens[index + 2] == Quote
    ensures tokens[index + 3].Label? && tokens[index + 4] == Quote
    ensures AttrList(tokens, index + 5, token.(props := token.props[tokens[index].text := tokens[index + 3].text])).Ok?
  {
  }

  /** Conversely, whenever the attribute loop succeeds, the tokens it read are
      exactly well-formed pairs followed by `>`. */
  lemma {:induction false} AttrListShape(tokens: seq<LexToken>, index: nat, token: Tag) returns (attrs: seq<Attr>)
    requires index < |tokens|
    requires AttrList(tokens, index, token).Ok?
    ensures AttrsRead(tokens, index, token, attrs)
    decreases |tokens| - index
  {
    if tokens[index] == Close {
      attrs := [];
      AttrsReadNil(tokens, index, token);
    } else {
      AttrListStep(tokens, index, token);
      var a := (tokens[index].text, tokens[index + 3].text);
      var more := AttrListShape(tokens, index + 5, token.(props := token.props[a.0 := a.1]));
      AttrsReadCons(tokens, index, token, a, more);
      attrs := [a] + more;
    }
  }

  /** The tokens of a unit before its attributes: `<`, the `/` of a closing tag, the name. */
  function Head(u: Markup): seq<LexToken> {
    [Open] + (if u.kind == CloseTag then [Slash] else []) + [Label(u.name)]
  }

  lemma HeadAt(tokens: seq<LexToken>, index: nat, u: Markup)
    requires IsAt(tokens, index, MarkupTokens(u))
    ensures MarkupTokens(u) == Head(u) + (AttrTokens(u.attrs) + [Close])
    ensures IsAt(tokens, index + |Head(u)|, AttrTokens(u.attrs) + [Close])
    ensures tokens[index] == Open
    ensures u.kind == CloseTag ==> tokens[index + 1] == Slash && tokens[index + 2] == Label(u.name)
    ensures u.kind == OpenTag ==> tokens[index + 1] == Label(u.name)
  {
    assert MarkupTokens(u) == Head(u) + (AttrTokens(u.attrs) + [Close]);
    IsAtSplit(tokens, index, Head(u), AttrTokens(u.attrs) + [Close]);
    IsAtElements(tokens, index, Head(u));
    assert Head(u)[0] == Open;
    if u.kind == CloseTag {
      assert Head(u)[1] == Slash && Head(u)[2] == Label(u.name);
    } else {
      assert Head(u)[1] == Label(u.name);
    }
  }

  /** The unit `u` as written lies at the cursor, which is on its `<`, and the
      unit parser turns it into its tag, stopping on its `>`. */
  ghost predicate UnitRead(tokens: seq<LexToken>, index: nat, u: Markup)
    requires index < |tokens|
  {
    IsAt(tokens, index, MarkupTokens(u)) && tokens[index] == Open &&
    Unit(tokens, index) == Ok(Parsed(TagOf(u), index + |MarkupTokens(u)| - 1))
  }

  /** Unit after its head: the attribute loop decides the result. */
  lemma UnitFromAttrs(tokens: seq<LexToken>, index: nat, u: Markup)
    requires index < |tokens| && tokens[index] == Open
    requires u.kind == CloseTag ==> index + 3 < |tokens| && tokens[index + 1] == Slash && tokens[index + 2] == Label(u.name)
    requires u.kind == OpenTag ==> index + 2 < |tokens| && tokens[index + 1] == Label(u.name)
    ensures index + |Head(u)| < |tokens|
    ensures Unit(tokens, index) == AttrList(tokens, index + |Head(u)|, Tag(u.kind, u.name, map[]))
  {
  }

  lemma MarkupTokensAt(tokens: seq<LexToken>, index: nat, u: Markup)
    requires index + |Head(u)| <= |tokens| && tokens[index..index + |Head(u)|] == Head(u)
    requires IsAt(tokens, index + |Head(u)|, AttrTokens(u.attrs) + [Close])
    ensures IsAt(tokens, index, MarkupTokens(u)) && tokens[index] == Open
    ensures |MarkupTokens(u)| == |Head(u)| + |AttrTokens(u.attrs)| + 1
  {
    assert MarkupTokens(u) == Head(u) + (AttrTokens(u.attrs) + [Close]);
    IsAtSplit(tokens, index, Head(u), AttrTokens(u.attrs) + [Close]);
    assert Head(u)[0] == Open;
  }

  lemma UnitReadOfAttrs(tokens: seq<LexToken>, index: nat, u: Markup)
    requires index + |Head(u)| < |tokens|
    requires tokens[index..index + |Head(u)|] == Head(u)
    requires Unit(tokens, index) == AttrList(tokens, index + |Head(u)|, Tag(u.kind, u.name, map[]))
    requires AttrsRead(tokens, index + |Head(u)|, Tag(u.kind, u.name, map[]), u.attrs)
    ensures UnitRead(tokens, index, u)
  {
    MarkupTokensAt(tokens, index, u);
    assert Tag(u.kind, u.name, map[]).(props := Assign(map[], u.attrs)) == TagOf(u);
  }

  /** A unit as written is parsed into the structural token it stands for, the
      cursor stopping on its `>`. */
  lemma UnitAccepts(tokens: seq<LexToken>, index: nat, u: Markup)
    requires IsAt(tokens, index, MarkupTokens(u))
    ensures index < |tokens| && UnitRead(tokens, index, u)
  {
    HeadAt(tokens, index, u);
    UnitFromAttrs(tokens, index, u);
    AttrListAccepts(tokens, index + |Head(u)|, Tag(u.kind, u.name, map[]), u.attrs);
    IsAtSplit(tokens, index, Head(u), AttrTokens(u.attrs) + [Close]);
    UnitReadOfAttrs(tokens, index, u);
  }

  /** The head of a unit the parser accepts. */
  lemma UnitHead(tokens: seq<LexToken>, index: nat) returns (u: Markup)
    requires index < |tokens| && tokens[index] == Open
    requires Unit(tokens, index).Ok?
    ensures u.attrs == []
    ensures index + |Head(u)| < |tokens| && tokens[index..index + |Head(u)|] == Head(u)
    ensures Unit(tokens, index) == AttrList(tokens, index + |Head(u)|, Tag(u.kind, u.name, map[]))
  {
    if tokens[index + 1] == Slash {
      u := Markup(CloseTag, tokens[index + 2].text, []);
    } else {
      u := Markup(OpenTag, tokens[index + 1].text, []);
    }
    assert tokens[index..index + |Head(u)|] == Head(u);
  }

  /** Conversely, every unit the parser accepts is a unit as written. */
  lemma UnitShape(tokens: seq<LexToken>, index: nat) returns (u: Markup)
    requires index < |tokens| && tokens[index] == Open
    requires Unit(tokens, index).Ok?
    ensures UnitRead(tokens, index, u)
  {
    var h := UnitHead(tokens, index);
    var attrs := AttrListShape(tokens, index + |Head(h)|, Tag(h.kind, h.name, map[]));
    u := h.(attrs := attrs);
    assert Head(u) == Head(h);
    UnitReadOfAttrs(tokens, index, u);
  }

  /** The units parser from `index` has read the written units `us`, which fill
      the rest of the tokens, and returned their tags in order. */
  ghost predicate UnitsRead(tokens: seq<LexToken>, index: nat, us: seq<Markup>) {
    index <= |tokens| && tokens[index..] == MarkupsTokens(us) && Units(tokens, index) == Ok(TagsOf(us))
  }

  lemma UnitsReadNil(tokens: seq<LexToken>)
    ensures UnitsRead(tokens, |tokens|, [])
  {
  }

  /** One pass of the units loop over an accepted unit whose `>` lies just before `next`. */
  lemma UnitsStep(tokens: seq<LexToken>, index: nat, t: Tag, next: nat)
    requires index < |tokens| && tokens[index] == Open
    requires 0 < next <= |tokens| && Unit(tokens, index) == Ok(Parsed(t, next - 1))
    ensures Units(tokens, index) == Prefixed([t], Units(tokens, next))
  {
  }

  lemma MarkupsTokensCons(tokens: seq<LexToken>, index: nat, u: Markup, more: seq<Markup>)
    requires IsAt(tokens, index, MarkupTokens(u))
    requires index + |MarkupTokens(u)| <= |tokens| && tokens[index + |MarkupTokens(u)|..] == MarkupsTokens(more)
    ensures tokens[index..] == MarkupsTokens([u] + more)
  {
    var next := index + |MarkupTokens(u)|;
    assert ([u] + more)[0] == u && ([u] + more)[1..] == more;
    assert tokens[index..] == tokens[index..next] + tokens[next..];
  }

  lemma TagsCons(whole: Result<seq<Tag>>, rest: Result<seq<Tag>>, u: Markup, more: seq<Markup>)
    requires whole == Prefixed([TagOf(u)], rest) && rest == Ok(TagsOf(more))
    ensures whole == Ok(TagsOf([u] + more))
  {
    assert ([u] + more)[0] == u && ([u] + more)[1..] == more;
  }

  lemma UnitsReadCons(tokens: seq<LexToken>, index: nat, u: Markup, more: seq<Markup>)
    requires IsAt(tokens, index, MarkupTokens(u))
    requires Units(tokens, index) == Prefixed([TagOf(u)], Units(tokens, index + |MarkupTokens(u)|))
    requires UnitsRead(tokens, index + |MarkupTokens(u)|, more)
    ensures UnitsRead(tokens, index, [u] + more)
  {
    MarkupsTokensCons(tokens, index, u, more);
    TagsCons(Units(tokens, index), Units(tokens, index + |MarkupTokens(u)|), u, more);
  }

  /** An accepted unit followed by accepted units that fill the rest. (The
      facts are compared with `true` so that callers pass them on folded.) */
  lemma UnitsReadUnit(tokens: seq<LexToken>, index: nat, u: Markup, more: seq<Markup>)
    requires index < |tokens| && UnitRead(tokens, index, u) == true
    requires UnitsRead(tokens, index + |MarkupTokens(u)|, more) == true
    ensures UnitsRead(tokens, index, [u] + more)
  {
    UnitsStep(tokens, index, TagOf(u), index + |MarkupTokens(u)|);
    UnitsReadCons(tokens, index, u, more);
  }

  /** The tokens of units that fill the rest split into the first unit's and the others'. */
  lemma UnitsFitFirst(tokens: seq<LexToken>, index: nat, us: seq<Markup>)
    requires us != []
    requires IsAt(tokens, index, MarkupsTokens(us)) && index + |MarkupsTokens(us)| == |tokens|
    ensures IsAt(tokens, index, MarkupTokens(us[0]))
    ensures IsAt(tokens, index + |MarkupTokens(us[0])|, MarkupsTokens(us[1..]))
    ensures index + |MarkupTokens(us[0])| + |MarkupsTokens(us[1..])| == |tokens|
  {
    assert MarkupsTokens(us) == MarkupTokens(us[0]) + MarkupsTokens(us[1..]);
    IsAtSplit(tokens, index, MarkupTokens(us[0]), MarkupsTokens(us[1..]));
  }

  /** Written units in sequence are parsed into their structural tokens, in order. */
  lemma {:induction false} UnitsAccept(tokens: seq<LexToken>, index: nat, us: seq<Markup>)
    requires IsAt(tokens, index, MarkupsTokens(us)) && index + |MarkupsTokens(us)| == |tokens|
    ensures UnitsRead(tokens, index, us)
    decreases |us|
  {
    if us == [] {
      UnitsReadNil(tokens);
    } else {
      var u := us[0];
      UnitsFitFirst(tokens, index, us);
      UnitsAccept(tokens, index + |MarkupTokens(u)|, us[1..]);
      UnitAccepts(tokens, index, u);
      UnitsReadUnit(tokens, index, u, us[1..]);
      assert [u] + us[1..] == us;
    }
  }

  /** Conversely, a token sequence the parser accepts is a sequence of written units. */
  lemma {:induction false} UnitsShape(tokens: seq<LexToken>, index: nat) returns (us: seq<Markup>)
    requires index <= |tokens|
    requires Units(tokens, index).Ok?
    ensures UnitsRead(tokens, index, us)
    decreases |tokens| - index
  {
    if index == |tokens| {
      us := [];
      UnitsReadNil(tokens);
    } else {
      var u := UnitShape(tokens, index);
      UnitsStep(tokens, index, TagOf(u), index + |MarkupTokens(u)|);
      var more := UnitsShape(tokens, index + |MarkupTokens(u)|);
      UnitsReadUnit(tokens, index, u, more);
      us := [u] + more;
    }
  }

  /** Round trip: the lexical tokens of written units parse to exactly one
      structural token per unit, in source order. */
  lemma StructureRoundTrip(us: seq<Markup>)
    ensures Structure(MarkupsTokens(us)) == Ok(TagsOf(us))
  {
    UnitsAccept(MarkupsTokens(us), 0, us);
  }

  /** Every token sequence the parser accepts consists of written units, and the
      structural tokens are those of the units. */
  lemma StructureShape(tokens: seq<LexToken>) returns (us: seq<Markup>)
    requires Structure(tokens).Ok?
    ensures tokens == MarkupsTokens(us)
    ensures Structure(tokens) == Ok(TagsOf(us))
  {
    us := UnitsShape(tokens, 0);
  }

  // ---------------------------------------------------------------------------
  // Labels are never empty

  /** Every label token carries a non-empty run, as the tokenizer guarantees. */
  predicate LabelsNonEmpty(tokens: seq<LexToken>) {
    forall t :: t in tokens && t.Label? ==> t.text != ""
  }

  predicate PropsNonEmpty(m: map<string, string>) {
    forall k :: k in m ==> k != "" && m[k] != ""
  }

  /** A structural token whose name and attribute keys and values are all non-empty. */
  predicate Labelled(t: Tag) {
    t.name != "" && PropsNonEmpty(t.props)
  }

  /** The attribute loop stores only non-empty keys and values. */
  lemma {:induction false} AttrListLabelled(tokens: seq<LexToken>, index: nat, token: Tag)
    requires index < |tokens| && LabelsNonEmpty(tokens)
    requires PropsNonEmpty(token.props)
    requires AttrList(tokens, index, token).Ok?
    ensures PropsNonEmpty(AttrList(tokens, index, token).value.value.props)
    decreases |tokens| - index
  {
    if tokens[index] != Close {
      AttrListStep(tokens, index, token);
      var a := (tokens[index].text, tokens[index + 3].text);
      assert tokens[index] in tokens && tokens[index + 3] in tokens;
      AttrListUnfold(tokens, index, token, a);
      AttrListLabelled(tokens, index + 5, token.(props := token.props[a.0 := a.1]));
    }
  }

  /** Every unit the parser accepts is a labelled structural token. */
  lemma UnitLabelled(tokens: seq<LexToken>, index: nat)
    requires index < |tokens| && tokens[index] == Open && LabelsNonEmpty(tokens)
    requires Unit(tokens, index).Ok?
    ensures Labelled(Unit(tokens, index).value.value)
  {
    var h := UnitHead(tokens, index);
    var n := |Head(h)|;
    assert Head(h)[n - 1] == Label(h.name);
    assert tokens[index + n - 1] == tokens[index..index + n][n - 1];
    assert tokens[index + n - 1] in tokens;
    AttrListLabelled(tokens, index + n, Tag(h.kind, h.name, map[]));
  }

  /** Every structural token the units loop returns is labelled. */
  lemma {:induction false} UnitsLabelled(tokens: seq<LexToken>, index: nat)
    requires LabelsNonEmpty(tokens)
    requires Units(tokens, index).Ok?
    ensures forall t :: t in Units(tokens, index).value ==> Labelled(t)
    decreases |tokens| - index
  {
    if index < |tokens| {
      var u := Unit(tokens, index).value;
      UnitLabelled(tokens, index);
      UnitsStep(tokens, index, u.value, u.index + 1);
      UnitsLabelled(tokens, u.index + 1);
    }
  }

  /** The parser turns tokens with non-empty labels into labelled structural tokens. */
  lemma StructureLabelled(tokens: seq<LexToken>)
    requires LabelsNonEmpty(tokens)
    requires Structure(tokens).Ok?
    ensures forall t :: t in Structure(tokens).value ==> Labelled(t)
  {
    UnitsLabelled(tokens, 0);
  }
}
