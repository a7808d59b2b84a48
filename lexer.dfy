/** The character tokenizer (namespace `lexer`): one left-to-right scan that keeps
    a buffer for the current label run and emits punctuation and label tokens. */
module Lexer {
  import opened Errors

  datatype LexToken = Open | Close | Slash | Equal | Quote | Label(text: string)

  /** Characters that may appear inside a label run: the 26 lower-case and the 26
      upper-case ASCII letters, the ten digits and `- . ! _ & $ %`. */
  predicate IsLabelChar(c: char) {
    ('a' <= c <= 'z') || ('A' <= c <= 'Z') || ('0' <= c <= '9') ||
    c == '-' || c == '.' || c == '!' || c == '_' || c == '&' || c == '$' || c == '%'
  }

  /** The characters the tokenizer handles without being part of a label:
      the five punctuation marks and the space. */
  predicate IsSeparator(c: char) {
    c == '<' || c == '>' || c == '/' || c == '=' || c == '"' || c == ' '
  }

  predicate Allowed(c: char) {
    IsLabelChar(c) || IsSeparator(c)
  }

  predicate AllLabelChars(w: string) {
    forall k :: 0 <= k < |w| ==> IsLabelChar(w[k])
  }

  /** The `value` field of a lexical token: the run for a label, empty otherwise. */
  function Value(t: LexToken): string {
    if t.Label? then t.text else ""
  }

  /** The tokens a non-label character yields: one for a punctuation mark, none for a space. */
  function Punctuation(c: char): (r: Result<seq<LexToken>>)
    ensures r.Ok? <==> IsSeparator(c)
    ensures r.Ok? ==> |r.value| == (if c == ' ' then 0 else 1)
    ensures r.Ok? ==> forall t :: t in r.value ==> !t.Label?
    ensures r.Err? ==> r.error == UnexpectedChar(c)
  {
    match c
    case '<' => Ok([Open])
    case '>' => Ok([Close])
    case '/' => Ok([Slash])
    case '=' => Ok([Equal])
    case '"' => Ok([Quote])
    case ' ' => Ok([])
    case _ => Err(UnexpectedChar(c))
  }

  /** The pending label run, emitted as one token when it is not empty. */
  function Flush(buffer: string): seq<LexToken> {
    if buffer == "" then [] else [Label(buffer)]
  }

  /** The tokens of the rest `s` of the content when `buffer` holds the label run
      read so far. At the end of the content the buffer is dropped, not flushed. */
  function Scan(s: string, buffer: string): Result<seq<LexToken>>
    decreases |s|
  {
    if s == [] then Ok([])
    else if IsLabelChar(s[0]) then Scan(s[1..], buffer + [s[0]])
    else
      var punct :- Punctuation(s[0]);
      var rest :- Scan(s[1..], "");
      Ok(Flush(buffer) + punct + rest)
  }

  /** The lexical tokens of a whole content buffer. */
  function Tokens(content: string): Result<seq<LexToken>> {
    Scan(content, "")
  }

  /** lexer_HRML: the scanning loop itself. */
  method Lex(content: string) returns (r: Result<seq<LexToken>>)
    ensures r == Tokens(content)
  {
    var tokens: seq<LexToken> := [];
    var buffer := "";
    var i := 0;
    assert content[i..] == content;
    PrefixedNil(Scan(content, ""));
    while i < |content|
      invariant 0 <= i <= |content|
      invariant Tokens(content) == Prefixed(tokens, Scan(content[i..], buffer))
    {
      var c := content[i];
      assert content[i..][0] == c && content[i..][1..] == content[i + 1..];
      if IsLabelChar(c) {
        assert Scan(content[i..], buffer) == Scan(content[i + 1..], buffer + [c]);
        buffer := buffer + [c];
        i := i + 1;
        continue;
      }
      ghost var before := tokens + Flush(buffer);
      if Punctuation(c).Ok? {
        assert Scan(content[i..], buffer) == Prefixed(Flush(buffer) + Punctuation(c).value, Scan(content[i + 1..], ""));
        PrefixedAssoc(tokens, Flush(buffer) + Punctuation(c).value, Scan(content[i + 1..], ""));
        assert before + Punctuation(c).value == tokens + (Flush(buffer) + Punctuation(c).value);
        assert Tokens(content) == Prefixed(before + Punctuation(c).value, Scan(content[i + 1..], ""));
      }
      if buffer != "" {
        tokens := tokens + [Label(buffer)];
        buffer := "";
      }
      match c {
        case '<' => tokens := tokens + [Open];
        case '>' => tokens := tokens + [Close];
        case '/' => tokens := tokens + [Slash];
        case '=' => tokens := tokens + [Equal];
        case '"' => tokens := tokens + [Quote];
        case ' ' =>
        case _ =>
          return Err(UnexpectedChar(c));
      }
      assert tokens == before + Punctuation(c).value;
      i := i + 1;
    }
    assert content[i..] == [] && tokens + [] == tokens;
    return Ok(tokens);
  }


  // ---------------------------------------------------------------------------
  // Properties of the tokenizer

  /** The scan succeeds exactly when every character is a label character, a
      punctuation mark or a space; otherwise it reports the first other character. */
  lemma {:induction false} ScanOkIff(s: string, buffer: string)
    ensures Scan(s, buffer).Ok? <==> forall k :: 0 <= k < |s| ==> Allowed(s[k])
    ensures forall k :: 0 <= k < |s| && !Allowed(s[k]) && (forall j :: 0 <= j < k ==> Allowed(s[j])) ==>
              Scan(s, buffer) == Err(UnexpectedChar(s[k]))
    decreases |s|
  {
    if s != [] {
      if IsLabelChar(s[0]) {
        ScanOkIff(s[1..], buffer + [s[0]]);
      } else {
        ScanOkIff(s[1..], "");
      }
      forall k | 1 <= k < |s| ensures s[k] == s[1..][k - 1] { }
    }
  }

  lemma TokensOkIff(content: string)
    ensures Tokens(content).Ok? <==> forall k :: 0 <= k < |content| ==> Allowed(content[k])
    ensures forall k :: 0 <= k < |content| && !Allowed(content[k]) && (forall j :: 0 <= j < k ==> Allowed(content[j])) ==>
              Tokens(content) == Err(UnexpectedChar(content[k]))
  {
    ScanOkIff(content, "");
  }

  /** A label run that reaches the end of the content is never flushed: appending
      label characters to the content changes nothing. */
  lemma {:induction false} TrailingRunDropped(s: string, w: string, buffer: string)
    requires AllLabelChars(w)
    ensures Scan(s + w, buffer) == Scan(s, buffer)
    decreases |s| + |w|
  {
    if s == [] {
      if w != [] {
        assert w[1..] == [] + w[1..];
        TrailingRunDropped([], w[1..], buffer + [w[0]]);
        assert [] + w == w;
      }
    } else {
      assert (s + w)[0] == s[0] && (s + w)[1..] == s[1..] + w;
      if IsLabelChar(s[0]) {
        TrailingRunDropped(s[1..], w, buffer + [s[0]]);
      } else {
        TrailingRunDropped(s[1..], w, "");
      }
    }
  }

  lemma TokensTrailingRunDropped(content: string, w: string)
    requires AllLabelChars(w)
    ensures Tokens(content + w) == Tokens(content)
  {
    TrailingRunDropped(content, w, "");
  }

  /** The sequential composition of two scans. */
  function Join(r1: Result<seq<LexToken>>, r2: Result<seq<LexToken>>): Result<seq<LexToken>> {
    var a :- r1;
    var b :- r2;
    Ok(a + b)
  }

  /** A separator ends the scan state: the content splits after any punctuation
      mark or space, and the tokens of the two parts are simply concatenated. */
  lemma {:induction false} ScanSplits(u: string, p: char, v: string, buffer: string)
    requires IsSeparator(p)
    ensures Scan(u + [p] + v, buffer) == Join(Scan(u + [p], buffer), Scan(v, ""))
    decreases |u|
  {
    if u == [] {
      assert [] + [p] + v == [p] + v;
      assert ([p] + v)[0] == p && ([p] + v)[1..] == v;
      assert [] + [p] == [p] && [p][1..] == [];
      assert Scan([p][1..], "") == Ok([]);
      if Scan(v, "").Ok? {
        var f := Flush(buffer) + Punctuation(p).value;
        assert f + [] + Scan(v, "").value == f + Scan(v, "").value;
      }
    } else {
      assert (u + [p] + v)[0] == u[0] && (u + [p] + v)[1..] == u[1..] + [p] + v;
      assert (u + [p])[0] == u[0] && (u + [p])[1..] == u[1..] + [p];
      if IsLabelChar(u[0]) {
        ScanSplits(u[1..], p, v, buffer + [u[0]]);
      } else {
        ScanSplits(u[1..], p, v, "");
        if Punctuation(u[0]).Ok? && Scan(u[1..] + [p], "").Ok? && Scan(v, "").Ok? {
          var f := Flush(buffer) + Punctuation(u[0]).value;
          var x, y := Scan(u[1..] + [p], "").value, Scan(v, "").value;
          assert f + (x + y) == (f + x) + y;
        }
      }
    }
  }

  /** A maximal run of label characters followed by a separator yields exactly one
      label token carrying the whole run, then the separator's own token, if any. */
  lemma {:induction false} RunThenSeparator(w: string, p: char, buffer: string)
    requires AllLabelChars(w)
    requires IsSeparator(p)
    ensures Scan(w + [p], buffer) == Ok(Flush(buffer + w) + Punctuation(p).value)
    decreases |w|
  {
    if w == [] {
      assert [] + [p] == [p] && [p][1..] == [];
      assert buffer + [] == buffer;
      assert Scan([p][1..], "") == Ok([]);
      var f := Flush(buffer) + Punctuation(p).value;
      assert f + [] == f;
    } else {
      assert (w + [p])[0] == w[0] && (w + [p])[1..] == w[1..] + [p];
      RunThenSeparator(w[1..], p, buffer + [w[0]]);
      assert buffer + [w[0]] + w[1..] == buffer + w;
    }
  }

  lemma TokensRunThenSeparator(w: string, p: char)
    requires AllLabelChars(w)
    requires IsSeparator(p)
    ensures Tokens(w + [p]) == Ok((if w == [] then [] else [Label(w)]) + Punctuation(p).value)
  {
    RunThenSeparator(w, p, "");
    assert "" + w == w;
  }

  /** Label characters only extend the pending run. */
  lemma {:induction false} ScanRun(w: string, v: string, buffer: string)
    requires AllLabelChars(w)
    ensures Scan(w + v, buffer) == Scan(v, buffer + w)
    decreases |w|
  {
    if w == [] {
      assert [] + v == v && buffer + [] == buffer;
    } else {
      assert (w + v)[0] == w[0] && (w + v)[1..] == w[1..] + v;
      ScanRun(w[1..], v, buffer + [w[0]]);
      assert buffer + [w[0]] + w[1..] == buffer + w;
    }
  }

  /** A label run ended by a separator, followed by anything: the run's label
      and the separator's token come first, then the tokens of the rest. */
  lemma ScanPiece(w: string, p: char, v: string, buffer: string)
    requires AllLabelChars(w)
    requires IsSeparator(p)
    ensures Scan(w + [p] + v, buffer) == Prefixed(Flush(buffer + w) + Punctuation(p).value, Scan(v, ""))
  {
    ScanSplits(w, p, v, buffer);
    RunThenSeparator(w, p, buffer);
  }

  /** A label token is emitted only for a run that is not empty. */
  lemma {:induction false} ScanLabelsNonEmpty(s: string, buffer: string)
    requires Scan(s, buffer).Ok?
    ensures forall t :: t in Scan(s, buffer).value && t.Label? ==> t.text != ""
    decreases |s|
  {
    if s != [] {
      if IsLabelChar(s[0]) {
        ScanLabelsNonEmpty(s[1..], buffer + [s[0]]);
      } else {
        ScanLabelsNonEmpty(s[1..], "");
      }
    }
  }

  lemma TokensLabelsNonEmpty(content: string)
    requires Tokens(content).Ok?
    ensures forall t :: t in Tokens(content).value && t.Label? ==> t.text != ""
  {
    ScanLabelsNonEmpty(content, "");
  }
}
