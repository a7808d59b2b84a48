# hrml_engine in Dafny

A model of the HRML engine in `src/main.cpp`. The engine turns a small
attribute-only markup language into a tree and answers path queries over it.
It has four stages, and each is one module here:

- `Lexer` (namespace `lexer`): one left-to-right scan. It turns characters into
  the punctuation tokens `<`, `>`, `/`, `=`, `"` and `Label(run)` tokens for
  maximal runs of label characters. A space yields no token. Any other
  character is an error.
- `Parser` (namespace `parser`): a recursive-descent recogniser driven by one
  shared cursor. It turns each `<...>` unit into one structural token, either
  an opening tag with its name and attributes or a closing tag.
- `Builder` (`HRML::visitor_HRML`, `HRML::generator_HRML`): rebuilds the
  nesting from the flat structural tokens. Elements hang under a synthetic
  root named `_root_`.
- `Query` (`HRML::query_parser`, `query_search`, `query_HRML`): splits a query
  such as `a.b~y` into marker-prefixed steps (`.a`, `.b`, `~y`). It then
  descends into the first child of each name and reads the attribute. A
  missing child or attribute gives the soft miss `Not Found!`. A malformed
  query is a hard error.

`Errors` holds the error kinds and a `Result` type; every `THROW` of the
program becomes an `Err` value. `Seqs` holds facts about a sequence occurring
at a cursor position. `Pipeline` chains the stages the way the driver does.
It proves that the text of well-written units lexes and parses back into
their tags, and it proves a sample document end to end.

How the program is modelled:

- Each C++ loop that builds a result is a Dafny `method` with a `while` or
  `for` loop: `Lexer.Lex`, `Parser.ParseProps`, `Parser.ParseHrml`,
  `Builder.Visit`, `Builder.Generate` and `Query.ParseQuery`. The two
  first-match loops of `query_search` (src/main.cpp:317 and 328) are the
  function `Query.FirstChild` and a lookup in the attribute map.
- Each method is proved equal to a recursive specification function
  (`Tokens`, `AttrList`, `Structure`, `Tree`, `Document`, `Steps`). The
  properties are lemmas about those functions.
- A function taking the cursor `int &index` receives the cursor and returns a
  `Parsed(value, index)` holding where the cursor ends.
- `query_search` is recursion with early returns and no mutation, so it is the
  function `Query.Search`.
- Each stage is paired with a reference rendering of well-formed input:
  - `Parser.MarkupTokens` gives the lexical tokens of a written unit.
  - `Builder.TreeTags` gives the structural tokens of a tree.
  - `Query.PathQuery` gives the text of a path query.
  - `Pipeline.MarkupText` gives the text of a unit.
- Round-trip lemmas prove that each stage recovers the rendered value. For
  the parser, shape lemmas prove the converse: every accepted token sequence
  is such a rendering. The lexer and the builder accept more than their
  renderings (several spaces between attributes; `<a><b></c></a>`, see
  `Builder.MismatchedCloseAccepted`), so they have no shape lemmas.
- Labels are never empty: the tokenizer flushes only a non-empty run, so every
  tag name, attribute key and value, and every element name below the root,
  is non-empty (`Pipeline.LoadLabelled`).

Points where the code has the last word:

- The label alphabet is the program's string. It contains `$`, and that is
  the set `IsLabelChar` describes as ranges.
- A closing tag goes through the same attribute loop as an opening tag. So
  `</a x="1">` is accepted, and the closing tag carries `x` (`Parser.Tag` keeps
  attributes for both kinds).
- The child loop of `visitor_HRML` stops at ANY closing tag, whatever its
  name. It also stops at an opening tag that repeats the element's own name.
  `Builder.Continues` is that guard as written.
  - `Builder.MismatchedCloseAccepted` shows that `<a><b></c></a>` builds `a`
    holding `b`.
  - `Builder.SameNamedChildFails` shows that `<a><a></a></a>` fails.
- A label run that reaches the end of the content is never flushed
  (`Lexer.TrailingRunDropped`).

## Model

| member | source | states |
|---|---|---|
| Lexer.Punctuation | src/main.cpp:74-102 | a non-label character gives a result exactly when it is one of `< > / = "` or a space: one non-label token for a punctuation mark, none for a space, otherwise the unexpected-character error |
| Lexer.Lex | src/main.cpp:50-107 | the scan loop with its label buffer computes exactly `Tokens(content)`, error included |
| Lexer.ScanOkIff | src/main.cpp:57-102 | from any buffer, the scan succeeds iff every character is a label character, a punctuation mark or a space; otherwise the error names the first character that is none of these |
| Lexer.TokensOkIff | src/main.cpp:57-102 | the same alphabet condition and first-bad-character error for a whole content string |
| Lexer.TrailingRunDropped | src/main.cpp:54-106 | appending label characters to the rest of the content never changes the scan's result: a run still buffered at the end emits no token |
| Lexer.TokensTrailingRunDropped | src/main.cpp:54-106 | `Tokens(content + w) == Tokens(content)` for any run `w` of label characters |
| Lexer.RunThenSeparator | src/main.cpp:57-102 | label characters then a separator yield the flushed buffer-plus-run as one label, then the separator's token |
| Lexer.TokensRunThenSeparator | src/main.cpp:57-102 | a maximal run followed by a separator yields exactly one `Label` carrying the whole run (none for an empty run), then one token for a punctuation mark and none for a space |
| Lexer.ScanRun | src/main.cpp:59-63 | label characters only extend the pending buffer |
| Lexer.ScanSplits | src/main.cpp:65-104 | a separator ends the scan state: the tokens of `u + [p] + v` are those of `u + [p]` followed by those of `v` scanned afresh |
| Lexer.ScanPiece | src/main.cpp:57-104 | a run ended by a separator contributes its label and the separator's token in front of the tokens of the rest |
| Lexer.ScanLabelsNonEmpty | src/main.cpp:57-71 | every label token an accepted scan emits, from any buffer, carries a non-empty run |
| Lexer.TokensLabelsNonEmpty | src/main.cpp:57-71 | every label token of an accepted content string carries a non-empty run |
| Parser.Next | src/main.cpp:129-132 | moving the cursor succeeds exactly when `index + 1` is still inside the tokens, and the cursor is then `index + 1`; otherwise it is the end-of-file error |
| Parser.AttrList | src/main.cpp:134-161 | an accepted attribute list ends with the cursor on a `>` token inside the tokens, and keeps the tag's kind and name |
| Parser.ParseProps | src/main.cpp:138-161 | the attribute loop, updating the tag's map in place, computes exactly `AttrList` |
| Parser.NameTail | src/main.cpp:163-169 | the label at the cursor becomes the tag's name and the cursor ends on a later `>` |
| Parser.ParseName | src/main.cpp:163-169 | parser_name computes exactly `NameTail` |
| Parser.SlashTail | src/main.cpp:171-178 | after `/` a label must follow, and it names the tag |
| Parser.ParseSlash | src/main.cpp:171-178 | parser_slash computes exactly `SlashTail` |
| Parser.Unit | src/main.cpp:180-194 | a unit is accepted only if `/` or a label follows `<`, and it is a closing tag iff `/` follows; any other token there gives the unexpected-token error |
| Parser.ParseOpen | src/main.cpp:180-194 | parser_open computes exactly `Unit` |
| Parser.ParseHrml | src/main.cpp:196-214 | the driver loop computes exactly `Structure(tokens)` |
| Parser.AssignLastWins | src/main.cpp:157 | after storing the pairs, a key is present iff it was before or some pair declares it; the last pair declaring it decides its value; an undeclared key keeps its old value |
| Parser.AttrAt | src/main.cpp:139-155 | a rendered attribute list at the cursor starts with `LABEL = " LABEL "` for its first pair, and the rendering of the other pairs follows |
| Parser.AttrListStep | src/main.cpp:139-157 | an accepted loop pass that is not at `>` has exactly `LABEL = " LABEL "` at the cursor, and the loop five tokens on, with that pair stored, is accepted too |
| Parser.AttrListAccepts | src/main.cpp:138-161 | the tokens of any attribute list then `>` are accepted; the cursor lands on the `>` and the pairs are stored in order |
| Parser.AttrListShape | src/main.cpp:138-161 | every accepted attribute list is such a rendering: some pair list whose tokens and `>` lie at the cursor, stored in order |
| Parser.HeadAt | src/main.cpp:180-191 | a written unit starts with `<`, then `/` and the name for a closing tag or the name for an opening tag |
| Parser.UnitAccepts | src/main.cpp:180-194 | the tokens of any written unit parse into its tag, with the cursor on its final `>` |
| Parser.UnitShape | src/main.cpp:180-194 | every unit accepted at a `<` is the rendering of some written unit, and parses into that unit's tag with the cursor on its final `>` |
| Parser.UnitsAccept | src/main.cpp:196-214 | consecutive written units that fill the rest of the tokens parse into one tag per unit, in order |
| Parser.UnitsShape | src/main.cpp:196-214 | every accepted token suffix is the rendering of some sequence of units, whose tags are the result |
| Parser.StructureRoundTrip | src/main.cpp:196-214 | parsing the tokens of any sequence of units gives exactly one tag per unit, in source order |
| Parser.StructureShape | src/main.cpp:196-214 | every token sequence the parser accepts is the rendering of units whose tags the parser returns |
| Parser.AttrListLabelled | src/main.cpp:138-161 | from a tag with non-empty keys and values, an accepted attribute loop over non-empty labels stores only non-empty keys and values |
| Parser.UnitLabelled | src/main.cpp:163-194 | every unit accepted over non-empty labels has a non-empty name and non-empty attribute keys and values |
| Parser.UnitsLabelled | src/main.cpp:196-214 | every structural token the units loop returns over non-empty labels is labelled in that sense |
| Parser.StructureLabelled | src/main.cpp:196-214 | the parser turns tokens with non-empty labels into tags whose names, keys and values are all non-empty |
| Builder.NextTag | src/main.cpp:238-241 | the cursor moves one on and stays inside the tokens, otherwise the end-of-tokens error |
| Builder.Tree | src/main.cpp:243-259 | a built element starts at an opening tag, takes that tag's name and attributes, and ends with the cursor on a later token that stops the child loop |
| Builder.Children | src/main.cpp:253-256 | the child loop ends on a token, inside the tokens, at which the loop guard is false |
| Builder.Visit | src/main.cpp:243-259 | visitor_HRML, with its child loop, computes exactly `Tree` |
| Builder.Document | src/main.cpp:261-274 | the root is named `_root_` with no attributes; no tokens give a root with no children |
| Builder.Generate | src/main.cpp:261-274 | generator_HRML's loop computes exactly `Document` |
| Builder.CountOpenTree | src/main.cpp:243-259 | a tree's rendering holds one opening tag per element |
| Builder.TreeAccepts | src/main.cpp:243-259 | the tags of any tree with no same-named child are rebuilt into that tree, the cursor ending on its closing tag |
| Builder.ChildrenAccept | src/main.cpp:253-256 | the child loop rebuilds any children with no same-named child, none named like the parent, in document order, up to a token that stops it |
| Builder.ForestAccepts | src/main.cpp:268-271 | the top-level loop rebuilds any sequence of trees with no same-named child, in order |
| Builder.DocumentRoundTrip | src/main.cpp:261-274 | the tags of trees with no same-named nesting build a root holding exactly those trees, with one element per opening tag |
| Builder.UnclosedChildFails | src/main.cpp:238-256 | `<a><b></a>`: the closing `a` ends `b`, and the parent then passes the end, so the build fails with the end-of-tokens error |
| Builder.MismatchedCloseAccepted | src/main.cpp:253 | `<a><b></c></a>` builds `a` holding `b`: any closing tag stops the child loop, whatever its name |
| Builder.SameNamedChildFails | src/main.cpp:244-256 | `<a><a></a></a>`: the inner opening `a` stops the outer loop and the next element then starts at a closing tag, so the build fails |
| Builder.TreeLabelled | src/main.cpp:243-259 | from labelled tags, a built element and all its descendants have non-empty names, keys and values |
| Builder.ChildrenLabelled | src/main.cpp:253-256 | from labelled tags, every child the child loop builds is well labelled |
| Builder.ForestLabelled | src/main.cpp:268-271 | from labelled tags, every top-level element is well labelled |
| Builder.DocumentLabelled | src/main.cpp:261-274 | from labelled tags, every element the generator hangs under the root is well labelled |
| Query.ParseQuery | src/main.cpp:276-304 | query_parser's loop computes exactly `Steps(query)` |
| Query.SplitOkIff | src/main.cpp:281-297 | the split succeeds iff every character is a query character or a marker; otherwise the error names the first other character |
| Query.StepsOkIff | src/main.cpp:276-304 | the same alphabet condition and first-bad-character error for a whole query |
| Query.SplitShape | src/main.cpp:281-301 | the steps concatenate back to the buffer and the query; there are 1 + (number of markers) of them; each starts with a marker followed by query characters; the first starts with the initial buffer |
| Query.StepsShape | src/main.cpp:276-304 | a parsed query's steps concatenate to `.` plus the query, number 1 + (number of `.` and `~`), each start with its marker, and the first starts with `.` |
| Query.SplitRun | src/main.cpp:282-283 | query characters only extend the step being collected |
| Query.SplitPathTail | src/main.cpp:281-301 | `.n1 ... .nk~attr` splits into the pending step, one `.` step per name and the final `~` step |
| Query.StepsOfPath | src/main.cpp:276-304 | a path query `n0.n1...~attr` splits into one `.` step per name and the `~attr` step |
| Query.FirstChild | src/main.cpp:317-319 | the index of the first child carrying the name: every earlier child has another name, and the length when there is none |
| Query.SearchPath | src/main.cpp:306-341 | name steps then an attribute step answer the attribute of the element reached through first matching children, or `Not Found!` when a name or the attribute is missing; never an error |
| Query.SearchNamesOnly | src/main.cpp:306-326 | name steps alone run past the last step with the out-of-bounds error when the chain resolves, and answer `Not Found!` when it breaks |
| Query.Ask | src/main.cpp:343-348 | query_HRML computes exactly `Answer(query, root)` |
| Query.AnswerPath | src/main.cpp:343-348 | a path query answers the attribute of the element its names lead to, from the root, or `Not Found!` |
| Query.AnswerOnEmptyRoot | src/main.cpp:343-348 | every query that parses is a soft miss on a root with no children |
| Pipeline.ScanAttrText | src/main.cpp:57-104 | the text ` k="v"...>` of well-written attributes lexes into their tokens and `>` |
| Pipeline.ScanMarkupText | src/main.cpp:57-104 | the text of a well-written unit lexes into that unit's tokens, however the content goes on |
| Pipeline.TokensOfMarkups | src/main.cpp:50-107 | the text of well-written units lexes into their tokens, in order |
| Pipeline.LoadMarkups | src/main.cpp:50-214 | lexing then parsing the text of well-written units gives one tag per unit before the tree is built |
| Pipeline.LoadTrees | src/main.cpp:50-274 | the text of well-written units rendering trees with no same-named child loads into a root holding exactly those trees, with one element per opening tag |
| Pipeline.LoadLabelled | src/main.cpp:50-274 | whatever content loads, the root is `_root_` and every element under it has a non-empty name and non-empty attribute keys and values |
| Pipeline.UnclosedLoadFails | src/main.cpp:238-256 | the text `<a><b></a>` fails to load with the end-of-tokens error |
| Pipeline.SampleLoad | src/main.cpp:50-274 | `<a x="1"><b y="2"></b></a>` loads into a root holding `a` (x = 1), which holds `b` (y = 2) |
| Pipeline.SampleNestedQuery | src/main.cpp:276-348 | `a.b~y` on that document answers `2` |
| Pipeline.SampleTopQuery | src/main.cpp:276-348 | `a~x` on that document answers `1` |
| Pipeline.SampleMissingChild | src/main.cpp:317-324 | `a.c~y` answers `Not Found!`: `a` has no child `c` |
| Pipeline.SampleMissingAttribute | src/main.cpp:328-332 | `a~y` answers `Not Found!`: `a` has no attribute `y` |
| Pipeline.SampleNamesOnly | src/main.cpp:306-307 | `a.b` fails with out-of-bounds: after resolving `b` no step is left |
| Pipeline.EmptyContent | src/main.cpp:261-274 | empty content loads into an empty root, and every well-formed query of it answers `Not Found!` |

## Left out

- `main` (src/main.cpp:352-394) reads the line count, lines and queries from
  standard input, joins the lines and prints debug output. That is console
  I/O. The model takes the content string (`Pipeline.Load`) and each query
  string (`Query.Answer`) as inputs.
- The `to_string` printers are diagnostic output only and are not modelled.
- The text of the `THROW` messages (file, line and function name) is not
  modelled. Each failure is an `Errors.Error` kind, and it is the first
  failure, as the exception would be.
- The iteration order of `unordered_map`: attributes are a Dafny `map`.
  `query_search`'s attribute loop returns at the key that matches, and keys
  are unique, so only lookup by key matters.
- Copying vectors by value into each helper is a cost detail with no
  behaviour and is not modelled.
- `parser_close` returns its token unchanged. It is the `>` case of
  `Parser.AttrList` rather than a member of its own.
- Parser helpers and `Builder.Visit` require the cursor to be inside the
  tokens. Every caller in the program guarantees this, since the cursor only
  moves through `next`, which fails before passing the end.
- Parser.TagsOf, Builder.TreeTags, Query.PathQuery and Pipeline.MarkupText are
  reference renderings of well-formed input. The round-trip lemmas cover
  those renderings and the names and values drawn from the label alphabet.
  Text with several spaces between attributes is accepted by the program but
  is not among the renderings.
- Builder.DocumentRoundTrip: covers trees in which no element has a child of
  its own name. With such nesting, the child loop stops early and
  `Builder.SameNamedChildFails` shows the failure it leads to.
