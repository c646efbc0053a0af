# Verification of the `crap-cms` template formatter and of its smaller algorithms

This project models, in Dafny, the Handlebars formatter behind `crap-cms fmt` (`src/fmt/`), and seven
smaller algorithms of the same program: the backward log reader, log pruning, the
authentication-strategy index with the boot-time checks that justify it, the field-tree walks at boot,
environment substitution in the configuration, source-version headers, and the two duration parsers.

Where the source moves a cursor or mutates a buffer, the model is a method with a loop or a class whose
methods change its fields (`Tokenizer`, `AttributeParser`, `Printer.Sheet`, `LogPrune.LogDir`,
`StrategyIndex.Registry`, `AuthChecks.AuthCheck`, `StartupChecks.HookCheck`, …). Each such method is
proved equal to a function of its inputs, and the properties are proved about those functions.
`dafny verify dfyconfig.toml` checks the whole project.

## How the formatter proof is laid out

- `Text`, `Tokens`: `str` helpers over ASCII characters, the token types.
- `Lexing` / `Tokenizer` / `AttributeParser`: what the tokenizer computes, as functions of the text still
  unread, and the cursor loops proved equal to them. A document is read as leading text and a list of
  units: a lexeme, the source it was read from, and the text up to the next lexeme.
- `Layout` / `Printer`: the same for the printer, with its page (`out`, `at_line_start`), depth and hug flag.
- `LexingProps`, `AttributeProps`, `Conservation`, `Failures`, `Trees`, `Cleanup`, `SourceKept`: properties of
  every input.
- `Neatness`, `Comments`: the clean-up of one piece of a page, and what it makes of the comments of any template.
- `Gaps`, `GapFix`, `Runs`, `NormalForm`, `PrintedForm`: printing a document yields, unit by unit, the
  source of another document, its normal form.
- `Lexemes`, `Relex`, `Retag`, `PlainTexts`, `Reread`: that source is read back as exactly the normal form.
- `Stable`: the normal form makes the printer take the same decisions, and printing it again changes at most
  the runs of spaces inside inline runs.
- `Needles`, `Polishing`, `Tidy`: the clean-up changes comments and raw bodies only, makes no new lexeme out of
  them, and commutes with printing.
- `Idempotence`: what the second pass makes of the first one's output. `Boundaries`: concrete templates at the
  edges of all this.
- `Readings`, `Spellings`, `Values`, `Blocks`, `Renderings`, `Limits`: what each form of template text means and when it
  stays on one line, written out in characters, names and widths, without the scanners and constants of the model.
  `Quotes`: templates whose formatted form no longer parses.

## Where the code and its documentation differ

The model follows the code.

- `src/fmt/mod.rs:20` promises `format(format(x)) == format(x)` for every `x`. That is false. The known classes of
  templates on which it fails, each with a template and its outputs, are:
  1. blank lines before leading text (`Idempotence.BlankLinesShrink`: two newlines and a word);
  2. a run of three or more spaces between words inside an inline run (`Boundaries.SpacesHalved`:
     `<p>a    b</p>` becomes `<p>a  b</p>`, then `<p>a b</p>`);
  3. a comment or a raw body in which the clean-up turns lines of spaces into empty lines and the next clean-up
     drops some of those (`Boundaries.CommentTwice`);
  4. a mustache whose trimmed content starts with `!`, which the next pass reads as a comment
     (`Boundaries.MustacheBecomesComment`: `{{ !x}}a`);
  5. a bare `{{{x}}}` among the attributes of a tag: the next pass cuts it again, and panics in the end
     (`Boundaries.TripleBracesBreak`: `<p {{{x}}}>`);
  6. an attribute value in single quotes that holds a double quote outside its mustaches and a single quote inside one
     (`Quotes.QuotesBreak`: `<p a='x"y{{t 'z'}}'>`): it is printed in double quotes and does not read back; here the
     next pass fails.

  `Idempotence.IdempotentIff` shows that for clean templates the first three are the only reasons: formatting
  twice is formatting once exactly when no blank line comes before leading text (`CleanLead`), no run of more
  than two spaces stands between words inside an inline run (`RunsCalm`), and no comment or raw body has, once
  newline runs are capped, two blank lines in a row (`LexemesCalm`). Its `CleanDoc` is a condition on the
  tokenized template: in every unit the attributes are written so that their printed form reads back
  (`CleanTag`, which the fifth and sixth classes fail), a trimmed mustache keeps its kind (`CleanMustache`, which the fourth
  fails), text that stays on one line holds no whitespace but spaces and line breaks (`CleanWords`), a `<` in text
  only opens a declaration such as the document type, closed on its line (`PlainText`), attribute values and
  mustaches hold no space before a line break and no three line breaks in a row, and raw bodies no vertical tab
  (`TidyLexeme`). Templates need not be well nested, may hold comments and raw elements of any shape, blocks,
  partials, stacked attributes and several lines of text. That no template outside `CleanDoc` is stable is not
  claimed.
- `src/fmt/mod.rs:22` promises that comments are preserved verbatim. The printer copies them, but the clean-up
  caps newlines and trims line ends inside them too (`Boundaries.CommentChanged`: `<!-- a`, a space, a line break,
  `-->` loses the space). For every template that formats, `Comments.FormatKeepsComments` shows that the output
  holds every comment, in order, polished: without whitespace before line breaks and line breaks beyond two in a
  row, and otherwise verbatim. By `Neatness.PolishedIff` and `Comments.AllPolishedIff` that is the comment itself
  exactly when it holds neither. `Neatness.CleanupIsLocal` is the reason: what stands around a comment makes no
  difference to what the clean-up does inside it.
- A bare `{{{x}}}` in an attribute list is read up to the first `}}` (`src/fmt/tokenizer.rs:418-424`), while
  `normalize_mustache` (`src/fmt/printer.rs:491-498`) cuts off three closing braces. A bare `{{{}}` therefore
  panics, and `Failures.FormatFails` shows that nothing else does. But `{{{x}}}`, which is ordinary Handlebars,
  silently loses its last character: `<p {{{x}}}>` formats to a `<p` tag with the attributes `{{{}}}` and `}`, and
  formatting that panics (`Boundaries.TripleBracesBreak`, `Boundaries.TripleFormats`). The exact condition is
  `SourceKept.AttrsKept`: of the mustaches in an attribute list that render, exactly those that open with three
  braces are damaged. All other text of a template, mustaches outside tags and comments included, is in the
  output, whitespace aside (`SourceKept.FormatKeepsSource`).
- The printer chooses the quotes of an attribute value by the characters the value holds (`src/fmt/printer.rs:470-480`),
  while the tokenizer skips the quotes inside its mustaches (`src/fmt/tokenizer.rs:470-500`). `Values.QuotesSurviveIff`
  gives the exact condition: a quoted value reads back as printed exactly when it does not hold a double quote outside
  its mustaches together with a single quote.
- `has_any_strategy` gates per-request work (`src/core/registry.rs:303-316`). Before validation it can hold while
  every bucket of the index is empty (`AuthChecks.NoSurfaceNoBucket`). The two agree exactly when no strategy is
  active or some active one lists a surface (`StrategyIndex.GateAgreesIff`); after validation they always do
  (`AuthChecks.AcceptedIndexIff`).
- The start-up check for locale columns (`src/hooks/startup_checks.rs:265-268`) guards declared names only. Columns
  generated for different locales can still coincide: exactly when one code is an underscore followed by the other
  code, or ends in two underscores followed by it (`StartupChecks.CoincideIff`, `StartupChecks.UnderscoreCollides`).

## Model

| member | source | states |
|---|---|---|
| Tokenizer.Tokenize | src/fmt/tokenizer.rs:72-186 | the token loop, text flushing included, reads the units and texts of `Lex`, or the same error |
| Tokenizer.SliceToken | src/fmt/tokenizer.rs:80-127 | the comment and mustache branches take the slice up to their own closer |
| Tokenizer.PushTag | src/fmt/tokenizer.rs:140-183 | a tag, or a whole raw element with its body and end tag, is pushed |
| Tokenizer.ReadHtmlTag | src/fmt/tokenizer.rs:270-357 | name, trimmed attribute text and end of a tag |
| Tokenizer.TagEnd | src/fmt/tokenizer.rs:299-355 | the attribute loop with its quote and mustache state is the tag scan |
| Tokenizer.FindClose | src/fmt/tokenizer.rs:200-224 | the quote-aware search loop |
| Tokenizer.FindRawClose | src/fmt/tokenizer.rs:370-389 | the case-insensitive search for the end tag of a raw element |
| Tokenizer.CommentEnd | src/fmt/tokenizer.rs:227-236 | the end of either form of Handlebars comment |
| LexingProps.FindCloseIsFirst | src/fmt/tokenizer.rs:200-224 | the result is the first needle at which an independent quote automaton is closed, and there is none when it fails |
| LexingProps.TagScanIsFirst | src/fmt/tokenizer.rs:299-355 | a start tag ends at the first `>` or `/>` at which an independent quote and mustache automaton, run over the characters, is closed, and nowhere if there is none |
| LexingProps.RawCloseFound | src/fmt/tokenizer.rs:370-389 | the end tag found is the first one of that name, in any case, and there is none when none is found |
| LexingProps.LexTiles | src/fmt/tokenizer.rs:72-186 | the lexemes and texts tile the source without gap or overlap, every lexeme spells its token, a raw element is a start tag, its body and its end tag |
| LexingProps.TokensWellFormed | src/fmt/tokenizer.rs:72-186 | no two text tokens are adjacent, raw text stands between a raw start tag and its own end tag, and no mustache is too short for the slices of `normalize_mustache` |
| Readings.MustacheRead | src/fmt/tokenizer.rs:104-113 | a mustache without quotes and inner braces is read whole, and `#>`, `#`, `/` with another slash, `/` alone and `else` after any whitespace make it a partial opener, block opener, partial closer, block closer and separator; anything else is an expression |
| Readings.KindOf | src/fmt/tokenizer.rs:238-266 | the same for any content, quotes included, once its end is known |
| Readings.CommentRead | src/fmt/tokenizer.rs:227-236 | a long comment ends at its first `--}}`, a short one at its first `}}`, an HTML comment at its first `-->` |
| Readings.DeclarationPassed | src/fmt/tokenizer.rs:129-138 | a declaration or processing instruction is passed over up to its first `>` |
| Readings.CharacterPassed | src/fmt/tokenizer.rs:78-186 | a character is text when it opens no mustache and is no `<` before a letter, a slash or a closed declaration |
| Readings.EndTagRead | src/fmt/tokenizer.rs:270-297 | an end tag in any case, with anything but `>` behind its name, is the name in lower case |
| Readings.StartTagRead | src/fmt/tokenizer.rs:270-357 | a start tag in any case is its name in lower case, its attribute text without trailing whitespace, and its self-closing mark |
| Readings.RawElementRead | src/fmt/tokenizer.rs:140-183 | `script`, `style`, `pre` and `textarea` in any case keep their body verbatim up to the first end tag of that name in any case, followed by `>` or whitespace |
| Readings.UnclosedFails | src/fmt/tokenizer.rs:78-127 | a comment or mustache whose closer stands nowhere, for mustaches nowhere outside quotes, is an error and not text |
| Readings.NamelessFails | src/fmt/tokenizer.rs:281-283 | `</` without a name behind it is an error |
| Readings.UnclosedTagFails | src/fmt/tokenizer.rs:270-357 | so is a tag whose end stands nowhere, for start tags nowhere outside quotes and mustaches |
| Readings.UnclosedElementFails | src/fmt/tokenizer.rs:161-174 | and an element kept verbatim whose end tag stands nowhere |
| AttributeParser.ParseAttributes | src/fmt/tokenizer.rs:395-468 | the attribute loop parses the list, or fails as its first bad attribute |
| AttributeParser.FindAttrValueQuote | src/fmt/tokenizer.rs:470-500 | the closing quote outside mustache regions |
| AttributeParser.ConsumeHbsBlockAttr | src/fmt/tokenizer.rs:508-543 | the end of an embedded block |
| AttributeProps.BlockEndsBalanced | src/fmt/tokenizer.rs:508-543 | an embedded block ends just past the first `{{/…}}` at which opens and closes balance, and fails only when there is none |
| Blocks.BlockRead | src/fmt/tokenizer.rs:508-543 | an embedded block, opened with `#` or `^` and holding text, mustaches and nested blocks to any depth, is one attribute up to its own closing mustache, whatever follows |
| AttributeProps.ParseUndoesPrint | src/fmt/tokenizer.rs:395-500 | parsing the printed attributes, under any whitespace layout, gives back the list with boolean attributes canonical; rendering and layout are then unchanged |
| AttributeProps.SimpleIsClean | src/fmt/tokenizer.rs:395-500 | plain attributes with lower-case names and values without mustaches and with one kind of quote at most are within the round trip |
| AttributeProps.ReadsBack | src/fmt/printer.rs:449-482 | one printed attribute followed by whitespace reads back as itself |
| Spellings.ReadsUnquoted | src/fmt/tokenizer.rs:430-461 | an unquoted value ends at the first whitespace behind it |
| Spellings.SpellingsParse | src/fmt/tokenizer.rs:395-468 | names, unquoted values and quoted values denote their attributes, in order and with names in lower case, under any whitespace layout |
| Spellings.QuotesMakeNoDifference | src/fmt/tokenizer.rs:395-468 | putting the unquoted values of a list in quotes and laying it out anew changes neither its attributes nor the rendered tag |
| Values.QuotedValueRead | src/fmt/tokenizer.rs:470-500 | a quoted value ends at the first such quote outside its mustaches, whatever quotes and nested braces those hold |
| Values.PrintedIn | src/fmt/printer.rs:470-480 | a value that is kept is printed in single quotes exactly when it holds double ones and no single ones |
| Values.QuotesSurviveIff | src/fmt/printer.rs:470-480 | a value read from quotes is printed so that it reads back exactly when it does not hold a double quote outside its mustaches together with a single quote |
| Quotes.QuotesBreak | src/fmt/mod.rs:20 | the counterexamples: `<p a='x"y{{t 'z'}}'>` formats for all words x, y and z, and its output no longer formats |
| Spellings.BadListFails | src/fmt/tokenizer.rs:423-461 | a list fails at an attribute without a name, at an equals sign that ends it and at a quote that stays open |
| Renderings.ValueDroppedIff | src/fmt/printer.rs:449-482 | a value is dropped exactly when the attribute is one of the listed boolean ones and the value is empty or repeats the name |
| Renderings.TagPrinted | src/fmt/tokenizer.rs:51-65 | a start tag is printed with a slash exactly when it closes itself or is one of the listed void elements |
| Printer.Format | src/fmt/format.rs:14-17 | formatting is tokenizing and printing |
| Printer.Print | src/fmt/printer.rs:49-155 | the token loop with `depth`, `at_line_start` and `hug_next_close` is the printer function |
| Printer.PrintOne | src/fmt/printer.rs:68-150 | one token outside an inline run: page, depth and hug flag |
| Printer.TryRenderInline | src/fmt/printer.rs:165-191 | the look-ahead decision and the line it renders |
| Limits.InlineIff | src/fmt/printer.rs:165-191 | an element is put on one line exactly when it has at most one attribute and no embedded block, nothing in its body opens a level, breaks the line or is an `{{else}}`, and the line takes at most 100 columns with its indent; the line is opener, body and end tag |
| Printer.FindMatchingCloser | src/fmt/printer.rs:241-291 | the stack walk for the closer |
| Printer.BodyIsSingleLogicalLine | src/fmt/printer.rs:342-374 | accepts exactly the bodies of single-line tokens |
| Printer.RenderBody | src/fmt/printer.rs:298-340 | the body of a run, or the first failing rendering |
| Printer.Sheet.EmitText | src/fmt/printer.rs:543-607 | the line loop of a text token |
| Printer.Sheet.EmitRawText | src/fmt/printer.rs:526-541 | what is kept of a raw body, and whether the end tag hugs it |
| Printer.Sheet.EmitStartTag | src/fmt/printer.rs:409-447 | a start tag on one line or stacked |
| Printer.Sheet.EnsureLineIndent | src/fmt/printer.rs:609-618 | a fresh line and its indent |
| Printer.Sheet.Newline | src/fmt/printer.rs:620-625 | a newline unless there is one |
| Printer.PostProcess | src/fmt/printer.rs:636-661 | the clean-up loops |
| Conservation.PrintConserves | src/fmt/printer.rs:49-155 | for every token stream printing fails exactly as the first failing rendering, and otherwise prints the renderings of all tokens in order, none lost, doubled or moved, up to whitespace; what a rendering keeps of its source is in `SourceKept` |
| Conservation.RunConserves | src/fmt/printer.rs:165-340 | an inline run replaces exactly the tokens it consumes |
| Conservation.CloserIsEndTag | src/fmt/printer.rs:241-291 | the closer found closes the level the search started for |
| Conservation.CloserOfOpener | src/fmt/printer.rs:241-331 | the closer that the search finds for an element is the end tag of the element's name, so the `unreachable!()` is not reached |
| Conservation.ErasePostProcess | src/fmt/printer.rs:636-661 | clean-up changes whitespace only |
| Failures.FormatFails | src/fmt/printer.rs:449-498 | formatting succeeds exactly when the source tokenizes and every attribute list parses and holds no bare `{{{}}`; it panics exactly when the first list at fault holds one |
| Failures.ListRenders | src/fmt/tokenizer.rs:395-468 | parsed attributes render, except `{{{}}`, which panics |
| SourceKept.TokensKept | src/fmt/tokenizer.rs:72-186 | every token of a template that is not a tag, mustaches and comments included, renders as its own source, whitespace aside |
| SourceKept.FormatKeepsSource | src/fmt/format.rs:14-17 | the output is the template with its tags in their renderings, whitespace aside |
| SourceKept.AttrsKept | src/fmt/tokenizer.rs:418-424 | a mustache in an attribute list that renders keeps its characters exactly when it does not open with three braces |
| Boundaries.TripleFormats | src/fmt/printer.rs:491-498 | `<p {{{wc}}}>` formats for every word, and the output has lost its last character `c` |
| Boundaries.TripleBracesBreak | src/fmt/printer.rs:491-498 | the counterexamples: `<p {{{}}>` panics, and `<p {{{x}}}>` formats to a page that panics when it is formatted |
| Trees.PairIff | src/fmt/printer.rs:241-291 | an element is closed by its own end tag, a block by a block closer and a partial by a partial closer, and nothing else opens or closes a level |
| Trees.WellNestedIff | src/fmt/printer.rs:241-291 | a stream is well nested exactly when it is the flattening of a tree |
| Trees.WellNestedPrints | src/fmt/printer.rs:49-151 | for every well-nested stream the flat printer equals the recursive tree printer, which knows levels and no counter, and ends at depth 0 |
| Trees.PrintsForest | src/fmt/printer.rs:49-151 | at every depth, printing a forest leaves the depth as it was and `{{else}}` stands at the level of its branch |
| Trees.BranchRun | src/fmt/printer.rs:165-191 | an accepted inline run is one whole branch, decided on the branch alone |
| Trees.CloserIsPartner | src/fmt/printer.rs:241-291 | the closer found is the structural partner, unless an `{{else}}` stands at its level |
| Cleanup.FixedIffSettled | src/fmt/printer.rs:636-661 | clean-up leaves a text alone exactly when it has one final newline, no whitespace at a line end and no three newlines in a row |
| Cleanup.OutputHasNoTrail | src/fmt/printer.rs:636-661 | no line of the output ends in whitespace |
| Cleanup.OnePassIff | src/fmt/printer.rs:636-661 | the exact condition under which one pass suffices |
| Cleanup.OnePassEnough | src/fmt/printer.rs:636-661 | in particular one pass suffices on every text in which no line is non-empty but blank |
| Cleanup.ThirdPassIdle | src/fmt/printer.rs:636-661 | the pass stabilises by the second application on every text |
| Neatness.CleanupIsLocal | src/fmt/printer.rs:636-661 | clean-up acts on a piece of the page that starts and ends in non-space characters by itself, whatever stands around it |
| Neatness.PolishedIff | src/fmt/printer.rs:636-661 | clean-up leaves such a piece alone exactly when it holds no whitespace before a line break and no three line breaks in a row |
| Neatness.PolishedTwiceIff | src/fmt/printer.rs:636-661 | the exact condition under which cleaning such a piece twice is cleaning it once |
| Comments.PrintKeepsComments | src/fmt/mod.rs:22 | for every token stream, the output holds its comments in order, each one as the clean-up leaves it |
| Comments.FormatKeepsComments | src/fmt/mod.rs:22 | the same for every template that formats |
| Comments.AllPolishedIff | src/fmt/mod.rs:22 | that is verbatim exactly when no comment holds whitespace before a line break or three line breaks in a row |
| Boundaries.CommentChanged | src/fmt/mod.rs:22 | the counterexample: a space before a line break inside a comment is dropped |
| Gaps.GapPrinted | src/fmt/printer.rs:543-607 | text after a lexeme is printed as its lay-out says: a glued piece, rows, indent |
| GapFix.GapFixed | src/fmt/printer.rs:543-607 | laying out a printed gap gives back its lay-out |
| GapFix.GapCollapses | src/fmt/printer.rs:500-506 | an inline run makes the same of a printed gap as of the text it came from, whatever its runs of spaces |
| GapFix.CollapseTwiceIff | src/fmt/printer.rs:500-506 | collapsing twice is collapsing once exactly when no run of spaces is longer than two |
| Runs.TryFound | src/fmt/printer.rs:165-191 | where a run starts in the document, the look-ahead over tokens renders the same line and consumes the same lexemes |
| Runs.TryMissed | src/fmt/printer.rs:165-191 | where none starts, the look-ahead finds none |
| PrintedForm.PrintsNormal | src/fmt/printer.rs:49-155 | printing the units of a document appends the source of its normal form |
| Retag.RawBodyFixed | src/fmt/printer.rs:82-120 | what is printed for a raw body is ended by the same end tag, keeps the lines of the body and prints as itself from then on |
| Retag.GapTwice | src/fmt/printer.rs:526-541 | a printed raw body re-emits identically |
| Retag.StartRelexes | src/fmt/tokenizer.rs:270-357 | a printed start tag is read back whole, with its attributes and its self-closing mark |
| Relex.MustacheRelexes | src/fmt/tokenizer.rs:238-268 | a normalised mustache is read back with the same kind, and normalises to itself |
| Lexemes.LexemeRead | src/fmt/tokenizer.rs:72-186 | what every lexeme read from a source satisfies, independently of that source |
| PlainTexts.LexGap | src/fmt/tokenizer.rs:72-186 | text with no `{` and with `<` only in declarations closed on their line is passed over as text, whatever follows |
| PlainTexts.DeclarationPlain | src/fmt/tokenizer.rs:129-138 | a declaration on one line, such as the document type, is such text |
| Reread.UnitsReread | src/fmt/tokenizer.rs:72-186 | the source of readable units is read back as those units |
| Stable.LikeTry | src/fmt/printer.rs:165-191 | documents with alike lexemes, and with texts that collapse alike up to the next opener, get the same inline decision |
| Stable.NormalHere | src/fmt/printer.rs:165-191 | where no inline run starts in a clean document, the printed texts up to the next opener collapse as the texts they came from, so no run starts there at the next pass |
| Stable.RunTryAgain | src/fmt/printer.rs:165-191 | an inline run that was accepted is accepted again at the next pass, with the same lexemes |
| Stable.NormalLike | src/fmt/printer.rs:165-191 | a clean document and its normal form have alike lexemes and the same texts on one line |
| Stable.NormalTwice | src/fmt/printer.rs:49-155 | printing the normal form again keeps its lexemes, makes no text longer, and changes none exactly when no run of more than two spaces stands inside an inline run |
| Needles.HtmlCommentPolished | src/fmt/tokenizer.rs:115-127 | a comment that the clean-up has passed over is still one comment, closed at its own end |
| Needles.SealedPolished | src/fmt/tokenizer.rs:370-389 | no end tag appears in a raw body that the clean-up has passed over, if it holds no vertical tab |
| Polishing.RawGapPolished | src/fmt/printer.rs:526-541 | laying out a cleaned raw body is cleaning its lay-out |
| Polishing.PolishCommutes | src/fmt/printer.rs:49-155 | printing a cleaned document is cleaning the printed document |
| Tidy.NormalOk | src/fmt/printer.rs:636-661 | every unit of the normal form is read back as itself, also once the clean-up has passed over it |
| Tidy.PagePolished | src/fmt/printer.rs:636-661 | the clean-up of a printed page is the clean-up of its lexemes one by one |
| Idempotence.CleanFormats | src/fmt/mod.rs:20 | a clean template formats to the source of its cleaned normal form, which is read back as exactly that document |
| Idempotence.IdempotentIff | src/fmt/mod.rs:20 | on clean templates `format(format(s)) == format(s)` if and only if no blank line comes before leading text, no run of more than two spaces stands inside an inline run, and one clean-up settles every comment and raw body |
| Idempotence.PrintedFormats | src/fmt/mod.rs:20 | where no run of more than two spaces stands inside an inline run, the units printed by the second pass are final: behind any plain leading text they are read back and printed unchanged |
| Idempotence.ThreePassesSettle | src/fmt/mod.rs:20 | whatever blank lines come first and whatever comments and raw bodies hold, a clean template without runs of more than two spaces inside inline runs is stable after three passes |
| Idempotence.BlankLinesShrink | src/fmt/printer.rs:574-583 | the counterexample: the text of two newlines and a word needs two passes |
| Boundaries.ParagraphFormats | src/fmt/printer.rs:500-506 | a paragraph of one line of words that fits on the line is printed on one line, its runs of spaces halved |
| Limits.WideParagraphFormats | src/fmt/printer.rs:165-191 | a paragraph of one line whose words take more than 93 columns is printed on three lines |
| Renderings.WordsInline | src/fmt/printer.rs:500-506 | inside an inline run, whitespace around words is dropped and a run of n spaces between them becomes (n + 1) / 2 |
| Boundaries.SpacesHalved | src/fmt/printer.rs:500-506 | the counterexample: four spaces between two words become two, and one at the next pass |
| Boundaries.CommentFormats | src/fmt/mod.rs:22 | a comment alone in a template is printed as the clean-up leaves it |
| Boundaries.CommentTwice | src/fmt/printer.rs:636-661 | the counterexample: two lines of spaces inside a comment need two passes |
| Boundaries.MustacheBecomesComment | src/fmt/printer.rs:484-498 | the counterexample: trimming turns the expression `{{ !x}}` into a comment, and the next pass breaks the line behind it |
| LogTail.TailLines | src/commands/logs.rs:115-175 | for every content, every `n` and every positive chunk size the backward reader returns the last `n` lines of the whole content |
| LogTail.LinesMean | src/commands/logs.rs:162-175 | what the lines of a text are: pieces ended by a line feed, or by a return and a line feed, and a last one if it is not empty |
| LogTail.CollectTail | src/commands/logs.rs:130-160 | the chunks always make up a suffix of the file, the whole of it or one with more than `n` newlines |
| LogTail.SuffixSuffices | src/commands/logs.rs:152-175 | nothing before a suffix with more than `n` newlines matters |
| LogTail.TailIsEnd | src/commands/logs.rs:115-175 | on newline-ended lines the result is the end of the file from a line start, with `n` lines or all of them |
| LogPrune.LogDir.Prune | src/commands/logs.rs:56-78 | exactly the log files with `max_files` newer ones leave, except those whose removal fails, and the result counts them |
| LogPrune.LogDir.FindLatest | src/commands/logs.rs:252-268 | the newest log file |
| LogPrune.BeforeMeans | src/commands/logs.rs:63-64 | the order of names: the first character that differs decides, and a name comes before its continuations |
| LogPrune.PruneKeeps | src/commands/logs.rs:56-78 | the `max_files` newest names stay, exactly those when no removal fails, and the count is of the names that disappeared |
| LogPrune.PruneKeepsLatest | src/commands/logs.rs:56-78 | with room for one file, pruning does not change which file is the newest |
| StrategyIndex.Registry.RegisterCollection | src/core/registry.rs:123-129 | a definition replaces one with the same slug |
| StrategyIndex.Registry.RebuildStrategyIndex | src/core/registry.rs:257-301 | every bucket holds, collection by collection and in method order, exactly what a scan finds |
| StrategyIndex.Registry.Snapshot | src/core/registry.rs:242-249 | a copy with a correct index, the shared registry untouched |
| StrategyIndex.Registry.HasAnyStrategy | src/core/registry.rs:318-327 | the short-circuiting scan |
| StrategyIndex.BucketIsScan | src/core/registry.rs:257-301 | a bucket holds each entry as often as the scan finds it, for a surface or a lower-cased header |
| StrategyIndex.AlwaysIff | src/core/registry.rs:276-301 | an entry is in the always-active bucket of a surface exactly when some enabled collection has an always-active strategy of that name and script for that surface |
| StrategyIndex.HeaderIff | src/core/registry.rs:276-301 | an entry is in the bucket of a header and surface exactly when some enabled collection has such a strategy whose header is that one in lower case |
| StrategyIndex.HeadersLower | src/core/registry.rs:287-297 | every header of the index is in lower case |
| Text.LowerAt | src/core/registry.rs:287-297 | lower-casing a header turns capital letters into small ones and keeps every other character |
| StrategyIndex.IndexIsUnique | src/core/registry.rs:251-257 | rebuilding is idempotent: any two rebuilt indexes agree whatever order the collections were visited in |
| StrategyIndex.NonEmptyIff | src/core/registry.rs:257-301 | some bucket is not empty exactly when some active method is a strategy that lists a surface |
| StrategyIndex.GateAgreesIff | src/core/registry.rs:303-327 | `has_any_strategy` agrees with that exactly when no strategy is active or some active one lists a surface |
| AuthChecks.ValidateAuthMethods | src/hooks/startup_checks.rs:115-144 | accepts exactly the registries whose enabled configurations are acceptable, and reports for each collection exactly its errors, in order |
| AuthChecks.AuthCheck.CheckOneCollectionMethods | src/hooks/startup_checks.rs:150-197 | the errors of one collection, in order |
| AuthChecks.NoErrorsIff | src/hooks/startup_checks.rs:150-244 | what an acceptable configuration is, in terms of its methods |
| AuthChecks.ErrorIff | src/hooks/startup_checks.rs:150-244 | which errors a collection gets, each kind in terms of its methods |
| AuthChecks.AcceptedIndexIff | src/core/registry.rs:303-327 | once validation accepts, some strategy is active exactly when some bucket is not empty |
| AuthChecks.NoSurfaceNoBucket | src/core/registry.rs:303-327 | without validation that fails: an active strategy that lists no surface and an index of empty buckets |
| FieldTrees.WalkIff | src/hooks/startup_checks.rs:355-400 | the walk visits exactly the fields at some path of sub-fields, blocks and tabs, each reported at that path |
| StartupChecks.ValidateHookReferences | src/hooks/startup_checks.rs:35-76 | one error for each listed reference that does not resolve, in the order of the walk |
| StartupChecks.HookCheck.CheckFieldList | src/hooks/startup_checks.rs:355-400 | the recursive walk over a field list |
| StartupChecks.MissingIff | src/hooks/startup_checks.rs:35-97 | the errors are exactly the references that do not resolve, under their kind and at their place: eight hook lists and five access rules of every definition, four hook lists and three access rules of every field at any depth |
| StartupChecks.HooksAcceptedIff | src/hooks/startup_checks.rs:35-97 | startup accepts exactly when every hook list and access rule of every definition, and of every field at any depth, resolves |
| StartupChecks.ValidateLocaleFieldCollisions | src/hooks/startup_checks.rs:269-306 | one collision for each declared name and locale that clash |
| StartupChecks.CollisionIff | src/hooks/startup_checks.rs:269-334 | the errors are exactly the declared names, at any depth, that are a non-empty name, two underscores and a locale code |
| StartupChecks.LocalesAcceptedIff | src/hooks/startup_checks.rs:269-334 | startup accepts exactly when no declared name is a non-empty name with a locale suffix |
| StartupChecks.CoincideIff | src/hooks/startup_checks.rs:265-268 | columns of two locales coincide for some fields exactly when one code is an underscore followed by the other code, or ends in two underscores followed by it |
| StartupChecks.ColumnsDistinctIff | src/hooks/startup_checks.rs:265-268 | all generated columns differ exactly when no two codes are related in that way |
| StartupChecks.ColumnsDistinct | src/hooks/startup_checks.rs:265-268 | in particular, with plain locale codes columns of different fields or locales differ |
| StartupChecks.ColumnsAreNew | src/hooks/startup_checks.rs:265-268 | once startup accepts, no generated column is a declared field |
| StartupChecks.UnderscoreCollides | src/hooks/startup_checks.rs:265-268 | the counterexamples for either relation |
| EnvSubst.SubstituteEnvVars | src/config/env.rs:39-71 | the substitution loop yields the parts' values in order, or the first failure |
| EnvSubst.SubstituteInValue | src/config/env.rs:14-33 | the tree walk |
| EnvSubst.FindHoleIsLeftmost | src/config/env.rs:9-10 | the placeholder found is the leftmost one |
| EnvSubst.PartsTile | src/config/env.rs:39-71 | verbatim gaps and placeholders tile the string |
| EnvSubst.FailsIff | src/config/env.rs:51-66 | substitution fails exactly when a placeholder without a fallback names an unset variable |
| EnvSubst.FallbackMeans | src/config/env.rs:48-55 | the first placeholder of any string, if it has a fallback, becomes the variable if that is set and not empty, and the fallback otherwise; text before it is kept, its value is not read again, and the rest is substituted by itself |
| EnvSubst.NameMeans | src/config/env.rs:56-63 | without a fallback it becomes the variable, or the substitution fails by its name |
| EnvSubst.NothingToSubstitute | src/config/env.rs:39-71 | a string without placeholders stays as it is |
| EnvSubst.FallbackAlone | src/config/env.rs:48-55 | the two cases for `${name:-fallback}` alone |
| EnvSubst.NameAlone | src/config/env.rs:56-63 | the two cases for `${name}` alone |
| EnvSubst.TreeKept | src/config/env.rs:14-33 | a substituted tree has the same paths, keys and other leaves, and its strings are the substituted ones |
| EnvSubst.TreeFailsIff | src/config/env.rs:14-33 | the tree substitutes exactly when every string in it does |
| SourceHeader.PrependSourceHeader | src/scaffold/source_header.rs:57-66 | the header in front of the content, or the content alone |
| SourceHeader.HeaderText | src/scaffold/source_header.rs:37-54 | the header of each file type, as it stands in the file |
| SourceHeader.ParseSourceVersion | src/scaffold/source_header.rs:70-86 | the first version on the first five lines |
| SourceHeader.ParsedIff | src/scaffold/source_header.rs:70-86 | a version is read exactly when it is the one of the first of the first five lines that has one |
| SourceHeader.LineMeans | src/scaffold/source_header.rs:70-86 | the version of a line is what follows its first marker, whitespace and a comment closer behind it dropped |
| SourceHeader.RoundTripIff | src/scaffold/source_header.rs:37-86 | a prepended version reads back whatever the content, exactly when the comment syntax has a closer or the version does not end in one |
| SourceHeader.NewHeaderWins | src/scaffold/source_header.rs:57-86 | a new header shadows an older one |
| SourceHeader.OtherTypesKept | src/scaffold/source_header.rs:37-60 | files of other types, and only those, are left alone |
| Durations.DurationMeans | src/config/parsing.rs:7-31 | a duration is accepted exactly when it writes a number of seconds below 2^64, and the result is that number |
| Durations.DecimalRead | src/config/parsing.rs:7-31 | a decimal number with leading zeros, alone or with a unit, is read by either parser as that many seconds, up to the largest unsigned or signed 64-bit number |
| Durations.AgreeIff | src/commands/trash.rs:141-157 | the parsers agree exactly on inputs that are neither negative nor seconds with the unit written out |
| Durations.AgreeWithoutMinus | src/commands/trash.rs:141-157 | in particular on inputs without a minus sign that do not end in `s`, up to the signed maximum |

## Left out

- Characters beyond ASCII: the scanners slice while they advance byte by byte, so the model is over ASCII strings; log files are read as characters, and the lossy decoding of a cut character in a discarded first line is not modelled.
- Idempotence.IdempotentIff: says nothing about templates outside `CleanDoc` (a `{` in text or a `<` that opens no closed declaration, a tab in one-line text, attributes and mustaches that do not read back or hold whitespace that the clean-up changes, a vertical tab in a raw body); two classes outside that fail are in `Boundaries`.
- AttributeProps.ParseUndoesPrint: bare mustaches that the first `}}` cuts short, and embedded blocks that are not already compact, are excluded by `CleanAttr`.
- Text of error messages: an error is a short text or a constructor, with the name it is about; line and column numbers are not modelled.
- StrategyIndex.Registry.RebuildStrategyIndex: the order of entries of different collections within a bucket is the map's iteration order and is left open.
- LogPrune.LogDir.Prune: the directory is a list of distinct names; directories that happen to carry a log name, and failures to list, are not modelled.
- EnvSubst.SubstituteInValue: builds a new tree where the source rewrites nodes in place, so the partly rewritten tree of a failing call is not modelled.
- SourceHeader.SourceHeaderFor: takes the extension of the path; how a path yields it is not modelled.
- AuthChecks.ValidateAuthMethods: the warnings about always-active strategies are only logged and are not modelled.
- Warnings about field names in `register_collection`, job, global and rich-text registration: they would only add easy members.
- File and terminal I/O of `crap-cms fmt` and `crap-cms logs`, following a log, Lua resolution of hooks, the environment itself: parameters or absent.
- Servers, middleware, database, scheduler, rate limits, prompts and tables: plumbing over libraries.
