/** What `src/fmt/printer.rs` computes, as functions of the page printed so far and the
    tokens still to print. The mutating printer is in module Printer and proved equal to these. */
module Layout {
  import opened Text
  import opened Tokens
  import L = Lexing

  const LINE_LIMIT := 100

  const BOOLEAN_ATTRS: seq<string> := [
    "checked", "disabled", "hidden", "multiple", "readonly", "required", "selected", "autofocus",
    "novalidate", "open", "default", "reversed", "ismap", "loop", "muted", "controls", "autoplay",
    "playsinline", "async", "defer", "formnovalidate"
  ]

  // ----- the page -----

  /** The output so far, and whether the next character starts a line. */
  datatype Page = Page(out: string, bol: bool)

  function Indent(d: nat): (r: string)
    ensures |r| == 2 * d
  {
    if d == 0 then [] else "  " + Indent(d - 1)
  }

  function EnsureIndent(p: Page, d: nat): Page {
    Page((if p.bol then p.out else p.out + "\n") + Indent(d), false)
  }

  function Newline(p: Page): Page {
    Page(if EndsWith(p.out, "\n") then p.out else p.out + "\n", true)
  }

  function Push(p: Page, s: string): Page { Page(p.out + s, p.bol) }

  // ----- canonical renderings -----

  /** Trims inside the braces. The slices panic when the mustache is shorter than its braces. */
  function NormalizeMustache(raw: string): Outcome<string> {
    if "{{!" <= raw then Ok(raw)
    else if "{{{" <= raw then
      if |raw| < 6 then Panic else Ok("{{{" + Trim(raw[3..|raw| - 3]) + "}}}")
    else
      if |raw| < 4 then Panic else Ok("{{" + Trim(raw[2..|raw| - 2]) + "}}")
  }

  function RenderPlain(name: string, value: Option<string>): string {
    if name in BOOLEAN_ATTRS && (value.None? || value.value == [] || Lower(value.value) == Lower(name)) then name
    else
      match value
      case None => name
      case Some(v) =>
        if '"' in v && '\'' !in v then name + "='" + v + "'" else name + "=\"" + v + "\""
  }

  function RenderAttr(a: Attr): Outcome<string> {
    match a
    case Plain(name, value) => Ok(RenderPlain(name, value))
    case ExprAttr(raw) => NormalizeMustache(raw)
    case BlockAttr(raw) => NormalizeMustache(raw)
  }

  function RenderAttrs(attrs: seq<Attr>): (r: Outcome<seq<string>>)
    ensures r.Ok? ==> |r.value| == |attrs|
  {
    if attrs == [] then Ok([])
    else
      var first :- RenderAttr(attrs[0]);
      var rest :- RenderAttrs(attrs[1..]);
      Ok([first] + rest)
  }

  function Spaced(rs: seq<string>): string {
    if rs == [] then [] else " " + rs[0] + Spaced(rs[1..])
  }

  function Stacked(rs: seq<string>, d: nat): string {
    if rs == [] then [] else "\n" + Indent(d) + rs[0] + Stacked(rs[1..], d)
  }

  /** At most one attribute, and no embedded block: the tag stays on one line. */
  predicate OneLine(attrs: seq<Attr>) {
    |attrs| <= 1 && forall a <- attrs :: !a.BlockAttr?
  }

  predicate SlashClosed(name: string, selfClosed: bool) { selfClosed || IsVoid(name) }

  /** A start tag on one line, as `render_self_or_void_inline` writes it. */
  function InlineTag(name: string, rs: seq<string>, selfClosed: bool): string {
    "<" + name + Spaced(rs) + (if SlashClosed(name, selfClosed) then " />" else ">")
  }

  function EndTag(name: string): string { "</" + name + ">" }

  /** A start tag as `emit_start_tag` lays it out at depth `d`. */
  function TagText(name: string, attrs: seq<Attr>, rs: seq<string>, selfClosed: bool, d: nat): string {
    if OneLine(attrs) then InlineTag(name, rs, selfClosed)
    else "<" + name + Stacked(rs, d + 1) + "\n" + Indent(d) + (if SlashClosed(name, selfClosed) then "/>" else ">")
  }

  /** The rendering of one token on one line, text and raw text verbatim. */
  function TokenText(t: Token): Outcome<string> {
    match t
    case HtmlStart(name, attrsRaw, selfClosed) =>
      var attrs :- L.ParseAttributes(attrsRaw);
      var rs :- RenderAttrs(attrs);
      Ok(InlineTag(name, rs, selfClosed))
    case HtmlEnd(name) => Ok(EndTag(name))
    case HtmlComment(raw) => Ok(raw)
    case HbsComment(raw) => Ok(raw)
    case Text(s) => Ok(s)
    case RawText(s) => Ok(s)
    case _ => NormalizeMustache(t.raw)
  }

  // ----- text -----

  function NewlinesToSpaces(s: string): (r: string)
    ensures |r| == |s|
  {
    if s == [] then [] else [if s[0] == '\n' then ' ' else s[0]] + NewlinesToSpaces(s[1..])
  }

  /** `replace("  ", " ")` */
  function HalveSpaces(s: string): string {
    if s == [] then []
    else if "  " <= s then " " + HalveSpaces(s[2..])
    else [s[0]] + HalveSpaces(s[1..])
  }

  function TrimLeftBlanks(s: string): string { if s != [] && s[0] == ' ' then TrimLeftBlanks(s[1..]) else s }

  function TrimRightBlanks(s: string): string {
    if s != [] && s[|s| - 1] == ' ' then TrimRightBlanks(s[..|s| - 1]) else s
  }

  function CollapseInline(s: string): string {
    TrimRightBlanks(TrimLeftBlanks(HalveSpaces(NewlinesToSpaces(s))))
  }

  /** A blank line, unless there is one already. */
  function BlankLine(p: Page): Page {
    if EndsWith(p.out, "\n\n") then p else Page((if p.bol then p.out else p.out + "\n") + "\n", true)
  }

  /** The lines of a text token; `first` and the end of `ls` mark the first and last line. */
  function PutLines(p: Page, ls: seq<string>, first: bool, endsNl: bool, d: nat): Page
    decreases |ls|
  {
    if ls == [] then p
    else
      var t := Trim(ls[0]);
      var last := |ls| == 1;
      var p' :=
        if t == [] then if !first && !last then BlankLine(p) else p
        else
          var line := (if p.bol then p.out + Indent(d) else p.out) + t;
          if !last || endsNl then Page(line + "\n", true) else Page(line, false);
      PutLines(p', ls[1..], false, endsNl, d)
  }

  function PutText(p: Page, s: string, d: nat): Page {
    if Trim(s) == [] then
      if CountNewlines(s) >= 2 && !EndsWith(p.out, "\n\n") && p.out != [] then
        Page((if EndsWith(p.out, "\n") then p.out else p.out + "\n") + "\n", true)
      else p
    else PutLines(p, SplitLines(s), true, EndsWith(s, "\n"), d)
  }

  // ----- raw text -----

  function LastNewline(s: string): (r: Option<nat>)
    ensures r.Some? ==> r.value < |s|
  {
    if s == [] then None
    else if s[|s| - 1] == '\n' then Some(|s| - 1)
    else LastNewline(s[..|s| - 1])
  }

  /** A raw body without one leading newline and without the indent of the end tag. */
  function RawBody(s: string): string {
    var body := if "\n" <= s then s[1..] else s;
    match LastNewline(body)
    case None => body
    case Some(i) => if Trim(body[i + 1..]) == [] then body[..i + 1] else body
  }

  datatype Printed = Printed(page: Page, hug: bool)

  /** `hug`: the end tag follows on the same line. */
  function PutRaw(p: Page, s: string): Printed {
    if Trim(s) == [] || RawBody(s) == [] then Printed(p, false)
    else
      var body := RawBody(s);
      var nl := EndsWith(body, "\n");
      Printed(Page(p.out + body, nl), !nl)
  }

  // ----- inline runs -----

  datatype BlockKind = ElementEnd(name: string) | BlockClose | PartialClose

  /** The kind of closer a token waits for, if it opens a level. */
  function Awaits(t: Token): Option<BlockKind> {
    if OpensElement(t) then Some(ElementEnd(t.name))
    else if t.HbsBlockOpen? then Some(BlockClose)
    else if t.HbsPartialOpen? then Some(PartialClose)
    else None
  }

  /** The level a closer closes. */
  function Closes(t: Token): Option<BlockKind> {
    match t
    case HtmlEnd(name) => Some(ElementEnd(name))
    case HbsBlockClose(_) => Some(BlockClose)
    case HbsPartialClose(_) => Some(PartialClose)
    case _ => None
  }

  /** The index of the closer that empties `stack`; unmatched closers are passed over, an
      `{{else}}` at the outermost level gives up. */
  function FindCloser(ts: seq<Token>, stack: seq<BlockKind>): (r: Option<nat>)
    requires stack != []
    ensures r.Some? ==> r.value < |ts|
    decreases |ts|
  {
    if ts == [] then None
    else if Awaits(ts[0]).Some? then Shift(FindCloser(ts[1..], stack + [Awaits(ts[0]).value]), 1)
    else if Closes(ts[0]) == Some(stack[|stack| - 1]) then
      if |stack| == 1 then Some(0) else Shift(FindCloser(ts[1..], stack[..|stack| - 1]), 1)
    else if ts[0].HbsElse? && |stack| == 1 then None
    else Shift(FindCloser(ts[1..], stack), 1)
  }

  /** Text with a line break between two of its words. */
  predicate SpansLines(s: string) { '\n' in Trim(s) }

  predicate SingleLineToken(t: Token) {
    && (t.Text? ==> !SpansLines(t.text))
    && (IsComment(t) ==> '\n' !in t.raw)
    && !OpensElement(t) && !OpensBlock(t) && !t.RawText?
  }

  predicate SingleLineBody(ts: seq<Token>) { forall t <- ts :: SingleLineToken(t) }

  function InlineToken(t: Token): Outcome<string> {
    if t.Text? then Ok(CollapseInline(t.text)) else TokenText(t)
  }

  function InlineBody(ts: seq<Token>): Outcome<string> {
    if ts == [] then Ok([])
    else
      var first :- InlineToken(ts[0]);
      var rest :- InlineBody(ts[1..]);
      Ok(first + rest)
  }

  datatype Run = Run(text: string, len: nat)

  /** The opener of an inline run and its rendering, if the run may start here. */
  function InlineOpener(t: Token): Outcome<Option<string>> {
    if !OpensElement(t) then Ok(None)
    else
      var attrs :- L.ParseAttributes(t.attrsRaw);
      if !OneLine(attrs) then Ok(None)
      else
        var rs :- RenderAttrs(attrs);
        Ok(Some("<" + t.name + Spaced(rs) + ">"))
  }

  /** The element at the head of `ts` on one line, when it fits; closers other than end tags
      are the `unreachable!()` of the source. */
  function TryInline(ts: seq<Token>, d: nat): (r: Outcome<Option<Run>>)
    requires ts != []
    ensures r.Ok? && r.value.Some? ==> 2 <= r.value.value.len <= |ts|
  {
    var opener :- InlineOpener(ts[0]);
    if opener.None? then Ok(None)
    else
      match FindCloser(ts[1..], [ElementEnd(ts[0].name)])
      case None => Ok(None)
      case Some(k) =>
        if !SingleLineBody(ts[1..1 + k]) then Ok(None)
        else
          var body :- InlineBody(ts[1..1 + k]);
          var closer :- CloserText(ts[1 + k]);
          var text := TrimEnd(opener.value + body + closer);
          if '\n' in text || |text| + 2 * d > LINE_LIMIT then Ok(None)
          else Ok(Some(Run(text, k + 2)))
  }

  function CloserText(t: Token): Outcome<string> {
    if t.HtmlEnd? || t.HbsBlockClose? || t.HbsPartialClose? then TokenText(t) else Panic
  }

  // ----- the printer -----

  datatype State = State(page: Page, depth: nat, hug: bool)

  function Less(d: nat): nat { if d == 0 then 0 else d - 1 }

  function PrintStart(page: Page, name: string, attrsRaw: string, selfClosed: bool, d: nat): Outcome<Page> {
    var attrs :- L.ParseAttributes(attrsRaw);
    var rs :- RenderAttrs(attrs);
    Ok(Newline(Push(EnsureIndent(page, d), TagText(name, attrs, rs, selfClosed, d))))
  }

  /** One token outside an inline run. */
  function PrintToken(t: Token, st: State): Outcome<State> {
    var State(page, depth, hug) := st;
    match t
    case Text(s) => Ok(State(PutText(page, s, depth), depth, hug))
    case RawText(s) =>
      var r := PutRaw(page, s);
      Ok(State(r.page, depth, r.hug))
    case HtmlComment(raw) => Ok(State(Newline(Push(EnsureIndent(page, depth), raw)), depth, hug))
    case HbsComment(raw) => Ok(State(Newline(Push(EnsureIndent(page, depth), raw)), depth, hug))
    case HtmlStart(name, attrsRaw, selfClosed) =>
      var page' :- PrintStart(page, name, attrsRaw, selfClosed, depth);
      Ok(State(page', if SlashClosed(name, selfClosed) then depth else depth + 1, hug))
    case HtmlEnd(name) =>
      var page' := if hug then page else EnsureIndent(page, Less(depth));
      Ok(State(Newline(Push(page', EndTag(name))), Less(depth), false))
    case HbsExpr(raw) =>
      var m :- NormalizeMustache(raw);
      Ok(State(Push(EnsureIndent(page, depth), m), depth, hug))
    case HbsElse(raw) =>
      var m :- NormalizeMustache(raw);
      Ok(State(Newline(Push(EnsureIndent(page, Less(depth)), m)), depth, hug))
    case HbsBlockOpen(raw) => PrintOpen(raw, st)
    case HbsPartialOpen(raw) => PrintOpen(raw, st)
    case HbsBlockClose(raw) => PrintClose(raw, st)
    case HbsPartialClose(raw) => PrintClose(raw, st)
  }

  function PrintOpen(raw: string, st: State): Outcome<State> {
    var m :- NormalizeMustache(raw);
    Ok(State(Newline(Push(EnsureIndent(st.page, st.depth), m)), st.depth + 1, st.hug))
  }

  function PrintClose(raw: string, st: State): Outcome<State> {
    var m :- NormalizeMustache(raw);
    Ok(State(Newline(Push(EnsureIndent(st.page, Less(st.depth)), m)), Less(st.depth), st.hug))
  }

  function PrintRun(run: Run, st: State): State {
    State(Page(EnsureIndent(st.page, st.depth).out + run.text + "\n", true), st.depth, st.hug)
  }

  function PrintFrom(ts: seq<Token>, st: State): Outcome<State>
    decreases |ts|
  {
    if ts == [] then Ok(st)
    else
      var run :- TryInline(ts, st.depth);
      match run
      case Some(r) => PrintFrom(ts[r.len..], PrintRun(r, st))
      case None =>
        var st' :- PrintToken(ts[0], st);
        PrintFrom(ts[1..], st')
  }

  const BLANK_PAGE := State(Page([], true), 0, false)

  // ----- clean-up -----

  /** At most two newlines in a row; `run` newlines precede `s`. */
  function CapNewlines(s: string, run: nat): string {
    if s == [] then []
    else if s[0] == '\n' then (if run + 1 <= 2 then "\n" else []) + CapNewlines(s[1..], run + 1)
    else [s[0]] + CapNewlines(s[1..], 0)
  }

  function StripNewlines(s: string): string {
    if s != [] && s[|s| - 1] == '\n' then StripNewlines(s[..|s| - 1]) else s
  }

  function TrimEnds(ls: seq<string>): seq<string> {
    if ls == [] then [] else [TrimEnd(ls[0])] + TrimEnds(ls[1..])
  }

  /** The lines of `s`, each one trimmed on the right and ended by a newline. */
  function PostProcess(s: string): string {
    JoinLines(TrimEnds(SplitLines(StripNewlines(CapNewlines(s, 0))))) + "\n"
  }

  function Print(ts: seq<Token>): Outcome<string> {
    var st :- PrintFrom(ts, BLANK_PAGE);
    Ok(PostProcess(st.page.out))
  }

  function Format(src: string): Outcome<string> {
    var ts :- L.LexTokens([], src);
    Print(ts)
  }
}
