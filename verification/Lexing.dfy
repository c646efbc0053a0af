/** What `src/fmt/tokenizer.rs` computes, as functions of the source text still unread.
    The cursor loops themselves are in module Tokenizer; they are proved equal to these. */
module Lexing {
  import opened Text
  import opened Tokens

  // ----- scanners -----

  /** The first `needle` outside quotes, when the scan enters `s` with open quote `q`. */
  function FindClose(s: string, q: Option<char>, needle: string): (r: Option<nat>)
    requires needle != []
    ensures r.Some? ==> r.value + |needle| <= |s|
  {
    if |s| < |needle| then None
    else if q.Some? then Shift(FindClose(s[1..], if s[0] == q.value then None else q, needle), 1)
    else if IsQuote(s[0]) then Shift(FindClose(s[1..], Some(s[0]), needle), 1)
    else if needle <= s then Some(0)
    else Shift(FindClose(s[1..], None, needle), 1)
  }

  /** The end of `{{!-- … --}}` or `{{! … }}`, past the closer. */
  function CommentEnd(s: string): (r: Option<nat>)
    requires "{{!" <= s
    ensures r.Some? ==> 5 <= r.value <= |s|
  {
    if "{{!--" <= s then Shift(Find(s[5..], "--}}"), 9) else Shift(Find(s[3..], "}}"), 5)
  }

  predicate IsNameChar(c: char) { IsAlpha(c) || IsDigit(c) || c == '-' || c == '_' || c == ':' }

  function NameLen(s: string): (n: nat)
    ensures n <= |s|
  {
    if s != [] && IsNameChar(s[0]) then 1 + NameLen(s[1..]) else 0
  }

  datatype TagClose = TagClose(at: nat, selfClosed: bool)

  function ShiftClose(o: Option<TagClose>, n: nat): Option<TagClose> {
    match o
    case None => None
    case Some(c) => Some(TagClose(c.at + n, c.selfClosed))
  }

  /** The first `>` or `/>` outside quotes and mustaches, entered with open quote `q` and
      `h` mustaches open. */
  function TagScan(s: string, q: Option<char>, h: nat): (r: Option<TagClose>)
    ensures r.Some? ==> r.value.at + (if r.value.selfClosed then 2 else 1) <= |s|
    decreases |s|
  {
    if s == [] then None
    else if q.Some? then ShiftClose(TagScan(s[1..], if s[0] == q.value then None else q, h), 1)
    else if h > 0 then
      if "}}" <= s then ShiftClose(TagScan(s[2..], q, h - 1), 2) else ShiftClose(TagScan(s[1..], q, h), 1)
    else if IsQuote(s[0]) then ShiftClose(TagScan(s[1..], Some(s[0]), h), 1)
    else if "{{" <= s then ShiftClose(TagScan(s[2..], q, h + 1), 2)
    else if "/>" <= s then Some(TagClose(0, true))
    else if s[0] == '>' then Some(TagClose(0, false))
    else ShiftClose(TagScan(s[1..], q, h), 1)
  }

  /** The next `</tag>` or `</tag `, in any case. */
  function FindRawClose(s: string, tag: string): (r: Option<nat>)
    ensures r.Some? ==> r.value + 2 + |tag| < |s|
  {
    if |s| < 2 + |tag| then None
    else if RawCloseHere(s, tag) then Some(0)
    else Shift(FindRawClose(s[1..], tag), 1)
  }

  predicate RawCloseHere(s: string, tag: string)
    requires |s| >= 2 + |tag|
  {
    && "</" <= s
    && Lower(s[2..2 + |tag|]) == Lower(tag)
    && 2 + |tag| < |s|
    && (s[2 + |tag|] == '>' || IsAsciiSpace(s[2 + |tag|]))
  }

  // ----- mustache classification -----

  function TrimStartBraces(s: string): string {
    if s != [] && s[0] == '{' then TrimStartBraces(s[1..]) else s
  }

  function TrimEndBraces(s: string): string {
    if s != [] && s[|s| - 1] == '}' then TrimEndBraces(s[..|s| - 1]) else s
  }

  function StripMustache(raw: string): string { TrimEndBraces(TrimStartBraces(raw)) }

  function Classify(raw: string): (t: Token)
    ensures IsMustache(t) && t.raw == raw
  {
    var trimmed := TrimStart(StripMustache(raw));
    if "#>" <= trimmed then HbsPartialOpen(raw)
    else if "#" <= trimmed then HbsBlockOpen(raw)
    else if "/" <= trimmed then
      if '/' in trimmed[1..] then HbsPartialClose(raw) else HbsBlockClose(raw)
    else if "else" <= trimmed then HbsElse(raw)
    else HbsExpr(raw)
  }

  // ----- tags -----

  predicate IsTagStartChar(c: char) { IsAlpha(c) || c == '/' }

  predicate StartsTag(s: string) { |s| >= 2 && s[0] == '<' && IsTagStartChar(s[1]) }

  datatype ReadTag = ReadTag(token: Token, len: nat)

  function ReadHtmlTag(s: string): (r: Outcome<ReadTag>)
    requires StartsTag(s)
    ensures r.Ok? ==> 2 <= r.value.len <= |s| && (r.value.token.HtmlStart? || r.value.token.HtmlEnd?)
  {
    var start := if s[1] == '/' then 2 else 1;
    var n := NameLen(s[start..]);
    var after := start + n;
    if n == 0 then Err("expected tag name")
    else
      var name := Lower(s[start..after]);
      if s[1] == '/' then
        match Find(s[after..], ">")
        case None => Err("unterminated end tag")
        case Some(p) => Ok(ReadTag(HtmlEnd(name), after + p + 1))
      else
        match TagScan(s[after..], None, 0)
        case None => Err("unterminated tag")
        case Some(c) =>
          Ok(ReadTag(HtmlStart(name, TrimEnd(s[after..after + c.at]), c.selfClosed),
                     after + c.at + (if c.selfClosed then 2 else 1)))
  }

  // ----- the token stream -----

  /** One lexeme. A raw-content element is captured in one step: start tag, body, end tag. */
  datatype Item = Single(token: Token) | Raw(name: string, attrsRaw: string, body: string)

  /** A lexeme, the source it was read from, and the text up to the next lexeme. */
  datatype Unit = Unit(item: Item, src: string, after: string)

  datatype Doc = Doc(lead: string, units: seq<Unit>)

  function TextTokens(s: string): seq<Token> { if s == [] then [] else [Text(s)] }

  function ItemTokens(item: Item): seq<Token> {
    match item
    case Single(t) => [t]
    case Raw(name, attrsRaw, body) =>
      [HtmlStart(name, attrsRaw, false)] + (if body == [] then [] else [RawText(body)]) + [HtmlEnd(name)]
  }

  function UnitsTokens(us: seq<Unit>): seq<Token> {
    if us == [] then []
    else ItemTokens(us[0].item) + TextTokens(us[0].after) + UnitsTokens(us[1..])
  }

  function DocTokens(d: Doc): seq<Token> { TextTokens(d.lead) + UnitsTokens(d.units) }

  function UnitsSource(us: seq<Unit>): string {
    if us == [] then [] else us[0].src + us[0].after + UnitsSource(us[1..])
  }

  function Source(d: Doc): string { d.lead + UnitsSource(d.units) }

  datatype Step = Skip(len: nat) | Emit(item: Item, len: nat) | Fail(error: string)

  function ScanComment(s: string): (r: Step)
    requires "{{!" <= s
    ensures r.Fail? || (r.Emit? && 2 <= r.len <= |s|)
  {
    match CommentEnd(s)
    case None => Fail("unterminated handlebars comment")
    case Some(n) => Emit(Single(HbsComment(s[..n])), n)
  }

  function ScanTriple(s: string): (r: Step)
    requires "{{{" <= s
    ensures r.Fail? || (r.Emit? && 2 <= r.len <= |s|)
  {
    match FindClose(s[3..], None, "}}}")
    case None => Fail("unterminated triple mustache")
    case Some(k) => Emit(Single(HbsExpr(s[..k + 6])), k + 6)
  }

  function ScanMustache(s: string): (r: Step)
    requires "{{" <= s
    ensures r.Fail? || (r.Emit? && 2 <= r.len <= |s|)
  {
    match FindClose(s[2..], None, "}}")
    case None => Fail("unterminated mustache")
    case Some(k) => Emit(Single(Classify(s[..k + 4])), k + 4)
  }

  function ScanHtmlComment(s: string): (r: Step)
    requires "<!--" <= s
    ensures r.Fail? || (r.Emit? && 2 <= r.len <= |s|)
  {
    match Find(s[4..], "-->")
    case None => Fail("unterminated html comment")
    case Some(k) => Emit(Single(HtmlComment(s[..k + 7])), k + 7)
  }

  /** One turn of the tokenizer's main loop at the head of `s`. */
  function Scan(s: string): (r: Step)
    requires s != []
    ensures r.Skip? ==> 1 <= r.len <= |s|
    ensures r.Emit? ==> 2 <= r.len <= |s|
  {
    if "{{!" <= s then ScanComment(s)
    else if "{{{" <= s then ScanTriple(s)
    else if "{{" <= s then ScanMustache(s)
    else if "<!--" <= s then ScanHtmlComment(s)
    else if ("<!" <= s || "<?" <= s) && Find(s, ">").Some? then Skip(Find(s, ">").value + 1)
    else if StartsTag(s) then ScanTag(s)
    else Skip(1)
  }

  function ScanTag(s: string): (r: Step)
    requires StartsTag(s)
    ensures r.Fail? || (r.Emit? && 2 <= r.len <= |s|)
  {
    match ReadHtmlTag(s)
    case Err(e) => Fail(e)
    case Panic => Fail("")
    case Ok(tag) =>
      if !OpensRaw(tag.token) then Emit(Single(tag.token), tag.len)
      else
        match FindRawClose(s[tag.len..], tag.token.name)
        case None => Fail("unterminated raw element")
        case Some(c) =>
          match Find(s[tag.len + c..], ">")
          case None => Fail("unterminated end tag")
          case Some(p) =>
            Emit(Raw(tag.token.name, tag.token.attrsRaw, s[tag.len..tag.len + c]), tag.len + c + p + 1)
  }

  /** The document read from `s`, when `text` is the text already passed over. */
  function Lex(text: string, s: string): (r: Outcome<Doc>)
    ensures !r.Panic?
    decreases |s|
  {
    if s == [] then Ok(Doc(text, []))
    else
      match Scan(s)
      case Skip(n) => Lex(text + s[..n], s[n..])
      case Fail(e) => Err(e)
      case Emit(item, n) =>
        var d :- Lex([], s[n..]);
        Ok(Doc(text, [Unit(item, s[..n], d.lead)] + d.units))
  }

  function LexTokens(text: string, s: string): Outcome<seq<Token>> {
    var d :- Lex(text, s);
    Ok(DocTokens(d))
  }

  // ----- attribute lists -----

  predicate IsAttrNameChar(c: char) { !(IsAsciiSpace(c) || c == '=' || c == '>' || c == '/' || IsQuote(c)) }

  function AttrNameLen(s: string): (n: nat)
    ensures n <= |s|
  {
    if s != [] && IsAttrNameChar(s[0]) then 1 + AttrNameLen(s[1..]) else 0
  }

  function SpaceLen(s: string): (n: nat)
    ensures n <= |s|
  {
    if s != [] && IsAsciiSpace(s[0]) then 1 + SpaceLen(s[1..]) else 0
  }

  function WordLen(s: string): (n: nat)
    ensures n <= |s|
  {
    if s != [] && !IsAsciiSpace(s[0]) then 1 + WordLen(s[1..]) else 0
  }

  /** The length of the balanced `{{…}}` region at the head of `s`, `depth` regions being open. */
  function RegionLen(s: string, depth: int): (n: nat)
    ensures n <= |s|
    ensures "{{" <= s ==> n >= 2
    decreases |s|
  {
    if s == [] then 0
    else if "{{" <= s then 2 + RegionLen(s[2..], depth + 1)
    else if "}}" <= s then if depth == 1 then 2 else 2 + RegionLen(s[2..], depth - 1)
    else 1 + RegionLen(s[1..], depth)
  }

  /** The closing quote `q` of an attribute value, mustache regions skipped. */
  function FindValueQuote(s: string, q: char): (r: Option<nat>)
    ensures r.Some? ==> r.value < |s| && s[r.value] == q
    decreases |s|
  {
    if s == [] then None
    else if "{{" <= s then
      var n := RegionLen(s, 0);
      Shift(FindValueQuote(s[n..], q), n)
    else if s[0] == q then Some(0)
    else Shift(FindValueQuote(s[1..], q), 1)
  }

  /** What the mustache at the head of `s` does to the number of open blocks. */
  function BlockDelta(s: string): int {
    if "{{#" <= s || "{{^" <= s then 1 else if "{{/" <= s then -1 else 0
  }

  /** The end of the `{{#…}}…{{/…}}` block at the head of `s`, `depth` blocks being open. */
  function BlockEnd(s: string, depth: int): (r: Option<nat>)
    ensures r.Some? ==> 4 <= r.value <= |s|
    decreases |s|
  {
    if s == [] then None
    else if "{{" <= s then
      match FindClose(s[2..], None, "}}")
      case None => None
      case Some(k) =>
        if depth == 1 && BlockDelta(s) == -1 then Some(k + 4)
        else Shift(BlockEnd(s[k + 4..], depth + BlockDelta(s)), k + 4)
    else Shift(BlockEnd(s[1..], depth), 1)
  }

  datatype ReadAttr = ReadAttr(attr: Attr, len: nat)

  /** The attribute at the head of `s`. */
  function ParseOne(s: string): (r: Outcome<ReadAttr>)
    ensures r.Ok? ==> 1 <= r.value.len <= |s|
    ensures !r.Panic?
  {
    if "{{#" <= s || "{{^" <= s then
      match BlockEnd(s, 0)
      case None => Err("unterminated handlebars block in attribute list")
      case Some(n) => Ok(ReadAttr(BlockAttr(Trim(s[..n])), n))
    else if "{{" <= s then
      match FindClose(s[2..], None, "}}")
      case None => Err("unterminated mustache in attribute list")
      case Some(k) => Ok(ReadAttr(ExprAttr(s[..k + 4]), k + 4))
    else
      var n := AttrNameLen(s);
      if n == 0 then Err("unrecognised attribute syntax")
      else
        var name := Lower(s[..n]);
        if n == |s| || s[n] != '=' then Ok(ReadAttr(Plain(name, None), n))
        else if n + 1 == |s| then Err("trailing '='")
        else if IsQuote(s[n + 1]) then
          match FindValueQuote(s[n + 2..], s[n + 1])
          case None => Err("unterminated attribute value")
          case Some(c) => Ok(ReadAttr(Plain(name, Some(s[n + 2..n + 2 + c])), n + 3 + c))
        else
          var w := WordLen(s[n + 1..]);
          Ok(ReadAttr(Plain(name, Some(s[n + 1..n + 1 + w])), n + 1 + w))
  }

  function ParseAttributes(s: string): (r: Outcome<seq<Attr>>)
    ensures !r.Panic?
    decreases |s|
  {
    var t := s[SpaceLen(s)..];
    if t == [] then Ok([])
    else
      var one :- ParseOne(t);
      var rest :- ParseAttributes(t[one.len..]);
      Ok([one.attr] + rest)
  }
}
