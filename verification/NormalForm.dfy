/** The document a template prints to: the lexemes and gaps of the output, computed lexeme by
    lexeme from those of the input. */
module NormalForm {
  import opened Text
  import opened Tokens
  import opened Lexing
  import opened Layout
  import opened Cleanup
  import opened Gaps
  import opened GapFix
  import opened Runs

  function AttrsOf(attrsRaw: string): seq<Attr> {
    if ParseAttributes(attrsRaw).Ok? then ParseAttributes(attrsRaw).value else []
  }

  function RenderingsOf(attrsRaw: string): seq<string> {
    if RenderAttrs(AttrsOf(attrsRaw)).Ok? then RenderAttrs(AttrsOf(attrsRaw)).value else []
  }

  function TextOf(t: Token): string {
    if TokenText(t).Ok? then TokenText(t).value else []
  }

  function SetRaw(t: Token, raw: string): Token
    requires IsMustache(t)
  {
    match t
    case HbsBlockOpen(_) => HbsBlockOpen(raw)
    case HbsBlockClose(_) => HbsBlockClose(raw)
    case HbsElse(_) => HbsElse(raw)
    case HbsPartialOpen(_) => HbsPartialOpen(raw)
    case HbsPartialClose(_) => HbsPartialClose(raw)
    case HbsExpr(_) => HbsExpr(raw)
  }

  // ----- one lexeme on the page -----

  function AttrsAt(attrsRaw: string, d: nat): string {
    if OneLine(AttrsOf(attrsRaw)) then Spaced(RenderingsOf(attrsRaw)) else Stacked(RenderingsOf(attrsRaw), d + 1)
  }

  /** The token that the printed form of `t` at depth `d` denotes. */
  function NormalToken(t: Token, d: nat): Token {
    if t.HtmlStart? then HtmlStart(t.name, AttrsAt(t.attrsRaw, d), SlashClosed(t.name, t.selfClosed))
    else if IsMustache(t) then SetRaw(t, TextOf(t))
    else t
  }

  function TokenSource(t: Token, d: nat): string {
    if t.HtmlStart? then TagText(t.name, AttrsOf(t.attrsRaw), RenderingsOf(t.attrsRaw), t.selfClosed, d)
    else TextOf(t)
  }

  /** What stands between the tags of a raw element at depth `d`. */
  function RawGap(body: string, d: nat): string {
    if Trim(body) == [] then "\n" + Indent(d)
    else "\n" + RawBody(body) + (if EndsWith(RawBody(body), "\n") then Indent(d) else [])
  }

  function NormalItem(item: Item, d: nat): Item {
    match item
    case Single(t) => Single(NormalToken(t, d))
    case Raw(name, attrsRaw, body) => Raw(name, AttrsAt(attrsRaw, d), RawGap(body, d))
  }

  function ItemSource(item: Item, d: nat): string {
    match item
    case Single(t) => TokenSource(t, d)
    case Raw(name, attrsRaw, body) => TokenSource(RawStart(item), d) + RawGap(body, d) + EndTag(name)
  }

  // ----- one lexeme inside an inline run -----

  function InlineAttrs(t: Token): Token {
    if t.HtmlStart? then HtmlStart(t.name, Spaced(RenderingsOf(t.attrsRaw)), SlashClosed(t.name, t.selfClosed))
    else NormalToken(t, 0)
  }

  function InlineItem(item: Item): Item {
    match item
    case Single(t) => Single(InlineAttrs(t))
    case Raw(name, attrsRaw, body) => Raw(name, Spaced(RenderingsOf(attrsRaw)), body)
  }

  function InlineSource(item: Item): string {
    match item
    case Single(t) => TextOf(t)
    case Raw(name, attrsRaw, body) => TextOf(RawStart(item)) + body + EndTag(name)
  }

  // ----- depth and indent -----

  predicate ClosesLevel(t: Token) { Closes(t).Some? }

  function DepthAfter(item: Item, d: nat): nat {
    if item.Raw? then d
    else if OpensElement(item.token) || OpensBlock(item.token) then d + 1
    else if ClosesLevel(item.token) then Less(d)
    else d
  }

  /** The level a lexeme is printed at. */
  function LevelOf(item: Item, d: nat): nat {
    if item.Single? && (ClosesLevel(item.token) || item.token.HbsElse?) then Less(d) else d
  }

  /** Every lexeme but an expression ends its line. */
  predicate EndsLine(item: Item) { item.Raw? || !item.token.HbsExpr? }

  // ----- the printed document -----

  /** At the end of the page trailing blank lines are dropped. */
  function Seal(lay: Lay): Lay {
    if lay.rows != [] && lay.rows[|lay.rows| - 1] == [] then Lay(lay.glue, lay.rows[..|lay.rows| - 1]) else lay
  }

  /** The gap after a lexeme that left depth `d`, before the units `rest`. */
  function GapBefore(lay: Lay, d: nat, rest: seq<Unit>): string {
    if rest == [] then GapText(Seal(lay), d, 0) else GapText(lay, d, LevelOf(rest[0].item, d))
  }

  /** The first `n` units as an inline run, followed by `last`. */
  function RunUnits(us: seq<Unit>, n: nat, last: string): seq<Unit>
    requires 1 <= n <= |us|
    decreases n
  {
    var u := us[0];
    if n == 1 then [Unit(InlineItem(u.item), InlineSource(u.item), last)]
    else [Unit(InlineItem(u.item), InlineSource(u.item), CollapseInline(u.after))] + RunUnits(us[1..], n - 1, last)
  }

  /** The head of `us` printed outside a run. */
  function NormalUnit(us: seq<Unit>, d: nat): Unit
    requires us != []
  {
    var u := us[0];
    Unit(NormalItem(u.item, d), ItemSource(u.item, d),
         GapBefore(LayText(EndsLine(u.item), u.after), DepthAfter(u.item, d), us[1..]))
  }

  /** The document `us` prints to from depth `d`. */
  function NormalUnits(us: seq<Unit>, d: nat): seq<Unit>
    requires Renders(us)
    decreases |us|
  {
    if us == [] then []
    else
      match TryUnit(us, d)
      case Some(r) =>
        RendersDrop(us, r.units);
        var rest := us[r.units..];
        RunUnits(us, r.units, GapBefore(LayText(true, us[r.units - 1].after), d, rest)) + NormalUnits(rest, d)
      case None =>
        RendersDrop(us, 1);
        [NormalUnit(us, d)] + NormalUnits(us[1..], DepthAfter(us[0].item, d))
  }

  lemma {:induction false} RendersDrop(us: seq<Unit>, n: nat)
    requires Renders(us) && n <= |us|
    ensures Renders(us[n..])
  {
    forall u | u in us[n..] ensures u in us {}
  }

  lemma {:induction false} SourceAppend(a: seq<Unit>, b: seq<Unit>)
    ensures UnitsSource(a + b) == UnitsSource(a) + UnitsSource(b)
  {
    if a == [] {
      assert a + b == b;
    } else {
      assert (a + b)[1..] == a[1..] + b;
      SourceAppend(a[1..], b);
    }
  }

  // ----- printing one lexeme -----

  /** A lexeme whose printed form ends in something other than a newline. */
  predicate Solid(s: string) { s != [] && s[|s| - 1] != '\n' }

  predicate Settles(item: Item, d: nat) { Solid(ItemSource(item, d)) }

  /** The page after a lexeme, before the text that follows it. */
  function After(o: string, endsLine: bool): Page {
    Page(if endsLine then o + "\n" else o, endsLine)
  }

  lemma {:induction false} PushedLine(p: Page, level: nat, o: string, s: string)
    requires EnsureIndent(p, level) == Page(o, false) && Solid(s)
    ensures Push(EnsureIndent(p, level), s) == After(o + s, false)
    ensures Newline(Push(EnsureIndent(p, level), s)) == After(o + s, true)
  {
    EndsInNewline(o + s);
  }

  lemma {:induction false} TagPrinted(t: Token, st: State, o: string)
    requires t.HtmlStart? && TokenText(t).Ok? && EnsureIndent(st.page, st.depth) == Page(o, false)
    requires Solid(TokenSource(t, st.depth))
    ensures PrintToken(t, st)
         == Ok(State(After(o + TokenSource(t, st.depth), true), if OpensElement(t) then st.depth + 1 else st.depth, st.hug))
  {
    hide ParseAttributes, RenderAttrs, IsVoid, EnsureIndent, InlineTag, TagText;
    PushedLine(st.page, st.depth, o, TokenSource(t, st.depth));
  }

  lemma {:induction false} TokenPrinted(t: Token, st: State, o: string)
    requires TokenText(t).Ok? && !t.Text? && !t.RawText? && !st.hug
    requires EnsureIndent(st.page, LevelOf(Single(t), st.depth)) == Page(o, false)
    requires Solid(TokenSource(t, st.depth))
    ensures PrintToken(t, st)
         == Ok(State(After(o + TokenSource(t, st.depth), EndsLine(Single(t))), DepthAfter(Single(t), st.depth), false))
  {
    if t.HtmlStart? {
      TagPrinted(t, st, o);
    } else {
      hide EnsureIndent, NormalizeMustache, EndTag;
      PushedLine(st.page, LevelOf(Single(t), st.depth), o, TextOf(t));
    }
  }

  // ----- raw elements -----

  lemma {:induction false} NotRunToken(t: Token, rest: seq<Token>, st: State)
    requires !OpensElement(t)
    ensures PrintFrom([t] + rest, st)
         == if PrintToken(t, st).Ok? then PrintFrom(rest, PrintToken(t, st).value) else PrintFrom([t] + rest, st)
  {
    hide PrintToken, FindCloser, InlineBody, SingleLineBody;
    assert ([t] + rest)[1..] == rest;
  }

  lemma {:induction false} NoTextPrinted(p: Page, d: nat)
    ensures PutText(p, [], d) == p
  {}

  lemma {:induction false} TextToken(x: string, st: State)
    ensures PrintToken(Text(x), st) == Ok(State(PutText(st.page, x, st.depth), st.depth, st.hug)) && !OpensElement(Text(x))
  {
    hide PutText;
  }

  lemma {:induction false} TextPrinted(x: string, rest: seq<Token>, st: State)
    ensures PrintFrom(TextTokens(x) + rest, st) == PrintFrom(rest, State(PutText(st.page, x, st.depth), st.depth, st.hug))
  {
    hide PutText, PrintFrom, PrintToken, OpensElement;
    if x == [] {
      NoTextPrinted(st.page, st.depth);
      assert TextTokens(x) + rest == rest;
    } else {
      TextToken(x, st);
      NotRunToken(Text(x), rest, st);
    }
  }

  lemma {:induction false} LastNewlineIs(s: string)
    ensures match LastNewline(s)
            case None => '\n' !in s
            case Some(i) => s[i] == '\n' && '\n' !in s[i + 1..]
  {
    if s != [] && s[|s| - 1] != '\n' {
      LastNewlineIs(s[..|s| - 1]);
      match LastNewline(s[..|s| - 1])
      case None => assert s == s[..|s| - 1] + [s[|s| - 1]];
      case Some(i) => assert s[i + 1..] == s[..|s| - 1][i + 1..] + [s[|s| - 1]];
    }
  }

  /** A body without its leading newline. */
  function Unbroken(s: string): string { if "\n" <= s then s[1..] else s }

  lemma {:induction false} UnbrokenIs(s: string)
    ensures s == Unbroken(s) || s == "\n" + Unbroken(s)
  {}

  /** The indent of the end tag, if that is all the last line of the body is. */
  function LastIndent(body: string): string {
    var n := LastNewline(body);
    if n.Some? && Trim(body[n.value + 1..]) == [] then body[n.value + 1..] else []
  }

  lemma {:induction false} RawBodyIs(s: string)
    ensures Unbroken(s) == RawBody(s) + LastIndent(Unbroken(s))
  {
    var body := Unbroken(s);
    hide Trim;
    var n := LastNewline(body);
    assert body + [] == body;
    if n.Some? { assert body == body[..n.value + 1] + body[n.value + 1..]; }
  }

  lemma {:induction false} LastIndentBlank(body: string)
    ensures Blank(LastIndent(body))
  {
    BlankTrims(LastIndent(body));
    hide Trim, LastNewline;
  }

  lemma {:induction false} UnbrokenTrims(s: string)
    ensures Trim(Unbroken(s)) == Trim(s)
  {
    UnbrokenIs(s);
    TrimSkips("\n", Unbroken(s));
    hide Trim, Unbroken;
  }

  lemma {:induction false} NotEmpty(s: string)
    requires Trim(s) != []
    ensures s != []
  {}

  lemma {:induction false} RawBodySplit(s: string)
    requires Trim(s) != []
    ensures RawBody(s) != [] && Trim(RawBody(s)) == Trim(s)
  {
    hide *;
    UnbrokenTrims(s);
    RawBodyIs(s);
    LastIndentBlank(Unbroken(s));
    TrimSkips(LastIndent(Unbroken(s)), RawBody(s));
    NotEmpty(RawBody(s));
  }

  function PutBody(p: Page, body: string): Printed {
    if body == [] then Printed(p, false) else PutRaw(p, body)
  }

  lemma {:induction false} RawBodyPrinted(o: string, body: string, d: nat)
    requires Solid(o)
    ensures var p := PutBody(After(o, true), body);
            (if p.hug then p.page else EnsureIndent(p.page, d)) == Page(o + RawGap(body, d), false)
  {
    hide Indent;
    if Trim(body) == [] {
      assert o + "\n" + Indent(d) == o + ("\n" + Indent(d));
    } else {
      RawBodySplit(body);
      hide RawBody;
      var b := RawBody(body);
      assert body != [] by { BlankTrims(body); }
      if EndsWith(b, "\n") {
        assert o + "\n" + b + Indent(d) == o + ("\n" + b + Indent(d));
      } else {
        assert o + "\n" + b == o + ("\n" + b + []);
      }
    }
  }

  lemma {:induction false} EndPrinted(p: Printed, name: string, d: nat, o: string)
    requires (if p.hug then p.page else EnsureIndent(p.page, d)) == Page(o, false)
    ensures PrintToken(HtmlEnd(name), State(p.page, d + 1, p.hug)) == Ok(State(After(o + EndTag(name), true), d, false))
  {
    hide EnsureIndent;
    assert EndTag(name)[|EndTag(name)| - 1] == '>';
    EndsInNewline(o + EndTag(name));
  }

  /** The body and the end tag of a raw element, printed after its start tag. */
  lemma {:induction false} RawPrinted(o: string, name: string, body: string, d: nat)
    requires Solid(o)
    ensures var p := PutBody(After(o, true), body);
            PrintToken(HtmlEnd(name), State(p.page, d + 1, p.hug))
            == Ok(State(After(o + RawGap(body, d) + EndTag(name), true), d, false))
  {
    hide *;
    RawBodyPrinted(o, body, d);
    EndPrinted(PutBody(After(o, true), body), name, d, o + RawGap(body, d));
  }

  lemma {:induction false} BodyCases(body: string, p: Page)
    ensures body == [] ==> BodyTokens(body) == [] && PutBody(p, body) == Printed(p, false)
    ensures body != [] ==> BodyTokens(body) == [RawText(body)] && PutBody(p, body) == PutRaw(p, body)
  {
    hide PutRaw;
  }

  lemma {:induction false} EndIsNoOpener(name: string, body: string)
    ensures !OpensElement(HtmlEnd(name)) && !OpensElement(RawText(body))
  {}

  /** The tokens of a raw element, once its start tag is printed. */
  lemma {:induction false} RawRest(item: Item, rest: seq<Token>, st: State, o: string)
    requires item.Raw? && Solid(o) && !st.hug && st.page == After(o, true) && st.depth > 0
    ensures PrintFrom(BodyTokens(item.body) + ([HtmlEnd(item.name)] + rest), st)
         == PrintFrom(rest, State(After(o + RawGap(item.body, st.depth - 1) + EndTag(item.name), true), st.depth - 1, false))
  {
    hide *;
    RawPrinted(o, item.name, item.body, st.depth - 1);
    BodyCases(item.body, st.page);
    EndIsNoOpener(item.name, item.body);
    var tail := [HtmlEnd(item.name)] + rest;
    if item.body == [] {
      assert [] + tail == tail;
      NotRunToken(HtmlEnd(item.name), rest, st);
    } else {
      RawTextPrinted(item.body, st);
      var p := PutRaw(st.page, item.body);
      NotRunToken(RawText(item.body), tail, st);
      NotRunToken(HtmlEnd(item.name), rest, State(p.page, st.depth, p.hug));
    }
  }

  lemma {:induction false} RawTextPrinted(s: string, st: State)
    ensures PrintToken(RawText(s), st) == Ok(State(PutRaw(st.page, s).page, st.depth, PutRaw(st.page, s).hug))
  {}

  // ----- the end of the page -----

  lemma {:induction false} StripOf(s: string)
    requires Solid(s)
    ensures StripNewlines(s + "\n") == s && StripNewlines(s + "\n" + "\n") == s && StripNewlines(s) == s
  {
    assert (s + "\n")[..|s|] == s;
    assert (s + "\n" + "\n")[..|s| + 1] == s + "\n";
  }

  lemma {:induction false} RenderAppend(a: seq<string>, b: seq<string>, d: nat)
    ensures Render(a + b, d) == Render(a, d) + Render(b, d)
  {
    hide Indent;
    if a == [] {
      assert a + b == b;
    } else {
      assert (a + b)[1..] == a[1..] + b;
      RenderAppend(a[1..], b, d);
    }
  }

  /** The page up to the newline that ends a sealed lay-out. */
  function SealCore(o: string, lay: Lay, d: nat): string {
    var rows := Seal(lay).rows;
    if rows == [] then o + lay.glue
    else o + lay.glue + "\n" + Render(rows[..|rows| - 1], d) + Indent(d) + rows[|rows| - 1]
  }

  lemma {:induction false} LastRow(rows: seq<string>, d: nat)
    requires rows != [] && rows[|rows| - 1] != []
    ensures Render(rows, d) == Render(rows[..|rows| - 1], d) + (Indent(d) + rows[|rows| - 1] + "\n")
  {
    hide Indent;
    var n := |rows| - 1;
    var r := rows[n];
    assert rows == rows[..n] + [r];
    RenderAppend(rows[..n], [r], d);
    RenderHead(r, [], d);
    assert [r] + [] == [r];
    assert Indent(d) + r + "\n" + [] == Indent(d) + r + "\n";
  }

  lemma {:induction false} SealedRows(bol: bool, lay: Lay)
    requires Good(bol, lay)
    ensures var rows := Seal(lay).rows;
            rows != [] ==> rows[|rows| - 1] != [] && RowOk(rows[|rows| - 1])
  {
    hide RowOk;
    var rows := Seal(lay).rows;
    if rows != [] {
      var n := |rows| - 1;
      assert rows[n] in lay.rows;
      if |rows| < |lay.rows| { NotBlankBefore(lay.rows, n); }
    }
  }

  /** A sealed lay-out ends in exactly one newline. */
  lemma {:induction false} SealedEnd(o: string, bol: bool, lay: Lay, d: nat)
    requires Solid(o) && Good(bol, lay)
    ensures Solid(SealCore(o, lay, d)) && o + GapText(Seal(lay), d, 0) == SealCore(o, lay, d) + "\n"
  {
    SealedRows(bol, lay);
    NoIndent();
    hide Indent, Render;
    var rows := Seal(lay).rows;
    if rows == [] {
      assert Render([], d) == [] by { RenderNothing(d); }
      assert o + (lay.glue + "\n" + [] + []) == o + lay.glue + "\n";
    } else {
      LastRow(rows, d);
      var r, head := rows[|rows| - 1], Render(rows[..|rows| - 1], d);
      CoreConcat(o, lay.glue, head, Indent(d), r);
    }
  }

  lemma {:induction false} RenderNothing(d: nat)
    ensures Render([], d) == []
  {}

  lemma {:induction false} CoreConcat(o: string, glue: string, head: string, indent: string, r: string)
    ensures o + (glue + "\n" + (head + (indent + r + "\n")) + []) == o + glue + "\n" + head + indent + r + "\n"
  {}

  lemma {:induction false} NotBlankBefore(rows: seq<string>, n: nat)
    requires n + 1 < |rows| && NoBlankPair(rows) && rows[n + 1] == []
    ensures rows[n] != []
  {}

  lemma {:induction false} NoIndent()
    ensures Indent(0) == []
  {}

  /** Unsealed, a lay-out has at most one more newline. */
  lemma {:induction false} UnsealedEnd(o: string, lay: Lay, d: nat)
    ensures o + GapText(lay, d, 0) == o + GapText(Seal(lay), d, 0)
         || o + GapText(lay, d, 0) == o + GapText(Seal(lay), d, 0) + "\n"
  {
    hide Indent;
    NoIndent();
    var rows := Seal(lay).rows;
    if rows != lay.rows {
      assert lay.rows == rows + [[]];
      RenderAppend(rows, [[]], d);
      RenderHead([], [], d);
      var one: seq<string> := [[]];
      assert one + [] == one;
      assert o + (lay.glue + "\n" + (Render(rows, d) + ("\n" + [])) + []) == o + (lay.glue + "\n" + Render(rows, d) + []) + "\n";
    }
  }

  lemma {:induction false} FinalGap(o: string, bol: bool, x: string, d: nat)
    requires Solid(o)
    ensures StripNewlines(PutText(After(o, bol), x, d).out) + "\n" == o + GapText(Seal(LayText(bol, x)), d, 0)
  {
    var lay := LayText(bol, x);
    var p := PutText(After(o, bol), x, d);
    LayGood(bol, x);
    GapPrinted(o, bol, x, d, 0);
    SealedEnd(o, bol, lay, d);
    var core := SealCore(o, lay, d);
    UnsealedEnd(o, lay, d);
    NoIndent();
    StripOf(core);
    hide PutText, LayText, GapText, Seal, Good;
    assert EnsureIndent(p, 0).out == if p.bol then p.out else p.out + "\n" by {
      assert p.out + [] == p.out && p.out + "\n" + [] == p.out + "\n";
    }
    if !p.bol { assert (p.out + "\n")[..|p.out|] == p.out; }
  }

  // ----- runs on the page -----

  function BodyTokens(body: string): seq<Token> { if body == [] then [] else [RawText(body)] }

  /** The tokens after the start tag of a raw element. */
  function RawTail(us: seq<Unit>): seq<Token>
    requires us != [] && us[0].item.Raw?
  {
    BodyTokens(us[0].item.body) + ([HtmlEnd(us[0].item.name)] + (TextTokens(us[0].after) + UnitsTokens(us[1..])))
  }

  lemma {:induction false} RawTokens(us: seq<Unit>)
    requires us != [] && us[0].item.Raw?
    ensures UnitsTokens(us) == [RawStart(us[0].item)] + RawTail(us)
  {
    hide TextTokens;
    UnitsTokensHead(us);
  }

  lemma {:induction false} EmptyRawRun(t: Token, rest: seq<Token>, d: nat)
    requires OpensElement(t) && InlineOpener(t).Ok?
    ensures TryInline([t] + ([HtmlEnd(t.name)] + rest), d)
         == Ok(if InlineOpener(t).value.None? then None
               else match Fits(InlineOpener(t).value.value + EndTag(t.name), 1, d)
                    case None => None
                    case Some(r) => Some(Run(r.text, 2)))
  {
    hide InlineOpener, EndTag;
    if InlineOpener(t).value.None? {
      assert ([t] + ([HtmlEnd(t.name)] + rest))[0] == t;
    } else {
      var opener := InlineOpener(t).value.value;
      CloserHere(t.name, rest);
      assert [] + [HtmlEnd(t.name)] + rest == [HtmlEnd(t.name)] + rest;
      assert opener + [] + EndTag(t.name) == opener + EndTag(t.name);
      Decide(t, [], rest, d, opener, []);
    }
  }

  lemma {:induction false} FullRawRun(t: Token, body: string, rest: seq<Token>, d: nat)
    requires OpensElement(t) && InlineOpener(t).Ok?
    ensures TryInline([t] + ([RawText(body)] + ([HtmlEnd(t.name)] + rest)), d) == Ok(None)
  {
    hide InlineOpener;
    var tail := [HtmlEnd(t.name)] + rest;
    var ts := [t] + ([RawText(body)] + tail);
    CloserHere(t.name, rest);
    CloserPasses(RawText(body), tail, t.name);
    assert ts[1..] == [RawText(body)] + tail;
    assert RawText(body) in ts[1..][..1];
    NoCloser(ts, d);
  }

  lemma {:induction false} RawRun(us: seq<Unit>, d: nat)
    requires us != [] && NoText(us) && Renders(us) && us[0].item.Raw?
    ensures UnitsTokens(us) == [RawStart(us[0].item)] + RawTail(us)
    ensures TryUnit(us, d).None? ==> TryInline(UnitsTokens(us), d) == Ok(None)
    ensures TryUnit(us, d).Some? ==>
              && us[0].item.body == [] && TryUnit(us, d).value.units == 1
              && TryInline(UnitsTokens(us), d) == Ok(Some(Run(TryUnit(us, d).value.text, 2)))
  {
    var item := us[0].item;
    var t := RawStart(item);
    var rest := TextTokens(us[0].after) + UnitsTokens(us[1..]);
    assert us[0] in us;
    RawIsNotVoid(item.name);
    OpenerOk(t);
    RawTokens(us);
    hide InlineOpener, TextTokens, UnitsTokens, TokenText, IsRawContent, Renders, NoText, IsVoid, EndTag, TryInline;
    if item.body == [] {
      assert RawTail(us) == [HtmlEnd(t.name)] + rest;
      EmptyRawRun(t, rest, d);
    } else {
      FullRawRun(t, item.body, rest, d);
    }
  }

  lemma {:induction false} RawTailOf(us: seq<Unit>)
    requires us != [] && us[0].item.Raw?
    ensures us[0].item.body == [] ==>
              var ts := [RawStart(us[0].item)] + RawTail(us);
              |ts| >= 2 && ts[2..] == TextTokens(us[0].after) + UnitsTokens(us[1..])
  {
    hide TextTokens;
  }

  /** The head of the document as the printer sees it: an inline run. */
  lemma {:induction false} RunHead(us: seq<Unit>, d: nat, r: UnitRun) returns (len: nat)
    requires us != [] && NoText(us) && Renders(us) && TryUnit(us, d) == Some(r)
    ensures UnitsTokens(us) != [] && TryInline(UnitsTokens(us), d) == Ok(Some(Run(r.text, len)))
    ensures len <= |UnitsTokens(us)| && 0 < r.units <= |us|
    ensures UnitsTokens(us)[len..] == TextTokens(us[r.units - 1].after) + UnitsTokens(us[r.units..])
  {
    if us[0].item.Raw? {
      RawRun(us, d);
      RawTailOf(us);
      hide *;
      len := 2;
    } else {
      len := TryFound(us, d, r);
    }
  }

  lemma {:induction false} OpensRun(us: seq<Unit>, d: nat)
    requires us != [] && Renders(us) && TryUnit(us, d).Some?
    ensures LevelOf(us[0].item, d) == d && OpensElement(OpenerOf(us[0].item))
  {
    hide IsVoid, ParseAttributes, RenderAttrs;
  }

  lemma {:induction false} RunPrinted(us: seq<Unit>, st: State, o: string, r: UnitRun)
    requires us != [] && NoText(us) && Renders(us) && TryUnit(us, st.depth) == Some(r) && !st.hug
    requires EnsureIndent(st.page, LevelOf(us[0].item, st.depth)) == Page(o, false)
    ensures 0 < r.units <= |us|
    ensures PrintFrom(UnitsTokens(us), st)
         == PrintFrom(UnitsTokens(us[r.units..]),
                      State(PutText(After(o + r.text, true), us[r.units - 1].after, st.depth), st.depth, false))
  {
    OpensRun(us, st.depth);
    var len := RunHead(us, st.depth, r);
    hide TryUnit, TryInline, UnitsTokens, TextTokens, EnsureIndent, PutText, Renders, NoText;
    TextPrinted(us[r.units - 1].after, UnitsTokens(us[r.units..]), State(After(o + r.text, true), st.depth, false));
  }

  /** The state once a lexeme outside a run and the text after it are printed, `o` being the
      page up to the lexeme. */
  function StateAfter(u: Unit, st: State, o: string): State {
    var d := DepthAfter(u.item, st.depth);
    State(PutText(After(o + ItemSource(u.item, st.depth), EndsLine(u.item)), u.after, d), d, false)
  }

  lemma {:induction false} UnitPrinted(us: seq<Unit>, st: State, o: string)
    requires us != [] && NoText(us) && Renders(us) && TryUnit(us, st.depth).None? && !st.hug
    requires EnsureIndent(st.page, LevelOf(us[0].item, st.depth)) == Page(o, false)
    requires Settles(us[0].item, st.depth)
    requires us[0].item.Raw? ==> Solid(TokenSource(RawStart(us[0].item), st.depth))
    ensures PrintFrom(UnitsTokens(us), st) == PrintFrom(UnitsTokens(us[1..]), StateAfter(us[0], st, o))
  {
    assert us[0] in us;
    if us[0].item.Raw? { RawUnitPrinted(us, st, o); } else { SingleUnitPrinted(us, st, o); }
  }

  lemma {:induction false} NoRunStep(t: Token, ts: seq<Token>, st: State, st': State)
    requires TryInline([t] + ts, st.depth) == Ok(None) && PrintToken(t, st) == Ok(st')
    ensures PrintFrom([t] + ts, st) == PrintFrom(ts, st')
  {
    hide TryInline, PrintToken;
    assert ([t] + ts)[1..] == ts;
  }

  lemma {:induction false} SingleUnitPrinted(us: seq<Unit>, st: State, o: string)
    requires us != [] && us[0].item.Single? && NoText(us) && Renders(us) && TryUnit(us, st.depth).None? && !st.hug
    requires EnsureIndent(st.page, LevelOf(us[0].item, st.depth)) == Page(o, false)
    requires Settles(us[0].item, st.depth)
    ensures PrintFrom(UnitsTokens(us), st) == PrintFrom(UnitsTokens(us[1..]), StateAfter(us[0], st, o))
  {
    var t := us[0].item.token;
    assert us[0] in us;
    TryMissed(us, st.depth);
    TokenPrinted(t, st, o);
    UnitTokens(us);
    hide TryUnit, TryInline, UnitsTokens, TextTokens, PutText, Renders, NoText, PrintToken, TokenSource, EnsureIndent, DepthAfter;
    var rest := TextTokens(us[0].after) + UnitsTokens(us[1..]);
    var st' := State(After(o + ItemSource(us[0].item, st.depth), EndsLine(us[0].item)), DepthAfter(us[0].item, st.depth), false);
    NoRunStep(t, rest, st, st');
    TextPrinted(us[0].after, UnitsTokens(us[1..]), st');
  }

  lemma {:induction false} RawSource(o: string, item: Item, d: nat)
    requires item.Raw?
    ensures o + TokenSource(RawStart(item), d) + RawGap(item.body, d) + EndTag(item.name) == o + ItemSource(item, d)
  {
    hide TokenSource, RawGap, EndTag;
  }

  lemma {:induction false} RawStateAfter(u: Unit, st: State, o: string)
    requires u.item.Raw?
    ensures StateAfter(u, st, o) == State(PutText(After(o + ItemSource(u.item, st.depth), true), u.after, st.depth), st.depth, false)
  {
    hide PutText, ItemSource, After;
  }

  lemma {:induction false} RawStart1(item: Item, st: State, o: string)
    requires item.Raw? && IsRawContent(item.name) && TokenText(RawStart(item)).Ok? && !st.hug
    requires EnsureIndent(st.page, st.depth) == Page(o, false) && Solid(TokenSource(RawStart(item), st.depth))
    ensures PrintToken(RawStart(item), st) == Ok(State(After(o + TokenSource(RawStart(item), st.depth), true), st.depth + 1, false))
    ensures Solid(o + TokenSource(RawStart(item), st.depth))
  {
    RawIsNotVoid(item.name);
    TagPrinted(RawStart(item), st, o);
  }

  lemma {:induction false} RawUnitPrinted(us: seq<Unit>, st: State, o: string)
    requires us != [] && us[0].item.Raw? && NoText(us) && Renders(us) && TryUnit(us, st.depth).None? && !st.hug
    requires EnsureIndent(st.page, st.depth) == Page(o, false)
    requires Solid(TokenSource(RawStart(us[0].item), st.depth))
    ensures PrintFrom(UnitsTokens(us), st) == PrintFrom(UnitsTokens(us[1..]), StateAfter(us[0], st, o))
  {
    var item := us[0].item;
    assert us[0] in us;
    RawRun(us, st.depth);
    RawStart1(item, st, o);
    RawSource(o, item, st.depth);
    RawStateAfter(us[0], st, o);
    var o1 := o + TokenSource(RawStart(item), st.depth);
    var st1 := State(After(o1, true), st.depth + 1, false);
    hide *;
    NoRunStep(RawStart(item), RawTail(us), st, st1);
    RawTailIs(us);
    RawRest(item, TextTokens(us[0].after) + UnitsTokens(us[1..]), st1, o1);
    TextPrinted(us[0].after, UnitsTokens(us[1..]), State(After(o + ItemSource(item, st.depth), true), st.depth, false));
  }

  lemma {:induction false} RawTailIs(us: seq<Unit>)
    requires us != [] && us[0].item.Raw?
    ensures RawTail(us)
         == BodyTokens(us[0].item.body) + ([HtmlEnd(us[0].item.name)] + (TextTokens(us[0].after) + UnitsTokens(us[1..])))
  {
    hide BodyTokens, TextTokens, UnitsTokens;
  }
}
