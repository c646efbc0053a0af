/** The units of a printed document are read back as themselves, and the final clean-up changes
    nothing but comments and raw bodies. */
module Tidy {
  import opened Text
  import opened Tokens
  import opened Lexing
  import opened LexingProps
  import opened Lexemes
  import opened Comments
  import opened AttributeProps
  import opened Layout
  import opened Cleanup
  import opened Neatness
  import opened Needles
  import opened Gaps
  import opened GapFix
  import opened Runs
  import opened NormalForm
  import opened PlainTexts
  import opened Polishing
  import opened Relex
  import opened Retag
  import opened Reread
  import opened Stable

  // ----- gaps -----

  lemma {:induction false} RowNeat(r: string, d: nat)
    requires RowOk(r) && r != []
    ensures Neat("\n" + (Indent(d) + r)) && !IsSpace(r[|r| - 1])
  {
    IndentChars(d);
    NeatBreak(Indent(d));
    NeatOneLine(r);
    NeatJoin("\n" + Indent(d), r);
    assert "\n" + (Indent(d) + r) == "\n" + Indent(d) + r;
  }

  lemma {:induction false} BreakBefore(s: string)
    requires Neat(s) && s != [] && s[0] == '\n' && (|s| > 1 ==> s[1] != '\n')
    ensures Neat("\n" + s)
  {
    var t := "\n" + s;
    forall i | 0 <= i < |t| - 1 && IsSpace(t[i]) && t[i] != '\n' ensures t[i + 1] != '\n' {
      assert t[i] == s[i - 1] && t[i + 1] == s[i - 1 + 1];
    }
    forall i | 0 <= i < |t| - 2 && t[i] == '\n' && t[i + 1] == '\n' ensures t[i + 2] != '\n' {
      if i > 0 { assert t[i] == s[i - 1] && t[i + 1] == s[i - 1 + 1] && t[i + 2] == s[i - 1 + 2]; } else { assert t[2] == s[1]; }
    }
  }

  lemma {:induction false} IndentStarts(d: nat, r: string)
    requires r != [] ==> r[0] != '\n'
    ensures var s := Indent(d) + r; s != [] ==> s[0] != '\n'
  {
    IndentChars(d);
    if Indent(d) != [] { assert Indent(d)[0] in Indent(d); }
  }

  /** The line break before the rows, the rows, and the indent of the next lexeme. */
  function Below(rows: seq<string>, d: nat, next: nat): string { "\n" + (Render(rows, d) + Indent(next)) }

  lemma {:induction false} BelowHead(rows: seq<string>, d: nat, next: nat)
    requires rows != []
    ensures Below(rows, d, next) == "\n" + (if rows[0] == [] then [] else Indent(d) + rows[0]) + Below(rows[1..], d, next)
  {
    hide Indent;
    var rest := Render(rows[1..], d);
    if rows[0] == [] {
      assert "\n" + ("\n" + rest + Indent(next)) == "\n" + [] + ("\n" + (rest + Indent(next)));
    } else {
      assert "\n" + (Indent(d) + rows[0] + "\n" + rest + Indent(next))
          == "\n" + (Indent(d) + rows[0]) + ("\n" + (rest + Indent(next)));
    }
  }

  lemma {:induction false} BelowNothing(d: nat, next: nat)
    ensures Neat(Below([], d, next)) && BreaksOnce(Below([], d, next))
  {
    IndentChars(next);
    NeatBreak(Indent(next));
    IndentStarts(next, []);
    assert Indent(next) + [] == Indent(next);
    assert Below([], d, next) == "\n" + Indent(next);
  }

  /** A line break, and not a second one. */
  predicate BreaksOnce(s: string) { s != [] && s[0] == '\n' && (|s| > 1 ==> s[1] != '\n') }

  lemma {:induction false} GoodRows(rows: seq<string>)
    requires rows != [] && (forall r <- rows :: RowOk(r)) && NoBlankPair(rows)
    ensures RowOk(rows[0]) && (forall r <- rows[1..] :: RowOk(r)) && NoBlankPair(rows[1..])
    ensures rows[0] == [] ==> rows[1..] == [] || rows[1..][0] != []
  {
    hide RowOk;
    assert rows[0] in rows;
    forall q | q in rows[1..] ensures q in rows {}
    forall i | 0 <= i < |rows[1..]| - 1 && rows[1..][i] == [] ensures rows[1..][i + 1] != [] { assert rows[i + 1 + 1] != []; }
    if |rows| > 1 && rows[0] == [] { assert rows[0 + 1] != []; }
  }

  lemma {:induction false} RowBreaksOnce(r: string, d: nat, rest: string)
    requires RowOk(r) && r != []
    ensures BreaksOnce("\n" + (Indent(d) + r) + rest)
  {
    RowStarts(r, d);
    hide Indent;
    assert ("\n" + (Indent(d) + r) + rest)[1] == (Indent(d) + r)[0];
  }

  lemma {:induction false} RowsNeat(rows: seq<string>, d: nat, next: nat)
    requires (forall r <- rows :: RowOk(r)) && NoBlankPair(rows)
    ensures Neat(Below(rows, d, next))
    ensures rows == [] || rows[0] != [] ==> BreaksOnce(Below(rows, d, next))
    decreases |rows|
  {
    if rows == [] {
      BelowNothing(d, next);
    } else {
      GoodRows(rows);
      var rest := Below(rows[1..], d, next);
      hide *;
      BelowHead(rows, d, next);
      RowsNeat(rows[1..], d, next);
      if rows[0] == [] {
        BelowBlank(rest);
      } else {
        RowNeat(rows[0], d);
        RowBreaksOnce(rows[0], d, rest);
        NeatJoin("\n" + (Indent(d) + rows[0]), rest);
      }
    }
  }

  lemma {:induction false} BelowBlank(rest: string)
    requires Neat(rest) && BreaksOnce(rest)
    ensures Neat("\n" + [] + rest)
  {
    BreakBefore(rest);
    assert "\n" + [] + rest == "\n" + rest;
  }

  lemma {:induction false} RowStarts(r: string, d: nat)
    requires RowOk(r) && r != []
    ensures Indent(d) + r != [] && (Indent(d) + r)[0] != '\n'
  {
    IndentStarts(d, r);
  }

  lemma {:induction false} GapNeat(bol: bool, lay: Lay, d: nat, next: nat)
    requires Good(bol, lay)
    ensures Neat(GapText(lay, d, next))
  {
    RowsNeat(lay.rows, d, next);
    NeatOneLine(lay.glue);
    hide Neat, Indent, Render;
    var rest := Below(lay.rows, d, next);
    NeatJoin(lay.glue, rest);
    assert GapText(lay, d, next) == lay.glue + rest;
  }

  lemma {:induction false} GapBeforeNeat(bol: bool, x: string, d: nat, rest: seq<Unit>)
    ensures Neat(GapBefore(LayText(bol, x), d, rest))
  {
    var lay := LayText(bol, x);
    LayGood(bol, x);
    SealGood(bol, lay);
    hide LayText, Good, GapText, Seal, LevelOf, Neat;
    if rest == [] { GapNeat(bol, Seal(lay), d, 0); } else { GapNeat(bol, lay, d, LevelOf(rest[0].item, d)); }
  }

  // ----- lexemes -----

  /** The clean-up changes nothing in the attributes and mustaches of a lexeme, and no vertical tab
      that it could drop follows the name of an end tag in a raw body. */
  predicate TidyLexeme(item: Item) {
    match item
    case Single(t) =>
      if t.HtmlStart? then forall r <- RenderingsOf(t.attrsRaw) :: Neat(r)
      else IsMustache(t) ==> Neat(TextOf(t))
    case Raw(_, attrsRaw, body) => (forall r <- RenderingsOf(attrsRaw) :: Neat(r)) && '\U{B}' !in body
  }

  lemma {:induction false} NameNeat(name: string)
    requires NameLen(name) == |name|
    ensures '\n' !in name && forall i :: 0 <= i < |name| ==> !IsSpace(name[i])
  {
    if name != [] {
      NameNeat(name[1..]);
      assert name == [name[0]] + name[1..];
    }
  }

  lemma {:induction false} LaidNeat(w: string, rs: seq<string>)
    requires Neat(w) && forall r <- rs :: Neat(r) && Firm(r)
    ensures var a := Laid(Copies(w, |rs|), rs); Neat(a) && (a != [] ==> rs != [] && !IsSpace(a[|a| - 1]))
    ensures rs != [] ==> Laid(Copies(w, |rs|), rs) != []
    decreases |rs|
  {
    hide Neat;
    if rs != [] {
      assert rs[0] in rs;
      forall r | r in rs[1..] ensures r in rs {}
      LaidNeat(w, rs[1..]);
      assert Copies(w, |rs|)[1..] == Copies(w, |rs| - 1);
      var rest := Laid(Copies(w, |rs| - 1), rs[1..]);
      NeatJoin(w, rs[0]);
      NeatJoin(w + rs[0], rest);
    } else {
      NeatOneLine([]);
    }
  }

  lemma {:induction false} TagNeat(name: string, a: string, v: string, slash: bool)
    requires StartNameOk(name) && Neat(a) && Neat(v) && (a != [] ==> !IsSpace(a[|a| - 1]))
    ensures Neat(TagSource(name, a, v, slash)) && Firm(TagSource(name, a, v, slash))
  {
    hide Neat;
    NameNeat(name);
    var head := "<" + name;
    NeatOneLine(head);
    NeatJoin(head, a);
    NeatJoin(head + a, v);
    var close := if slash then "/>" else ">";
    NeatOneLine(close);
    NeatJoin(head + a + v, close);
    assert TagSource(name, a, v, slash) == head + a + v + close;
  }

  lemma {:induction false} RenderingsFirm(attrs: seq<Attr>)
    requires CleanAttrs(attrs)
    ensures RenderAttrs(attrs).Ok? && forall r <- RenderAttrs(attrs).value :: Firm(r)
  {
    hide CleanAttr, RenderAttr;
    if attrs != [] {
      assert attrs[0] in attrs;
      forall b | b in attrs[1..] ensures b in attrs {}
      RenderedIsSolid(attrs[0]);
      RenderingsFirm(attrs[1..]);
    }
  }

  lemma {:induction false} RenderingsOfFirm(a: string)
    requires CleanTag(a)
    ensures forall r <- RenderingsOf(a) :: Firm(r)
  {
    RenderingsFirm(AttrsOf(a));
    hide ParseAttributes, RenderAttrs;
  }

  lemma {:induction false} InlineTagNeat(t: Token)
    requires t.HtmlStart? && StartNameOk(t.name) && CleanTag(t.attrsRaw)
    requires forall r <- RenderingsOf(t.attrsRaw) :: Neat(r)
    ensures Neat(InlineTag(t.name, RenderingsOf(t.attrsRaw), t.selfClosed))
  {
    RenderingsOfFirm(t.attrsRaw);
    var rs := RenderingsOf(t.attrsRaw);
    SpacedIsLaid(rs);
    InlineTagIs(t.name, rs, t.selfClosed);
    var slash := SlashClosed(t.name, t.selfClosed);
    hide Neat, Firm, RenderingsOf, CleanTag, SlashClosed, TagSource, Laid;
    NeatOneLine(" ");
    NeatOneLine("");
    LaidNeat(" ", rs);
    TagNeat(t.name, Spaced(rs), if slash then " " else "", slash);
  }

  lemma {:induction false} StartNeat(t: Token, d: nat)
    requires t.HtmlStart? && StartNameOk(t.name) && CleanTag(t.attrsRaw)
    requires forall r <- RenderingsOf(t.attrsRaw) :: Neat(r)
    ensures Neat(TokenSource(t, d))
  {
    var rs := RenderingsOf(t.attrsRaw);
    if OneLine(AttrsOf(t.attrsRaw)) {
      InlineTagNeat(t);
      hide *;
      OneLineSource(t, d);
    } else {
      RenderingsOfFirm(t.attrsRaw);
      StackedSource(t, d);
      hide *;
      StackedIsLaid(rs, d + 1);
      IndentChars(d + 1);
      IndentChars(d);
      NeatBreak(Indent(d + 1));
      NeatBreak(Indent(d));
      LaidNeat("\n" + Indent(d + 1), rs);
      TagNeat(t.name, Stacked(rs, d + 1), "\n" + Indent(d), SlashClosed(t.name, t.selfClosed));
    }
  }

  lemma {:induction false} OneLineSource(t: Token, d: nat)
    requires t.HtmlStart? && OneLine(AttrsOf(t.attrsRaw))
    ensures TokenSource(t, d) == InlineTag(t.name, RenderingsOf(t.attrsRaw), t.selfClosed)
  {
    hide InlineTag, RenderingsOf, OneLine, AttrsOf;
  }

  lemma {:induction false} StackedSource(t: Token, d: nat)
    requires t.HtmlStart? && !OneLine(AttrsOf(t.attrsRaw))
    ensures TokenSource(t, d)
         == TagSource(t.name, Stacked(RenderingsOf(t.attrsRaw), d + 1), "\n" + Indent(d), SlashClosed(t.name, t.selfClosed))
  {
    hide RenderingsOf, OneLine, AttrsOf, Indent, Stacked, SlashClosed;
    StackedTagIs(t.name, RenderingsOf(t.attrsRaw), t.selfClosed, d);
  }

  lemma {:induction false} StartFirm(t: Token, d: nat)
    requires t.HtmlStart?
    ensures Firm(TokenSource(t, d)) && Firm(InlineTag(t.name, RenderingsOf(t.attrsRaw), t.selfClosed))
  {
    hide RenderingsOf, Indent, Spaced, Stacked, SlashClosed, OneLine, AttrsOf;
    InlineTagIs(t.name, RenderingsOf(t.attrsRaw), t.selfClosed);
    if OneLine(AttrsOf(t.attrsRaw)) { OneLineSource(t, d); } else { StackedSource(t, d); }
  }

  lemma {:induction false} EndTagNeat(name: string)
    requires NameLen(name) == |name|
    ensures Neat(EndTag(name)) && Firm(EndTag(name))
  {
    NameNeat(name);
    NeatOneLine(EndTag(name));
  }

  lemma {:induction false} MustacheFirm(t: Token)
    requires IsMustache(t) && MustacheOk(t.raw)
    ensures TokenText(t).Ok? && Firm(TextOf(t))
  {
    hide Trim;
  }

  lemma {:induction false} PlainTokenFirm(t: Token)
    requires ItemLexed(Single(t)) && CleanLexeme(Single(t)) && !t.HtmlStart?
    ensures TokenText(t).Ok? && Firm(TextOf(t))
  {
    if t.HtmlComment? {
      HtmlCommentFirm(t.raw);
    } else if t.HbsComment? {
      HbsCommentFirm(t.raw);
    } else if !t.HtmlEnd? {
      MustacheFirm(t);
    }
  }

  lemma {:induction false} TokenNeat(t: Token, d: nat)
    requires ItemLexed(Single(t)) && CleanLexeme(Single(t))
    ensures TokenText(t).Ok? && Firm(TokenSource(t, d)) && Firm(TextOf(t))
    ensures TidyLexeme(Single(t)) && !IsComment(t) ==> Neat(TokenSource(t, d)) && Neat(TextOf(t))
  {
    hide Firm, Neat;
    if t.HtmlStart? {
      hide TokenSource, CleanTag, TokenText;
      StartFirm(t, d);
      TagTextOf(t);
      if TidyLexeme(Single(t)) { StartNeat(t, d); InlineTagNeat(t); }
    } else {
      PlainTokenFirm(t);
      if t.HtmlEnd? { EndTagNeat(t.name); }
    }
  }

  lemma {:induction false} RawFirm(start: string, gap: string, name: string)
    requires Firm(start) && NameLen(name) == |name|
    ensures Firm(start + gap + EndTag(name))
  {
    EndTagNeat(name);
    hide Neat, EndTag;
  }

  lemma {:induction false} RawItemNeat(item: Item, d: nat)
    requires item.Raw? && ItemLexed(item) && CleanLexeme(item)
    ensures TokenText(RawStart(item)).Ok? && Firm(TokenSource(RawStart(item), d)) && Firm(TextOf(RawStart(item)))
    ensures Firm(ItemSource(item, d)) && Firm(InlineSource(item))
    ensures TidyLexeme(item) ==> Neat(TokenSource(RawStart(item), d)) && Neat(TextOf(RawStart(item)))
  {
    hide Firm, Neat, CleanTag, RawGap, TokenText, TokenSource, IsRawContent, NameLen, Sealed, EndTag, RawBody;
    var t := RawStart(item);
    StartFirm(t, d);
    TagTextOf(t);
    RawFirm(TokenSource(t, d), RawGap(item.body, d), item.name);
    RawFirm(TextOf(t), item.body, item.name);
    if TidyLexeme(item) {
      StartNeat(t, d);
      InlineTagNeat(t);
    }
  }

  /** Printed lexemes start and end in something other than whitespace. */
  lemma {:induction false} ItemNeat(item: Item, d: nat)
    requires ItemLexed(item) && CleanLexeme(item)
    ensures ItemRenders(item) && Firm(ItemSource(item, d)) && Firm(InlineSource(item))
    ensures item.Raw? ==> Firm(TokenSource(RawStart(item), d))
    ensures TidyLexeme(item) && item.Single? && !IsComment(item.token) ==> Neat(ItemSource(item, d)) && Neat(InlineSource(item))
  {
    if item.Raw? {
      RawItemNeat(item, d);
      hide TidyLexeme, Firm, Neat, TokenText, CleanTag, ItemSource, InlineSource, TokenSource, TextOf;
    } else {
      TokenNeat(item.token, d);
      hide TidyLexeme, Firm, Neat, TokenText, CleanTag, TokenSource;
    }
  }

  // ----- units that read back -----

  ghost predicate OpensWith(start: string, name: string, attrsRaw: string, rest: string) {
    StartsTag(start + rest) && ReadHtmlTag(start + rest) == Ok(ReadTag(HtmlStart(name, attrsRaw, false), |start|))
  }

  /** A raw element behind the start tag `start`, whatever follows it. */
  ghost predicate RawReads(u: Unit, start: string)
    requires u.item.Raw?
  {
    && u.src == start + u.item.body + EndTag(u.item.name) && Firm(start) && Neat(start)
    && IsRawContent(u.item.name) && StartNameOk(u.item.name) && Sealed(u.item.body, u.item.name) && '\U{B}' !in u.item.body
    && forall rest :: OpensWith(start, u.item.name, u.item.attrsRaw, rest)
  }

  /** Read back as itself, also once the clean-up has passed over it. */
  ghost predicate ReadsBack(u: Unit) {
    if u.item.Raw? then exists start :: RawReads(u, start)
    else if IsComment(u.item.token) then u.src == u.item.token.raw && ItemLexed(u.item)
    else Neat(u.src) && forall rest :: ReadsAs(u, rest)
  }

  ghost predicate PrintedOk(u: Unit) { PlainText(u.after) && Neat(u.after) && Firm(u.src) && ReadsBack(u) }

  ghost predicate AllPrintedOk(us: seq<Unit>) { forall u <- us :: PrintedOk(u) }

  predicate TidyUnits(us: seq<Unit>) { forall u <- us :: TidyLexeme(u.item) }

  lemma {:induction false} IsRead(u: Unit, rest: string)
    requires u.src != [] && Scan(u.src + rest) == Emit(u.item, |u.src|)
    ensures ReadsAs(u, rest)
  {}

  lemma {:induction false} FirmNotEmpty(s: string)
    requires Firm(s)
    ensures s != []
  {}

  lemma {:induction false} RawIsRead(u: Unit, start: string, rest: string)
    requires u.item.Raw? && RawReads(u, start)
    ensures ReadsAs(u, rest)
  {
    var i := u.item;
    assert OpensWith(start, i.name, i.attrsRaw, i.body + (EndTag(i.name) + rest));
    hide Scan, ReadHtmlTag, StartsTag, EndTag, Sealed, IsRawContent, StartNameOk, Neat;
    RawRelexes(start, i.name, i.attrsRaw, i.body, rest);
    assert u.src != [];
    IsRead(u, rest);
  }

  lemma {:induction false} CommentIsRead(u: Unit, rest: string)
    requires u.item.Single? && IsComment(u.item.token) && u.src == u.item.token.raw && ItemLexed(u.item) && Firm(u.src)
    ensures ReadsAs(u, rest)
  {
    hide Scan, HtmlCommentLexed, HbsCommentLexed;
    var t := u.item.token;
    if t.HtmlComment? { HtmlCommentRelexes(t.raw, rest); } else { HbsCommentRelexes(t.raw, rest); }
    IsRead(u, rest);
  }

  lemma {:induction false} OkReadable(u: Unit)
    requires PrintedOk(u)
    ensures Readable(u)
  {
    hide RawReads, ReadsAs, ItemLexed, PlainText, Neat, Firm;
    forall rest ensures ReadsAs(u, rest) {
      if u.item.Raw? {
        var start :| RawReads(u, start);
        RawIsRead(u, start, rest);
      } else if IsComment(u.item.token) {
        CommentIsRead(u, rest);
      }
    }
  }

  lemma {:induction false} RawStillReads(u: Unit, start: string)
    requires u.item.Raw? && RawReads(u, start)
    ensures PolishUnit(u).item.Raw? && RawReads(PolishUnit(u), start)
  {
    SealedPolished(u.item.body, u.item.name);
    PolishedChars(u.item.body);
    RawPolished(start, u.item.body, u.item.name);
    hide Polished, Sealed, EndTag, Neat, Firm, OpensWith, IsRawContent;
  }

  lemma {:induction false} CommentStillLexed(t: Token)
    requires IsComment(t) && ItemLexed(Single(t))
    ensures ItemLexed(Single(PolishComment(t)))
  {
    if t.HtmlComment? { HtmlCommentPolished(t.raw); } else { HbsCommentPolished(t.raw); }
    hide Polished, HtmlCommentLexed, HbsCommentLexed;
  }

  lemma {:induction false} StillReads(u: Unit)
    requires ReadsBack(u) && Firm(u.src)
    ensures ReadsBack(PolishUnit(u))
  {
    if u.item.Raw? {
      var start :| RawReads(u, start);
      hide RawReads, Polished;
      RawStillReads(u, start);
    } else if IsComment(u.item.token) {
      CommentStillLexed(u.item.token);
      hide ItemLexed, Polished;
    } else {
      PolishedIff(u.src);
      hide ReadsAs, Neat, Polished;
      assert PolishUnit(u) == u;
    }
  }

  /** A polished unit reads back too. */
  lemma {:induction false} OkPolished(u: Unit)
    requires PrintedOk(u)
    ensures PrintedOk(PolishUnit(u))
  {
    PolishedFirm(u.src);
    hide ReadsBack, PlainText, Neat, Firm, Polished, PolishItem;
    StillReads(u);
  }

  lemma {:induction false} AllOkPolished(us: seq<Unit>)
    requires AllPrintedOk(us)
    ensures AllPrintedOk(PolishUnits(us))
  {
    hide PrintedOk, PolishUnit;
    forall u | u in PolishUnits(us) ensures PrintedOk(u) {
      var k :| 0 <= k < |us| && PolishUnits(us)[k] == u;
      PolishAt(us, k);
      assert us[k] in us;
      OkPolished(us[k]);
    }
  }

  // ----- the units of the normal form -----

  lemma {:induction false} AllOkAppend(a: seq<Unit>, b: seq<Unit>)
    requires AllPrintedOk(a) && AllPrintedOk(b)
    ensures AllPrintedOk(a + b)
  {
    hide PrintedOk;
  }

  lemma {:induction false} OneOk(u: Unit)
    requires PrintedOk(u)
    ensures AllPrintedOk([u])
  {
    hide PrintedOk;
  }

  lemma {:induction false} CommentItems(item: Item, d: nat)
    requires item.Single?
    ensures IsComment(item.token) ==>
              NormalItem(item, d) == item && InlineItem(item) == item
              && ItemSource(item, d) == item.token.raw && InlineSource(item) == item.token.raw
    ensures !IsComment(item.token) ==>
              && NormalItem(item, d).Single? && !IsComment(NormalItem(item, d).token)
              && InlineItem(item).Single? && !IsComment(InlineItem(item).token)
  {
    if IsComment(item.token) { CommentSource(item.token, d); } else { NoCommentPrinted(item.token, d); }
    hide NormalToken, InlineAttrs, TokenSource, TextOf;
  }

  lemma {:induction false} SingleReadsBack(u: Unit)
    requires u.item.Single?
    requires if IsComment(u.item.token) then u.src == u.item.token.raw && ItemLexed(u.item)
             else Neat(u.src) && forall rest :: ReadsAs(u, rest)
    ensures ReadsBack(u)
  {
    hide ReadsAs, ItemLexed, Neat;
  }

  lemma {:induction false} RawReadsBack(u: Unit, start: string)
    requires u.item.Raw? && RawReads(u, start)
    ensures ReadsBack(u)
  {
    hide RawReads;
  }

  lemma {:induction false} RawReadsIs(u: Unit, start: string)
    requires u.item.Raw?
    requires u.src == start + u.item.body + EndTag(u.item.name) && Firm(start) && Neat(start)
    requires IsRawContent(u.item.name) && StartNameOk(u.item.name) && Sealed(u.item.body, u.item.name) && '\U{B}' !in u.item.body
    requires forall rest :: OpensWith(start, u.item.name, u.item.attrsRaw, rest)
    ensures RawReads(u, start)
  {
    hide OpensWith, Sealed, EndTag, Firm, Neat, StartNameOk, IsRawContent;
  }

  lemma {:induction false} IsOpened(start: string, name: string, attrsRaw: string, rest: string)
    requires StartsTag(start + rest) && ReadHtmlTag(start + rest) == Ok(ReadTag(HtmlStart(name, attrsRaw, false), |start|))
    ensures OpensWith(start, name, attrsRaw, rest)
  {}

  lemma {:induction false} CleanRaw(item: Item)
    requires item.Raw? && ItemLexed(item) && CleanLexeme(item) && TidyLexeme(item)
    ensures IsRawContent(item.name) && StartNameOk(item.name) && Sealed(item.body, item.name) && '\U{B}' !in item.body
    ensures NameLen(item.name) == |item.name| && CleanTag(item.attrsRaw) && RawStart(item) == HtmlStart(item.name, item.attrsRaw, false)
  {
    hide CleanTag, FindRawClose, EndTag, IsRawContent;
  }

  lemma {:induction false} GapNoTab(body: string, d: nat)
    requires '\U{B}' !in body
    ensures '\U{B}' !in RawGap(body, d)
  {
    IndentChars(d);
    RawBodyIs(body);
    UnbrokenIs(body);
    hide Indent, Trim, LastIndent;
    forall c | c in RawBody(body) ensures c in Unbroken(body) {}
    forall c | c in Unbroken(body) ensures c in body {}
  }

  lemma {:induction false} RawUnitOk(item: Item, d: nat, after: string)
    requires item.Raw? && ItemLexed(item) && CleanLexeme(item) && TidyLexeme(item)
    ensures ReadsBack(Unit(NormalItem(item, d), ItemSource(item, d), after))
  {
    hide *;
    CleanRaw(item);
    RawItemNeat(item, d);
    BodyLaid(item, d);
    GapSealed(item.body, d, item.name);
    GapNoTab(item.body, d);
    RawStartIs(item, d);
    var t := RawStart(item);
    var start := TokenSource(t, d);
    var u := Unit(NormalItem(item, d), ItemSource(item, d), after);
    forall rest ensures OpensWith(start, item.name, AttrsAt(item.attrsRaw, d), rest) {
      StartTagRelexes(t, d, rest);
      IsOpened(start, item.name, AttrsAt(item.attrsRaw, d), rest);
    }
    RawReadsIs(u, start);
    RawReadsBack(u, start);
  }

  lemma {:induction false} InlineRawIs(item: Item)
    requires item.Raw?
    ensures InlineSource(item) == TextOf(RawStart(item)) + item.body + EndTag(item.name)
    ensures InlineItem(item) == Raw(item.name, Spaced(RenderingsOf(item.attrsRaw)), item.body)
  {
    hide TextOf, EndTag, Spaced, RenderingsOf;
  }

  lemma {:induction false} RawInlineOk(item: Item, after: string)
    requires item.Raw? && ItemLexed(item) && CleanLexeme(item) && TidyLexeme(item)
    ensures ReadsBack(Unit(InlineItem(item), InlineSource(item), after))
  {
    hide *;
    CleanRaw(item);
    RawItemNeat(item, 0);
    InlineRawIs(item);
    RawStartIs(item, 0);
    var t := RawStart(item);
    TagTextOf(t);
    OkText(t, InlineTag(t.name, RenderingsOf(t.attrsRaw), t.selfClosed));
    var start := TextOf(t);
    var u := Unit(InlineItem(item), InlineSource(item), after);
    var a := Spaced(RenderingsOf(item.attrsRaw));
    forall rest ensures OpensWith(start, item.name, a, rest) {
      InlineStartRelexes(t, rest);
      IsOpened(start, item.name, a, rest);
    }
    RawReadsIs(u, start);
    RawReadsBack(u, start);
  }

  lemma {:induction false} OkText(t: Token, x: string)
    requires TokenText(t) == Ok(x)
    ensures TextOf(t) == x
  {
    hide TokenText;
  }

  lemma {:induction false} IsOk(u: Unit)
    requires PlainText(u.after) && Firm(u.src) && Neat(u.after) && ReadsBack(u)
    ensures PrintedOk(u)
  {
    hide ReadsBack, PlainText, Neat, Firm;
  }

  lemma {:induction false} InlineOk(item: Item, after: string)
    requires ItemLexed(item) && CleanLexeme(item) && TidyLexeme(item)
    requires PlainText(after) && Neat(after)
    ensures PrintedOk(Unit(InlineItem(item), InlineSource(item), after))
  {
    hide *;
    ItemNeat(item, 0);
    var u := Unit(InlineItem(item), InlineSource(item), after);
    if item.Raw? {
      RawInlineOk(item, after);
    } else {
      CommentItems(item, 0);
      forall rest ensures ReadsAs(u, rest) {
        InlineRelexes(item, rest);
        IsRead(u, rest);
      }
      SingleReadsBack(u);
    }
    IsOk(u);
  }

  lemma {:induction false} UnitReadsBack(item: Item, d: nat, after: string)
    requires ItemLexed(item) && CleanLexeme(item) && TidyLexeme(item)
    ensures ReadsBack(Unit(NormalItem(item, d), ItemSource(item, d), after))
  {
    hide *;
    var u := Unit(NormalItem(item, d), ItemSource(item, d), after);
    if item.Raw? {
      RawUnitOk(item, d, after);
    } else {
      ItemNeat(item, d);
      CommentItems(item, d);
      FirmNotEmpty(u.src);
      forall rest ensures ReadsAs(u, rest) {
        ItemRelexes(item, d, rest);
        IsRead(u, rest);
      }
      SingleReadsBack(u);
    }
  }

  lemma {:induction false} NormalOk1(us: seq<Unit>, d: nat)
    requires us != [] && CleanUnits(us) && TidyUnits(us)
    ensures PrintedOk(NormalUnit(us, d))
  {
    hide *;
    var item := us[0].item;
    CleanHead(us);
    TidyHead(us);
    ItemNeat(item, d);
    NormalParts(us, d);
    GapBeforeNeat(EndsLine(item), us[0].after, DepthAfter(item, d), us[1..]);
    GapStaysPlain(EndsLine(item), us[0].after, DepthAfter(item, d), us[1..]);
    var u := NormalUnit(us, d);
    UnitReadsBack(item, d, u.after);
    IsOk(u);
  }

  lemma {:induction false} TidyDrop(us: seq<Unit>, n: nat)
    requires TidyUnits(us) && n <= |us|
    ensures TidyUnits(us[n..])
  {
    hide TidyLexeme;
    forall u | u in us[n..] ensures u in us {}
  }

  lemma {:induction false} TidyHead(us: seq<Unit>)
    requires TidyUnits(us) && us != []
    ensures TidyLexeme(us[0].item) && TidyUnits(us[1..])
  {
    hide TidyLexeme;
    assert us[0] in us;
    TidyDrop(us, 1);
  }

  lemma {:induction false} CollapsedNeat(x: string)
    ensures Neat(CollapseInline(x))
  {
    NoBreaks(x);
    NeatOneLine(CollapseInline(x));
  }

  lemma {:induction false} NoBreaks(x: string)
    ensures '\n' !in CollapseInline(x)
  {
    var a := NewlinesToSpaces(x);
    var b := HalveSpaces(a);
    SpacesOnly(x);
    HalveSubset(a);
    LeftChars(b);
    RightChars(TrimLeftBlanks(b));
    hide NewlinesToSpaces, HalveSpaces, TrimLeftBlanks, TrimRightBlanks;
  }

  lemma {:induction false} SpacesOnly(x: string)
    ensures '\n' !in NewlinesToSpaces(x)
  {
    if x != [] { SpacesOnly(x[1..]); }
  }

  lemma {:induction false} LeftChars(s: string)
    ensures forall c <- TrimLeftBlanks(s) :: c in s
  {
    if s != [] { LeftChars(s[1..]); }
  }

  lemma {:induction false} RightChars(s: string)
    ensures forall c <- TrimRightBlanks(s) :: c in s
  {
    if s != [] { RightChars(s[..|s| - 1]); }
  }

  lemma {:induction false} CollapsedOk(x: string)
    requires CleanWords(x) && PlainText(x) && !SpansLines(x)
    ensures PlainText(CollapseInline(x)) && Neat(CollapseInline(x))
  {
    CollapsePlain(x);
    CollapsedNeat(x);
  }

  lemma {:induction false} RunOk(us: seq<Unit>, n: nat, last: string)
    requires 1 <= n <= |us| && CleanUnits(us) && TidyUnits(us) && OneLineTexts(us, n)
    requires PlainText(last) && Neat(last)
    ensures AllPrintedOk(RunUnits(us, n, last))
    decreases n
  {
    hide *;
    CleanHead(us);
    TidyHead(us);
    RunUnitsHead(us, n, last);
    var u := RunUnits(us, n, last)[0];
    if n == 1 {
      InlineOk(us[0].item, last);
      OneOk(u);
      assert [u] + [] == [u];
    } else {
      CollapsedOk(us[0].after);
      InlineOk(us[0].item, CollapseInline(us[0].after));
      OneOk(u);
      RunOk(us[1..], n - 1, last);
      AllOkAppend([u], RunUnits(us[1..], n - 1, last));
    }
  }

  lemma {:induction false} NoneOk()
    ensures AllPrintedOk([])
  {}

  lemma {:induction false} AfterOf(us: seq<Unit>, k: nat)
    requires CleanUnits(us) && k < |us|
    ensures PlainText(us[k].after)
  {
    assert us[k] in us;
    assert CleanUnit(us[k]);
  }

  /** Every unit of the printed document is read back as itself. */
  lemma {:induction false} NormalOk(us: seq<Unit>, d: nat)
    requires CleanUnits(us) && TidyUnits(us) && Renders(us)
    ensures AllPrintedOk(NormalUnits(us, d))
    decreases |us|, 1
  {
    if us == [] {
      NoneOk();
    } else if TryUnit(us, d).Some? {
      hide *;
      NormalRunOk(us, d, TryUnit(us, d).value);
    } else {
      hide *;
      NormalUnitOk(us, d);
    }
  }

  lemma {:induction false} NormalRunOk(us: seq<Unit>, d: nat, r: UnitRun)
    requires us != [] && CleanUnits(us) && TidyUnits(us) && Renders(us) && TryUnit(us, d) == Some(r)
    ensures AllPrintedOk(NormalUnits(us, d))
    decreases |us|, 0
  {
    hide *;
    RunTexts(us, d, r);
    var n, rest := r.units, us[r.units..];
    RendersDrop(us, n);
    CleanDrop(us, n);
    TidyDrop(us, n);
    PrintedForm.NormalRunHead(us, d, r);
    NormalOk(rest, d);
    AfterOf(us, n - 1);
    var last := GapBefore(LayText(true, us[n - 1].after), d, rest);
    GapBeforeNeat(true, us[n - 1].after, d, rest);
    GapStaysPlain(true, us[n - 1].after, d, rest);
    RunOk(us, n, last);
    AllOkAppend(RunUnits(us, n, last), NormalUnits(rest, d));
  }

  lemma {:induction false} NormalUnitOk(us: seq<Unit>, d: nat)
    requires us != [] && CleanUnits(us) && TidyUnits(us) && Renders(us) && TryUnit(us, d).None?
    ensures AllPrintedOk(NormalUnits(us, d))
    decreases |us|, 0
  {
    hide *;
    CleanHead(us);
    RendersDrop(us, 1);
    TidyDrop(us, 1);
    PrintedForm.NormalHead(us, d);
    NormalOk1(us, d);
    OneOk(NormalUnit(us, d));
    var d1 := DepthAfter(us[0].item, d);
    NormalOk(us[1..], d1);
    AllOkAppend([NormalUnit(us, d)], NormalUnits(us[1..], d1));
  }

  // ----- lexemes of the normal form -----

  ghost predicate PlainItem(i: Item) {
    if IsCommentItem(i) then Firm(i.token.raw) else PlainToken(OpenerOf(i))
  }

  lemma {:induction false} CleanPlain(item: Item)
    requires ItemLexed(item) && CleanLexeme(item) && TidyLexeme(item)
    ensures PlainItem(item)
  {
    if IsCommentItem(item) {
      LexedFirm(item.token);
    } else {
      hide ItemLexed, CleanLexeme, TidyLexeme, Neat, Firm;
      forall d: nat ensures PlainAt(OpenerOf(item), d) {
        if item.Raw? { RawItemNeat(item, d); } else { TokenNeat(item.token, d); }
      }
    }
  }

  lemma {:induction false} LikeComment(i: Item, i': Item)
    requires LikeItem(i, i')
    ensures IsCommentItem(i') <==> IsCommentItem(i)
    ensures IsCommentItem(i) ==> i' == i
  {
    hide SameAttrs, TokenText;
  }

  lemma {:induction false} LikePlain(i: Item, i': Item)
    requires LikeItem(i, i') && PlainItem(i)
    ensures PlainItem(i')
  {
    LikeComment(i, i');
    if !IsCommentItem(i) {
      forall d: nat ensures PlainAt(OpenerOf(i'), d) {
        assert PlainAt(OpenerOf(i), d);
        LikePrints(OpenerOf(i), OpenerOf(i'), d);
        hide TokenSource, TextOf, Neat, Firm;
      }
    }
  }

  lemma {:induction false} IsPolishable(i: Item)
    requires PlainItem(i)
    requires i.Raw? ==> (i.body == [] || "\n" <= i.body) && NameLen(i.name) == |i.name|
    ensures Polishable(i)
  {
    hide PlainToken, NameLen, Firm;
  }

  lemma {:induction false} GapBreaks(body: string, d: nat)
    ensures "\n" <= RawGap(body, d)
  {
    hide RawBody, Indent, Trim;
  }

  lemma {:induction false} NormalItemPolishable(item: Item, d: nat)
    requires ItemLexed(item) && CleanLexeme(item) && TidyLexeme(item)
    ensures Polishable(NormalItem(item, d))
    ensures (item.Raw? ==> item.body == []) ==> Polishable(InlineItem(item))
  {
    hide *;
    CleanPlain(item);
    ItemLike(item, d);
    LikePlain(item, NormalItem(item, d));
    LikePlain(item, InlineItem(item));
    LikeRaw(item, NormalItem(item, d));
    LikeRaw(item, InlineItem(item));
    if item.Raw? {
      CleanRaw(item);
      BodyLaid(item, d);
      InlineRawIs(item);
      GapBreaks(item.body, d);
    }
    IsPolishable(NormalItem(item, d));
    if item.Raw? ==> item.body == [] { IsPolishable(InlineItem(item)); }
  }

  lemma {:induction false} PolishableAppend(a: seq<Unit>, b: seq<Unit>)
    requires AllPolishable(a) && AllPolishable(b)
    ensures AllPolishable(a + b)
  {
    hide Polishable;
  }

  lemma {:induction false} OnePolishable(u: Unit)
    requires Polishable(u.item)
    ensures AllPolishable([u])
  {
    hide Polishable;
  }

  lemma {:induction false} NonePolishable()
    ensures AllPolishable([])
  {}

  lemma {:induction false} RunPolishable(us: seq<Unit>, n: nat, last: string)
    requires 1 <= n <= |us| && CleanUnits(us) && TidyUnits(us) && RunMembersOf(us, n)
    ensures AllPolishable(RunUnits(us, n, last))
    decreases n
  {
    hide *;
    CleanHead(us);
    TidyHead(us);
    MembersTail(us, n);
    MemberBody(us[0].item);
    RunUnitsTurn(us, n, last);
    NormalItemPolishable(us[0].item, 0);
    var u := Unit(InlineItem(us[0].item), InlineSource(us[0].item), if n == 1 then last else CollapseInline(us[0].after));
    OnePolishable(u);
    if n > 1 {
      RunPolishable(us[1..], n - 1, last);
      PolishableAppend([u], RunUnits(us[1..], n - 1, last));
    }
  }

  lemma {:induction false} MemberBody(i: Item)
    requires RunMember(i)
    ensures i.Raw? ==> i.body == []
  {}

  /** Every lexeme of the normal form may be polished. */
  lemma {:induction false} NormalPolishable(us: seq<Unit>, d: nat)
    requires CleanUnits(us) && TidyUnits(us) && Renders(us)
    ensures AllPolishable(NormalUnits(us, d))
    decreases |us|, 1
  {
    if us == [] {
      NonePolishable();
    } else if TryUnit(us, d).Some? {
      hide *;
      NormalRunPolishable(us, d, TryUnit(us, d).value);
    } else {
      hide *;
      NormalUnitPolishable(us, d);
    }
  }

  lemma {:induction false} NormalRunPolishable(us: seq<Unit>, d: nat, r: UnitRun)
    requires us != [] && CleanUnits(us) && TidyUnits(us) && Renders(us) && TryUnit(us, d) == Some(r)
    ensures AllPolishable(NormalUnits(us, d))
    decreases |us|, 0
  {
    hide *;
    RunIsMembers(us, d, r);
    MembersFit(us, r.units);
    var n, rest := r.units, us[r.units..];
    RendersDrop(us, n);
    CleanDrop(us, n);
    TidyDrop(us, n);
    PrintedForm.NormalRunHead(us, d, r);
    NormalPolishable(rest, d);
    var last := GapBefore(LayText(true, us[n - 1].after), d, rest);
    RunPolishable(us, n, last);
    PolishableAppend(RunUnits(us, n, last), NormalUnits(rest, d));
  }

  lemma {:induction false} NormalUnitPolishable(us: seq<Unit>, d: nat)
    requires us != [] && CleanUnits(us) && TidyUnits(us) && Renders(us) && TryUnit(us, d).None?
    ensures AllPolishable(NormalUnits(us, d))
    decreases |us|, 0
  {
    hide *;
    CleanHead(us);
    TidyHead(us);
    RendersDrop(us, 1);
    PrintedForm.NormalHead(us, d);
    NormalParts(us, d);
    NormalItemPolishable(us[0].item, d);
    OnePolishable(NormalUnit(us, d));
    var d1 := DepthAfter(us[0].item, d);
    NormalPolishable(us[1..], d1);
    PolishableAppend([NormalUnit(us, d)], NormalUnits(us[1..], d1));
  }

  // ----- the texts of any printed document -----

  predicate NeatTexts(us: seq<Unit>) { forall u <- us :: Neat(u.after) }

  lemma {:induction false} NeatTextsAppend(a: seq<Unit>, b: seq<Unit>)
    requires NeatTexts(a) && NeatTexts(b)
    ensures NeatTexts(a + b)
  {
    hide Neat;
  }

  lemma {:induction false} OneNeatText(u: Unit)
    requires Neat(u.after)
    ensures NeatTexts([u]) && NeatTexts([])
  {
    hide Neat;
  }

  lemma {:induction false} RunNeatTexts(us: seq<Unit>, n: nat, last: string)
    requires 1 <= n <= |us| && Neat(last)
    ensures NeatTexts(RunUnits(us, n, last))
    decreases n
  {
    hide *;
    RunUnitsTurn(us, n, last);
    CollapsedNeat(us[0].after);
    var u := Unit(InlineItem(us[0].item), InlineSource(us[0].item), if n == 1 then last else CollapseInline(us[0].after));
    OneNeatText(u);
    if n > 1 {
      RunNeatTexts(us[1..], n - 1, last);
      NeatTextsAppend([u], RunUnits(us[1..], n - 1, last));
    }
  }

  lemma {:induction false} NormalNeatTexts(us: seq<Unit>, d: nat)
    requires Renders(us)
    ensures NeatTexts(NormalUnits(us, d))
    decreases |us|, 1
  {
    if us != [] {
      if TryUnit(us, d).Some? {
        hide *;
        NormalRunNeatTexts(us, d, TryUnit(us, d).value);
      } else {
        hide *;
        NormalUnitNeatTexts(us, d);
      }
    }
  }

  lemma {:induction false} NormalRunNeatTexts(us: seq<Unit>, d: nat, r: UnitRun)
    requires us != [] && Renders(us) && TryUnit(us, d) == Some(r)
    ensures NeatTexts(NormalUnits(us, d))
    decreases |us|, 0
  {
    hide *;
    RunIsMembers(us, d, r);
    MembersFit(us, r.units);
    var n, rest := r.units, us[r.units..];
    RendersDrop(us, n);
    PrintedForm.NormalRunHead(us, d, r);
    NormalNeatTexts(rest, d);
    GapBeforeNeat(true, us[n - 1].after, d, rest);
    var last := GapBefore(LayText(true, us[n - 1].after), d, rest);
    RunNeatTexts(us, n, last);
    NeatTextsAppend(RunUnits(us, n, last), NormalUnits(rest, d));
  }

  lemma {:induction false} NormalUnitNeatTexts(us: seq<Unit>, d: nat)
    requires us != [] && Renders(us) && TryUnit(us, d).None?
    ensures NeatTexts(NormalUnits(us, d))
    decreases |us|, 0
  {
    hide *;
    RendersDrop(us, 1);
    PrintedForm.NormalHead(us, d);
    NormalParts(us, d);
    GapBeforeNeat(EndsLine(us[0].item), us[0].after, DepthAfter(us[0].item, d), us[1..]);
    OneNeatText(NormalUnit(us, d));
    var d1 := DepthAfter(us[0].item, d);
    NormalNeatTexts(us[1..], d1);
    NeatTextsAppend([NormalUnit(us, d)], NormalUnits(us[1..], d1));
  }

  // ----- the clean-up of a page -----

  /** The text ends in exactly one line break. */
  predicate EndsOnce(s: string) { s != [] && s[|s| - 1] == '\n' && (|s| > 1 ==> s[|s| - 2] != '\n') }

  /** A unit whose source the clean-up treats by itself. */
  predicate Separate(u: Unit) { Firm(u.src) && Neat(u.after) }

  predicate AllSeparate(us: seq<Unit>) { forall u <- us :: Separate(u) }

  lemma {:induction false} LastOf(a: string, c: string, b: string)
    requires c != []
    ensures var s := a + c + b;
            && s[|s| - 1] == (if b == [] then c[|c| - 1] else b[|b| - 1])
            && (|b| > 1 ==> s[|s| - 2] == b[|b| - 2])
  {}

  lemma {:induction false} EndsBehind(a: string, c: string, b: string)
    requires Firm(c) && EndsOnce(a + c + b)
    ensures EndsOnce(b)
  {
    LastOf(a, c, b);
  }

  lemma {:induction false} NeatPage(t: string)
    requires Neat(t) && EndsOnce(t)
    ensures PostProcess(t) == t
  {
    var x := t[..|t| - 1];
    assert t == x + "\n";
    NeatSettled(x);
    SettledIsFixed(t);
  }

  lemma {:induction false} SeparateHead(us: seq<Unit>)
    requires us != [] && AllSeparate(us)
    ensures Firm(us[0].src) && Neat(us[0].after) && AllSeparate(us[1..])
  {
    hide Firm, Neat;
    assert us[0] in us;
    assert Separate(us[0]);
    forall u | u in us[1..] ensures Separate(u) { assert u in us; }
  }

  lemma {:induction false} SourceTurn(us: seq<Unit>)
    requires us != []
    ensures UnitsSource(us) == us[0].src + us[0].after + UnitsSource(us[1..])
    ensures UnitsSource([]) == []
  {}

  /** The clean-up of a page polishes its lexemes one by one. */
  lemma {:induction false} PagePolished(t: string, us: seq<Unit>)
    requires Neat(t) && AllSeparate(us) && EndsOnce(t + UnitsSource(us))
    ensures PostProcess(t + UnitsSource(us)) == t + UnitsSource(PolishUnits(us))
    decreases |us|
  {
    hide *;
    if us == [] {
      NothingPolished();
      assert t + [] == t;
      NeatPage(t);
    } else {
      SeparateHead(us);
      SourceTurn(us);
      PolishHead(us);
      PolishParts(us[0].item, us[0].src, us[0].after);
      assert us[0] == Unit(us[0].item, us[0].src, us[0].after);
      SourceTurn(PolishUnits(us));
      var c, x, rest := us[0].src, us[0].after, UnitsSource(us[1..]);
      assert t + (c + x + rest) == t + c + (x + rest);
      EndsBehind(t, c, x + rest);
      CleanupIsLocal(t, c, x + rest);
      PolishedIff(t);
      PagePolished(x, us[1..]);
      var rest' := UnitsSource(PolishUnits(us[1..]));
      assert t + Polished(c) + (x + rest') == t + (Polished(c) + x + rest');
    }
  }

  lemma {:induction false} NothingPolished()
    ensures PolishUnits([]) == [] && UnitsSource([]) == []
  {}
}
