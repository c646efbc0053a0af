/** Reading a printed document gives back its lexemes and gaps. */
module Reread {
  import opened Text
  import opened Tokens
  import opened Lexing
  import opened LexingProps
  import opened Lexemes
  import opened AttributeProps
  import opened Layout
  import opened Gaps
  import opened GapFix
  import opened Runs
  import opened NormalForm
  import opened PrintedForm
  import opened PlainTexts
  import opened Relex
  import opened Retag

  // ----- attribute lists -----

  predicate CleanTag(attrsRaw: string) { ParseAttributes(attrsRaw).Ok? && CleanAttrs(ParseAttributes(attrsRaw).value) }

  function Copies(w: string, n: nat): (r: seq<string>)
    ensures |r| == n
  {
    if n == 0 then [] else [w] + Copies(w, n - 1)
  }

  lemma {:induction false} CopiesSeparate(w: string, n: nat)
    requires w != [] && forall c <- w :: IsAsciiSpace(c)
    ensures Separators(Copies(w, n))
  {
    hide IsAsciiSpace;
    if n > 0 { CopiesSeparate(w, n - 1); }
  }

  lemma {:induction false} SpacedIsLaid(rs: seq<string>)
    ensures Spaced(rs) == Laid(Copies(" ", |rs|), rs)
  {
    if rs != [] {
      SpacedIsLaid(rs[1..]);
      assert Copies(" ", |rs|)[1..] == Copies(" ", |rs| - 1);
    }
  }

  lemma {:induction false} StackedIsLaid(rs: seq<string>, d: nat)
    ensures Stacked(rs, d) == Laid(Copies("\n" + Indent(d), |rs|), rs)
  {
    hide Indent;
    if rs != [] {
      StackedIsLaid(rs[1..], d);
      var w := "\n" + Indent(d);
      assert Copies(w, |rs|)[1..] == Copies(w, |rs| - 1);
    }
  }

  lemma {:induction false} IndentSeparates(d: nat)
    ensures forall c <- "\n" + Indent(d) :: IsAsciiSpace(c)
  {
    IndentChars(d);
  }

  /** Alike for the printer: the same renderings on the same number of lines. */
  predicate SameAttrs(a: string, a': string) {
    && ParseAttributes(a).Ok? && ParseAttributes(a').Ok?
    && RenderAttrs(AttrsOf(a)).Ok? && RenderAttrs(AttrsOf(a')) == RenderAttrs(AttrsOf(a))
    && OneLine(AttrsOf(a')) == OneLine(AttrsOf(a))
  }

  lemma {:induction false} AttrsBack(a: string, w: string)
    requires CleanTag(a) && w != [] && forall c <- w :: IsAsciiSpace(c)
    ensures RenderAttrs(AttrsOf(a)).Ok? && |RenderingsOf(a)| == |AttrsOf(a)|
    ensures SameAttrs(a, Laid(Copies(w, |RenderingsOf(a)|), RenderingsOf(a)))
  {
    hide ParseAttributes, RenderAttrs, OneLine, CleanAttr, IsAsciiSpace;
    var attrs := AttrsOf(a);
    var seps := Copies(w, |attrs|);
    CopiesSeparate(w, |attrs|);
    ParseUndoesPrint(attrs, seps, []);
    var laid := Laid(seps, RenderingsOf(a));
    assert laid + [] == laid;
  }

  lemma {:induction false} SpacedBack(a: string)
    requires CleanTag(a)
    ensures SameAttrs(a, Spaced(RenderingsOf(a)))
  {
    AttrsBack(a, " ");
    SpacedIsLaid(RenderingsOf(a));
  }

  lemma {:induction false} StackedBack(a: string, d: nat)
    requires CleanTag(a)
    ensures SameAttrs(a, Stacked(RenderingsOf(a), d))
  {
    IndentSeparates(d);
    AttrsBack(a, "\n" + Indent(d));
    StackedIsLaid(RenderingsOf(a), d);
  }

  lemma {:induction false} AttrsAtBack(a: string, d: nat)
    requires CleanTag(a)
    ensures SameAttrs(a, AttrsAt(a, d)) && AttrsAt(AttrsAt(a, d), d) == AttrsAt(a, d)
  {
    SpacedBack(a);
    StackedBack(a, d + 1);
    hide ParseAttributes, RenderAttrs, OneLine, CleanTag, Spaced, Stacked;
  }

  // ----- start tags -----

  lemma {:induction false} InlineTagIs(name: string, rs: seq<string>, selfClosed: bool)
    ensures InlineTag(name, rs, selfClosed)
         == TagSource(name, Spaced(rs), if SlashClosed(name, selfClosed) then " " else "", SlashClosed(name, selfClosed))
  {
    hide Spaced, SlashClosed;
    var a := "<" + name + Spaced(rs);
    assert a + " />" == a + " " + "/>";
    assert a + ">" == a + "" + ">";
  }

  lemma {:induction false} StackedTagIs(name: string, rs: seq<string>, selfClosed: bool, d: nat)
    ensures "<" + name + Stacked(rs, d + 1) + "\n" + Indent(d) + (if SlashClosed(name, selfClosed) then "/>" else ">")
         == TagSource(name, Stacked(rs, d + 1), "\n" + Indent(d), SlashClosed(name, selfClosed))
  {
    hide Stacked, SlashClosed, Indent;
    var a := "<" + name + Stacked(rs, d + 1);
    assert a + "\n" + Indent(d) == a + ("\n" + Indent(d));
  }

  lemma {:induction false} LaidTagRelexes(name: string, a: string, w: string, v: string, slash: bool, rest: string)
    requires StartNameOk(name) && CleanTag(a) && Blank(v)
    requires w != [] && forall c <- w :: IsAsciiSpace(c)
    ensures var laid := Laid(Copies(w, |RenderingsOf(a)|), RenderingsOf(a));
            var src := TagSource(name, laid, v, slash);
            && StartsTag(src + rest)
            && ReadHtmlTag(src + rest) == Ok(ReadTag(HtmlStart(name, laid, slash), |src|))
  {
    hide ParseAttributes, RenderAttrs, CleanAttrs, IsAsciiSpace, StartNameOk, Blank, ReadHtmlTag, TagSource;
    var attrs := AttrsOf(a);
    CopiesSeparate(w, |attrs|);
    StartRelexes(name, attrs, Copies(w, |attrs|), v, slash, rest);
  }

  lemma {:induction false} InlineStartRelexes(t: Token, rest: string)
    requires t.HtmlStart? && StartNameOk(t.name) && CleanTag(t.attrsRaw)
    ensures var src := InlineTag(t.name, RenderingsOf(t.attrsRaw), t.selfClosed);
            && StartsTag(src + rest)
            && ReadHtmlTag(src + rest) == Ok(ReadTag(InlineAttrs(t), |src|))
  {
    var slash := SlashClosed(t.name, t.selfClosed);
    var v := if slash then " " else "";
    InlineTagIs(t.name, RenderingsOf(t.attrsRaw), t.selfClosed);
    SpacedIsLaid(RenderingsOf(t.attrsRaw));
    LaidTagRelexes(t.name, t.attrsRaw, " ", v, slash, rest);
    hide ReadHtmlTag, InlineTag, TagSource, CleanTag, RenderingsOf, StartNameOk, SlashClosed;
  }

  lemma {:induction false} StackedStartRelexes(t: Token, d: nat, rest: string)
    requires t.HtmlStart? && StartNameOk(t.name) && CleanTag(t.attrsRaw)
    ensures var a := Stacked(RenderingsOf(t.attrsRaw), d + 1);
            var src := TagSource(t.name, a, "\n" + Indent(d), SlashClosed(t.name, t.selfClosed));
            && StartsTag(src + rest)
            && ReadHtmlTag(src + rest) == Ok(ReadTag(HtmlStart(t.name, a, SlashClosed(t.name, t.selfClosed)), |src|))
  {
    StackedIsLaid(RenderingsOf(t.attrsRaw), d + 1);
    IndentSeparates(d + 1);
    IndentBlank(d);
    LaidTagRelexes(t.name, t.attrsRaw, "\n" + Indent(d + 1), "\n" + Indent(d), SlashClosed(t.name, t.selfClosed), rest);
  }

  lemma {:induction false} StartTagRelexes(t: Token, d: nat, rest: string)
    requires t.HtmlStart? && StartNameOk(t.name) && CleanTag(t.attrsRaw)
    ensures StartsTag(TokenSource(t, d) + rest)
    ensures ReadHtmlTag(TokenSource(t, d) + rest) == Ok(ReadTag(NormalToken(t, d), |TokenSource(t, d)|))
  {
    hide ReadHtmlTag, StartNameOk, CleanTag, InlineTag, TagSource, StartsTag, OneLine, RenderingsOf;
    if OneLine(AttrsOf(t.attrsRaw)) {
      InlineStartRelexes(t, rest);
    } else {
      StackedStartRelexes(t, d, rest);
      StackedTagIs(t.name, RenderingsOf(t.attrsRaw), t.selfClosed, d);
    }
  }

  lemma {:induction false} TagTextOf(t: Token)
    requires t.HtmlStart? && CleanTag(t.attrsRaw)
    ensures TokenText(t) == Ok(InlineTag(t.name, RenderingsOf(t.attrsRaw), t.selfClosed))
  {
    hide ParseAttributes, RenderAttrs, CleanAttr, InlineTag;
    SpacedBack(t.attrsRaw);
  }

  lemma {:induction false} StillRaw(t: Token, a: string)
    requires t.HtmlStart?
    ensures OpensRaw(HtmlStart(t.name, a, SlashClosed(t.name, t.selfClosed))) == OpensRaw(t)
  {
    hide IsVoid, IsRawContent;
    if IsRawContent(t.name) { RawIsNotVoid(t.name); }
  }

  // ----- lexemes -----

  /** What a lexeme needs to be read back from its printed form. */
  predicate CleanLexeme(item: Item) {
    match item
    case Single(t) =>
      && (t.HtmlStart? ==> CleanTag(t.attrsRaw))
      && (IsMustache(t) ==> MustacheOk(t.raw) && CleanMustache(t.raw))
    case Raw(_, attrsRaw, _) => CleanTag(attrsRaw)
  }

  lemma {:induction false} TokenRelexes(t: Token, d: nat, rest: string)
    requires ItemLexed(Single(t)) && CleanLexeme(Single(t))
    ensures Scan(TokenSource(t, d) + rest) == Emit(Single(NormalToken(t, d)), |TokenSource(t, d)|)
  {
    if t.HtmlStart? {
      StartTagRelexes(t, d, rest);
      StillRaw(t, AttrsAt(t.attrsRaw, d));
      SingleTag(TokenSource(t, d) + rest, NormalToken(t, d), |TokenSource(t, d)|);
    } else {
      PlainTokenRelexes(t, rest);
      hide Scan, TextOf;
    }
  }

  lemma {:induction false} PlainTokenRelexes(t: Token, rest: string)
    requires ItemLexed(Single(t)) && CleanLexeme(Single(t)) && !t.HtmlStart?
    ensures Scan(TextOf(t) + rest) == Emit(Single(NormalToken(t, 0)), |TextOf(t)|)
  {
    hide Scan, EndNameOk, HtmlCommentLexed, HbsCommentLexed, MustacheLexed, CleanMustache, MustacheOk, NormalizeMustache;
    if t.HtmlEnd? {
      EndText(t.name);
      hide EndTag, TextOf, ReadHtmlTag;
      EndRelexes(t.name, rest);
      SingleTag(EndTag(t.name) + rest, t, |EndTag(t.name)|);
    } else if t.HtmlComment? {
      HtmlCommentRelexes(t.raw, rest);
    } else if t.HbsComment? {
      HbsCommentRelexes(t.raw, rest);
    } else {
      hide TextOf, NormalToken;
      MustacheRelexes(t, rest);
    }
  }

  lemma {:induction false} InlineTokenRelexes(t: Token, rest: string)
    requires ItemLexed(Single(t)) && CleanLexeme(Single(t))
    ensures TextOf(t) != []
    ensures Scan(TextOf(t) + rest) == Emit(Single(InlineAttrs(t)), |TextOf(t)|)
  {
    if t.HtmlStart? {
      TagTextOf(t);
      InlineStartRelexes(t, rest);
      StillRaw(t, Spaced(RenderingsOf(t.attrsRaw)));
      hide TokenText, InlineTag, RenderingsOf, Spaced, ReadHtmlTag, Scan, StartsTag, OpensRaw, CleanTag, StartNameOk;
      SingleTag(TextOf(t) + rest, InlineAttrs(t), |TextOf(t)|);
    } else {
      PlainTokenRelexes(t, rest);
      hide Scan, TextOf;
    }
  }

  lemma {:induction false} RawStartIs(item: Item, d: nat)
    requires item.Raw? && IsRawContent(item.name)
    ensures NormalToken(RawStart(item), d) == HtmlStart(item.name, AttrsAt(item.attrsRaw, d), false)
    ensures InlineAttrs(RawStart(item)) == HtmlStart(item.name, Spaced(RenderingsOf(item.attrsRaw)), false)
  {
    RawIsNotVoid(item.name);
    hide IsVoid, IsRawContent;
  }

  lemma {:induction false} RawItemRelexes(item: Item, d: nat, rest: string)
    requires item.Raw? && ItemLexed(item) && CleanLexeme(item)
    ensures Scan(ItemSource(item, d) + rest) == Emit(NormalItem(item, d), |ItemSource(item, d)|)
  {
    var gap := RawGap(item.body, d);
    StartTagRelexes(RawStart(item), d, gap + (EndTag(item.name) + rest));
    RawStartIs(item, d);
    GapSealed(item.body, d, item.name);
    hide Scan, TokenSource, RawGap, EndTag, CleanTag, StartNameOk, StartsTag, ReadHtmlTag, NormalToken, Sealed, IsRawContent;
    RawRelexes(TokenSource(RawStart(item), d), item.name, AttrsAt(item.attrsRaw, d), gap, rest);
  }

  lemma {:induction false} InlineRawRelexes(item: Item, rest: string)
    requires item.Raw? && ItemLexed(item) && CleanLexeme(item)
    ensures InlineSource(item) != []
    ensures Scan(InlineSource(item) + rest) == Emit(InlineItem(item), |InlineSource(item)|)
  {
    var t := RawStart(item);
    TagTextOf(t);
    InlineStartRelexes(t, item.body + (EndTag(item.name) + rest));
    RawStartIs(item, 0);
    hide Scan, TokenText, EndTag, CleanTag, StartNameOk, StartsTag, ReadHtmlTag, InlineAttrs, InlineTag, IsRawContent, RenderingsOf, Spaced;
    RawRelexes(TextOf(t), item.name, Spaced(RenderingsOf(item.attrsRaw)), item.body, rest);
  }

  lemma {:induction false} ItemRelexes(item: Item, d: nat, rest: string)
    requires ItemLexed(item) && CleanLexeme(item)
    ensures Scan(ItemSource(item, d) + rest) == Emit(NormalItem(item, d), |ItemSource(item, d)|)
  {
    if item.Raw? {
      RawItemRelexes(item, d, rest);
    } else {
      TokenRelexes(item.token, d, rest);
      hide Scan, TokenSource, NormalToken;
    }
  }

  lemma {:induction false} InlineRelexes(item: Item, rest: string)
    requires ItemLexed(item) && CleanLexeme(item)
    ensures InlineSource(item) != []
    ensures Scan(InlineSource(item) + rest) == Emit(InlineItem(item), |InlineSource(item)|)
  {
    if item.Raw? {
      InlineRawRelexes(item, rest);
    } else {
      InlineTokenRelexes(item.token, rest);
      hide Scan, TextOf, InlineAttrs;
    }
  }

  // ----- documents -----

  ghost predicate ReadsAs(u: Unit, rest: string) { u.src != [] && Scan(u.src + rest) == Emit(u.item, |u.src|) }

  /** Whatever follows, the unit's source is read as its lexeme, and its text holds none. */
  ghost predicate Readable(u: Unit) { PlainText(u.after) && forall rest :: ReadsAs(u, rest) }

  lemma {:induction false} LexEmit(t: string, u: Unit, rest: string, us: seq<Unit>)
    requires ReadsAs(u, rest) && Lex([], rest) == Ok(Doc(u.after, us))
    ensures Lex(t, u.src + rest) == Ok(Doc(t, [u] + us))
  {
    hide Scan;
    var s := u.src + rest;
    assert s[|u.src|..] == rest && s[..|u.src|] == u.src;
  }

  ghost predicate AllReadable(us: seq<Unit>) { forall u <- us :: Readable(u) }

  lemma {:induction false} ReadableHead(us: seq<Unit>, rest: string)
    requires us != [] && AllReadable(us)
    ensures PlainText(us[0].after) && ReadsAs(us[0], rest) && AllReadable(us[1..])
  {
    assert us[0] in us;
    assert Readable(us[0]);
    hide Readable, PlainText, ReadsAs;
    forall v | v in us[1..] ensures v in us {}
  }

  lemma {:induction false} SourceParts(us: seq<Unit>)
    requires us != []
    ensures UnitsSource(us) == us[0].src + (us[0].after + UnitsSource(us[1..])) && [us[0]] + us[1..] == us
  {
    hide UnitsSource;
    UnitsSourceHead(us[0], us[1..]);
    assert [us[0]] + us[1..] == us;
    var rest := UnitsSource(us[1..]);
    assert us[0].src + us[0].after + rest == us[0].src + (us[0].after + rest);
  }

  /** A printed document is read back lexeme by lexeme. */
  lemma {:induction false} UnitsReread(t: string, us: seq<Unit>)
    requires AllReadable(us)
    ensures Lex(t, UnitsSource(us)) == Ok(Doc(t, us))
    decreases |us|
  {
    if us != [] {
      hide *;
      var u, rest := us[0], us[0].after + UnitsSource(us[1..]);
      ReadableHead(us, rest);
      UnitsReread(u.after, us[1..]);
      SourceParts(us);
      LexGap([], u.after, UnitsSource(us[1..]));
      assert [] + u.after == u.after;
      LexEmit(t, u, rest, us[1..]);
    } else {
      LexNothing(t);
    }
  }

  lemma {:induction false} LexNothing(t: string)
    ensures Lex(t, []) == Ok(Doc(t, []))
  {}
}
