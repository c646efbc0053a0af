/** Templates at the edges of what the formatter keeps: comments that the clean-up changes, spaces that
    shrink at every pass, a mustache that becomes a comment, and attributes in three braces. */
module Boundaries {
  import opened Text
  import opened Tokens
  import opened Lexing
  import opened LexingProps
  import opened Lexemes
  import opened AttributeProps
  import opened Layout
  import opened Cleanup
  import opened Neatness
  import opened Needles
  import opened Gaps
  import opened GapFix
  import opened Runs
  import opened NormalForm
  import opened PlainTexts
  import opened PrintedForm
  import opened Polishing
  import opened Relex
  import opened Retag
  import opened Reread
  import opened Stable
  import opened Comments
  import opened Tidy
  import opened Idempotence
  import Failures

  // ----- gaps at the end of a page -----

  /** Nothing, or the newline that ends the page. */
  predicate PageTail(x: string) { x == "" || x == "\n" }

  lemma {:induction false} TailFacts(x: string)
    requires PageTail(x)
    ensures Trim(x) == [] && CountNewlines(x) <= 1 && PlainText(x) && CleanWords(x)
  {
    NothingTrims();
    BlankTrims("\n");
    if x == "\n" { assert x[1..] == []; }
    assert PlainBlanks(x);
  }

  lemma {:induction false} NothingLaid(bol: bool, x: string)
    requires PageTail(x)
    ensures GapBefore(LayText(bol, x), 0, []) == "\n"
  {
    TailFacts(x);
    NoIndent();
    RenderNothing(0);
    hide Trim, CountNewlines, Indent, Render, PlainText, CleanWords;
    assert LayText(bol, x) == Lay([], []);
    assert [] + "\n" + [] + [] == "\n";
  }

  // ----- comments -----

  lemma {:induction false} ReadAlone(u: Unit)
    requires ReadsAs(u, u.after) && PlainText(u.after)
    ensures Lex([], u.src + u.after) == Ok(Doc([], [u]))
  {
    LexGap([], u.after, []);
    LexNothing(u.after);
    hide ReadsAs, PlainText, Lex;
    assert u.after + [] == u.after && [] + u.after == u.after;
    LexEmit([], u, u.after, []);
    assert [u] + [] == [u];
  }

  lemma {:induction false} AloneSource(u: Unit)
    ensures UnitsSource([u]) == u.src + u.after
  {
    assert [u][1..] == [];
    assert u.src + u.after + [] == u.src + u.after;
  }

  lemma {:induction false} OneNormal(u: Unit)
    requires Renders([u]) && TryUnit([u], 0).None?
    ensures NormalUnits([u], 0) == [Unit(NormalItem(u.item, 0), ItemSource(u.item, 0), GapBefore(LayText(EndsLine(u.item), u.after), DepthAfter(u.item, 0), []))]
  {
    hide TryUnit, NormalItem, ItemSource, GapBefore, LayText, EndsLine, DepthAfter, Renders;
    var us := [u];
    assert us[1..] == [] && us[0] == u;
    NoRenders();
    NormalHead(us, 0);
    NormalParts(us, 0);
    NoUnits(DepthAfter(u.item, 0));
  }

  lemma {:induction false} NoRenders()
    ensures Renders([])
  {}

  lemma {:induction false} NoUnits(d: nat)
    ensures Renders([]) && NormalUnits([], d) == []
  {}

  function CommentUnit(c: string, after: string): Unit { Unit(Single(HtmlComment(c)), c, after) }

  lemma {:induction false} CommentNormal(c: string, after: string)
    requires PageTail(after)
    ensures Renders([CommentUnit(c, after)])
    ensures NormalUnits([CommentUnit(c, after)], 0) == [CommentUnit(c, "\n")]
  {
    var u := CommentUnit(c, after);
    assert Renders([u]);
    CommentSource(HtmlComment(c), 0);
    hide Renders, TryUnit, NormalToken, TokenSource, GapBefore, LayText, InlineOpener, OpensElement, OpensBlock;
    assert [u][0] == u;
    TryNothing([u], 0);
    NothingLaid(true, after);
    OneNormal(u);
  }

  lemma {:induction false} CommentClean(c: string, after: string)
    requires HtmlCommentLexed(c) && PageTail(after)
    ensures CleanDoc(Doc([], [CommentUnit(c, after)]))
    ensures Lex([], c + after) == Ok(Doc([], [CommentUnit(c, after)]))
  {
    var u := CommentUnit(c, after);
    TailFacts(after);
    HtmlCommentFirm(c);
    CommentIsRead(u, after);
    ReadAlone(u);
    hide HtmlCommentLexed, Trim, CleanWords, PlainText, Lex, ReadsAs, Firm;
    assert CleanUnit(u) && TidyLexeme(u.item);
    assert PlainText([]) by { TailFacts([]); }
  }

  lemma {:induction false} EmptyLead()
    ensures LeadText([], false) == []
  {
    NothingTrims();
  }

  /** A comment alone in a template is printed polished, at every pass. */
  lemma {:induction false} CommentFormats(c: string, after: string)
    requires HtmlCommentLexed(c) && PageTail(after)
    ensures Format(c + after) == Ok(Polished(c) + "\n")
  {
    hide *;
    CommentClean(c, after);
    var d := Doc([], [CommentUnit(c, after)]);
    CleanFormats(c + after, d);
    CommentNormal(c, after);
    NormalDocIs(d);
    EmptyLead();
    OnePolished(CommentUnit(c, "\n"));
    var u := PolishUnit(CommentUnit(c, "\n"));
    PolishedSources(CommentUnit(c, "\n"));
    CommentUnitIs(c, "\n");
    AloneSource(u);
    assert [] + (Polished(c) + "\n") == Polished(c) + "\n";
  }

  lemma {:induction false} CommentUnitIs(c: string, after: string)
    ensures CommentUnit(c, after).src == c && CommentUnit(c, after).after == after
  {}

  lemma {:induction false} DashFree(body: string)
    requires '-' !in body
    ensures Find(body + "-->", "-->") == Some(|body|)
  {
    var s := body + "-->";
    if body == [] {
      assert s == "-->";
    } else {
      assert body[0] in body && s[0] == body[0];
      assert s[1..] == body[1..] + "-->";
      DashFree(body[1..]);
    }
  }

  lemma {:induction false} CommentLexed(body: string)
    requires '-' !in body
    ensures HtmlCommentLexed("<!--" + body + "-->")
  {
    DashFree(body);
    hide Find;
    var raw := "<!--" + body + "-->";
    assert raw[4..] == body + "-->";
  }

  // ----- polishing line by line -----

  lemma {:induction false} DropBlank(w: string, z: string)
    requires Blank(w) && '\n' !in w
    ensures DropTrailing(w + "\n" + z) == "\n" + DropTrailing(z)
  {
    var s := w + "\n" + z;
    DropTurn(s);
    if w == [] {
      assert s == "\n" + z && s[1..] == z;
    } else {
      assert w[0] in w && s[1..] == w[1..] + "\n" + z;
      DropBlank(w[1..], z);
      BlankToBreak(w, z);
      hide DropTrailing;
      assert [] + DropTrailing(s[1..]) == DropTrailing(s[1..]);
    }
  }

  lemma {:induction false} BlankToBreak(w: string, z: string)
    requires Blank(w)
    ensures ToBreak(w + "\n" + z)
  {
    var s := w + "\n" + z;
    if w != [] {
      assert s[1..] == w[1..] + "\n" + z;
      BlankToBreak(w[1..], z);
    }
  }

  lemma {:induction false} CapOneLine(x: string, z: string, run: nat)
    requires '\n' !in x && x != []
    ensures CapNewlines(x + "\n" + z, run) == x + "\n" + CapNewlines(z, 1)
  {
    hide CapNewlines;
    var s := x + "\n" + z;
    CapTurnOf(s, run);
    assert x[0] in x && s[0] == x[0] && s[1..] == x[1..] + "\n" + z;
    if |x| > 1 {
      CapOneLine(x[1..], z, 0);
      assert [x[0]] + (x[1..] + "\n" + CapNewlines(z, 1)) == x + "\n" + CapNewlines(z, 1);
    } else {
      assert s[1..] == "\n" + z && ("\n" + z)[1..] == z;
      CapTurnOf("\n" + z, 0);
      assert [x[0]] + ("\n" + CapNewlines(z, 1)) == x + "\n" + CapNewlines(z, 1);
    }
  }

  /** The first line of a polished text. */
  lemma {:induction false} FirstLine(x: string, w: string, z: string)
    requires '\n' !in x && Firm(x) && Blank(w) && '\n' !in w
    ensures Polished(x + w + "\n" + z) == x + "\n" + Inner(z)
  {
    hide CapNewlines, DropTrailing, Blank;
    CapOneLine(x + w, z, 0);
    var t := CapNewlines(z, 1);
    assert x + w + "\n" + t == x + (w + "\n" + t);
    DropJoin(x, w + "\n" + t);
    NeatOneLine(x);
    DropNothingIff(x);
    DropBlank(w, t);
    assert x + ("\n" + DropTrailing(t)) == x + "\n" + DropTrailing(t);
  }

  /** A line of whitespace only. */
  lemma {:induction false} SpaceLine(w: string, z: string)
    requires w != [] && Blank(w) && '\n' !in w
    ensures Inner(w + "\n" + z) == "\n" + Inner(z)
  {
    hide CapNewlines, DropTrailing, Blank;
    CapOneLine(w, z, 1);
    DropBlank(w, CapNewlines(z, 1));
  }

  lemma {:induction false} CapBreak(z: string, run: nat)
    ensures CapNewlines("\n" + z, run) == (if run + 1 <= 2 then "\n" else []) + CapNewlines(z, run + 1)
  {
    CapTurnOf("\n" + z, run);
    hide CapNewlines;
    assert ("\n" + z)[1..] == z;
  }

  lemma {:induction false} OneLineKept(y: string, run: nat)
    requires '\n' !in y
    ensures CapNewlines(y, run) == y && DropTrailing(y) == y
  {
    CapFresh(y, run);
    NeatOneLine(y);
    NeatCapped(y, 0);
    CapNothing(y, 0);
    DropNothingIff(y);
    hide CapNewlines, DropTrailing;
  }

  lemma {:induction false} InnerIs(z: string)
    ensures Inner(z) == DropTrailing(CapNewlines(z, 1))
  {}

  lemma {:induction false} BlankNothing()
    ensures Blank([])
  {}

  /** Two empty lines. */
  lemma {:induction false} EmptyLines(y: string)
    requires '\n' !in y
    ensures Inner("\n\n" + y) == "\n" + y
  {
    hide *;
    assert "\n\n" + y == "\n" + ("\n" + y);
    InnerIs("\n\n" + y);
    CapBreak("\n" + y, 1);
    CapBreak(y, 2);
    OneLineKept(y, 3);
    assert [] + y == y && [] + "\n" + y == "\n" + y;
    BlankNothing();
    DropBlank([], y);
  }

  lemma {:induction false} LastLineKept(y: string)
    requires '\n' !in y
    ensures Inner(y) == y
  {
    InnerTail([], y);
    assert [] + y == y;
  }

  /** A space before a line break inside a comment is dropped. */
  lemma {:induction false} CommentChanged()
    ensures Format("<!-- a \n-->") == Ok("<!-- a\n-->\n")
  {
    hide *;
    var c := "<!-- a \n-->";
    assert c == "<!--" + " a \n" + "-->" && c == "<!-- a" + " " + "\n" + "-->";
    CommentLexed(" a \n");
    PieceFacts();
    FirstLine("<!-- a", " ", "-->");
    LastLineKept("-->");
    assert "<!-- a" + "\n" + "-->" == "<!-- a\n-->";
    CommentFormats(c, "");
    assert c + "" == c;
    assert "<!-- a\n-->" + "\n" == "<!-- a\n-->\n";
  }

  lemma {:induction false} PieceFacts()
    ensures Firm("<!-- a") && Blank(" ") && Blank([]) && PageTail("") && PageTail("\n")
  {}

  /** Two lines of spaces inside a comment become empty ones, of which the next pass drops one. */
  lemma {:induction false} CommentTwice()
    ensures Format("<!-- a\n \n \nb -->") == Ok("<!-- a\n\n\nb -->\n")
    ensures Format("<!-- a\n\n\nb -->\n") == Ok("<!-- a\n\nb -->\n")
  {
    hide *;
    PieceFacts();
    var c, c' := "<!-- a\n \n \nb -->", "<!-- a\n\n\nb -->";
    assert c == "<!--" + " a\n \n \nb " + "-->" && c' == "<!--" + " a\n\n\nb " + "-->";
    CommentLexed(" a\n \n \nb ");
    CommentLexed(" a\n\n\nb ");
    CommentFormats(c, "");
    CommentFormats(c', "\n");
    assert c + "" == c && c' + "\n" == "<!-- a\n\n\nb -->\n";
    FirstPolish(c);
    SecondPolish(c');
    assert "<!-- a\n\nb -->" + "\n" == "<!-- a\n\nb -->\n";
  }

  lemma {:induction false} FirstPolish(c: string)
    requires c == "<!-- a\n \n \nb -->"
    ensures Polished(c) == "<!-- a\n\n\nb -->"
  {
    hide *;
    PieceFacts();
    assert c == "<!-- a" + [] + "\n" + " \n \nb -->";
    FirstLine("<!-- a", [], " \n \nb -->");
    assert " \n \nb -->" == " " + "\n" + " \nb -->" && " \nb -->" == " " + "\n" + "b -->";
    SpaceLine(" ", " \nb -->");
    SpaceLine(" ", "b -->");
    LastLineKept("b -->");
    assert "<!-- a" + "\n" + ("\n" + ("\n" + "b -->")) == "<!-- a\n\n\nb -->";
  }

  lemma {:induction false} SecondPolish(c: string)
    requires c == "<!-- a\n\n\nb -->"
    ensures Polished(c) == "<!-- a\n\nb -->"
  {
    hide *;
    PieceFacts();
    assert c == "<!-- a" + [] + "\n" + ("\n\n" + "b -->");
    FirstLine("<!-- a", [], "\n\n" + "b -->");
    EmptyLines("b -->");
    assert "<!-- a" + "\n" + ("\n" + "b -->") == "<!-- a\n\nb -->";
  }

  // ----- spaces inside an inline run -----

  const PARAGRAPH := HtmlStart("p", [], false)

  /** `<p>x</p>` and the text after it. */
  function ParagraphUnits(x: string, after: string): seq<Unit> {
    [Unit(Single(PARAGRAPH), "<p>", x), Unit(Single(HtmlEnd("p")), "</p>", after)]
  }

  lemma {:induction false} LongVoids()
    ensures !IsVoid("p")
  {
    var vs := VOID_TAGS;
    assert |vs| == 13;
    assert forall k | 0 <= k < 13 :: |vs[k]| > 1;
    var p := "p";
    assert |p| == 1;
  }

  lemma {:induction false} LongRaws()
    ensures !IsRawContent("p")
  {
    var vs := RAW_CONTENT_TAGS;
    assert forall k | 0 <= k < 4 :: |vs[k]| > 1;
    var p := "p";
    assert |p| == 1;
  }

  lemma {:induction false} LetterName()
    ensures StartNameOk("p") && EndNameOk("p")
  {
    var p := "p";
    assert p[1..] == [] && p[0] == 'p';
    assert Lower(p) == [LowerChar('p')] + Lower([]);
    assert NameLen(p) == 1 + NameLen([]);
  }

  lemma {:induction false} ParagraphName()
    ensures StartNameOk("p") && EndNameOk("p") && !IsVoid("p") && !IsRawContent("p")
  {
    hide *;
    LongVoids();
    LongRaws();
    LetterName();
  }

  lemma {:induction false} NoAttributes()
    ensures ParseAttributes([]) == Ok([]) && RenderAttrs([]) == Ok([]) && OneLine([]) && CleanTag([])
    ensures AttrsOf([]) == [] && RenderingsOf([]) == [] && Spaced([]) == []
  {}

  lemma {:induction false} ParagraphTag()
    ensures TokenText(PARAGRAPH) == Ok("<p>") && InlineOpener(PARAGRAPH) == Ok(Some("<p>"))
    ensures TokenSource(PARAGRAPH, 0) == "<p>" && NormalToken(PARAGRAPH, 0) == PARAGRAPH && InlineAttrs(PARAGRAPH) == PARAGRAPH
    ensures TokenText(HtmlEnd("p")) == Ok("</p>") && OpensElement(PARAGRAPH)
  {
    ParagraphName();
    NoAttributes();
    hide ParseAttributes, RenderAttrs, OneLine, IsVoid, AttrsOf, RenderingsOf, Spaced;
    assert "<" + "p" + [] + ">" == "<p>" && "</" + "p" + ">" == "</p>";
  }

  lemma {:induction false} ParagraphClean()
    ensures ItemLexed(Single(PARAGRAPH)) && CleanLexeme(Single(PARAGRAPH)) && TidyLexeme(Single(PARAGRAPH))
    ensures ItemLexed(Single(HtmlEnd("p"))) && CleanLexeme(Single(HtmlEnd("p"))) && TidyLexeme(Single(HtmlEnd("p")))
  {
    ParagraphName();
    NoAttributes();
    hide StartNameOk, EndNameOk, IsRawContent, IsVoid, CleanTag, RenderingsOf;
  }

  lemma {:induction false} ParagraphDoc(x: string, after: string)
    requires PlainText(x) && CleanWords(x) && PageTail(after)
    ensures CleanUnits(ParagraphUnits(x, after)) && TidyUnits(ParagraphUnits(x, after))
    ensures CleanDoc(Doc([], ParagraphUnits(x, after)))
  {
    ParagraphClean();
    TailFacts(after);
    TailFacts([]);
    hide ItemLexed, CleanLexeme, TidyLexeme, PlainText, CleanWords;
    var us := ParagraphUnits(x, after);
    forall u | u in us ensures CleanUnit(u) && TidyLexeme(u.item) { assert u == us[0] || u == us[1]; }
  }

  lemma {:induction false} ParagraphUnitsAre(x: string, after: string)
    ensures var us := ParagraphUnits(x, after);
            && |us| == 2 && us[0] == Unit(Single(PARAGRAPH), "<p>", x) && us[1] == Unit(Single(HtmlEnd("p")), "</p>", after)
            && us[1..] == [us[1]] && us[2..] == []
  {}

  lemma {:induction false} ParagraphRead(x: string, after: string)
    requires PlainText(x) && PageTail(after)
    ensures Lex([], "<p>" + x + "</p>" + after) == Ok(Doc([], ParagraphUnits(x, after)))
  {
    hide *;
    ParagraphClean();
    ParagraphTag();
    TailFacts(after);
    ParagraphUnitsAre(x, after);
    var us := ParagraphUnits(x, after);
    forall rest ensures ReadsAs(us[0], rest) && ReadsAs(us[1], rest) {
      TokenRelexes(PARAGRAPH, 0, rest);
      PlainTokenRelexes(HtmlEnd("p"), rest);
      EndIs();
      IsRead(us[0], rest);
      IsRead(us[1], rest);
    }
    BothReadable(us);
    UnitsReread([], us);
    SourceTurn(us);
    AloneSource(us[1]);
    assert "<p>" + x + ("</p>" + after) == "<p>" + x + "</p>" + after;
  }

  lemma {:induction false} EndIs()
    ensures TextOf(HtmlEnd("p")) == "</p>" && NormalToken(HtmlEnd("p"), 0) == HtmlEnd("p")
  {
    EndText("p");
    assert "</" + "p" + ">" == "</p>";
  }

  lemma {:induction false} BothReadable(us: seq<Unit>)
    requires |us| == 2 && PlainText(us[0].after) && PlainText(us[1].after)
    requires forall rest :: ReadsAs(us[0], rest) && ReadsAs(us[1], rest)
    ensures AllReadable(us)
  {
    hide ReadsAs, PlainText;
    forall u | u in us ensures Readable(u) { assert u == us[0] || u == us[1]; }
  }

  lemma {:induction false} ParagraphEnd(x: string, after: string)
    requires !SpansLines(x)
    ensures var us := [Unit(Single(HtmlEnd("p")), "</p>", after)];
            RunEnd(us, "p") == Some(0) && RunSingle(x, us, 0) && RunReady(us, 0) && RunBody(x, us, 0) == CollapseInline(x)
  {
    hide SpansLines, CollapseInline;
    var us := [Unit(Single(HtmlEnd("p")), "</p>", after)];
    assert us[0].item.token == HtmlEnd("p") && !OpensLevel(us[0].item);
    assert CollapseInline(x) + [] == CollapseInline(x);
  }

  lemma {:induction false} ParagraphRun(x: string, after: string)
    requires CleanWords(x) && !SpansLines(x) && |CollapseInline(x)| <= 93
    ensures Renders(ParagraphUnits(x, after))
    ensures TryUnit(ParagraphUnits(x, after), 0) == Some(UnitRun("<p>" + CollapseInline(x) + "</p>", 2))
  {
    ParagraphTag();
    CollapsedText(x);
    hide SpansLines, CollapseInline, TokenText, InlineOpener, TryUnit, Trim, HalveSpaces;
    var us := ParagraphUnits(x, after);
    forall u | u in us ensures ItemRenders(u.item) { assert u == us[0] || u == us[1]; }
    ParagraphUnitsAre(x, after);
    ParagraphEnd(x, after);
    TrySingle(us, 0);
    var line := "<p>" + CollapseInline(x) + "</p>";
    assert EndTag("p") == "</p>";
    StillFits("<p>", CollapseInline(x), CollapseInline(x), "</p>", 2, 0);
  }

  lemma {:induction false} ParagraphPolishable(x: string, after: string)
    ensures AllPolishable(ParagraphUnits(x, after)) && RunMembersOf(ParagraphUnits(x, after), 2)
  {
    ParagraphClean();
    hide ItemLexed, CleanLexeme, TidyLexeme, Polishable, PlainItem;
    CleanPlain(Single(PARAGRAPH));
    CleanPlain(Single(HtmlEnd("p")));
    IsPolishable(Single(PARAGRAPH));
    IsPolishable(Single(HtmlEnd("p")));
    var us := ParagraphUnits(x, after);
    forall u | u in us ensures Polishable(u.item) { assert u == us[0] || u == us[1]; }
  }

  /** A paragraph of one line of words, printed as an inline run: its spaces are halved. */
  lemma {:induction false} ParagraphFormats(x: string, after: string)
    requires PlainText(x) && CleanWords(x) && !SpansLines(x) && |CollapseInline(x)| <= 93 && PageTail(after)
    ensures Format("<p>" + x + "</p>" + after) == Ok("<p>" + CollapseInline(x) + "</p>\n")
  {
    hide *;
    var src, us := "<p>" + x + "</p>" + after, ParagraphUnits(x, after);
    var d := Doc([], us);
    ParagraphDoc(x, after);
    ParagraphRead(x, after);
    CleanFormats(src, d);
    ParagraphRun(x, after);
    ParagraphPolishable(x, after);
    ParagraphUnitsAre(x, after);
    NoUnits(0);
    NormalRunHead(us, 0, UnitRun("<p>" + CollapseInline(x) + "</p>", 2));
    NothingLaid(true, after);
    RunPolished(us, 2, "\n");
    CleanPrintable(us);
    PrintableDrop(us, 0);
    PrintableText(us);
    RunSource(us, 0, UnitRun("<p>" + CollapseInline(x) + "</p>", 2), "\n");
    var ns := RunUnits(us, 2, "\n");
    assert ns + [] == ns;
    NormalDocIs(d);
    EmptyLead();
    assert [] + ("<p>" + CollapseInline(x) + "</p>" + "\n") == "<p>" + CollapseInline(x) + "</p>\n";
  }

  lemma {:induction false} PrintableText(us: seq<Unit>)
    requires Printable(us)
    ensures NoText(us)
  {
    hide NoText, Renders, AllSolid;
  }

  lemma {:induction false} WordsCollapse(x: string, y: string)
    requires '\n' !in x && Trimmed(x) && PlainBlanks(x) && HalveSpaces(x) == y
    ensures !SpansLines(x) && CleanWords(x) && CollapseInline(x) == y
  {
    TrimOf([], x, []);
    assert [] + x + [] == x;
    CollapseIs(x);
  }

  lemma {:induction false} FourSpaces()
    ensures HalveSpaces("a    b") == "a  b" && HalveSpaces("a  b") == "a b"
  {
    hide HalveSpaces;
    var s, t := "a    b", "a  b";
    HalveTurn("b");
    HalveNothingAt();
    assert "b"[1..] == [] && !("  " <= "b");
    HalveTurn("  b");
    assert "  b"[2..] == "b" && "  " <= "  b";
    HalveTurn("    b");
    assert "    b"[2..] == "  b" && "  " <= "    b";
    HalveTurn(s);
    assert s[1..] == "    b" && !("  " <= s);
    HalveTurn(t);
    assert t[1..] == "  b" && !("  " <= t);
  }

  /** Four spaces become two, and two become one at the next pass. */
  lemma {:induction false} SpacesHalved()
    ensures Format("<p>a    b</p>") == Ok("<p>a  b</p>\n") && Format("<p>a  b</p>\n") == Ok("<p>a b</p>\n")
  {
    FourSpaces();
    hide HalveSpaces, CollapseInline, SpansLines, CleanWords, Format;
    WordsCollapse("a    b", "a  b");
    WordsCollapse("a  b", "a b");
    ParagraphFormats("a    b", "");
    ParagraphFormats("a  b", "\n");
    assert "<p>" + "a    b" + "</p>" + "" == "<p>a    b</p>" && "<p>" + "a  b" + "</p>\n" == "<p>a  b</p>\n";
    assert "<p>" + "a  b" + "</p>" + "\n" == "<p>a  b</p>\n" && "<p>" + "a b" + "</p>\n" == "<p>a b</p>\n";
  }

  // ----- a mustache that trimming turns into a comment -----

  /** Content without quotes and closing braces. */
  predicate Quiet(b: string) { forall c <- b :: !IsQuote(c) && c != '}' }

  lemma {:induction false} QuietCloses(b: string, rest: string)
    requires Quiet(b)
    ensures FindClose(b + "}}" + rest, None, "}}") == Some(|b|)
  {
    var s := b + "}}" + rest;
    if b == [] {
      assert s == "}}" + rest && s[..2] == "}}" && s[0] == '}';
    } else {
      assert b[0] in b && s[0] == b[0] && s[1..] == b[1..] + "}}" + rest;
      QuietCloses(b[1..], rest);
    }
  }

  const BANG := HbsExpr("{{ !x}}")

  lemma {:induction false} BangText()
    ensures NormalizeMustache("{{ !x}}") == Ok("{{!x}}")
  {
    var raw := "{{ !x}}";
    assert raw[2..|raw| - 2] == " !x";
    TrimOf(" ", "!x", []);
    assert " " + "!x" + [] == " !x" && "{{" + "!x" + "}}" == "{{!x}}";
    assert raw[2] == ' ';
    hide Trim;
  }

  lemma {:induction false} OtherStart(p: string, t: string)
    requires p != [] && t != [] && p[0] != t[0]
    ensures !(p <= t)
  {}

  lemma {:induction false} ExprClass(t: string, raw: string)
    requires t != [] && t[0] == '!'
    ensures ClassOf(t, raw) == HbsExpr(raw)
  {
    OtherStart("#>", t);
    OtherStart("#", t);
    OtherStart("/", t);
    OtherStart("else", t);
  }

  lemma {:induction false} BangClass()
    ensures Classify("{{ !x}}") == BANG
  {
    var b := " !x";
    hide *;
    ClassifyBody(b);
    BangTrims();
    assert "{{" + b + "}}" == "{{ !x}}";
    ExprClass("!x", "{{ !x}}");
    BangIs();
  }

  lemma {:induction false} BangTrims()
    ensures TrimStart(" !x") == "!x"
  {
    TrimStartOf(" ", "!x");
    assert " " + "!x" == " !x";
  }

  lemma {:induction false} BangIs()
    ensures BANG == HbsExpr("{{ !x}}")
  {}

  lemma {:induction false} BangRead(rest: string)
    ensures ReadsAs(Unit(Single(BANG), "{{ !x}}", "a"), rest)
  {
    hide *;
    var b := " !x";
    BangQuiet(b);
    QuietCloses(b, rest);
    DoubleScans(b, rest);
    BangClass();
    assert "{{" + b + "}}" == "{{ !x}}";
    IsRead(Unit(Single(BANG), "{{ !x}}", "a"), rest);
  }

  lemma {:induction false} BangQuiet(b: string)
    requires b == " !x"
    ensures Quiet(b)
  {}

  lemma {:induction false} LetterFacts()
    ensures Trim("a") == "a" && SplitLines("a") == ["a"] && Trim("a\n") == "a" && SplitLines("a\n") == ["a", ""]
    ensures PlainText("a") && PlainText("a\n") && Trims(["a"]) == ["a"] && Trims(["a", ""]) == ["a", ""]
  {
    TrimOf([], "a", []);
    TrimOf([], "a", "\n");
    assert [] + "a" + [] == "a" && [] + "a" + "\n" == "a\n";
    SplitOne("a");
    SplitAt("a", []);
    assert "a" + "\n" + [] == "a\n";
    NothingTrims();
    hide Trim;
    var e: seq<string> := [""];
    var two := ["a", ""];
    assert two[1..] == e && e[1..] == [] && ["a"][1..] == [];
  }

  lemma {:induction false} LetterGlued()
    ensures GapBefore(LayText(false, "a"), 0, []) == "a\n"
  {
    LetterFacts();
    NoIndent();
    RenderNothing(0);
    hide Trim, SplitLines, Trims, Indent, Render, Rows;
    assert ["a"][1..] == [];
    RowsNothing();
    assert LayText(false, "a") == Lay("a", []);
    assert "a" + "\n" + [] + [] == "a\n";
  }

  lemma {:induction false} RowsNothing()
    ensures Rows([], false) == []
  {}

  lemma {:induction false} LetterBelow()
    ensures GapBefore(LayText(true, "a\n"), 0, []) == "\na\n"
  {
    LetterFacts();
    NoIndent();
    LetterRow();
    hide Trim, SplitLines, Trims, Indent, Render, Rows;
    assert LayText(true, "a\n") == Lay([], ["a"]);
    assert Seal(Lay([], ["a"])) == Lay([], ["a"]);
    assert [] + "\n" + "a\n" + [] == "\na\n";
  }

  lemma {:induction false} LetterRow()
    ensures Rows(["a", ""], false) == ["a"] && Render(["a"], 0) == "a\n"
  {
    NoIndent();
    var one, two := ["a"], ["a", ""];
    var e: seq<string> := [""];
    assert one[1..] == [] && two[1..] == e && e[1..] == [];
    assert [] + "a" + "\n" + [] == "a\n";
  }

  lemma {:induction false} BangUnit()
    ensures var u := Unit(Single(BANG), "{{ !x}}", "a");
            && Renders([u]) && Printable([u]) && NormalUnits([u], 0) == [Unit(Single(HbsExpr("{{!x}}")), "{{!x}}", "a\n")]
  {
    var u := Unit(Single(BANG), "{{ !x}}", "a");
    BangText();
    hide NormalizeMustache;
    BangSource();
    assert ItemRenders(u.item) && Renders([u]);
    assert NoText([u]);
    forall d: nat ensures Settles(u.item, d) {}
    assert ItemSolid(u.item) && AllSolid([u]);
    hide Renders, TryUnit, NormalToken, TokenSource, TokenText, GapBefore, LayText, InlineOpener, Printable, ItemSolid;
    assert [u][0] == u;
    BangOpens();
    TryNothing([u], 0);
    LetterGlued();
    OneNormal(u);
  }

  lemma {:induction false} BangSource()
    ensures TokenText(BANG) == Ok("{{!x}}") && NormalToken(BANG, 0) == HbsExpr("{{!x}}")
    ensures forall d: nat :: TokenSource(BANG, d) == "{{!x}}"
  {
    BangText();
    hide NormalizeMustache;
  }

  lemma {:induction false} BangOpens()
    ensures InlineOpener(BANG) == Ok(None) && DepthAfter(Single(BANG), 0) == 0 && !EndsLine(Single(BANG))
  {}

  lemma {:induction false} BangFirst()
    ensures Format("{{ !x}}a") == Ok("{{!x}}a\n")
  {
    hide *;
    var u := Unit(Single(BANG), "{{ !x}}", "a");
    BangRead("a");
    LetterFacts();
    ReadAlone(u);
    BangUnit();
    var v := Unit(Single(HbsExpr("{{!x}}")), "{{!x}}", "a\n");
    BangSeparate(v);
    assert "{{ !x}}" + "a" == "{{ !x}}a";
    PageFormats("{{ !x}}a", Doc([], [u]));
    NormalDocIs(Doc([], [u]));
    EmptyLead();
    OnePolished(v);
    PolishParts(v.item, v.src, v.after);
    PolishedOneLine("{{!x}}");
    AloneSource(PolishUnit(v));
    assert [] + ("{{!x}}" + "a\n") == "{{!x}}a\n";
  }

  lemma {:induction false} BangSeparate(v: Unit)
    requires v.src == "{{!x}}" && v.after == "a\n"
    ensures AllSeparate([v]) && '\n' !in v.src
  {
    NeatOneLine("a");
    NeatSettledBack();
    assert Firm(v.src);
    assert Separate(v);
  }

  lemma {:induction false} NeatSettledBack()
    ensures Neat("a\n")
  {
    NeatBreak([]);
    NeatOneLine("a");
    assert "\n" + [] == "\n" && "a" + "\n" == "a\n";
    hide Neat;
    NeatJoin("a", "\n");
  }

  lemma {:induction false} BangCommentLexed()
    ensures HbsCommentLexed("{{!x}}")
  {
    var raw, z := "{{!x}}", "x}}";
    assert raw[3..] == z && z[1..] == "}}";
    assert Find("}}", "}}") == Some(0);
    assert !("}}" <= z) by { assert z[0] == 'x'; }
    assert Find(z, "}}") == Some(1);
    assert !("{{!--" <= raw) by { assert raw[3] == 'x'; }
  }

  lemma {:induction false} BangSecond()
    ensures Format("{{!x}}a\n") == Ok("{{!x}}\na\n")
  {
    hide *;
    var c := "{{!x}}";
    var u := Unit(Single(HbsComment(c)), c, "a\n");
    var d := Doc([], [u]);
    BangComment(u);
    assert c + "a\n" == "{{!x}}a\n";
    CleanFormats("{{!x}}a\n", d);
    BangNormal(u);
    NormalDocIs(d);
    EmptyLead();
    var v := Unit(Single(HbsComment(c)), c, "\na\n");
    OnePolished(v);
    PolishParts(v.item, v.src, v.after);
    BangLine(c);
    PolishedOneLine(c);
    AloneSource(PolishUnit(v));
    assert [] + (c + "\na\n") == "{{!x}}\na\n";
  }

  lemma {:induction false} BangLine(c: string)
    requires c == "{{!x}}"
    ensures '\n' !in c
  {}

  lemma {:induction false} LetterWords()
    ensures CleanWords("a\n")
  {
    assert PlainBlanks("a\n");
    hide SpansLines;
  }

  lemma {:induction false} CommentUnitClean(u: Unit)
    requires u.item.Single? && u.item.token.HbsComment? && ItemLexed(u.item) && CleanWords(u.after) && PlainText(u.after)
    requires PlainText([])
    ensures CleanDoc(Doc([], [u]))
  {
    hide ItemLexed, CleanWords, PlainText;
    assert CleanUnit(u) && TidyLexeme(u.item);
  }

  lemma {:induction false} BangComment(u: Unit)
    requires u == Unit(Single(HbsComment("{{!x}}")), "{{!x}}", "a\n")
    ensures CleanDoc(Doc([], [u])) && Lex([], u.src + u.after) == Ok(Doc([], [u]))
  {
    BangCommentLexed();
    hide *;
    LexedComment(u.item.token);
    LetterFacts();
    LetterWords();
    TailFacts([]) by { PieceFacts(); }
    HbsCommentFirm(u.src);
    IsHbsComment(u.item.token);
    CommentIsRead(u, u.after);
    ReadAlone(u);
    CommentUnitClean(u);
  }

  lemma {:induction false} LexedComment(t: Token)
    requires t.HbsComment? && HbsCommentLexed(t.raw)
    ensures ItemLexed(Single(t))
  {
    hide HbsCommentLexed;
  }

  lemma {:induction false} IsHbsComment(t: Token)
    requires t.HbsComment?
    ensures IsComment(t)
  {}

  lemma {:induction false} BangNormal(u: Unit)
    requires u == Unit(Single(HbsComment("{{!x}}")), "{{!x}}", "a\n")
    ensures Renders([u]) && NormalUnits([u], 0) == [Unit(Single(HbsComment("{{!x}}")), "{{!x}}", "\na\n")]
  {
    assert Renders([u]);
    CommentSource(HbsComment("{{!x}}"), 0);
    hide Renders, TryUnit, NormalToken, TokenSource, GapBefore, LayText, InlineOpener, OpensElement, OpensBlock;
    assert [u][0] == u;
    TryNothing([u], 0);
    LetterBelow();
    OneNormal(u);
  }

  /** Trimming turns the expression into a comment, which the next pass puts on a line of its own. */
  lemma {:induction false} MustacheBecomesComment()
    ensures Format("{{ !x}}a") == Ok("{{!x}}a\n") && Format("{{!x}}a\n") == Ok("{{!x}}\na\n")
  {
    hide *;
    BangFirst();
    BangSecond();
  }

  // ----- attributes in three braces -----

  lemma {:induction false} QuietOpen(b: string)
    requires Quiet(b)
    ensures Find(b, "}}").None? && (b != [] ==> b[|b| - 1] != '}')
  {
    if b != [] {
      assert b[0] in b && b[|b| - 1] in b;
      QuietOpen(b[1..]);
    }
  }

  /** The tag scan passes over a mustache and over a brace. */
  lemma {:induction false} ScanExpr(b: string, r: string)
    requires Quiet(b)
    ensures TagScan("{{" + b + "}}" + r, None, 0) == ShiftClose(TagScan(r, None, 0), |b| + 4)
  {
    hide *;
    QuietOpen(b);
    ExprPasses(b);
    var p := "{{" + b + "}}";
    assert p[|p| - 1] == '}';
    PassOver(p, None, 0, r);
  }

  lemma {:induction false} ScanBrace(r: string)
    ensures TagScan("}" + r, None, 0) == ShiftClose(TagScan(r, None, 0), 1)
  {
    BracePasses();
    hide *;
    PassOver("}", None, 0, r);
  }

  lemma {:induction false} BracePasses()
    ensures TagPass("}", None, 0)
  {
    assert "}"[1..] == [];
  }

  /** A `<p` tag with attribute text `a`, behind which the scan finds the end. */
  lemma {:induction false} TagReads(a: string, w: string, after: string, rest: string)
    requires a != [] && IsSpace(a[0]) && !IsSpace(a[|a| - 1]) && Blank(w)
    requires TagScan(a + (w + (">" + rest)), None, 0) == Some(TagClose(|w| + |a|, false))
    ensures ReadsAs(Unit(Single(HtmlStart("p", a, false)), "<p" + a + w + ">", after), rest)
  {
    hide *;
    ParagraphName();
    TrimEndOf(a, w);
    TailStarts(a, w, false, rest);
    NameOkLen("p");
    NameReads("p", a + (w + (">" + rest)));
    StartReads("p", a, w, false, rest, a + (w + (">" + rest)));
    NotRaw(a);
    TagSourceIs(a, w);
    SingleTag("<p" + a + w + ">" + rest, HtmlStart("p", a, false), |"<p" + a + w + ">"|);
    IsRead(Unit(Single(HtmlStart("p", a, false)), "<p" + a + w + ">", after), rest);
  }

  lemma {:induction false} NotRaw(a: string)
    ensures !OpensRaw(HtmlStart("p", a, false))
  {
    LongRaws();
    hide IsRawContent;
  }

  lemma {:induction false} TagSourceIs(a: string, w: string)
    ensures TagSource("p", a, w, false) == "<p" + a + w + ">"
  {
    assert "<" + "p" + a + w + ">" == "<p" + a + w + ">";
  }

  lemma {:induction false} ParseTurn(w: string, t: string, one: ReadAttr)
    requires AllAsciiSpace(w) && t != [] && !IsAsciiSpace(t[0]) && ParseOne(t) == Ok(one) && ParseAttributes(t[one.len..]).Ok?
    ensures ParseAttributes(w + t) == Ok([one.attr] + ParseAttributes(t[one.len..]).value)
  {
    SkipsSpace(w, t);
    assert SpaceLen(t) == 0 && t[0..] == t;
    hide ParseOne, IsAsciiSpace, AllAsciiSpace;
  }

  lemma {:induction false} ParseExpr(b: string, r: string)
    requires Quiet(b) && b != [] && b[0] != '#' && b[0] != '^'
    ensures ParseOne("{{" + b + "}}" + r) == Ok(ReadAttr(ExprAttr("{{" + b + "}}"), |b| + 4))
  {
    hide FindClose, BlockEnd, FindValueQuote, AttrNameLen, WordLen, Lower, Quiet;
    var t := "{{" + b + "}}" + r;
    QuietCloses(b, r);
    assert t[2..] == b + "}}" + r && t[..|b| + 4] == "{{" + b + "}}" && t[..2] == "{{" && t[2] == b[0];
  }

  lemma {:induction false} ParseBrace(r: string)
    requires r != [] ==> IsAsciiSpace(r[0])
    ensures ParseOne("}" + r) == Ok(ReadAttr(Plain("}", None), 1))
  {
    var t := "}" + r;
    assert t[0] == '}' && t[1..] == r && t[..1] == "}";
    BraceName(r);
    BraceLower();
    hide FindClose, BlockEnd, FindValueQuote, AttrNameLen, WordLen, Lower;
  }

  lemma {:induction false} BraceName(r: string)
    requires r != [] ==> IsAsciiSpace(r[0])
    ensures AttrNameLen("}" + r) == 1
  {
    assert ("}" + r)[1..] == r;
  }

  lemma {:induction false} BraceLower()
    ensures Lower("}") == "}"
  {
    assert "}"[1..] == [];
  }

  lemma {:induction false} ParseNone()
    ensures ParseAttributes([]) == Ok([])
  {}

  /** A mustache attribute and a brace behind it. */
  lemma {:induction false} ExprAndBrace(w: string, b: string, r: string)
    requires AllAsciiSpace(w) && Quiet(b) && b != [] && b[0] != '#' && b[0] != '^'
    requires (r != [] ==> IsAsciiSpace(r[0])) && ParseAttributes(r).Ok?
    ensures ParseAttributes(w + ("{{" + b + "}}" + ("}" + r)))
         == Ok([ExprAttr("{{" + b + "}}"), Plain("}", None)] + ParseAttributes(r).value)
  {
    hide *;
    var t := "{{" + b + "}}" + ("}" + r);
    ParseExpr(b, "}" + r);
    ParseBrace(r);
    Tail1(r);
    NoSpaceAhead();
    ParseTurn([], "}" + r, ReadAttr(Plain("}", None), 1));
    assert [] + ("}" + r) == "}" + r;
    assert t[|b| + 4..] == "}" + r && t[0] == '{';
    ParseTurn(w, t, ReadAttr(ExprAttr("{{" + b + "}}"), |b| + 4));
    var rest := ParseAttributes(r).value;
    assert [ExprAttr("{{" + b + "}}")] + ([Plain("}", None)] + rest) == [ExprAttr("{{" + b + "}}"), Plain("}", None)] + rest;
  }

  lemma {:induction false} Tail1(r: string)
    ensures ("}" + r)[1..] == r && ("}" + r)[0] == '}'
  {}

  lemma {:induction false} NoSpaceAhead()
    ensures AllAsciiSpace([]) && AllAsciiSpace(" ") && AllAsciiSpace("\n  ")
    ensures !IsAsciiSpace('}') && !IsAsciiSpace('{') && IsAsciiSpace('\n')
  {}

  // what the formatter makes of `{{{x}}}`

  /** Characters that mean nothing to the scans. */
  predicate Word(x: string) { Quiet(x) && NoSpaces(x) }

  /** The attribute text of `<p {{{…}}}>`. */
  function TripleText(y: string): string { " " + ("{{" + ("{" + y) + "}}" + "}") }

  lemma {:induction false} QuietBehind(y: string)
    requires Quiet(y)
    ensures Quiet("{" + y) && ("{" + y)[0] == '{'
  {}

  lemma {:induction false} TripleReads(y: string, rest: string)
    requires Quiet(y)
    ensures ReadsAs(Unit(Single(HtmlStart("p", TripleText(y), false)), "<p {{{" + y + "}}}>", []), rest)
  {
    hide *;
    QuietBehind(y);
    var a, r := TripleText(y), ">" + rest;
    TripleIs(y);
    var b := "{" + y;
    assert a + ([] + r) == " " + ("{{" + b + "}}" + ("}" + r));
    PassBlank(" ", "{{" + b + "}}" + ("}" + r)) by { PieceFacts(); }
    ScanExpr(b, "}" + r);
    ScanBrace(r);
    CloseHere(false, rest);
    ShiftsTo(TagScan(r, None, 0), 1, |b| + 4, 1);
    BlankNothing();
    TagReads(a, [], [], rest);
    assert "<p" + a + [] + ">" == "<p {{{" + y + "}}}>";
  }

  lemma {:induction false} TripleIs(y: string)
    ensures var a := TripleText(y);
            a == " " + ("{{" + ("{" + y) + "}}" + "}") && IsSpace(a[0]) && !IsSpace(a[|a| - 1]) && |a| == |y| + 7
  {}

  lemma {:induction false} ShiftsTo(c: Option<TagClose>, i: nat, j: nat, k: nat)
    requires c == Some(TagClose(0, false))
    ensures ShiftClose(ShiftClose(ShiftClose(c, i), j), k) == Some(TagClose(i + j + k, false))
  {}

  lemma {:induction false} TripleParses(y: string)
    requires Quiet(y)
    ensures ParseAttributes(TripleText(y)) == Ok([ExprAttr("{{{" + y + "}}"), Plain("}", None)])
  {
    hide *;
    QuietBehind(y);
    TripleIs(y);
    ParseNone();
    NoSpaceAhead();
    assert "}" + [] == "}";
    ExprAndBrace(" ", "{" + y, []);
    assert "{{" + ("{" + y) + "}}" == "{{{" + y + "}}";
    var two := [ExprAttr("{{{" + y + "}}"), Plain("}", None)];
    assert two + [] == two;
  }

  lemma {:induction false} LongBooleans()
    ensures "}" !in BOOLEAN_ATTRS
  {
    var vs := BOOLEAN_ATTRS;
    assert forall k | 0 <= k < |vs| :: |vs[k]| > 1;
    var b := "}";
    assert |b| == 1;
  }

  lemma {:induction false} BraceRenders()
    ensures RenderAttr(Plain("}", None)) == Ok("}")
  {
    LongBooleans();
  }

  /** The rendering cuts three characters off either end, one of them not a brace. */
  lemma {:induction false} TripleRenders(x: string, c: char)
    requires NoSpaces(x)
    ensures RenderAttr(ExprAttr("{{{" + (x + [c]) + "}}")) == Ok("{{{" + x + "}}}")
  {
    var raw := "{{{" + (x + [c]) + "}}";
    assert |raw| >= 6 && raw[..3] == "{{{" && raw[2] == '{' && raw[3..|raw| - 3] == x;
    TrimOf([], x, []);
    assert [] + x + [] == x;
    hide Trim;
  }

  lemma {:induction false} TwoRender(a: Attr, b: Attr, x: string, y: string)
    requires RenderAttr(a) == Ok(x) && RenderAttr(b) == Ok(y)
    ensures RenderAttrs([a, b]) == Ok([x, y])
  {
    hide RenderAttr;
    assert [a, b][1..] == [b] && [b][1..] == [] && [a, b][0] == a && [b][0] == b;
    assert RenderAttrs([]) == Ok([]);
    assert [y] + [] == [y];
    assert RenderAttrs([b]) == Ok([y]);
    assert [x] + [y] == [x, y];
  }

  lemma {:induction false} TwoStacked(x: string, y: string)
    ensures Stacked([x, y], 1) == "\n  " + x + "\n  " + y && Indent(0) == []
  {
    assert [x, y][1..] == [y] && [y][1..] == [];
    assert Indent(1) == "  " + Indent(0) && "  " + Indent(0) == "  " && "\n" + "  " == "\n  ";
    assert Stacked([y], 1) == "\n" + "  " + y + [];
    assert "\n" + "  " + x + ("\n  " + y) == "\n  " + x + "\n  " + y;
  }

  function TripleTag(y: string): Token { HtmlStart("p", TripleText(y), false) }

  lemma {:induction false} TripleAttrs(x: string, c: char)
    requires Word(x + [c])
    ensures AttrsOf(TripleText(x + [c])) == [ExprAttr("{{{" + (x + [c]) + "}}"), Plain("}", None)]
    ensures RenderAttrs(AttrsOf(TripleText(x + [c]))) == Ok(["{{{" + x + "}}}", "}"])
    ensures RenderingsOf(TripleText(x + [c])) == ["{{{" + x + "}}}", "}"] && !OneLine(AttrsOf(TripleText(x + [c])))
    ensures ParseAttributes(TripleText(x + [c])).Ok?
  {
    var y := x + [c];
    assert Quiet(y);
    NoSpacesPart(y, |x|);
    assert y[..|x|] == x;
    hide ParseAttributes, RenderAttrs, RenderAttr, TripleText, Word, Quiet, NoSpaces;
    TripleParses(y);
    TripleRenders(x, c);
    BraceRenders();
    TwoRender(ExprAttr("{{{" + y + "}}"), Plain("}", None), "{{{" + x + "}}}", "}");
  }

  /** The tag as it is printed. */
  function TripleSource(x: string): string { "<p\n  {{{" + x + "}}}\n  }\n>" }

  lemma {:induction false} SolidTag(t: Token, d: nat)
    requires t.HtmlStart?
    ensures Solid(TokenSource(t, d))
  {
    StartFirm(t, d);
    FirmSolid(TokenSource(t, d));
  }

  lemma {:induction false} StackedTag(a: string, x: string, y: string)
    requires RenderAttrs(AttrsOf(a)) == Ok([x, y]) && RenderingsOf(a) == [x, y] && !OneLine(AttrsOf(a))
    ensures TokenSource(HtmlStart("p", a, false), 0) == "<p" + ("\n  " + x + "\n  " + y) + "\n" + ">"
  {
    TwoStacked(x, y);
    LongVoids();
    hide AttrsOf, RenderingsOf, RenderAttrs, OneLine, IsVoid, Stacked, Indent;
    var st := Stacked([x, y], 1);
    assert "<" + "p" + st + "\n" + [] + ">" == "<p" + st + "\n" + ">";
  }

  lemma {:induction false} StackedOpener(a: string)
    requires ParseAttributes(a).Ok? && RenderAttrs(AttrsOf(a)).Ok? && !OneLine(AttrsOf(a))
    ensures TokenText(HtmlStart("p", a, false)).Ok? && InlineOpener(HtmlStart("p", a, false)) == Ok(None)
  {
    LongVoids();
    hide ParseAttributes, RenderAttrs, OneLine, IsVoid, InlineTag;
  }

  lemma {:induction false} TripleToken(x: string, c: char)
    requires Word(x + [c])
    ensures var t := TripleTag(x + [c]);
            && TokenText(t).Ok? && InlineOpener(t) == Ok(None) && TokenSource(t, 0) == TripleSource(x)
  {
    hide *;
    var m := "{{{" + x + "}}}";
    TripleAttrs(x, c);
    TripleTagIs(x + [c]);
    StackedOpener(TripleText(x + [c]));
    StackedTag(TripleText(x + [c]), m, "}");
    TripleSourceIs(x);
    assert "<p" + ("\n  " + m + "\n  " + "}") + "\n" + ">" == "<p\n  {{{" + x + "}}}\n  }\n>";
  }

  lemma {:induction false} TripleNeat(x: string)
    requires NoSpaces(x)
    ensures Neat(TripleSource(x)) && Firm(TripleSource(x))
  {
    NeatOneLine("<p");
    NeatBreak("  ");
    NeatBreak([]);
    assert "\n" + "  " == "\n  " && "\n" + [] == "\n";
    var m := "{{{" + x + "}}}";
    BracesOneLine(x);
    NeatOneLine(m);
    NeatOneLine("}");
    NeatOneLine(">");
    assert m[0] == '{' && m[|m| - 1] == '}';
    hide Neat, NoSpaces;
    NeatJoin("<p", "\n  ");
    NeatJoin("<p" + "\n  ", m);
    NeatJoin("<p" + "\n  " + m, "\n  ");
    NeatJoin("<p" + "\n  " + m + "\n  ", "}");
    NeatJoin("<p" + "\n  " + m + "\n  " + "}", "\n");
    NeatJoin("<p" + "\n  " + m + "\n  " + "}" + "\n", ">");
    assert "<p" + "\n  " + m + "\n  " + "}" + "\n" + ">" == TripleSource(x);
  }

  lemma {:induction false} BracesOneLine(x: string)
    requires NoSpaces(x)
    ensures '\n' !in "{{{" + x + "}}}"
  {
    forall c | c in x ensures c != '\n' {
      var i :| 0 <= i < |x| && x[i] == c;
      assert !IsSpace(x[i]);
    }
  }

  lemma {:induction false} TripleUnit(x: string, c: char)
    requires Word(x + [c])
    ensures var u := Unit(Single(TripleTag(x + [c])), "<p {{{" + (x + [c]) + "}}}>", []);
            && Renders([u]) && Printable([u])
            && NormalUnits([u], 0) == [Unit(NormalItem(u.item, 0), TripleSource(x), "\n")]
  {
    var t := TripleTag(x + [c]);
    var u := Unit(Single(t), "<p {{{" + (x + [c]) + "}}}>", []);
    TripleToken(x, c);
    hide TokenText, InlineOpener, TokenSource, TripleText, Word, TripleSource;
    assert ItemRenders(u.item) && Renders([u]) && NoText([u]);
    forall d: nat ensures Settles(u.item, d) { SolidTag(t, d); }
    hide Settles;
    assert ItemSolid(u.item) && AllSolid([u]);
    hide Renders, TryUnit, NormalItem, GapBefore, LayText, Printable, ItemSolid;
    assert [u][0] == u;
    TryNothing([u], 0);
    TagDepth(t);
    NoGap();
    OneNormal(u);
  }

  lemma {:induction false} TagDepth(t: Token)
    requires t.HtmlStart? && t.name == "p" && !t.selfClosed
    ensures DepthAfter(Single(t), 0) == 1 && EndsLine(Single(t)) && OpenerOf(Single(t)) == t
    ensures ItemSource(Single(t), 0) == TokenSource(t, 0)
  {
    LongVoids();
    hide IsVoid, TokenSource;
  }

  lemma {:induction false} NoGap()
    ensures GapBefore(LayText(true, []), 1, []) == "\n"
  {
    NothingTrims();
    NoIndent();
    RenderNothing(1);
    hide Trim, Indent, Render;
    assert LayText(true, []) == Lay([], []);
    assert [] + "\n" + [] + [] == "\n";
  }

  /** `<p {{{xc}}}>` formats, and loses the last character of its mustache. */
  lemma {:induction false} TripleFormats(x: string, c: char)
    requires Word(x + [c])
    ensures Format("<p {{{" + (x + [c]) + "}}}>") == Ok("<p\n  {{{" + x + "}}}\n  }\n>\n")
  {
    hide *;
    var y := x + [c];
    var src := "<p {{{" + y + "}}}>";
    var u := Unit(Single(TripleTag(y)), src, []);
    WordFacts(x, c);
    TripleReads(y, []);
    TripleTagIs(y);
    TailFacts([]) by { PieceFacts(); }
    ReadAlone(u);
    assert src + [] == src;
    TripleUnit(x, c);
    TripleNeat(x);
    var v := Unit(NormalItem(u.item, 0), TripleSource(x), "\n");
    BreakNeat(v);
    PageFormats(src, Doc([], [u]));
    NormalDocIs(Doc([], [u]));
    EmptyLead();
    OnePolished(v);
    PolishParts(v.item, v.src, v.after);
    PolishedIff(TripleSource(x));
    AloneSource(PolishUnit(v));
    TripleSourceIs(x);
    assert [] + (TripleSource(x) + "\n") == "<p\n  {{{" + x + "}}}\n  }\n>\n";
  }

  lemma {:induction false} WordFacts(x: string, c: char)
    requires Word(x + [c])
    ensures Quiet(x + [c]) && NoSpaces(x)
  {
    NoSpacesPart(x + [c], |x|);
    assert (x + [c])[..|x|] == x;
  }

  lemma {:induction false} TripleTagIs(y: string)
    ensures TripleTag(y) == HtmlStart("p", TripleText(y), false)
  {}

  lemma {:induction false} TripleSourceIs(x: string)
    ensures TripleSource(x) == "<p\n  {{{" + x + "}}}\n  }\n>"
    ensures TripleSource(x) + "\n" == "<p\n  {{{" + x + "}}}\n  }\n>\n"
  {}

  lemma {:induction false} BreakNeat(v: Unit)
    requires Firm(v.src) && v.after == "\n"
    ensures AllSeparate([v])
  {
    NeatBreak([]);
    assert "\n" + [] == "\n";
    hide Firm, Neat;
    assert Separate(v);
  }

  // ----- the panic -----

  /** A template that is one tag with the bare mustache among its attributes. */
  lemma {:induction false} LoneTagPanics(src: string, tag: string, a: string, after: string)
    requires Lex([], src) == Ok(Doc([], [Unit(Single(HtmlStart("p", a, false)), tag, after)]))
    requires ParseAttributes(a).Ok? && Failures.BAD_ATTR in ParseAttributes(a).value
    ensures Format(src).Panic?
  {
    Failures.FormatFails(src);
    var t := HtmlStart("p", a, false);
    hide Lex, Format, ParseAttributes;
    var ts := LexTokens([], src).value;
    LoneTokens(t, tag, after);
    assert ts == [t] + TextTokens(after);
    assert ts[0] == t && Failures.TagPanics(ts[0]) && ts[..0] == [];
  }

  lemma {:induction false} LoneTokens(t: Token, src: string, after: string)
    ensures DocTokens(Doc([], [Unit(Single(t), src, after)])) == [t] + TextTokens(after)
  {
    var us := [Unit(Single(t), src, after)];
    assert us[1..] == [] && us[0] == Unit(Single(t), src, after);
    UnitsTokensHead(us);
    assert UnitsTokens([]) == [] && TextTokens([]) == [];
    hide TextTokens, UnitsTokens;
    assert [t] + TextTokens(after) + [] == [t] + TextTokens(after);
    assert [] + UnitsTokens(us) == UnitsTokens(us);
  }

  lemma {:induction false} LoneTagRead(a: string, w: string, after: string)
    requires a != [] && IsSpace(a[0]) && !IsSpace(a[|a| - 1]) && Blank(w) && PageTail(after)
    requires TagScan(a + (w + (">" + after)), None, 0) == Some(TagClose(|w| + |a|, false))
    ensures Lex([], "<p" + a + w + ">" + after) == Ok(Doc([], [Unit(Single(HtmlStart("p", a, false)), "<p" + a + w + ">", after)]))
  {
    hide *;
    TailFacts(after);
    TagReads(a, w, after, after);
    ReadAlone(Unit(Single(HtmlStart("p", a, false)), "<p" + a + w + ">", after));
  }

  lemma {:induction false} LastPanics(a: string, w: string, after: string)
    requires a != [] && IsSpace(a[0]) && !IsSpace(a[|a| - 1]) && Blank(w) && PageTail(after)
    requires TagScan(a + (w + (">" + after)), None, 0) == Some(TagClose(|w| + |a|, false))
    requires ParseAttributes(a).Ok? && Failures.BAD_ATTR in ParseAttributes(a).value
    ensures Format("<p" + a + w + ">" + after).Panic?
  {
    hide *;
    LoneTagRead(a, w, after);
    LoneTagPanics("<p" + a + w + ">" + after, "<p" + a + w + ">", a, after);
  }

  lemma {:induction false} BareText()
    ensures var a := " {{{}}";
            a == " " + ("{{" + "{" + "}}") && IsSpace(a[0]) && !IsSpace(a[|a| - 1]) && |a| == 6 && Quiet("{")
  {}

  lemma {:induction false} BareParses()
    ensures ParseAttributes(" {{{}}") == Ok([ExprAttr("{{{}}")])
  {
    hide *;
    BareText();
    ParseNone();
    NoSpaceAhead();
    var t := "{{" + "{" + "}}";
    ParseExpr("{", []);
    assert t + [] == t && t[5..] == [] && t == "{{{}}" && t[0] == '{';
    ParseTurn(" ", t, ReadAttr(ExprAttr(t), 5));
    assert [ExprAttr(t)] + [] == [ExprAttr(t)];
  }

  lemma {:induction false} BareScans()
    ensures TagScan(" {{{}}" + ([] + (">" + [])), None, 0) == Some(TagClose(6, false))
  {
    hide *;
    BareText();
    assert " {{{}}" + ([] + (">" + [])) == " " + ("{{" + "{" + "}}" + ">");
    PassBlank(" ", "{{" + "{" + "}}" + ">") by { PieceFacts(); }
    ScanExpr("{", ">");
    CloseHere(false, []);
    assert ">" + [] == ">";
    ShiftsBy(TagScan(">", None, 0), 5, 1);
  }

  lemma {:induction false} ShiftsBy(c: Option<TagClose>, i: nat, j: nat)
    requires c == Some(TagClose(0, false))
    ensures ShiftClose(ShiftClose(c, i), j) == Some(TagClose(i + j, false))
  {}

  lemma {:induction false} BadAttrIs()
    ensures Failures.BAD_ATTR == ExprAttr("{{{}}")
  {}

  /** The attribute text that `{{{x}}}` was printed as. */
  const BROKEN := "\n  {{{}}}\n  }"

  lemma {:induction false} BrokenText()
    ensures BROKEN == "\n  " + ("{{" + "{" + "}}" + ("}" + "\n  }")) && |BROKEN| == 13
    ensures IsSpace(BROKEN[0]) && !IsSpace(BROKEN[|BROKEN| - 1]) && Quiet("{") && Blank("\n  ") && Blank("\n")
  {}

  lemma {:induction false} BrokenParses()
    ensures ParseAttributes(BROKEN).Ok? && ExprAttr("{{{}}") in ParseAttributes(BROKEN).value
  {
    hide *;
    BrokenText();
    NoSpaceAhead();
    ParseNone();
    ParseBrace([]);
    Tail1([]);
    assert "}" + [] == "}" && "\n  " + "}" == "\n  }";
    ParseTurn("\n  ", "}", ReadAttr(Plain("}", None), 1));
    ExprAndBrace("\n  ", "{", "\n  }");
    assert "{{" + "{" + "}}" == "{{{}}";
    var two := [ExprAttr("{{{}}"), Plain("}", None)];
    var all := two + ParseAttributes("\n  }").value;
    assert all[0] == ExprAttr("{{{}}");
  }

  lemma {:induction false} BrokenScans()
    ensures TagScan(BROKEN + ("\n" + (">" + "\n")), None, 0) == Some(TagClose(1 + 13, false))
  {
    hide *;
    BrokenText();
    var r0 := ">" + "\n";
    var r1 := "\n" + r0;
    var r2 := "}" + r1;
    var r3 := "\n  " + r2;
    var r4 := "}" + r3;
    var r5 := "{{" + "{" + "}}" + r4;
    assert BROKEN + ("\n" + (">" + "\n")) == "\n  " + r5;
    CloseHere(false, "\n");
    PassBlank("\n", r0);
    ScanBrace(r1);
    PassBlank("\n  ", r2);
    ScanBrace(r3);
    ScanExpr("{", r4);
    PassBlank("\n  ", r5);
    SixShifts(TagScan(r0, None, 0));
  }

  lemma {:induction false} SixShifts(c: Option<TagClose>)
    requires c == Some(TagClose(0, false))
    ensures ShiftClose(ShiftClose(ShiftClose(ShiftClose(ShiftClose(ShiftClose(c, 1), 1), 3), 1), 5), 3) == Some(TagClose(14, false))
  {}

  /** The bare mustache panics; the ordinary one loses its name at the first pass and panics at the
      second. */
  lemma {:induction false} TripleBracesBreak()
    ensures Format("<p {{{}}>").Panic?
    ensures Format("<p {{{x}}}>") == Ok("<p\n  {{{}}}\n  }\n>\n") && Format("<p\n  {{{}}}\n  }\n>\n").Panic?
  {
    hide *;
    BareText();
    BareParses();
    BareScans();
    BadAttrIs();
    BlankNothing();
    PieceFacts();
    assert ExprAttr("{{{}}") in [ExprAttr("{{{}}")];
    LastPanics(" {{{}}", [], "");
    assert "<p" + " {{{}}" + [] + ">" + "" == "<p {{{}}>";
    BrokenText();
    BrokenParses();
    BrokenScans();
    LastPanics(BROKEN, "\n", "\n");
    BrokenSource();
    LetterX();
    TripleFormats([], 'x');
    assert [] + ['x'] == "x" && "<p {{{" + "x" + "}}}>" == "<p {{{x}}}>";
    assert "<p\n  {{{" + [] + "}}}\n  }\n>\n" == "<p\n  {{{}}}\n  }\n>\n";
  }

  lemma {:induction false} LetterX()
    ensures Word([] + ['x'])
  {
    var x: string := [] + ['x'];
    assert x[0] == 'x';
  }

  lemma {:induction false} BrokenSource()
    ensures "<p" + BROKEN + "\n" + ">" + "\n" == "<p\n  {{{}}}\n  }\n>\n"
  {}
}
