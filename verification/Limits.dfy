/** When an element is printed on one line: stated over token streams, with the line limit written out. */
module Limits {
  import opened Text
  import opened Tokens
  import opened Lexing
  import opened Layout
  import opened Runs
  import opened Cleanup
  import opened PlainTexts
  import opened Boundaries

  /** A token that stays on one line and leaves the level it stands at alone, seen from an element of that name. */
  predicate IsFlat(t: Token, name: string) {
    match t
    case Text(s) => '\n' !in Trim(s)
    case HtmlComment(raw) => '\n' !in raw
    case HbsComment(raw) => '\n' !in raw
    case HtmlStart(n, _, selfClosed) => selfClosed || IsVoid(n)
    case HtmlEnd(n) => n != name
    case HbsExpr(_) => true
    case HbsBlockClose(_) => true
    case HbsPartialClose(_) => true
    case HbsElse(_) => false
    case HbsBlockOpen(_) => false
    case HbsPartialOpen(_) => false
    case RawText(_) => false
  }

  predicate AllFlat(ts: seq<Token>, name: string) { forall t <- ts :: IsFlat(t, name) }

  /** A start tag with an end tag, at most one attribute and no embedded block, and its text on one line. */
  predicate OpensWith(t: Token, opener: string) {
    && t.HtmlStart? && !t.selfClosed && !IsVoid(t.name)
    && var attrs := ParseAttributes(t.attrsRaw);
       && attrs.Ok?
       && match |attrs.value|
          case 0 => opener == "<" + t.name + ">"
          case 1 =>
            && !attrs.value[0].BlockAttr? && RenderAttr(attrs.value[0]).Ok?
            && opener == "<" + t.name + " " + RenderAttr(attrs.value[0]).value + ">"
          case _ => false
  }

  /** An element of one line at the head of the tokens: opener, flat body, end tag, at most 100 columns
      with the indent. */
  ghost predicate FitsInline(ts: seq<Token>, d: nat, opener: string, text: string, body: seq<Token>, rest: seq<Token>, line: string) {
    && ts != [] && OpensWith(ts[0], opener)
    && ts == [ts[0]] + (body + [HtmlEnd(ts[0].name)] + rest)
    && AllFlat(body, ts[0].name) && InlineBody(body) == Ok(text)
    && line == opener + text + "</" + ts[0].name + ">"
    && '\n' !in line && |line| + 2 * d <= 100
  }

  lemma {:induction false} OpenerMeans(t: Token, opener: string)
    ensures OpensWith(t, opener) <==> InlineOpener(t) == Ok(Some(opener))
  {
    hide ParseAttributes, IsVoid, RenderAttr;
    if OpensElement(t) && ParseAttributes(t.attrsRaw).Ok? {
      var attrs := ParseAttributes(t.attrsRaw).value;
      if attrs == [] {
        assert "<" + t.name + [] + ">" == "<" + t.name + ">";
      } else if |attrs| == 1 {
        OneSpaced(attrs);
        hide RenderAttrs, OneLine, Spaced;
        if RenderAttr(attrs[0]).Ok? { var r := RenderAttr(attrs[0]).value; assert "<" + t.name + (" " + r) + ">" == "<" + t.name + " " + r + ">"; }
      }
    }
  }

  lemma {:induction false} OneSpaced(attrs: seq<Attr>)
    requires |attrs| == 1
    ensures OneLine(attrs) <==> !attrs[0].BlockAttr?
    ensures RenderAttr(attrs[0]).Ok? ==> RenderAttrs(attrs) == Ok([RenderAttr(attrs[0]).value])
                                         && Spaced([RenderAttr(attrs[0]).value]) == " " + RenderAttr(attrs[0]).value
    ensures !RenderAttr(attrs[0]).Ok? ==> !RenderAttrs(attrs).Ok?
  {
    hide RenderAttr;
    assert attrs == [attrs[0]] && attrs[1..] == [] && RenderAttrs(attrs[1..]) == Ok([]);
    if RenderAttr(attrs[0]).Ok? {
      var r := RenderAttr(attrs[0]).value;
      assert [r][1..] == [] && [r] + [] == [r];
      assert Spaced([r]) == " " + r + [] == " " + r;
    }
  }

  lemma {:induction false} FlatPasses(t: Token, name: string)
    requires IsFlat(t, name)
    ensures Awaits(t).None? && Closes(t) != Some(ElementEnd(name)) && !t.HbsElse? && SingleLineToken(t)
  {
    hide IsVoid, Trim;
  }

  lemma {:induction false} FlatCloser(body: seq<Token>, name: string, rest: seq<Token>)
    requires AllFlat(body, name)
    ensures FindCloser(body + [HtmlEnd(name)] + rest, [ElementEnd(name)]) == Some(|body|) && SingleLineBody(body)
  {
    hide FindCloser, IsFlat, SingleLineToken;
    if body == [] {
      CloserHere(name, rest);
      assert body + [HtmlEnd(name)] + rest == [HtmlEnd(name)] + rest;
    } else {
      assert body[0] in body;
      forall t | t in body[1..] ensures t in body {}
      FlatCloser(body[1..], name, rest);
      FlatPasses(body[0], name);
      CloserPasses(body[0], body[1..] + [HtmlEnd(name)] + rest, name);
      assert body + [HtmlEnd(name)] + rest == [body[0]] + (body[1..] + [HtmlEnd(name)] + rest);
    }
  }

  lemma {:induction false} CloserTurn(ts: seq<Token>, name: string)
    requires ts != [] && SingleLineToken(ts[0]) && FindCloser(ts, [ElementEnd(name)]).Some?
    ensures var k := FindCloser(ts, [ElementEnd(name)]).value;
            if ts[0] == HtmlEnd(name) then k == 0
            else k > 0 && IsFlat(ts[0], name) && FindCloser(ts[1..], [ElementEnd(name)]) == Some(k - 1)
  {
    hide IsVoid, Trim;
  }

  lemma {:induction false} ClosedByItself(ts: seq<Token>, name: string)
    requires ts != [] && FindCloser(ts, [ElementEnd(name)]) == Some(0)
    ensures ts[0] == HtmlEnd(name)
  {
    hide IsVoid;
  }

  /** What a look-ahead over a flat body finds. */
  lemma {:induction false} CloserIsFlat(ts: seq<Token>, name: string, k: nat)
    requires FindCloser(ts, [ElementEnd(name)]) == Some(k) && k < |ts| && SingleLineBody(ts[..k])
    ensures AllFlat(ts[..k], name) && ts[k] == HtmlEnd(name)
    decreases k
  {
    hide FindCloser, IsFlat, SingleLineToken;
    if k == 0 {
      ClosedByItself(ts, name);
    } else {
      assert ts[..k][0] == ts[0] && ts[..k][0] in ts[..k];
      CloserTurn(ts, name);
      assert ts[..k][1..] == ts[1..][..k - 1];
      forall t | t in ts[1..][..k - 1] ensures t in ts[..k] {}
      CloserIsFlat(ts[1..], name, k - 1);
    }
  }

  /** The parts of an accepted run. */
  lemma {:induction false} AcceptedParts(ts: seq<Token>, d: nat) returns (opener: string, k: nat, text: string)
    requires ts != [] && TryInline(ts, d).Ok? && TryInline(ts, d).value.Some?
    ensures InlineOpener(ts[0]) == Ok(Some(opener)) && ts[0].HtmlStart?
    ensures k + 1 < |ts| && FindCloser(ts[1..], [ElementEnd(ts[0].name)]) == Some(k) && SingleLineBody(ts[1..][..k])
    ensures InlineBody(ts[1..][..k]) == Ok(text)
  {
    OpenerIsTag(ts[0]);
    hide InlineOpener, InlineBody, FindCloser, SingleLineBody, TrimEnd, CloserText;
    opener := InlineOpener(ts[0]).value.value;
    k := FindCloser(ts[1..], [ElementEnd(ts[0].name)]).value;
    assert ts[1..1 + k] == ts[1..][..k];
    text := InlineBody(ts[1..1 + k]).value;
  }

  lemma {:induction false} Around(ts: seq<Token>, k: nat)
    requires k + 1 < |ts|
    ensures ts == [ts[0]] + (ts[1..][..k] + [ts[k + 1]] + ts[k + 2..]) && ts[1..][k] == ts[k + 1]
  {}

  lemma {:induction false} EndTagIs(name: string)
    ensures EndTag(name) == "</" + name + ">"
  {}

  lemma {:induction false} LimitIs()
    ensures LINE_LIMIT == 100
  {}

  lemma {:induction false} FitsParts(ts: seq<Token>, d: nat, opener: string, text: string, body: seq<Token>, rest: seq<Token>, line: string)
    requires FitsInline(ts, d, opener, text, body, rest, line)
    ensures ts != [] && OpensWith(ts[0], opener) && ts[0].HtmlStart?
    ensures ts == [ts[0]] + (body + [HtmlEnd(ts[0].name)] + rest)
    ensures AllFlat(body, ts[0].name) && InlineBody(body) == Ok(text)
    ensures line == opener + text + ("</" + ts[0].name + ">") && '\n' !in line && |line| + 2 * d <= 100
  {
    hide AllFlat, InlineBody, ParseAttributes, RenderAttr, IsVoid;
    assert opener + text + "</" + ts[0].name + ">" == opener + text + ("</" + ts[0].name + ">");
  }

  lemma {:induction false} FitsFrom(ts: seq<Token>, d: nat, opener: string, text: string, body: seq<Token>, rest: seq<Token>, line: string)
    requires ts != [] && OpensWith(ts[0], opener) && ts[0].HtmlStart?
    requires ts == [ts[0]] + (body + [HtmlEnd(ts[0].name)] + rest)
    requires AllFlat(body, ts[0].name) && InlineBody(body) == Ok(text)
    requires line == opener + text + ("</" + ts[0].name + ">") && '\n' !in line && |line| + 2 * d <= 100
    ensures FitsInline(ts, d, opener, text, body, rest, line)
  {
    hide AllFlat, InlineBody, OpensWith;
    assert opener + text + "</" + ts[0].name + ">" == opener + text + ("</" + ts[0].name + ">");
  }

  /** An element is put on one line exactly when it is one line: at most one attribute, no embedded block, nothing in
      the body that opens a level, breaks the line or is an `{{else}}`, and at most 100 columns with its indent. */
  lemma {:induction false} InlineIff(ts: seq<Token>, d: nat, line: string, n: nat)
    requires ts != []
    ensures TryInline(ts, d) == Ok(Some(Run(line, n)))
       <==> exists opener, text, body, rest :: FitsInline(ts, d, opener, text, body, rest, line) && n == |body| + 2
  {
    hide *;
    if TryInline(ts, d) == Ok(Some(Run(line, n))) {
      var opener, k, text := AcceptedParts(ts, d);
      var body, rest := ts[1..][..k], ts[k + 2..];
      CloserIsFlat(ts[1..], ts[0].name, k);
      Around(ts, k);
      FlatCloser(body, ts[0].name, rest);
      Decide(ts[0], body, rest, d, opener, text);
      OpenerMeans(ts[0], opener);
      EndTagIs(ts[0].name);
      LimitIs();
      FitsFrom(ts, d, opener, text, body, rest, line);
    }
    if opener, text, body, rest :| FitsInline(ts, d, opener, text, body, rest, line) && n == |body| + 2 {
      FitsParts(ts, d, opener, text, body, rest, line);
      FlatCloser(body, ts[0].name, rest);
      OpenerMeans(ts[0], opener);
      OpenerIsTag(ts[0]);
      Decide(ts[0], body, rest, d, opener, text);
      EndTagIs(ts[0].name);
      LimitIs();
    }
  }

  // ----- a paragraph that is too wide -----

  lemma {:induction false} ParagraphTokens(x: string, after: string)
    requires x != []
    ensures DocTokens(Doc([], ParagraphUnits(x, after))) == [PARAGRAPH] + ([Text(x)] + [HtmlEnd("p")] + TextTokens(after))
  {
    hide TextTokens, UnitsTokens;
    var us := ParagraphUnits(x, after);
    ParagraphUnitsAre(x, after);
    UnitsTokensHead(us);
    UnitsTokensHead([us[1]]);
    NoTokens(x);
    assert [us[1]][1..] == [];
    assert ItemTokens(us[0].item) == [PARAGRAPH] && ItemTokens(us[1].item) == [HtmlEnd("p")];
    assert [PARAGRAPH] + [Text(x)] + ([HtmlEnd("p")] + TextTokens(after) + [])
        == [PARAGRAPH] + ([Text(x)] + [HtmlEnd("p")] + TextTokens(after));
  }

  lemma {:induction false} NoTokens(x: string)
    requires x != []
    ensures TextTokens(x) == [Text(x)] && TextTokens([]) == [] && UnitsTokens([]) == []
  {}

  lemma {:induction false} OneText(x: string)
    ensures InlineBody([Text(x)]) == Ok(CollapseInline(x))
  {
    assert [Text(x)][1..] == [] && InlineBody([]) == Ok([]);
    assert CollapseInline(x) + [] == CollapseInline(x);
    hide CollapseInline;
  }

  lemma {:induction false} TrimBreak(x: string)
    requires '\n' !in x
    ensures '\n' !in Trim(x)
  {
    var a, b := TrimSplit(x);
    assert x == a + Trim(x) + b;
  }

  lemma {:induction false} TextIsFlat(x: string)
    requires '\n' !in x
    ensures AllFlat([Text(x)], "p")
  {
    TrimBreak(x);
    hide Trim;
  }

  lemma {:induction false} TooWide(x: string, rest: seq<Token>)
    requires '\n' !in x && |CollapseInline(x)| > 93
    ensures TryInline([PARAGRAPH] + ([Text(x)] + [HtmlEnd("p")] + rest), 0) == Ok(None)
  {
    hide *;
    ParagraphTag();
    EndTagIs("p");
    TextIsFlat(x);
    FlatCloser([Text(x)], "p", rest);
    OneText(x);
    LimitIs();
    ParagraphIs();
    Decide(PARAGRAPH, [Text(x)], rest, 0, "<p>", CollapseInline(x));
    var line := "<p>" + CollapseInline(x) + EndTag("p");
    assert |line| == |CollapseInline(x)| + 7;
  }

  lemma {:induction false} ParagraphIs()
    ensures PARAGRAPH == HtmlStart("p", [], false)
  {}

  lemma {:induction false} NotTried(ts: seq<Token>, d: nat)
    requires ts != [] && !ts[0].HtmlStart?
    ensures TryInline(ts, d) == Ok(None)
  {
    hide FindCloser, ParseAttributes, IsVoid;
  }

  lemma {:induction false} PrintTurn(t: Token, ts: seq<Token>, st: State, st': State)
    requires TryInline([t] + ts, st.depth) == Ok(None) && PrintToken(t, st) == Ok(st')
    ensures PrintFrom([t] + ts, st) == PrintFrom(ts, st')
  {
    hide TryInline, PrintToken;
    assert ([t] + ts)[1..] == ts;
  }

  lemma {:induction false} OneIndent()
    ensures Indent(0) == [] && Indent(1) == "  "
  {
    assert Indent(1) == "  " + Indent(0);
  }

  lemma {:induction false} ParagraphTagText()
    ensures TagText("p", [], [], false, 0) == "<p>" && !SlashClosed("p", false)
  {
    ParagraphName();
    NoAttributes();
    hide IsVoid, OneLine, Spaced;
    assert "<" + "p" + [] + ">" == "<p>";
  }

  lemma {:induction false} TagAlone(tag: string)
    requires tag != [] && tag[|tag| - 1] != '\n'
    ensures Newline(Push(EnsureIndent(BLANK_PAGE.page, 0), tag)) == Page(tag + "\n", true)
  {
    OneIndent();
    EndsInNewline(tag);
    assert [] + [] + tag == tag;
  }

  lemma {:induction false} PrintOpener()
    ensures PrintToken(PARAGRAPH, BLANK_PAGE) == Ok(State(Page("<p>\n", true), 1, false))
  {
    NoAttributes();
    ParagraphTagText();
    var tag := "<p>";
    TagAlone(tag);
    assert tag + "\n" == "<p>\n";
    hide ParseAttributes, RenderAttrs, SlashClosed, TagText, Newline, Push, EnsureIndent;
    assert PrintStart(BLANK_PAGE.page, "p", [], false, 0) == Ok(Page("<p>\n", true));
  }

  lemma {:induction false} PrintWords(out: string, x: string)
    requires '\n' !in x && Trim(x) != []
    ensures PrintToken(Text(x), State(Page(out, true), 1, false)) == Ok(State(Page(out + "  " + Trim(x), false), 1, false))
  {
    SplitOne(x);
    OneIndent();
    EndsInNewline(x);
    assert x != [] ==> x[|x| - 1] in x;
    hide Trim, SplitLines, Indent;
    assert [x][1..] == [];
    var line := Page(out + "  " + Trim(x), false);
    assert PutLines(line, [], false, false, 1) == line;
    assert PutLines(Page(out, true), [x], true, false, 1) == line;
    assert !EndsWith(x, "\n");
    assert PutText(Page(out, true), x, 1) == line;
  }

  lemma {:induction false} PrintEnd(out: string)
    requires !EndsWith(out + "\n" + "</p>", "\n")
    ensures PrintToken(HtmlEnd("p"), State(Page(out, false), 1, false)) == Ok(State(Page(out + "\n</p>\n", true), 0, false))
  {
    OneIndent();
    assert EndTag("p") == "</p>";
    assert out + "\n" + [] + "</p>" + "\n" == out + "\n</p>\n";
    assert out + "\n" + [] + "</p>" == out + "\n" + "</p>";
  }

  lemma {:induction false} PrintTail(after: string, st: State)
    requires PageTail(after)
    ensures PrintFrom(TextTokens(after), st) == Ok(st)
  {
    if after != [] {
      NotTried([Text(after)], st.depth);
      PrintTurn(Text(after), [], st, st) by { BreakAlone(st); }
    }
  }

  lemma {:induction false} BreakAlone(st: State)
    ensures PrintToken(Text("\n"), st) == Ok(st)
  {
    var b := "\n";
    assert b[1..] == [] && IsSpace(b[0]);
    assert TrimStart(b) == TrimStart([]) == [] && TrimEnd([]) == [];
    assert CountNewlines(b) == 1 + CountNewlines([]) == 1;
  }

  /** The text of the page behind the paragraph. */
  lemma {:induction false} PrintStacked(x: string, after: string)
    requires '\n' !in x && Trim(x) != [] && |CollapseInline(x)| > 93 && PageTail(after)
    ensures PrintFrom([PARAGRAPH] + ([Text(x)] + [HtmlEnd("p")] + TextTokens(after)), BLANK_PAGE)
         == Ok(State(Page("<p>\n  " + Trim(x) + "\n</p>\n", true), 0, false))
  {
    hide *;
    var tail := TextTokens(after);
    var a, b, c := State(Page("<p>\n", true), 1, false), State(Page("<p>\n" + "  " + Trim(x), false), 1, false),
                   State(Page("<p>\n" + "  " + Trim(x) + "\n</p>\n", true), 0, false);
    BlankDepth();
    ParagraphIs();
    TooWide(x, tail);
    PrintOpener();
    PrintTurn(PARAGRAPH, [Text(x)] + [HtmlEnd("p")] + tail, BLANK_PAGE, a);
    NotTried([Text(x)] + ([HtmlEnd("p")] + tail), 1);
    PrintWords("<p>\n", x);
    PrintTurn(Text(x), [HtmlEnd("p")] + tail, a, b);
    assert [Text(x)] + ([HtmlEnd("p")] + tail) == [Text(x)] + [HtmlEnd("p")] + tail;
    NotTried([HtmlEnd("p")] + tail, 1);
    EndsInTag("<p>\n" + "  " + Trim(x));
    PrintEnd("<p>\n" + "  " + Trim(x));
    PrintTurn(HtmlEnd("p"), tail, b, c);
    PrintTail(after, c);
    assert "<p>\n" + "  " + Trim(x) + "\n</p>\n" == "<p>\n  " + Trim(x) + "\n</p>\n";
  }

  lemma {:induction false} BlankDepth()
    ensures BLANK_PAGE.depth == 0
  {}

  lemma {:induction false} EndsInTag(out: string)
    ensures !EndsWith(out + "\n" + "</p>", "\n")
  {
    var s := out + "\n" + "</p>";
    assert s[|s| - 1] == '>';
    EndsInNewline(s);
  }

  lemma {:induction false} CappedOver(l: string, rest: string, run: nat)
    requires '\n' !in l && l != [] && Capped(rest, 0)
    ensures Capped(l + rest, run)
  {
    assert l[0] in l && (l + rest)[1..] == l[1..] + rest;
    if |l| > 1 { CappedOver(l[1..], rest, 0); } else { assert l[1..] + rest == rest; }
  }

  lemma {:induction false} CappedBreak(rest: string)
    requires rest != [] && rest[0] != '\n' && Capped(rest, 0)
    ensures Capped("\n" + rest, 0)
  {
    assert ("\n" + rest)[1..] == rest;
  }

  lemma {:induction false} StackedCapped(t: string)
    requires '\n' !in t
    ensures Capped("<p>\n  " + t + "\n</p>\n", 0)
  {
    var b := "\n";
    assert b[1..] == [] && Capped(b, 0);
    hide Capped;
    var l1, l2, l3 := "<p>", "  " + t, "</p>";
    CappedOver(l3, b, 0);
    CappedBreak(l3 + b);
    CappedOver(l2, b + (l3 + b), 0);
    CappedBreak(l2 + (b + (l3 + b)));
    CappedOver(l1, b + (l2 + (b + (l3 + b))), 0);
    assert l1 + (b + (l2 + (b + (l3 + b)))) == "<p>\n  " + t + "\n</p>\n";
  }

  lemma {:induction false} StackedNoTrail(t: string)
    requires '\n' !in t && t != [] && Trimmed(t)
    ensures NoTrail("<p>\n  " + t + "\n</p>\n")
  {
    var s := "<p>\n  " + t + "\n</p>\n";
    var n := |t|;
    assert forall i | 0 <= i < n :: s[6 + i] == t[i];
    forall i | 0 <= i < |s| && IsSpace(s[i]) && s[i] != '\n' ensures i + 1 < |s| && s[i + 1] != '\n' {
      if 6 <= i < 6 + n {
        assert s[i] == t[i - 6] && i - 6 != n - 1;
        assert s[i + 1] == t[i + 1 - 6];
      }
    }
  }

  /** A paragraph of one line that is wider than a hundred columns is printed on three. */
  lemma {:induction false} WideParagraphFormats(x: string, after: string)
    requires PlainText(x) && '\n' !in x && Trim(x) != [] && |CollapseInline(x)| > 93 && PageTail(after)
    ensures Format("<p>" + x + "</p>" + after) == Ok("<p>\n  " + Trim(x) + "\n</p>\n")
  {
    hide *;
    var src := "<p>" + x + "</p>" + after;
    ParagraphRead(x, after);
    NotBlank(x);
    ParagraphTokens(x, after);
    PrintStacked(x, after);
    var a, b := TrimSplit(x);
    TrimBreak(x);
    var out := "<p>\n  " + Trim(x) + "\n</p>\n";
    StackedCapped(Trim(x));
    StackedNoTrail(Trim(x));
    StackedSettled(Trim(x));
    FixedIffSettled(out);
    FormatFrom(src, Doc([], ParagraphUnits(x, after)), PARAGRAPH, [Text(x)] + [HtmlEnd("p")] + TextTokens(after), out);
  }

  lemma {:induction false} NotBlank(x: string)
    requires Trim(x) != []
    ensures x != []
  {}

  lemma {:induction false} StackedSettled(t: string)
    requires Capped("<p>\n  " + t + "\n</p>\n", 0) && NoTrail("<p>\n  " + t + "\n</p>\n")
    ensures Settled("<p>\n  " + t + "\n</p>\n")
  {
    hide Capped, NoTrail;
    var s := "<p>\n  " + t + "\n</p>\n";
    assert s[|s| - 1] == '\n' && s[|s| - 2] == '>';
    EndsInNewline(s);
    EndsInTwo(s);
  }

  lemma {:induction false} FormatFrom(src: string, d: Doc, t: Token, ts: seq<Token>, out: string)
    requires Lex([], src) == Ok(d) && DocTokens(d) == [t] + ts
    requires PrintFrom([t] + ts, BLANK_PAGE).Ok? && PrintFrom([t] + ts, BLANK_PAGE).value.page.out == out && PostProcess(out) == out
    ensures Format(src) == Ok(out)
  {
    hide Lex, DocTokens, PrintFrom, PostProcess;
  }
}
