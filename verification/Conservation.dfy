/** Formatting loses, duplicates and reorders nothing but whitespace. */
module Conservation {
  import opened Text
  import opened Tokens
  import L = Lexing
  import opened Layout

  /** The canonical renderings of the tokens in order, or the first failure among them. */
  function Canon(ts: seq<Token>): Outcome<string> {
    if ts == [] then Ok([])
    else
      var first :- TokenText(ts[0]);
      var rest :- Canon(ts[1..]);
      Ok(first + rest)
  }

  // ----- whitespace added or removed by the page operations -----

  lemma {:induction false} EraseIndent(d: nat)
    ensures Erase(Indent(d)) == []
  {
    if d > 0 {
      EraseIndent(d - 1);
      EraseAppend("  ", Indent(d - 1));
    }
  }

  lemma EraseEnsureIndent(p: Page, d: nat)
    ensures Erase(EnsureIndent(p, d).out) == Erase(p.out)
  {
    EraseIndent(d);
    EraseAppend(p.out, "\n");
    EraseAppend(if p.bol then p.out else p.out + "\n", Indent(d));
  }

  lemma EraseNewline(p: Page)
    ensures Erase(Newline(p).out) == Erase(p.out)
  {
    EraseAppend(p.out, "\n");
  }

  lemma ErasePushed(p: Page, d: nat, s: string)
    ensures Erase(Push(EnsureIndent(p, d), s).out) == Erase(p.out) + Erase(s)
    ensures Erase(Newline(Push(EnsureIndent(p, d), s)).out) == Erase(p.out) + Erase(s)
  {
    EraseEnsureIndent(p, d);
    EraseAppend(EnsureIndent(p, d).out, s);
    EraseNewline(Push(EnsureIndent(p, d), s));
  }

  // ----- text -----

  lemma {:induction false} EraseNewlinesToSpaces(s: string)
    ensures Erase(NewlinesToSpaces(s)) == Erase(s)
  {
    if s != [] { EraseNewlinesToSpaces(s[1..]); }
  }

  lemma {:induction false} EraseHalveSpaces(s: string)
    ensures Erase(HalveSpaces(s)) == Erase(s)
    decreases |s|
  {
    if s == [] {
    } else if "  " <= s {
      EraseHalveSpaces(s[2..]);
      assert s == "  " + s[2..];
      EraseAppend("  ", s[2..]);
      EraseAppend(" ", HalveSpaces(s[2..]));
    } else {
      EraseHalveSpaces(s[1..]);
    }
  }

  lemma {:induction false} EraseTrimLeft(s: string)
    ensures Erase(TrimLeftBlanks(s)) == Erase(s)
  {
    if s != [] && s[0] == ' ' { EraseTrimLeft(s[1..]); }
  }

  lemma {:induction false} EraseTrimRight(s: string)
    ensures Erase(TrimRightBlanks(s)) == Erase(s)
  {
    if s != [] && s[|s| - 1] == ' ' {
      EraseTrimRight(s[..|s| - 1]);
      assert s == s[..|s| - 1] + " ";
      EraseAppend(s[..|s| - 1], " ");
    }
  }

  lemma EraseCollapse(s: string)
    ensures Erase(CollapseInline(s)) == Erase(s)
  {
    EraseNewlinesToSpaces(s);
    EraseHalveSpaces(NewlinesToSpaces(s));
    EraseTrimLeft(HalveSpaces(NewlinesToSpaces(s)));
    EraseTrimRight(TrimLeftBlanks(HalveSpaces(NewlinesToSpaces(s))));
  }

  function EraseLines(ls: seq<string>): string {
    if ls == [] then [] else Erase(ls[0]) + EraseLines(ls[1..])
  }

  lemma {:induction false} EraseSplit(s: string)
    ensures EraseLines(SplitLines(s)) == Erase(s)
  {
    if s != [] {
      EraseSplit(s[1..]);
      var r := SplitLines(s[1..]);
      assert ([[]] + r)[1..] == r;
      assert ([[s[0]] + r[0]] + r[1..])[1..] == r[1..];
    }
  }

  lemma EraseBlankLine(p: Page)
    ensures Erase(BlankLine(p).out) == Erase(p.out)
  {
    EraseAppend(p.out, "\n");
    EraseAppend(p.out + "\n", "\n");
  }

  lemma {:induction false} EraseSpaces()
    ensures Erase("\n") == [] && Erase(" ") == [] && Erase(" />") == Erase("/>")
  {
    assert Erase(" />") == Erase(" />"[1..]) && " />"[1..] == "/>";
    assert "\n"[1..] == [] && " "[1..] == [];
  }

  lemma {:induction false} EraseLine(p: Page, line: string, d: nat)
    ensures Erase((if p.bol then p.out + Indent(d) else p.out) + Trim(line)) == Erase(p.out) + Erase(line)
    ensures Erase((if p.bol then p.out + Indent(d) else p.out) + Trim(line) + "\n") == Erase(p.out) + Erase(line)
  {
    EraseSpaces();
    hide Erase, Trim, Indent;
    var start := if p.bol then p.out + Indent(d) else p.out;
    EraseTrim(line);
    EraseIndent(d);
    EraseAppend(p.out, Indent(d));
    EraseAppend(start, Trim(line));
    EraseAppend(start + Trim(line), "\n");
  }

  /** The page after one line of text. */
  function PutLine(p: Page, l: string, first: bool, last: bool, endsNl: bool, d: nat): Page {
    if Trim(l) == [] then if !first && !last then BlankLine(p) else p
    else
      var line := (if p.bol then p.out + Indent(d) else p.out) + Trim(l);
      if !last || endsNl then Page(line + "\n", true) else Page(line, false)
  }

  lemma {:induction false} ErasePutLine(p: Page, l: string, first: bool, last: bool, endsNl: bool, d: nat)
    ensures Erase(PutLine(p, l, first, last, endsNl, d).out) == Erase(p.out) + Erase(l)
  {
    EraseTrim(l);
    EraseBlankLine(p);
    EraseLine(p, l, d);
    NothingErased();
    hide Erase, Trim, Indent, BlankLine;
  }

  lemma {:induction false} PutLinesHead(p: Page, ls: seq<string>, first: bool, endsNl: bool, d: nat)
    requires ls != []
    ensures PutLines(p, ls, first, endsNl, d)
         == PutLines(PutLine(p, ls[0], first, |ls| == 1, endsNl, d), ls[1..], false, endsNl, d)
  {
    hide Trim, Indent, BlankLine;
  }

  lemma {:induction false} ErasePutLines(p: Page, ls: seq<string>, first: bool, endsNl: bool, d: nat)
    ensures Erase(PutLines(p, ls, first, endsNl, d).out) == Erase(p.out) + EraseLines(ls)
    decreases |ls|
  {
    if ls != [] {
      hide Erase, PutLine, PutLines;
      PutLinesHead(p, ls, first, endsNl, d);
      var p' := PutLine(p, ls[0], first, |ls| == 1, endsNl, d);
      ErasePutLine(p, ls[0], first, |ls| == 1, endsNl, d);
      ErasePutLines(p', ls[1..], false, endsNl, d);
    }
  }

  lemma ErasePutText(p: Page, s: string, d: nat)
    ensures Erase(PutText(p, s, d).out) == Erase(p.out) + Erase(s)
  {
    if Trim(s) == [] {
      EraseTrim(s);
      EraseAppend(p.out, "\n");
      EraseAppend(p.out + "\n", "\n");
    } else {
      ErasePutLines(p, SplitLines(s), true, EndsWith(s, "\n"), d);
      EraseSplit(s);
    }
  }

  lemma {:induction false} EraseIndented(body: string, i: nat)
    requires i < |body| && Trim(body[i + 1..]) == []
    ensures Erase(body[..i + 1]) == Erase(body)
  {
    EraseTrim(body[i + 1..]);
    hide Erase, Trim;
    assert body == body[..i + 1] + body[i + 1..];
    EraseAppend(body[..i + 1], body[i + 1..]);
    NothingErased();
  }

  lemma {:induction false} NothingErased()
    ensures Erase([]) == []
  {}

  lemma {:induction false} EraseRawBody(s: string)
    ensures Erase(RawBody(s)) == Erase(s)
  {
    EraseSpaces();
    hide Erase, Trim, LastNewline;
    var body := if "\n" <= s then s[1..] else s;
    if "\n" <= s { assert s == "\n" + s[1..]; EraseAppend("\n", s[1..]); }
    match LastNewline(body)
    case None =>
    case Some(i) =>
      if Trim(body[i + 1..]) == [] { EraseIndented(body, i); }
  }

  lemma ErasePutRaw(p: Page, s: string)
    ensures Erase(PutRaw(p, s).page.out) == Erase(p.out) + Erase(s)
  {
    EraseTrim(s);
    EraseRawBody(s);
    EraseAppend(p.out, RawBody(s));
  }

  // ----- tags -----

  lemma {:induction false} EraseStacked(rs: seq<string>, d: nat)
    ensures Erase(Stacked(rs, d)) == Erase(Spaced(rs))
  {
    EraseSpaces();
    hide Erase, Indent;
    if rs != [] {
      EraseStacked(rs[1..], d);
      EraseIndent(d);
      EraseAppend("\n", Indent(d));
      EraseAppend("\n" + Indent(d), rs[0]);
      EraseAppend("\n" + Indent(d) + rs[0], Stacked(rs[1..], d));
      EraseAppend(" ", rs[0]);
      EraseAppend(" " + rs[0], Spaced(rs[1..]));
    }
  }

  lemma {:induction false} EraseThree(a: string, b: string, c: string)
    ensures Erase(a + b + c) == Erase(a) + Erase(b) + Erase(c)
  {
    hide Erase;
    EraseAppend(a, b);
    EraseAppend(a + b, c);
  }

  lemma {:induction false} StackedErased(head: string, stacked: string, indent: string, close: string)
    requires Erase(indent) == []
    ensures Erase(head + stacked + "\n" + indent + close) == Erase(head) + Erase(stacked) + Erase(close)
  {
    EraseSpaces();
    hide Erase;
    EraseThree(head, stacked, "\n");
    EraseThree(head + stacked + "\n", indent, close);
  }

  lemma {:induction false} EraseTagText(name: string, attrs: seq<Attr>, rs: seq<string>, selfClosed: bool, d: nat)
    ensures Erase(TagText(name, attrs, rs, selfClosed, d)) == Erase(InlineTag(name, rs, selfClosed))
  {
    if !OneLine(attrs) {
      var slash := SlashClosed(name, selfClosed);
      var closeHere, closeBelow := if slash then " />" else ">", if slash then "/>" else ">";
      assert TagText(name, attrs, rs, selfClosed, d) == "<" + name + Stacked(rs, d + 1) + "\n" + Indent(d) + closeBelow;
      assert InlineTag(name, rs, selfClosed) == "<" + name + Spaced(rs) + closeHere;
      hide *;
      EraseSpaces();
      EraseStacked(rs, d + 1);
      EraseIndent(d);
      StackedErased("<" + name, Stacked(rs, d + 1), Indent(d), closeBelow);
      EraseThree("<" + name, Spaced(rs), closeHere);
    }
  }

  // ----- one token -----

  /** Printing a token appends its canonical rendering, up to whitespace, or fails as it does. */
  lemma TokenConserves(t: Token, st: State)
    ensures match TokenText(t)
            case Ok(c) => PrintToken(t, st).Ok? && Erase(PrintToken(t, st).value.page.out) == Erase(st.page.out) + Erase(c)
            case Err(e) => PrintToken(t, st) == Err(e)
            case Panic => PrintToken(t, st) == Panic
  {
    hide EnsureIndent, Newline, PutText, PutRaw, L.ParseAttributes, RenderAttrs, TagText, InlineTag, NormalizeMustache, IsVoid, Erase;
    var State(page, depth, hug) := st;
    match t
    case Text(s) => ErasePutText(page, s, depth);
    case RawText(s) => ErasePutRaw(page, s);
    case HtmlComment(raw) => ErasePushed(page, depth, raw);
    case HbsComment(raw) => ErasePushed(page, depth, raw);
    case HtmlStart(name, attrsRaw, selfClosed) =>
      if L.ParseAttributes(attrsRaw).Ok? && RenderAttrs(L.ParseAttributes(attrsRaw).value).Ok? {
        var attrs := L.ParseAttributes(attrsRaw).value;
        var rs := RenderAttrs(attrs).value;
        ErasePushed(page, depth, TagText(name, attrs, rs, selfClosed, depth));
        EraseTagText(name, attrs, rs, selfClosed, depth);
      }
    case HtmlEnd(name) =>
      ErasePushed(page, Less(depth), EndTag(name));
      EraseAppend(page.out, EndTag(name));
      EraseNewline(Push(page, EndTag(name)));
    case _ =>
      if NormalizeMustache(t.raw).Ok? {
        ErasePushed(page, depth, NormalizeMustache(t.raw).value);
        ErasePushed(page, Less(depth), NormalizeMustache(t.raw).value);
      }
  }

  // ----- inline runs -----

  lemma {:induction false} CanonAppend(a: seq<Token>, b: seq<Token>)
    ensures match Canon(a)
            case Ok(x) => (match Canon(b)
                           case Ok(y) => Canon(a + b) == Ok(x + y)
                           case Err(e) => Canon(a + b) == Err(e)
                           case Panic => Canon(a + b) == Panic)
            case Err(e) => Canon(a + b) == Err(e)
            case Panic => Canon(a + b) == Panic
  {
    hide TokenText;
    if a == [] {
      assert a + b == b;
      if Canon(b).Ok? { assert [] + Canon(b).value == Canon(b).value; }
    } else {
      assert (a + b)[1..] == a[1..] + b;
      CanonAppend(a[1..], b);
      if Canon(a).Ok? && Canon(b).Ok? {
        assert TokenText(a[0]).value + (Canon(a[1..]).value + Canon(b).value) == Canon(a).value + Canon(b).value;
      }
    }
  }

  lemma {:induction false} BodyConserves(ts: seq<Token>)
    ensures match Canon(ts)
            case Ok(c) => InlineBody(ts).Ok? && Erase(InlineBody(ts).value) == Erase(c)
            case Err(e) => InlineBody(ts) == Err(e)
            case Panic => InlineBody(ts) == Panic
  {
    hide TokenText;
    if ts != [] {
      BodyConserves(ts[1..]);
      if ts[0].Text? { EraseCollapse(ts[0].text); assert TokenText(ts[0]) == Ok(ts[0].text) by { TextText(ts[0].text); } }
      if TokenText(ts[0]).Ok? && Canon(ts[1..]).Ok? {
        EraseAppend(TokenText(ts[0]).value, Canon(ts[1..]).value);
        EraseAppend(InlineToken(ts[0]).value, InlineBody(ts[1..]).value);
      }
    }
  }

  lemma TextText(s: string)
    ensures TokenText(Text(s)) == Ok(s)
  {}

  lemma {:induction false} CloserIsEndTag(ts: seq<Token>, stack: seq<BlockKind>)
    requires stack != [] && FindCloser(ts, stack).Some?
    ensures Closes(ts[FindCloser(ts, stack).value]) == Some(stack[0])
    decreases |ts|
  {
    hide Awaits, Closes;
    if Awaits(ts[0]).Some? {
      CloserIsEndTag(ts[1..], stack + [Awaits(ts[0]).value]);
    } else if Closes(ts[0]) == Some(stack[|stack| - 1]) {
      if |stack| > 1 { CloserIsEndTag(ts[1..], stack[..|stack| - 1]); }
    } else if !(ts[0].HbsElse? && |stack| == 1) {
      CloserIsEndTag(ts[1..], stack);
    }
  }

  lemma ClosesEnd(t: Token, name: string)
    requires Closes(t) == Some(ElementEnd(name))
    ensures t == HtmlEnd(name) && CloserText(t) == Ok(EndTag(name)) && TokenText(t) == Ok(EndTag(name))
  {}

  /** The closer found for an element opener is the end tag of its name, so `render_inline_body`
      never meets a token it declares unreachable. */
  lemma {:induction false} CloserOfOpener(ts: seq<Token>, k: nat)
    requires ts != [] && OpensElement(ts[0]) && FindCloser(ts[1..], [ElementEnd(ts[0].name)]) == Some(k)
    ensures 1 + k < |ts| && ts[1 + k] == HtmlEnd(ts[0].name) && CloserText(ts[1 + k]) == Ok(EndTag(ts[0].name))
  {
    CloserIsEndTag(ts[1..], [ElementEnd(ts[0].name)]);
    hide FindCloser;
    assert ts[1..][k] == ts[1 + k];
    ClosesEnd(ts[1 + k], ts[0].name);
  }

  lemma OpenerText(t: Token)
    ensures match InlineOpener(t)
            case Ok(s) => s.Some? ==> TokenText(t) == Ok(s.value)
            case Err(e) => TokenText(t) == Err(e)
            case Panic => TokenText(t) == Panic
  {
    hide L.ParseAttributes, RenderAttrs, OneLine, IsVoid;
  }

  /** An inline run replaces the tokens it consumes by their canonical rendering, up to whitespace. */
  lemma RunConserves(ts: seq<Token>, d: nat)
    requires ts != []
    ensures TryInline(ts, d).Ok? && TryInline(ts, d).value.Some? ==>
              var r := TryInline(ts, d).value.value;
              Canon(ts[..r.len]).Ok? && Erase(r.text) == Erase(Canon(ts[..r.len]).value)
    ensures TryInline(ts, d).Err? ==> Canon(ts) == Err(TryInline(ts, d).error)
    ensures TryInline(ts, d).Panic? ==> Canon(ts) == Panic
  {
    hide TokenText, InlineOpener, CloserText, FindCloser, Canon, InlineBody, SingleLineBody, TrimEnd, Erase;
    OpenerText(ts[0]);
    CanonOne(ts[0]);
    assert ts == [ts[0]] + ts[1..];
    CanonAppend([ts[0]], ts[1..]);
    var opener := InlineOpener(ts[0]);
    if opener.IsFailure() || opener.value.None? { return; }
    var name := OpenerName(ts[0]);
    var k := FindCloser(ts[1..], [ElementEnd(name)]);
    if k.None? { return; }
    var body, closer := ts[1..1 + k.value], ts[1 + k.value];
    CloserIsEndTag(ts[1..], [ElementEnd(name)]);
    assert closer == ts[1..][k.value];
    ClosesEnd(closer, name);
    BodyConserves(body);
    CanonOne(closer);
    assert ts[1..] == body + ts[1 + k.value..];
    CanonAppend(body, ts[1 + k.value..]);
    if Canon(body).Ok? {
      var head := [ts[0]] + body;
      CanonAppend([ts[0]], body);
      CanonAppend(head, [closer]);
      assert ts[..k.value + 2] == head + [closer];
      var text := opener.value.value + InlineBody(body).value + EndTag(name);
      EraseTrimEnd(text);
      EraseAppend(opener.value.value + InlineBody(body).value, EndTag(name));
      EraseAppend(opener.value.value, InlineBody(body).value);
      EraseAppend(opener.value.value + Canon(body).value, EndTag(name));
      EraseAppend(opener.value.value, Canon(body).value);
    }
  }

  lemma OpenerName(t: Token) returns (name: string)
    requires InlineOpener(t).Ok? && InlineOpener(t).value.Some?
    ensures t.HtmlStart? && name == t.name
  {
    name := t.name;
  }

  lemma CanonOne(t: Token)
    ensures match TokenText(t)
            case Ok(c) => Canon([t]) == Ok(c)
            case Err(e) => Canon([t]) == Err(e)
            case Panic => Canon([t]) == Panic
  {
    hide TokenText;
    assert [t][1..] == [];
    if TokenText(t).Ok? { assert TokenText(t).value + [] == TokenText(t).value; }
  }

  // ----- the whole stream -----

  lemma {:induction false} PrintFromConserves(ts: seq<Token>, st: State)
    ensures match Canon(ts)
            case Ok(c) => PrintFrom(ts, st).Ok? && Erase(PrintFrom(ts, st).value.page.out) == Erase(st.page.out) + Erase(c)
            case Err(e) => PrintFrom(ts, st) == Err(e)
            case Panic => PrintFrom(ts, st) == Panic
    decreases |ts|
  {
    hide TokenText, TryInline, PrintToken, EnsureIndent, Erase;
    if ts == [] { assert Erase([]) == [] by { EraseBlank([]); } return; }
    RunConserves(ts, st.depth);
    var found := TryInline(ts, st.depth);
    if found.IsFailure() { return; }
    if found.value.Some? {
      var r := found.value.value;
      assert ts == ts[..r.len] + ts[r.len..];
      CanonAppend(ts[..r.len], ts[r.len..]);
      PrintFromConserves(ts[r.len..], PrintRun(r, st));
      EraseEnsureIndent(st.page, st.depth);
      EraseAppend(EnsureIndent(st.page, st.depth).out + r.text, "\n");
      EraseAppend(EnsureIndent(st.page, st.depth).out, r.text);
      EraseBlank("\n");
      if Canon(ts[r.len..]).Ok? { EraseAppend(Canon(ts[..r.len]).value, Canon(ts[r.len..]).value); }
    } else {
      TokenConserves(ts[0], st);
      if TokenText(ts[0]).Ok? {
        PrintFromConserves(ts[1..], PrintToken(ts[0], st).value);
        if Canon(ts[1..]).Ok? { EraseAppend(TokenText(ts[0]).value, Canon(ts[1..]).value); }
      }
    }
  }

  // ----- clean-up -----

  lemma {:induction false} EraseCapNewlines(s: string, run: nat)
    ensures Erase(CapNewlines(s, run)) == Erase(s)
  {
    if s != [] {
      if s[0] == '\n' {
        EraseCapNewlines(s[1..], run + 1);
        EraseAppend("\n", CapNewlines(s[1..], run + 1));
        assert [] + CapNewlines(s[1..], run + 1) == CapNewlines(s[1..], run + 1);
      } else {
        EraseCapNewlines(s[1..], 0);
      }
    }
  }

  lemma {:induction false} EraseStripNewlines(s: string)
    ensures Erase(StripNewlines(s)) == Erase(s)
  {
    if s != [] && s[|s| - 1] == '\n' {
      EraseStripNewlines(s[..|s| - 1]);
      assert s == s[..|s| - 1] + "\n";
      EraseAppend(s[..|s| - 1], "\n");
    }
  }

  lemma {:induction false} EraseJoin(ls: seq<string>)
    ensures Erase(JoinLines(TrimEnds(ls))) == EraseLines(ls)
  {
    if ls != [] {
      var rest := TrimEnds(ls[1..]);
      var all := TrimEnds(ls);
      assert all[1..] == rest;
      EraseJoin(ls[1..]);
      EraseTrimEnd(ls[0]);
      if |ls| > 1 {
        EraseAppend(TrimEnd(ls[0]) + "\n", JoinLines(rest));
        EraseAppend(TrimEnd(ls[0]), "\n");
      } else {
        assert ls[1..] == [];
        assert all == [TrimEnd(ls[0])];
      }
    }
  }

  lemma ErasePostProcess(s: string)
    ensures Erase(PostProcess(s)) == Erase(s)
  {
    var t := StripNewlines(CapNewlines(s, 0));
    EraseCapNewlines(s, 0);
    EraseStripNewlines(CapNewlines(s, 0));
    EraseSplit(t);
    EraseJoin(SplitLines(t));
    EraseAppend(JoinLines(TrimEnds(SplitLines(t))), "\n");
  }

  /** For every token stream, printing fails exactly as the first token whose rendering fails,
      and otherwise prints the canonical renderings in order, up to whitespace. */
  lemma PrintConserves(ts: seq<Token>)
    ensures match Canon(ts)
            case Ok(c) => Print(ts).Ok? && Erase(Print(ts).value) == Erase(c)
            case Err(e) => Print(ts) == Err(e)
            case Panic => Print(ts) == Panic
  {
    hide PrintFrom, PostProcess, Canon;
    PrintFromConserves(ts, BLANK_PAGE);
    if PrintFrom(ts, BLANK_PAGE).Ok? { ErasePostProcess(PrintFrom(ts, BLANK_PAGE).value.page.out); }
  }
}
