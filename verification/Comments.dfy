/** What becomes of comments: the printer copies them, and the clean-up acts on each one by itself. */
module Comments {
  import opened Text
  import opened Tokens
  import opened Lexing
  import opened LexingProps
  import opened Lexemes
  import opened Layout
  import opened Neatness
  import Conservation

  // ----- comments in order -----

  function CommentsOf(ts: seq<Token>): seq<string> {
    if ts == [] then [] else (if IsComment(ts[0]) then [ts[0].raw] else []) + CommentsOf(ts[1..])
  }

  predicate Stands(s: string, c: string, i: nat) { i + |c| <= |s| && s[i..i + |c|] == c }

  /** The slices stand in `s`, in order and without overlap. */
  ghost predicate Carries(s: string, cs: seq<string>)
    decreases |cs|
  {
    cs == [] || exists i: nat :: Stands(s, cs[0], i) && Carries(s[i + |cs[0]|..], cs[1..])
  }

  lemma {:induction false} CarriesAt(s: string, cs: seq<string>, i: nat)
    requires cs != [] && Stands(s, cs[0], i) && Carries(s[i + |cs[0]|..], cs[1..])
    ensures Carries(s, cs)
  {
    hide Stands;
  }

  lemma {:induction false} CarriedAt(s: string, cs: seq<string>) returns (i: nat)
    requires cs != [] && Carries(s, cs)
    ensures Stands(s, cs[0], i) && Carries(s[i + |cs[0]|..], cs[1..])
  {
    i :| Stands(s, cs[0], i) && Carries(s[i + |cs[0]|..], cs[1..]);
  }

  lemma {:induction false} CarriesNothing(s: string)
    ensures Carries(s, [])
  {}

  lemma {:induction false} CarriesBehind(a: string, b: string, cs: seq<string>)
    requires Carries(b, cs)
    ensures Carries(a + b, cs)
  {
    if cs != [] {
      hide Carries;
      var i := CarriedAt(b, cs);
      var n := |cs[0]|;
      assert (a + b)[|a| + i..|a| + i + n] == b[i..i + n];
      assert (a + b)[|a| + i + n..] == b[i + n..];
      CarriesAt(a + b, cs, |a| + i);
    }
  }

  lemma {:induction false} CarriesBoth(a: string, ca: seq<string>, b: string, cb: seq<string>)
    requires Carries(a, ca) && Carries(b, cb)
    ensures Carries(a + b, ca + cb)
    decreases |ca|
  {
    if ca == [] {
      assert ca + cb == cb;
      CarriesBehind(a, b, cb);
    } else {
      hide Carries;
      var i := CarriedAt(a, ca);
      var n := |ca[0]|;
      CarriesBoth(a[i + n..], ca[1..], b, cb);
      assert (a + b)[i..i + n] == a[i..i + n] && (a + b)[i + n..] == a[i + n..] + b;
      assert (ca + cb)[0] == ca[0] && (ca + cb)[1..] == ca[1..] + cb;
      CarriesAt(a + b, ca + cb, i);
    }
  }

  lemma {:induction false} CarriesOne(a: string, c: string, b: string)
    ensures Carries(a + c + b, [c])
  {
    var s, cs := a + c + b, [c];
    assert s[|a|..|a| + |c|] == c && cs[1..] == [];
    CarriesNothing(s[|a| + |c|..]);
    CarriesAt(s, cs, |a|);
  }

  lemma {:induction false} CommentsAppend(a: seq<Token>, b: seq<Token>)
    ensures CommentsOf(a + b) == CommentsOf(a) + CommentsOf(b)
  {
    hide IsComment;
    if a == [] {
      assert a + b == b;
    } else {
      assert (a + b)[1..] == a[1..] + b;
      CommentsAppend(a[1..], b);
    }
  }

  lemma {:induction false} CommentsHead(ts: seq<Token>)
    requires ts != []
    ensures CommentsOf(ts) == (if IsComment(ts[0]) then [ts[0].raw] else []) + CommentsOf(ts[1..])
    ensures CommentsOf([]) == []
  {}

  // ----- the page only grows -----

  lemma {:induction false} IndentGrows(p: Page, d: nat)
    ensures p.out <= EnsureIndent(p, d).out
  {
    hide Indent;
  }

  lemma {:induction false} NewlineGrows(p: Page)
    ensures p.out <= Newline(p).out
  {}

  lemma {:induction false} Grows(a: string, b: string, c: string)
    requires a <= b && b <= c
    ensures a <= c
  {
    assert c[..|b|][..|a|] == c[..|a|];
  }

  lemma {:induction false} LineGrows(p: Page, l: string, first: bool, last: bool, endsNl: bool, d: nat)
    ensures p.out <= Conservation.PutLine(p, l, first, last, endsNl, d).out
  {
    hide Trim, Indent, EndsWith;
  }

  lemma {:induction false} LinesGrow(p: Page, ls: seq<string>, first: bool, endsNl: bool, d: nat)
    ensures p.out <= PutLines(p, ls, first, endsNl, d).out
    decreases |ls|
  {
    if ls != [] {
      hide *;
      Conservation.PutLinesHead(p, ls, first, endsNl, d);
      LineGrows(p, ls[0], first, |ls| == 1, endsNl, d);
      var p' := Conservation.PutLine(p, ls[0], first, |ls| == 1, endsNl, d);
      LinesGrow(p', ls[1..], false, endsNl, d);
      Grows(p.out, p'.out, PutLines(p, ls, first, endsNl, d).out);
    }
  }

  lemma {:induction false} TextGrows(p: Page, s: string, d: nat)
    ensures p.out <= PutText(p, s, d).out
  {
    hide PutLines, Trim, EndsWith, CountNewlines, SplitLines;
    if Trim(s) != [] { LinesGrow(p, SplitLines(s), true, EndsWith(s, "\n"), d); }
  }

  lemma {:induction false} RawGrows(p: Page, s: string)
    ensures p.out <= PutRaw(p, s).page.out
  {
    hide Trim, RawBody, EndsWith;
  }

  lemma {:induction false} LineParts(p: Page, d: nat, line: string) returns (x: string, y: string)
    ensures Newline(Push(EnsureIndent(p, d), line)).out == p.out + (x + line + y)
  {
    var e := EnsureIndent(p, d);
    IndentGrows(p, d);
    NewlineGrows(Push(e, line));
    hide EnsureIndent, Newline;
    x := e.out[|p.out|..];
    var o := e.out + line;
    var n := Newline(Push(e, line)).out;
    assert n[..|o|] == o;
    y := n[|o|..];
    assert e.out == p.out + x && n == o + y;
  }

  lemma {:induction false} LevelGrows(p: Page, d: nat, line: string)
    ensures p.out <= Newline(Push(EnsureIndent(p, d), line)).out && p.out <= Push(EnsureIndent(p, d), line).out
  {
    var x, y := LineParts(p, d, line);
    IndentGrows(p, d);
    hide EnsureIndent, Newline;
    Grows(p.out, EnsureIndent(p, d).out, EnsureIndent(p, d).out + line);
  }

  // ----- one token -----

  lemma {:induction false} TagGrows(page: Page, name: string, attrsRaw: string, selfClosed: bool, d: nat)
    ensures var r := PrintStart(page, name, attrsRaw, selfClosed, d); r.Ok? ==> page.out <= r.value.out
  {
    var r := PrintStart(page, name, attrsRaw, selfClosed, d);
    if r.Ok? {
      var attrs := ParseAttributes(attrsRaw).value;
      LevelGrows(page, d, TagText(name, attrs, RenderAttrs(attrs).value, selfClosed, d));
    }
    hide ParseAttributes, RenderAttrs, TagText, EnsureIndent, Newline;
  }

  lemma {:induction false} EndGrows(name: string, st: State)
    ensures var r := PrintToken(HtmlEnd(name), st); r.Ok? && st.page.out <= r.value.page.out
  {
    LevelGrows(st.page, Less(st.depth), EndTag(name));
    NewlineGrows(Push(st.page, EndTag(name)));
    hide EnsureIndent, Newline, EndTag;
    Grows(st.page.out, st.page.out + EndTag(name), Newline(Push(st.page, EndTag(name))).out);
  }

  lemma {:induction false} MustacheGrows(t: Token, st: State)
    requires IsMustache(t)
    ensures var r := PrintToken(t, st); r.Ok? ==> st.page.out <= r.value.page.out
  {
    var m := NormalizeMustache(t.raw);
    if m.Ok? {
      LevelGrows(st.page, st.depth, m.value);
      LevelGrows(st.page, Less(st.depth), m.value);
    }
    hide NormalizeMustache, EnsureIndent, Newline;
  }

  lemma {:induction false} TokenGrows(t: Token, st: State)
    requires !IsComment(t)
    ensures var r := PrintToken(t, st); r.Ok? ==> st.page.out <= r.value.page.out
  {
    if IsMustache(t) {
      MustacheGrows(t, st);
    } else if t.HtmlEnd? {
      EndGrows(t.name, st);
    } else {
      hide PutText, PutRaw, PrintStart, EnsureIndent, Newline;
      match t
      case Text(x) => TextGrows(st.page, x, st.depth);
      case RawText(x) => RawGrows(st.page, x);
      case HtmlStart(name, attrsRaw, selfClosed) => TagGrows(st.page, name, attrsRaw, selfClosed, st.depth);
      case _ =>
    }
  }

  lemma {:induction false} CommentPrinted(t: Token, st: State)
    requires IsComment(t)
    ensures PrintToken(t, st) == Ok(State(Newline(Push(EnsureIndent(st.page, st.depth), t.raw)), st.depth, st.hug))
  {
    hide EnsureIndent, Newline;
  }

  lemma {:induction false} TokenCarries(t: Token, st: State) returns (x: string)
    requires PrintToken(t, st).Ok?
    ensures PrintToken(t, st).value.page.out == st.page.out + x && Carries(x, CommentsOf([t]))
  {
    CommentsHead([t]);
    assert [t][1..] == [];
    if IsComment(t) {
      CommentPrinted(t, st);
      hide *;
      var a, b := LineParts(st.page, st.depth, t.raw);
      x := a + t.raw + b;
      CarriesOne(a, t.raw, b);
      assert [t.raw] + [] == [t.raw];
    } else {
      TokenGrows(t, st);
      hide PrintToken, Carries, CommentsOf, IsComment;
      var o := PrintToken(t, st).value.page.out;
      x := o[|st.page.out|..];
      assert o == o[..|st.page.out|] + x;
      CarriesNothing(x);
    }
  }

  // ----- inline runs -----

  lemma {:induction false} InlineCarries(t: Token)
    requires InlineToken(t).Ok?
    ensures Carries(InlineToken(t).value, CommentsOf([t]))
  {
    CommentsHead([t]);
    assert [t][1..] == [];
    hide Carries, CommentsOf;
    if IsComment(t) {
      CarriesOne([], t.raw, []);
      assert [] + t.raw + [] == t.raw && [t.raw] + [] == [t.raw];
    } else {
      CarriesNothing(InlineToken(t).value);
    }
  }

  lemma {:induction false} BodyCarries(ts: seq<Token>)
    requires InlineBody(ts).Ok?
    ensures Carries(InlineBody(ts).value, CommentsOf(ts))
  {
    hide Carries, CommentsOf, InlineToken;
    if ts == [] {
      NoComments();
    } else {
      InlineCarries(ts[0]);
      BodyCarries(ts[1..]);
      assert ts == [ts[0]] + ts[1..];
      CommentsAppend([ts[0]], ts[1..]);
      CarriesBoth(InlineToken(ts[0]).value, CommentsOf([ts[0]]), InlineBody(ts[1..]).value, CommentsOf(ts[1..]));
    }
  }

  lemma {:induction false} NoComments()
    ensures CommentsOf([]) == [] && Carries([], [])
  {}

  lemma {:induction false} OneNoComment(t: Token)
    requires !IsComment(t)
    ensures CommentsOf([t]) == []
  {}

  /** The parts of a run that the look-ahead accepts. */
  lemma {:induction false} RunShape(ts: seq<Token>, d: nat) returns (opener: string, k: nat)
    requires ts != [] && TryInline(ts, d).Ok? && TryInline(ts, d).value.Some?
    ensures OpensElement(ts[0]) && FindCloser(ts[1..], [ElementEnd(ts[0].name)]) == Some(k) && 1 + k < |ts|
    ensures InlineBody(ts[1..1 + k]).Ok?
    ensures CloserText(ts[1 + k]).Ok?
    ensures TryInline(ts, d).value.value
         == Run(TrimEnd(opener + InlineBody(ts[1..1 + k]).value + CloserText(ts[1 + k]).value), k + 2)
  {
    hide ParseAttributes, RenderAttrs, OneLine, FindCloser, SingleLineBody, InlineBody, CloserText, TrimEnd, IsVoid;
    opener := InlineOpener(ts[0]).value.value;
    k := FindCloser(ts[1..], [ElementEnd(ts[0].name)]).value;
  }

  lemma {:induction false} TrimsNothing(x: string, name: string)
    ensures TrimEnd(x + EndTag(name)) == x + EndTag(name)
  {
    var s := x + EndTag(name);
    assert s[|s| - 1] == '>';
  }

  /** The same with its closer known. */
  lemma {:induction false} RunLine(ts: seq<Token>, d: nat) returns (opener: string, k: nat, name: string)
    requires ts != [] && TryInline(ts, d).Ok? && TryInline(ts, d).value.Some?
    ensures 1 + k < |ts| && InlineBody(ts[1..1 + k]).Ok? && !IsComment(ts[0]) && !IsComment(ts[1 + k])
    ensures TryInline(ts, d).value.value == Run(opener + InlineBody(ts[1..1 + k]).value + EndTag(name), k + 2)
  {
    opener, k := RunShape(ts, d);
    name := ts[0].name;
    Conservation.CloserOfOpener(ts, k);
    hide InlineBody, TryInline, FindCloser, TrimEnd, EndTag, IsVoid;
    TrimsNothing(opener + InlineBody(ts[1..1 + k]).value, name);
  }

  lemma {:induction false} RunTokens(ts: seq<Token>, k: nat)
    requires 1 + k < |ts| && !IsComment(ts[0]) && !IsComment(ts[1 + k])
    ensures CommentsOf(ts[..k + 2]) == CommentsOf(ts[1..1 + k])
  {
    hide *;
    var body := ts[1..1 + k];
    OneNoComment(ts[0]);
    OneNoComment(ts[1 + k]);
    assert ts[..k + 2] == [ts[0]] + body + [ts[1 + k]];
    CommentsAppend([ts[0]] + body, [ts[1 + k]]);
    CommentsAppend([ts[0]], body);
    assert [] + CommentsOf(body) + [] == CommentsOf(body);
  }

  lemma {:induction false} RunCarries(ts: seq<Token>, d: nat)
    requires ts != [] && TryInline(ts, d).Ok? && TryInline(ts, d).value.Some?
    ensures var r := TryInline(ts, d).value.value;
            r.len <= |ts| && Carries(r.text, CommentsOf(ts[..r.len]))
  {
    hide *;
    var opener, k, name := RunLine(ts, d);
    RunTokens(ts, k);
    var body := ts[1..1 + k];
    BodyCarries(body);
    CarriesBehind(opener, InlineBody(body).value, CommentsOf(body));
    CarriesBefore(opener + InlineBody(body).value, CommentsOf(body), EndTag(name));
  }

  lemma {:induction false} CarriesBefore(a: string, cs: seq<string>, b: string)
    requires Carries(a, cs)
    ensures Carries(a + b, cs)
  {
    hide Carries;
    CarriesNothing(b);
    CarriesBoth(a, cs, b, []);
    assert cs + [] == cs;
  }

  // ----- the whole page -----

  lemma {:induction false} Behind(o: string, x: string, y: string, o': string, o'': string)
    requires o' == o + x && o'' == o' + y
    ensures o'' == o + (x + y)
  {}

  lemma {:induction false} RunStep(ts: seq<Token>, st: State)
    requires ts != [] && PrintFrom(ts, st).Ok?
    ensures TryInline(ts, st.depth).Ok?
    ensures TryInline(ts, st.depth).value.Some? ==>
              var r := TryInline(ts, st.depth).value.value;
              r.len <= |ts| && 0 < r.len && PrintFrom(ts, st) == PrintFrom(ts[r.len..], PrintRun(r, st))
    ensures TryInline(ts, st.depth).value.None? ==>
              PrintToken(ts[0], st).Ok? && PrintFrom(ts, st) == PrintFrom(ts[1..], PrintToken(ts[0], st).value)
  {
    hide TryInline, PrintToken, PrintRun;
  }

  lemma {:induction false} CommentsSplit(ts: seq<Token>, n: nat)
    requires n <= |ts|
    ensures CommentsOf(ts) == CommentsOf(ts[..n]) + CommentsOf(ts[n..])
  {
    assert ts == ts[..n] + ts[n..];
    CommentsAppend(ts[..n], ts[n..]);
  }

  /** The page holds the comments of the tokens printed, in order and copied verbatim. */
  lemma {:induction false} PageCarries(ts: seq<Token>, st: State) returns (x: string)
    requires PrintFrom(ts, st).Ok?
    ensures PrintFrom(ts, st).value.page.out == st.page.out + x && Carries(x, CommentsOf(ts))
    decreases |ts|
  {
    if ts == [] {
      x := [];
      NoComments();
      assert st.page.out + [] == st.page.out;
    } else {
      hide *;
      RunStep(ts, st);
      var found := TryInline(ts, st.depth).value;
      var n, st', a;
      if found.Some? {
        n, st' := found.value.len, PrintRun(found.value, st);
        RunCarries(ts, st.depth);
        var before := RunPage(found.value, st);
        CarriesBehind(before, found.value.text, CommentsOf(ts[..n]));
        CarriesBefore(before + found.value.text, CommentsOf(ts[..n]), "\n");
        a := before + found.value.text + "\n";
      } else {
        n, st' := 1, PrintToken(ts[0], st).value;
        a := TokenCarries(ts[0], st);
        assert ts[..1] == [ts[0]];
      }
      var y := PageCarries(ts[n..], st');
      x := a + y;
      CarriesBoth(a, CommentsOf(ts[..n]), y, CommentsOf(ts[n..]));
      CommentsSplit(ts, n);
      Behind(st.page.out, a, y, st'.page.out, PrintFrom(ts, st).value.page.out);
    }
  }

  lemma {:induction false} RunPage(r: Run, st: State) returns (a: string)
    ensures PrintRun(r, st).page.out == st.page.out + (a + r.text + "\n")
  {
    IndentGrows(st.page, st.depth);
    hide EnsureIndent;
    var e := EnsureIndent(st.page, st.depth).out;
    a := e[|st.page.out|..];
    assert e == st.page.out + a;
    assert e + r.text + "\n" == st.page.out + (a + r.text + "\n");
  }

  // ----- the clean-up -----

  function AllPolished(cs: seq<string>): (r: seq<string>)
    ensures |r| == |cs|
  {
    if cs == [] then [] else [Polished(cs[0])] + AllPolished(cs[1..])
  }

  predicate AllFirm(cs: seq<string>) { forall c <- cs :: Firm(c) }

  lemma {:induction false} StandsSplit(s: string, c: string, i: nat)
    requires Stands(s, c, i)
    ensures i + |c| <= |s| && s == s[..i] + c + s[i + |c|..]
  {}

  lemma {:induction false} AllFirmHead(cs: seq<string>)
    requires cs != [] && AllFirm(cs)
    ensures Firm(cs[0]) && AllFirm(cs[1..]) && AllPolished(cs) == [Polished(cs[0])] + AllPolished(cs[1..])
  {
    hide Firm, Polished;
    forall c | c in cs[1..] ensures c in cs {}
  }

  /** Clean-up turns the comments a page carries into their polished forms. */
  lemma {:induction false} CleanedCarries(s: string, cs: seq<string>)
    requires Carries(s, cs) && AllFirm(cs)
    ensures Carries(PostProcess(s), AllPolished(cs))
    decreases |cs|
  {
    if cs == [] {
      CarriesNothing(PostProcess(s));
    } else {
      hide *;
      AllFirmHead(cs);
      var c := cs[0];
      var i := CarriedAt(s, cs);
      StandsSplit(s, c, i);
      var a, b := s[..i], s[i + |c|..];
      CleanupIsLocal(a, c, b);
      CleanedCarries(b, cs[1..]);
      CarriesOne(Polished(a), Polished(c), []);
      assert Polished(a) + Polished(c) + [] == Polished(a) + Polished(c);
      CarriesBoth(Polished(a) + Polished(c), [Polished(c)], PostProcess(b), AllPolished(cs[1..]));
    }
  }

  /** For every token stream whose comments start and end in non-space characters, the output holds
      each comment in its order with whitespace before line breaks and line breaks beyond two in a
      row removed, and nothing else; by PolishedIff that is the comment itself exactly when it has
      neither. */
  lemma {:induction false} PrintKeepsComments(ts: seq<Token>)
    requires Print(ts).Ok? && AllFirm(CommentsOf(ts))
    ensures Carries(Print(ts).value, AllPolished(CommentsOf(ts)))
  {
    hide PrintFrom, PostProcess, Carries, Firm, Polished, CommentsOf;
    var x := PageCarries(ts, BLANK_PAGE);
    var out := PrintFrom(ts, BLANK_PAGE).value.page.out;
    assert [] + x == x;
    CleanedCarries(out, CommentsOf(ts));
  }

  // ----- the comments of a template -----

  lemma {:induction false} HtmlCommentFirm(raw: string)
    requires HtmlCommentLexed(raw)
    ensures Firm(raw)
  {
    FindIsFirst(raw[4..], "-->");
    var k := |raw| - 7;
    assert raw[4..][k..] == raw[k + 4..];
    assert raw[k + 4..][2] == "-->"[2];
    assert raw[0] == '<';
  }

  lemma {:induction false} EndsAtFind(s: string, needle: string, n: nat)
    requires needle != [] && Find(s, needle) == Some(n) && |s| == n + |needle|
    ensures s[|s| - 1] == needle[|needle| - 1]
  {
    FindIsFirst(s, needle);
    assert s[n..][|needle| - 1] == needle[|needle| - 1];
  }

  lemma {:induction false} HbsCommentFirm(raw: string)
    requires HbsCommentLexed(raw)
    ensures Firm(raw)
  {
    assert raw[0] == '{';
    if "{{!--" <= raw {
      EndsAtFind(raw[5..], "--}}", |raw| - 9);
    } else {
      EndsAtFind(raw[3..], "}}", |raw| - 5);
    }
  }

  lemma {:induction false} CommentsFirm(ts: seq<Token>)
    requires forall t | t in ts && IsComment(t) :: Firm(t.raw)
    ensures AllFirm(CommentsOf(ts))
  {
    hide Firm, IsComment;
    if ts != [] {
      forall t | t in ts[1..] ensures t in ts {}
      CommentsFirm(ts[1..]);
      assert ts[0] in ts;
    }
  }

  lemma {:induction false} LexedFirm(t: Token)
    requires IsComment(t) && ItemLexed(Single(t))
    ensures Firm(t.raw)
  {
    if t.HtmlComment? { HtmlCommentFirm(t.raw); } else { HbsCommentFirm(t.raw); }
  }

  lemma {:induction false} TemplateComments(src: string)
    requires LexTokens([], src).Ok?
    ensures AllFirm(CommentsOf(LexTokens([], src).value))
  {
    var d := Lex([], src).value;
    DocumentRead([], src, d);
    hide Lex, Firm, ItemLexed, CommentsOf;
    var ts := DocTokens(d);
    forall t | t in ts && IsComment(t) ensures Firm(t.raw) {
      UnitsTokenOrigin(d.units, t);
      assert ItemLexed(Single(t));
      LexedFirm(t);
    }
    CommentsFirm(ts);
  }

  /** Every template that formats keeps its comments, each one polished. */
  lemma {:induction false} FormatKeepsComments(src: string)
    requires Format(src).Ok?
    ensures LexTokens([], src).Ok?
    ensures Carries(Format(src).value, AllPolished(CommentsOf(LexTokens([], src).value)))
  {
    hide LexTokens, Print, Carries, CommentsOf;
    TemplateComments(src);
    PrintKeepsComments(LexTokens([], src).value);
  }

  /** Polishing changes no comment exactly when none holds whitespace before a line break or three
      line breaks in a row. */
  lemma {:induction false} AllPolishedIff(cs: seq<string>)
    ensures AllPolished(cs) == cs <==> forall c <- cs :: Neat(c)
  {
    hide Neat, Polished;
    if cs != [] {
      PolishedIff(cs[0]);
      AllPolishedIff(cs[1..]);
      assert cs == [cs[0]] + cs[1..];
      assert AllPolished(cs)[0] == Polished(cs[0]) && AllPolished(cs)[1..] == AllPolished(cs[1..]);
      forall c ensures c in cs <==> c == cs[0] || c in cs[1..] {}
    }
  }
}
