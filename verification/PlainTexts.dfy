/** Text in which the tokenizer finds no lexeme, and that laying it out or collapsing it finds none in it
    either. */
module PlainTexts {
  import opened Text
  import opened Tokens
  import opened Lexing
  import opened LexingProps
  import opened Layout
  import opened Cleanup
  import opened Gaps
  import opened GapFix
  import opened Runs
  import opened NormalForm
  import opened Relex
  import opened Needles

  /** A `>` comes before the line ends. */
  predicate ClosesOnLine(s: string) { s != [] && s[0] != '\n' && (s[0] == '>' || ClosesOnLine(s[1..])) }

  /** A `<` at the head only opens a declaration, `<!…>` or `<?…>`, that is closed on its line. */
  predicate PlainHead(x: string)
    requires x != []
  {
    && x[0] != '{'
    && (x[0] == '<' ==> |x| > 1 && (x[1] == '!' || x[1] == '?') && !("<!--" <= x) && ClosesOnLine(x))
  }

  /** Text in which no lexeme starts. */
  predicate PlainText(x: string) { x == [] || (PlainHead(x) && PlainText(x[1..])) }

  lemma {:induction false} PlainTurn(x: string)
    requires x != []
    ensures PlainText(x) <==> PlainHead(x) && PlainText(x[1..])
  {}

  /** Letters and spaces are plain. */
  lemma {:induction false} NoAngles(x: string)
    requires '<' !in x && '{' !in x
    ensures PlainText(x)
  {
    if x != [] {
      assert x[0] in x;
      NoAngles(x[1..]);
    }
  }

  lemma {:induction false} ClosesWord(x: string)
    requires '\n' !in x
    ensures ClosesOnLine(x + ">")
  {
    if x != [] {
      assert x[0] in x;
      assert (x + ">")[1..] == x[1..] + ">";
      ClosesWord(x[1..]);
    }
  }

  /** A declaration on one line, such as the document type of a page, is plain. */
  lemma {:induction false} DeclarationPlain(x: string)
    requires '<' !in x && '{' !in x && '\n' !in x && !("--" <= x)
    ensures PlainText("<!" + x + ">")
  {
    var s := "<!" + x + ">";
    NoAngles("!" + x + ">");
    assert s[1..] == "!" + x + ">" && s[0] == '<' && s[1] == '!';
    ClosesWord("!" + x);
    assert s[0] != '>' && ClosesOnLine(s);
    if "<!--" <= s {
      CommentPrefix(s);
      TwoDashes(x);
    }
  }

  lemma {:induction false} TwoDashes(x: string)
    requires var s := "<!" + x + ">"; |s| >= 4 && s[2] == '-' && s[3] == '-'
    ensures "--" <= x
  {
    var s := "<!" + x + ">";
    assert |x| >= 2 && x[0] == s[2] && x[1] == s[3];
  }

  // ----- parts of plain text -----

  lemma {:induction false} PlainDrop(x: string, n: nat)
    requires PlainText(x) && n <= |x|
    ensures PlainText(x[n..])
  {
    if n > 0 {
      PlainDrop(x[1..], n - 1);
      assert x[1..][n - 1..] == x[n..];
    } else {
      assert x[0..] == x;
    }
  }

  lemma {:induction false} ClosesFirst(l: string, r: string)
    requires ClosesOnLine(l + r) && (r == [] || Blank(r) || r[0] == '\n')
    ensures ClosesOnLine(l)
  {
    var s := l + r;
    if l == [] {
      assert s == r;
      BlankNeverCloses(r);
    } else {
      assert s[1..] == l[1..] + r && s[0] == l[0];
      if l[0] != '>' { ClosesFirst(l[1..], r); }
    }
  }

  lemma {:induction false} BlankNeverCloses(r: string)
    requires r == [] || Blank(r) || r[0] == '\n'
    ensures !ClosesOnLine(r)
  {
    if r != [] && Blank(r) { BlankNeverCloses(r[1..]); }
  }

  lemma {:induction false} PrefixStays(p: string, l: string, r: string)
    requires p <= l
    ensures p <= l + r
  {}

  /** A line of plain text, or plain text without blanks at its end, is plain. */
  lemma {:induction false} PlainPrefix(l: string, r: string)
    requires PlainText(l + r) && (r == [] || Blank(r) || r[0] == '\n')
    ensures PlainText(l)
  {
    if l != [] {
      var s := l + r;
      PlainTurn(s);
      PlainTurn(l);
      hide PlainText, Blank;
      assert s[0] == l[0] && s[1..] == l[1..] + r;
      PlainPrefix(l[1..], r);
      if l[0] == '<' {
        ClosesFirst(l, r);
        assert |l| > 1 && s[1] == l[1];
        if "<!--" <= l { PrefixStays("<!--", l, r); }
      }
    }
  }

  lemma {:induction false} ClosesLonger(a: string, b: string)
    requires ClosesOnLine(a)
    ensures ClosesOnLine(a + b)
  {
    assert (a + b)[0] == a[0] && (a + b)[1..] == a[1..] + b;
    if a[0] != '>' { ClosesLonger(a[1..], b); }
  }

  lemma {:induction false} OneCloses(s: string)
    requires |s| == 1 && ClosesOnLine(s)
    ensures s[0] == '>'
  {
    assert s[1..] == [];
  }

  lemma {:induction false} CommentPrefix(s: string)
    requires "<!--" <= s
    ensures s[2] == '-' && s[3] == '-'
  {}

  /** A closed declaration does not become a comment by what follows it. */
  lemma {:induction false} StaysDeclaration(a: string, b: string)
    requires a != [] && a[0] == '<' && PlainHead(a)
    ensures !("<!--" <= a + b) && |a| > 2
  {
    assert ClosesOnLine(a[1..]) && a[1..][0] == a[1];
    assert ClosesOnLine(a[1..][1..]) && a[1..][1..] == a[2..];
    hide ClosesOnLine;
    var s := a + b;
    if |a| >= 4 {
      assert s[..4] == a[..4];
    } else {
      ShortCloses(a[2..]);
      assert s[2] == a[2] && a[2..][0] == a[2];
      if "<!--" <= s { CommentPrefix(s); }
    }
  }

  lemma {:induction false} ShortCloses(s: string)
    requires |s| <= 1 && ClosesOnLine(s)
    ensures |s| == 1 && s[0] == '>'
  {
    OneCloses(s);
  }

  lemma {:induction false} PlainJoin(a: string, b: string)
    requires PlainText(a) && PlainText(b)
    ensures PlainText(a + b)
  {
    if a == [] {
      assert a + b == b;
    } else {
      var s := a + b;
      PlainTurn(a);
      PlainTurn(s);
      hide PlainText;
      assert s[0] == a[0] && s[1..] == a[1..] + b && (|a| > 1 ==> s[1] == a[1]);
      PlainJoin(a[1..], b);
      if a[0] == '<' {
        StaysDeclaration(a, b);
        ClosesLonger(a, b);
      }
    }
  }

  lemma {:induction false} PlainTrim(x: string)
    requires PlainText(x)
    ensures PlainText(Trim(x))
  {
    var a, b := TrimSplit(x);
    hide PlainText, Trim, Blank;
    PlainDrop(x, |a|);
    assert x[|a|..] == Trim(x) + b;
    PlainPrefix(Trim(x), b);
  }

  lemma {:induction false} FirstPlain(c: char, s: string)
    requires PlainText([c] + s) && c != '\n'
    ensures PlainText([c] + SplitLines(s)[0])
  {
    FirstLineOf(s);
    hide PlainText, SplitLines;
    var l := SplitLines(s)[0];
    var tail := s[|l|..];
    assert s == l + tail && [c] + s == ([c] + l) + tail;
    assert tail != [] ==> tail[0] == '\n';
    PlainPrefix([c] + l, tail);
  }

  lemma {:induction false} PlainLines(x: string)
    requires PlainText(x)
    ensures forall l <- SplitLines(x) :: PlainText(l)
  {
    SplitTurn(if x == [] then "x" else x);
    NoAngles([]);
    if x != [] {
      PlainTurn(x);
      hide PlainText, SplitLines, PlainHead;
      PlainLines(x[1..]);
      var r := SplitLines(x[1..]);
      assert x == [x[0]] + x[1..];
      if x[0] != '\n' {
        FirstPlain(x[0], x[1..]);
        forall m | m in SplitLines(x) ensures PlainText(m) { assert m == [x[0]] + r[0] || m in r; }
      }
    }
  }

  // ----- laid out -----

  predicate AllPlain(ls: seq<string>) { forall l <- ls :: PlainText(l) }

  lemma {:induction false} TrimsPlain(ls: seq<string>)
    requires AllPlain(ls)
    ensures AllPlain(Trims(ls))
  {
    if ls != [] {
      assert ls[0] in ls;
      forall l | l in ls[1..] ensures l in ls {}
      hide PlainText, Trim;
      PlainTrim(ls[0]);
      TrimsPlain(ls[1..]);
    }
  }

  lemma {:induction false} RowsPlain(ts: seq<string>, prevBlank: bool)
    requires AllPlain(ts)
    ensures AllPlain(Rows(ts, prevBlank))
  {
    RowsSubset(ts, prevBlank);
    NoAngles([]);
    hide PlainText, Rows;
    forall r | r in Rows(ts, prevBlank) ensures PlainText(r) { assert r == [] || r in ts; }
  }

  lemma {:induction false} PartPlain(ts: seq<string>, n: nat)
    requires AllPlain(ts) && n <= |ts|
    ensures AllPlain(ts[n..]) && (n < |ts| ==> PlainText(ts[n]))
  {
    hide PlainText;
    forall t | t in ts[n..] ensures t in ts {}
  }

  lemma {:induction false} TextPlain(x: string)
    requires PlainText(x)
    ensures AllPlain(Trims(SplitLines(x))) && |Trims(SplitLines(x))| >= 1
  {
    PlainLines(x);
    hide PlainText;
    TrimsPlain(SplitLines(x));
  }

  lemma {:induction false} LayPlain(bol: bool, x: string)
    requires PlainText(x)
    ensures PlainText(LayText(bol, x).glue) && AllPlain(LayText(bol, x).rows)
  {
    TextPlain(x);
    NoAngles([]);
    hide PlainText, Trims, SplitLines, Trim, Rows;
    var ts := Trims(SplitLines(x));
    PartPlain(ts, 0);
    PartPlain(ts, 1);
    RowsPlain(ts, false);
    RowsPlain(ts[1..], false);
    if |ts| > 1 {
      PartPlain(ts, 2);
      RowsPlain(ts[2..], false);
    }
  }

  lemma {:induction false} IndentPlain(d: nat)
    ensures PlainText(Indent(d))
  {
    IndentChars(d);
    hide Indent;
    NoAngles(Indent(d));
  }

  lemma {:induction false} RowsRenderPlain(rows: seq<string>, d: nat)
    requires AllPlain(rows)
    ensures PlainText(Render(rows, d))
  {
    NoAngles("\n");
    if rows == [] {
    } else {
      PartPlain(rows, 1);
      PartPlain(rows, 0);
      IndentPlain(d);
      hide PlainText, Indent;
      RowsRenderPlain(rows[1..], d);
      var r := rows[0];
      PlainJoin(Indent(d), r);
      PlainJoin(Indent(d) + r, "\n");
      PlainJoin(if r == [] then "\n" else Indent(d) + r + "\n", Render(rows[1..], d));
    }
  }

  lemma {:induction false} LaidPlain(lay: Lay, d: nat, next: nat)
    requires PlainText(lay.glue) && AllPlain(lay.rows)
    ensures PlainText(GapText(lay, d, next))
  {
    NoAngles("\n");
    RowsRenderPlain(lay.rows, d);
    IndentPlain(next);
    hide PlainText, Render, Indent;
    PlainJoin(lay.glue, "\n");
    PlainJoin(lay.glue + "\n", Render(lay.rows, d));
    PlainJoin(lay.glue + "\n" + Render(lay.rows, d), Indent(next));
  }

  lemma {:induction false} SealPlain(lay: Lay)
    requires AllPlain(lay.rows)
    ensures AllPlain(Seal(lay).rows) && Seal(lay).glue == lay.glue
  {
    hide PlainText;
    forall r | r in Seal(lay).rows ensures r in lay.rows {}
  }

  /** The gap printed for plain text is plain. */
  lemma {:induction false} GapStaysPlain(bol: bool, x: string, d: nat, rest: seq<Unit>)
    requires PlainText(x)
    ensures PlainText(GapBefore(LayText(bol, x), d, rest))
  {
    LayPlain(bol, x);
    hide PlainText, LayText, GapText, Seal, LevelOf;
    var lay := LayText(bol, x);
    if rest == [] {
      SealPlain(lay);
      LaidPlain(Seal(lay), d, 0);
    } else {
      LaidPlain(lay, d, LevelOf(rest[0].item, d));
    }
  }

  // ----- collapsed -----

  lemma {:induction false} ClosesHalved(s: string)
    requires ClosesOnLine(s)
    ensures ClosesOnLine(HalveSpaces(s))
    decreases |s|
  {
    HalveTurn(s);
    TwoSpaces(s);
    if "  " <= s {
      assert ClosesOnLine(s[1..]) && s[1..][0] == ' ' && s[1..][1..] == s[2..];
      hide HalveSpaces;
      ClosesHalved(s[2..]);
      assert (" " + HalveSpaces(s[2..]))[1..] == HalveSpaces(s[2..]);
    } else {
      if s[0] != '>' { ClosesHalved(s[1..]); }
      hide HalveSpaces;
      assert ([s[0]] + HalveSpaces(s[1..]))[1..] == HalveSpaces(s[1..]);
    }
  }

  lemma {:induction false} PrefixHalved(w: string, s: string)
    requires NoSpaces(w) && w <= HalveSpaces(s)
    ensures w <= s
    decreases |w|
  {
    if w != [] {
      if s == [] { HalveNothingAt(); }
      HalveTurn(if s == [] then "x" else s);
      TwoSpaces(s);
      NoSpacesTail(w);
      hide HalveSpaces, NoSpaces;
      PrefixOf(w, HalveSpaces(s));
      var t := HalveSpaces(s[1..]);
      assert HalveSpaces(s) == [s[0]] + t && HalveSpaces(s)[1..] == t;
      PrefixHalved(w[1..], s[1..]);
      PrefixOf(w, s);
    }
  }

  lemma {:induction false} HeadHalved(x: string)
    requires x != [] && PlainHead(x) && !("  " <= x)
    ensures HalveSpaces(x) != [] && PlainHead(HalveSpaces(x))
  {
    HalveTurn(x);
    if x[0] == '<' {
      ClosesHalved(x);
      if "<!--" <= HalveSpaces(x) { DashesPlain(); PrefixHalved("<!--", x); }
      HalveTurn(x[1..]);
      TwoSpaces(x[1..]);
    }
    hide HalveSpaces;
  }

  lemma {:induction false} DashesPlain()
    ensures NoSpaces("<!--")
  {}

  lemma {:induction false} PlainHalved(x: string)
    requires PlainText(x)
    ensures PlainText(HalveSpaces(x))
    decreases |x|
  {
    if x == [] {
      HalveNothingAt();
    } else {
      HalveTurn(x);
      TwoSpaces(x);
      PlainTurn(x);
      if "  " <= x {
        PlainDrop(x, 2);
        PlainHalved(x[2..]);
        NoAngles(" ");
        hide PlainText, HalveSpaces;
        PlainJoin(" ", HalveSpaces(x[2..]));
      } else {
        PlainHalved(x[1..]);
        HeadHalved(x);
        hide HalveSpaces, PlainText, PlainHead;
        var h := HalveSpaces(x);
        assert h[1..] == HalveSpaces(x[1..]);
        PlainTurn(h);
      }
    }
  }

  lemma {:induction false} CollapsePlain(x: string)
    requires CleanWords(x) && PlainText(x) && !SpansLines(x)
    ensures PlainText(CollapseInline(x))
  {
    CollapseIs(x);
    hide CollapseInline, HalveSpaces, PlainText, Trim;
    PlainTrim(x);
    PlainHalved(Trim(x));
  }

  // ----- read back -----

  lemma {:induction false} CloserFoundIn(g: string, s: string)
    requires ClosesOnLine(g)
    ensures Find(g + s, ">").Some? && Find(g + s, ">").value < |g|
  {
    assert (g + s)[0] == g[0] && (g + s)[1..] == g[1..] + s;
    if g[0] == '>' {
      assert ">" <= g + s;
    } else {
      CloserFoundIn(g[1..], s);
      ShiftIs(Find(g[1..] + s, ">"), 1);
      hide ClosesOnLine;
      assert !(">" <= g + s);
    }
  }

  /** The tokenizer passes over a declaration in plain text. */
  lemma {:induction false} PlainSkips(g: string, s: string)
    requires g != [] && PlainHead(g)
    ensures Scan(g + s).Skip? && Scan(g + s).len <= |g|
  {
    var t := g + s;
    assert t[0] == g[0];
    if g[0] == '<' {
      StaysDeclaration(g, s);
      CloserFoundIn(g, s);
      assert t[1] == g[1] && t[..2] == [t[0], t[1]];
      assert "<!" <= t || "<?" <= t;
    }
    hide ScanComment, ScanTag, ScanHtmlComment, ScanMustache, ScanTriple, Find, ClosesOnLine;
  }

  lemma {:induction false} SkipTurn(t: string, s: string)
    requires s != [] && Scan(s).Skip?
    ensures Lex(t, s) == Lex(t + s[..Scan(s).len], s[Scan(s).len..])
  {
    hide Scan;
  }

  /** Plain text is passed over as a whole. */
  lemma {:induction false} LexGap(t: string, g: string, s: string)
    requires PlainText(g)
    ensures Lex(t, g + s) == Lex(t + g, s)
    decreases |g|
  {
    hide *;
    if g == [] {
      assert g + s == s && t + g == t;
    } else {
      PlainTurn(g);
      PlainSkips(g, s);
      SkipTurn(t, g + s);
      var n := Scan(g + s).len;
      Passed(t, g, s, n);
      PlainDrop(g, n);
      LexGap(t + g[..n], g[n..], s);
    }
  }

  lemma {:induction false} Passed(t: string, g: string, s: string, n: nat)
    requires n <= |g|
    ensures (g + s)[n..] == g[n..] + s && (g + s)[..n] == g[..n] && t + g[..n] + g[n..] == t + g
  {}
}
