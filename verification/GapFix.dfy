/** Printed gaps read back: laying out a printed gap gives the same lay-out, and the words of
    the text, hence what an inline run makes of it, are unchanged. */
module GapFix {
  import opened Text
  import opened Tokens
  import opened Layout
  import opened Cleanup
  import opened Gaps

  // ----- lines of a printed gap -----

  lemma {:induction false} IndentBlank(d: nat)
    ensures Blank(Indent(d)) && '\n' !in Indent(d)
  {
    if d > 0 { IndentBlank(d - 1); }
  }

  lemma TrimRow(r: string, d: nat)
    requires RowOk(r)
    ensures Trim(Indent(d) + r) == r && Trim(r) == r && '\n' !in Indent(d) + r
  {
    IndentBlank(d);
    TrimOf(Indent(d), r, []);
    TrimOf([], r, []);
    assert Indent(d) + r + [] == Indent(d) + r;
    assert [] + r + [] == r;
  }

  lemma TrimIndent(d: nat)
    ensures Trim(Indent(d)) == [] && SplitLines(Indent(d)) == [Indent(d)]
  {
    IndentBlank(d);
    BlankTrims(Indent(d));
    SplitOne(Indent(d));
  }

  lemma TrimsHead(l: string, ls: seq<string>)
    ensures Trims([l] + ls) == [Trim(l)] + Trims(ls)
  {
    assert ([l] + ls)[1..] == ls;
  }

  lemma {:induction false} RenderOne(r: string, rows: seq<string>, d: nat, next: nat)
    ensures var line := if r == [] then [] else Indent(d) + r;
            Render([r] + rows, d) + Indent(next) == line + "\n" + (Render(rows, d) + Indent(next))
  {
    RenderHead(r, rows, d);
    hide Indent, Render;
  }

  lemma {:induction false} RenderLines(rows: seq<string>, d: nat, next: nat)
    requires forall r <- rows :: RowOk(r)
    ensures Trims(SplitLines(Render(rows, d) + Indent(next))) == rows + [[]]
  {
    TrimIndent(next);
    if rows == [] {
      hide Trim, Indent, RowOk;
      assert [] + Indent(next) == Indent(next);
      TrimsHead(Indent(next), []);
    } else {
      hide *;
      var r := rows[0];
      assert r in rows;
      assert rows == [r] + rows[1..];
      TrimRow(r, d);
      RenderLines(rows[1..], d, next);
      RenderOne(r, rows[1..], d, next);
      var rest := Render(rows[1..], d) + Indent(next);
      var line := if r == [] then [] else Indent(d) + r;
      SplitAt(line, rest);
      TrimsHead(line, SplitLines(rest));
      assert rows + [[]] == [r] + (rows[1..] + [[]]);
    }
  }

  lemma GapLines(lay: Lay, d: nat, next: nat)
    requires RowOk(lay.glue) && forall r <- lay.rows :: RowOk(r)
    ensures Trims(SplitLines(GapText(lay, d, next))) == [lay.glue] + (lay.rows + [[]])
  {
    hide Trim, Indent;
    var rest := Render(lay.rows, d) + Indent(next);
    assert GapText(lay, d, next) == lay.glue + "\n" + rest;
    TrimRow(lay.glue, 0);
    SplitAt(lay.glue, rest);
    TrimsHead(lay.glue, SplitLines(rest));
    RenderLines(lay.rows, d, next);
  }

  // ----- the lay-out of a printed gap -----

  lemma {:induction false} RowsBack(rows: seq<string>, prevBlank: bool)
    requires NoBlankPair(rows) && (prevBlank && rows != [] ==> rows[0] != [])
    ensures Rows(rows + [[]], prevBlank) == rows
  {
    var ts := rows + [[]];
    if rows == [] {
      assert ts[1..] == [];
    } else {
      assert ts[0] == rows[0] && ts[1..] == rows[1..] + [[]];
      if |rows| > 1 && rows[0] == [] { assert rows[1] != []; }
      forall i | 0 <= i < |rows[1..]| - 1 && rows[1..][i] == [] ensures rows[1..][i + 1] != [] {
        assert rows[i + 1] == [] ==> rows[i + 1 + 1] != [];
      }
      RowsBack(rows[1..], rows[0] == []);
    }
  }

  /** A gap of blank rows only. */
  lemma BlankGap(lay: Lay, d: nat, next: nat)
    requires lay.glue == [] && (lay.rows == [] || lay.rows == [[]])
    ensures CountNewlines(GapText(lay, d, next)) == 1 + |lay.rows|
  {
    IndentBlank(next);
    CountNone(Indent(next));
    var nl := "\n";
    assert CountNewlines(nl) == 1 by { assert nl[1..] == []; }
    if lay.rows == [] {
      assert GapText(lay, d, next) == nl + Indent(next);
    } else {
      assert lay.rows[1..] == [];
      assert Render(lay.rows, d) == nl;
      assert GapText(lay, d, next) == nl + (nl + Indent(next));
      CountAppend(nl, Indent(next));
    }
    CountAppend(nl, Indent(next));
    CountAppend(nl, nl + Indent(next));
  }

  lemma {:induction false} BlankLinesOfBlank(x: string)
    requires Trim(x) == []
    ensures forall r <- Trims(SplitLines(x)) :: r == []
  {
    BlankTrims(x);
    if x != [] {
      BlankTrims(x[1..]);
      BlankLinesOfBlank(x[1..]);
      var r := SplitLines(x[1..]);
      var ls := SplitLines(x);
      if x[0] == '\n' {
        TrimsHead([], r);
      } else {
        BlankTrims(r[0]);
        assert Trims(r)[0] in Trims(r);
        BlankTrims([x[0]] + r[0]);
        assert ls == [[x[0]] + r[0]] + r[1..];
        TrimsHead([x[0]] + r[0], r[1..]);
        assert Trims(r)[1..] == Trims(r[1..]);
      }
    }
  }

  /** Laying out a printed gap gives back its lay-out. */
  lemma GapFixed(bol: bool, lay: Lay, d: nat, next: nat)
    requires Good(bol, lay)
    ensures LayText(bol, GapText(lay, d, next)) == lay
  {
    hide Trim, Indent, RowOk;
    var g := GapText(lay, d, next);
    var ts := Trims(SplitLines(g));
    GapLines(lay, d, next);
    if Trim(g) == [] {
      BlankLinesOfBlank(g);
      assert lay.glue in ts;
      assert |lay.rows| > 1 && lay.rows[0] == [] ==> lay.rows[0 + 1] != [];
      forall i | 0 <= i < |lay.rows| ensures lay.rows[i] == [] { assert lay.rows[i] == ts[i + 1] && ts[i + 1] in ts; }
      if |lay.rows| == 1 { assert lay.rows == [[]]; }
      BlankGap(lay, d, next);
    } else {
      SomeLine(g);
      RowsBack(lay.rows, false);
      assert ts[1..] == lay.rows + [[]];
      if lay.glue == [] {
        assert !bol ==> lay.rows != [] ==> ts[1] == [];
      }
    }
  }

  // ----- the words of a text -----

  function Content(ts: seq<string>): seq<string> {
    if ts == [] then [] else (if ts[0] == [] then [] else [ts[0]]) + Content(ts[1..])
  }

  lemma {:induction false} ContentAppend(a: seq<string>, b: seq<string>)
    ensures Content(a + b) == Content(a) + Content(b)
  {
    if a == [] {
      assert a + b == b;
    } else {
      assert (a + b)[1..] == a[1..] + b;
      ContentAppend(a[1..], b);
    }
  }

  lemma {:induction false} ContentRows(ts: seq<string>, prevBlank: bool)
    ensures Content(Rows(ts, prevBlank)) == Content(ts)
  {
    if ts != [] {
      ContentRows(ts[1..], false);
      ContentRows(ts[1..], true);
      ContentAppend([[]], Rows(ts[1..], true));
      ContentAppend([ts[0]], Rows(ts[1..], false));
      if |ts| == 1 { assert ts[1..] == []; }
      assert [ts[0]] + ts[1..] == ts;
      ContentAppend([ts[0]], ts[1..]);
    }
  }

  /** The words of a text, line by line. */
  function Words(x: string): seq<string> { Content(Trims(SplitLines(x))) }

  lemma TrimSkips(a: string, x: string)
    requires Blank(a)
    ensures Trim(a + x) == Trim(x) && Trim(x + a) == Trim(x)
  {
    var p, q := TrimSplit(x);
    var t := Trim(x);
    assert a + x == (a + p) + t + q;
    TrimOf(a + p, t, q);
    assert x + a == p + t + (q + a);
    TrimOf(p, t, q + a);
  }

  lemma TrimSpans(a: string, b: string)
    requires Trim(a) != [] && Trim(b) != []
    ensures '\n' in Trim(a + "\n" + b)
  {
    var p, q := TrimSplit(a);
    var r, s := TrimSplit(b);
    var core := Trim(a) + q + "\n" + r + Trim(b);
    assert a + "\n" + b == p + core + s;
    TrimOf(p, core, s);
    assert core[|Trim(a) + q|] == '\n';
  }

  lemma {:induction false} TwoLines(a: string, b: string)
    ensures Trim(a) == [] ==> Trim(a + "\n" + b) == Trim(b)
    ensures Trim(b) == [] ==> Trim(a + "\n" + b) == Trim(a)
    ensures Trim(a) != [] && Trim(b) != [] ==> SpansLines(a + "\n" + b)
  {
    BlankTrims(a);
    BlankTrims(b);
    hide Trim;
    if Trim(a) == [] { TrimSkips(a + "\n", b); }
    if Trim(b) == [] {
      assert a + "\n" + b == a + ("\n" + b);
      TrimSkips("\n" + b, a);
    }
    if Trim(a) != [] && Trim(b) != [] { TrimSpans(a, b); }
  }

  lemma {:induction false} ContentHead(l: string, ls: seq<string>)
    ensures Content(Trims([l] + ls)) == (if Trim(l) == [] then [] else [Trim(l)]) + Content(Trims(ls))
  {
    hide Trim;
    TrimsHead(l, ls);
    assert ([Trim(l)] + Trims(ls))[1..] == Trims(ls);
  }

  lemma {:induction false} OneLineTrims(l: string)
    requires '\n' !in l
    ensures '\n' !in Trim(l)
  {
    var a, b := TrimSplit(l);
    hide Trim;
    forall k | 0 <= k < |Trim(l)| ensures Trim(l)[k] != '\n' { assert l[|a| + k] == Trim(l)[k] && l[|a| + k] in l; }
  }

  /** What the words `c` of a text `x` say about how it trims. */
  predicate WordsFit(x: string, c: seq<string>) {
    && (c == [] <==> Trim(x) == []) && (|c| == 1 ==> Trim(x) == c[0]) && (SpansLines(x) <==> |c| >= 2)
  }

  lemma {:induction false} WordsOfLine(l: string)
    requires '\n' !in l
    ensures WordsFit(l, if Trim(l) == [] then [] else [Trim(l)])
  {
    OneLineTrims(l);
    hide Trim;
  }

  lemma {:induction false} WordsOfMore(l: string, rest: string, c: seq<string>)
    requires '\n' !in l && WordsFit(rest, c)
    ensures WordsFit(l + "\n" + rest, (if Trim(l) == [] then [] else [Trim(l)]) + c)
  {
    TwoLines(l, rest);
    OneLineTrims(l);
    hide Trim;
  }

  /** How a text trims is determined by its words. */
  lemma {:induction false} TrimByWords(ls: seq<string>)
    requires ls != [] && forall k :: 0 <= k < |ls| ==> '\n' !in ls[k]
    ensures WordsFit(JoinLines(ls), Content(Trims(ls)))
  {
    hide Trim, Content, Trims, WordsFit;
    assert ls == [ls[0]] + ls[1..];
    ContentHead(ls[0], ls[1..]);
    var c := if Trim(ls[0]) == [] then [] else [Trim(ls[0])];
    if |ls| == 1 {
      assert ls[1..] == [];
      NoContent();
      WordsOfLine(ls[0]);
      assert c + [] == c;
    } else {
      TrimByWords(ls[1..]);
      WordsOfMore(ls[0], JoinLines(ls[1..]), Content(Trims(ls[1..])));
    }
  }

  lemma {:induction false} NoContent()
    ensures Content(Trims([])) == []
  {}

  lemma {:induction false} WordsDecide(x: string)
    ensures (Words(x) == [] ==> Trim(x) == []) && (|Words(x)| == 1 ==> Trim(x) == Words(x)[0])
    ensures SpansLines(x) <==> |Words(x)| >= 2
    ensures Trim(x) == [] ==> Words(x) == []
  {
    TrimByWords(SplitLines(x));
    JoinSplit(x);
    hide Trim, Content, Trims, SplitLines;
  }

  lemma {:induction false} LayContent(lay: Lay)
    ensures Content([lay.glue] + (lay.rows + [[]])) == (if lay.glue == [] then [] else [lay.glue]) + Content(lay.rows)
  {
    var one: seq<string> := [[]];
    assert one[1..] == [] && Content(one) == [];
    ContentAppend(lay.rows, one);
    assert ([lay.glue] + (lay.rows + one))[1..] == lay.rows + one;
  }

  lemma {:induction false} ContentFirst(ts: seq<string>)
    requires ts != []
    ensures Content(ts) == (if ts[0] == [] then [] else [ts[0]]) + Content(ts[1..])
  {}

  lemma {:induction false} LinesContent(bol: bool, ts: seq<string>)
    requires ts != []
    ensures var lay := LayLines(bol, ts); Content([lay.glue] + (lay.rows + [[]])) == Content(ts)
  {
    LayContent(LayLines(bol, ts));
    ContentFirst(ts);
    if |ts| > 1 {
      ContentFirst(ts[1..]);
      assert ts[1..][0] == ts[1] && ts[1..][1..] == ts[2..];
      ContentRows(ts[2..], false);
    }
    ContentRows(ts, false);
    ContentRows(ts[1..], false);
    hide Content, Rows;
  }

  lemma {:induction false} LayWords(bol: bool, x: string)
    ensures Content([LayText(bol, x).glue] + (LayText(bol, x).rows + [[]])) == Words(x)
  {
    WordsDecide(x);
    if Trim(x) != [] {
      hide Trim, Trims, SplitLines, Content, LayLines;
      LinesContent(bol, Trims(SplitLines(x)));
    } else {
      LayContent(LayText(bol, x));
      var one: seq<string> := [[]];
      assert one[1..] == [] && Content(one) == [] && Content([]) == [];
    }
  }

  /** A printed gap has the words of the text it was printed from. */
  lemma GapWords(bol: bool, x: string, d: nat, next: nat)
    ensures Words(GapText(LayText(bol, x), d, next)) == Words(x)
  {
    LayGood(bol, x);
    GapLines(LayText(bol, x), d, next);
    LayWords(bol, x);
  }

  lemma GapTrims(bol: bool, x: string, d: nat, next: nat)
    ensures var g := GapText(LayText(bol, x), d, next);
            SpansLines(g) == SpansLines(x) && (!SpansLines(x) ==> Trim(g) == Trim(x))
  {
    GapWords(bol, x, d, next);
    WordsDecide(x);
    WordsDecide(GapText(LayText(bol, x), d, next));
  }

  // ----- what an inline run makes of a text -----

  /** No run of more than `k` spaces, `run` spaces having come before. */
  predicate RunsAtMost(s: string, k: nat, run: nat) {
    if s == [] then true
    else if s[0] == ' ' then run < k && RunsAtMost(s[1..], k, run + 1)
    else RunsAtMost(s[1..], k, 0)
  }

  lemma {:induction false} HalveRuns(s: string)
    ensures RunsAtMost(HalveSpaces(s), 1, 0) <==> RunsAtMost(s, 2, 0)
    ensures RunsAtMost(HalveSpaces(s), 1, 1) <==> RunsAtMost(s, 2, 2)
    decreases |s|
  {
    if s == [] {
    } else if "  " <= s {
      HalveRuns(s[2..]);
      var h := HalveSpaces(s[2..]);
      assert (" " + h)[1..] == h;
      assert s[0] == ' ' && s[1..][0] == ' ' && s[1..][1..] == s[2..];
    } else {
      HalveRuns(s[1..]);
      var h := HalveSpaces(s[1..]);
      assert ([s[0]] + h)[1..] == h;
      if s[0] == ' ' && s[1..] != [] {
        assert s == [s[0], s[1]] + s[2..];
        assert s[1] != ' ';
        assert HalveSpaces(s[1..])[0] == s[1];
      }
    }
  }

  lemma {:induction false} HalveNothing(s: string)
    ensures |HalveSpaces(s)| <= |s|
    ensures HalveSpaces(s) == s <==> RunsAtMost(s, 1, 0)
    ensures |HalveSpaces(s)| == |s| ==> HalveSpaces(s) == s
    decreases |s|
  {
    if s == [] {
    } else if "  " <= s {
      HalveNothing(s[2..]);
      assert s[0] == ' ' && s[1..][0] == ' ';
    } else {
      HalveNothing(s[1..]);
      if s[0] == ' ' && s[1..] != [] {
        assert s == [s[0], s[1]] + s[2..];
        assert s[1] != ' ';
      }
      assert [s[0]] + s[1..] == s;
      assert HalveSpaces(s)[1..] == HalveSpaces(s[1..]);
    }
  }

  /** Halving spaces twice is halving them once exactly when no run is longer than two. */
  lemma HalveTwiceIff(s: string)
    ensures HalveSpaces(HalveSpaces(s)) == HalveSpaces(s) <==> RunsAtMost(s, 2, 0)
  {
    HalveRuns(s);
    HalveNothing(HalveSpaces(s));
  }

  predicate AllSpaces(s: string) { forall i :: 0 <= i < |s| ==> s[i] == ' ' }

  lemma {:induction false} HalveTurn(s: string)
    requires s != []
    ensures "  " <= s ==> HalveSpaces(s) == " " + HalveSpaces(s[2..])
    ensures !("  " <= s) ==> HalveSpaces(s) == [s[0]] + HalveSpaces(s[1..])
  {}

  lemma {:induction false} TwoSpaces(s: string)
    ensures "  " <= s <==> |s| >= 2 && s[0] == ' ' && s[1] == ' '
  {}

  lemma {:induction false} HalveNothingAt()
    ensures HalveSpaces([]) == []
  {}

  lemma {:induction false} SpacesHalve(a: string)
    requires AllSpaces(a)
    ensures AllSpaces(HalveSpaces(a))
    decreases |a|
  {
    if a != [] {
      HalveTurn(a);
      TwoSpaces(a);
      hide HalveSpaces;
      SpacesHalve(if |a| >= 2 then a[2..] else a[1..]);
    }
  }

  lemma {:induction false} DropFront(a: string, y: string, n: nat)
    requires n <= |a|
    ensures (a + y)[n..] == a[n..] + y && (n > 0 ==> (a + y)[0] == a[0])
  {}

  lemma {:induction false} PushedFirst(x: string, h: string, h': string)
    ensures x + (h + h') == x + h + h'
  {}

  /** Halving stops at the first character of `y`: it cannot pair with a space before it. */
  lemma {:induction false} HalveSplit(a: string, y: string)
    requires y != [] ==> y[0] != ' '
    ensures HalveSpaces(a + y) == HalveSpaces(a) + HalveSpaces(y)
    decreases |a|
  {
    hide *;
    if a == [] {
      HalveNothingAt();
      assert a + y == y;
    } else {
      HalveTurn(a);
      HalveTurn(a + y);
      SplitPairs(a, y);
      if "  " <= a {
        DropFront(a, y, 2);
        HalveSplit(a[2..], y);
        PushedFirst(" ", HalveSpaces(a[2..]), HalveSpaces(y));
      } else {
        DropFront(a, y, 1);
        HalveSplit(a[1..], y);
        PushedFirst([a[0]], HalveSpaces(a[1..]), HalveSpaces(y));
      }
    }
  }

  lemma {:induction false} SplitPairs(a: string, y: string)
    requires a != [] && (y != [] ==> y[0] != ' ')
    ensures "  " <= a + y <==> "  " <= a
  {
    TwoSpaces(a);
    TwoSpaces(a + y);
    assert (a + y)[0] == a[0] && (|a| > 1 ==> (a + y)[1] == a[1]) && (|a| == 1 && y != [] ==> (a + y)[1] == y[0]);
  }

  lemma {:induction false} HalveFrame(a: string, y: string)
    requires AllSpaces(a) && (y != [] ==> y[0] != ' ')
    ensures HalveSpaces(a + y) == HalveSpaces(a) + HalveSpaces(y)
    ensures AllSpaces(HalveSpaces(a))
  {
    HalveSplit(a, y);
    SpacesHalve(a);
  }

  lemma {:induction false} HalveTail(y: string, b: string)
    requires AllSpaces(b) && (y != [] ==> y[|y| - 1] != ' ')
    ensures HalveSpaces(y + b) == HalveSpaces(y) + HalveSpaces(b)
    decreases |y|
  {
    hide *;
    if y == [] {
      HalveNothingAt();
      assert y + b == b;
    } else {
      HalveTurn(y);
      HalveTurn(y + b);
      TailPairs(y, b);
      TwoSpaces(y);
      if "  " <= y {
        DropFront(y, b, 2);
        HalveTail(y[2..], b);
        PushedFirst(" ", HalveSpaces(y[2..]), HalveSpaces(b));
      } else {
        DropFront(y, b, 1);
        HalveTail(y[1..], b);
        PushedFirst([y[0]], HalveSpaces(y[1..]), HalveSpaces(b));
      }
    }
  }

  lemma {:induction false} TailPairs(y: string, b: string)
    requires y != [] && y[|y| - 1] != ' '
    ensures "  " <= y + b <==> "  " <= y
  {
    TwoSpaces(y);
    TwoSpaces(y + b);
    assert (y + b)[0] == y[0] && (|y| > 1 ==> (y + b)[1] == y[1]);
  }

  lemma {:induction false} HalveEnds(t: string)
    requires t != [] && t[0] != ' ' && t[|t| - 1] != ' '
    ensures var h := HalveSpaces(t); h != [] && h[0] == t[0] && h[|h| - 1] == t[|t| - 1]
    decreases |t|
  {
    var s := t[1..];
    if s != [] {
      if "  " <= s {
        assert s[0] == ' ' && s[1] == ' ' && s[|s| - 1] == t[|t| - 1];
        HalveLast(s);
      } else {
        HalveLast(s);
      }
    }
  }

  lemma {:induction false} HalveLast(s: string)
    requires s != [] && s[|s| - 1] != ' '
    ensures var h := HalveSpaces(s); h != [] && h[|h| - 1] == s[|s| - 1]
    decreases |s|
  {
    if "  " <= s {
      assert s[0] == ' ' && s[1] == ' ';
      assert s[2..][|s| - 3] == s[|s| - 1];
      HalveLast(s[2..]);
    } else if |s| > 1 {
      HalveLast(s[1..]);
    }
  }

  lemma {:induction false} TrimLeftOf(a: string, y: string)
    requires AllSpaces(a) && (y != [] ==> y[0] != ' ')
    ensures TrimLeftBlanks(a + y) == y
  {
    if a == [] {
      assert a + y == y;
    } else {
      assert (a + y)[1..] == a[1..] + y;
      TrimLeftOf(a[1..], y);
    }
  }

  lemma {:induction false} TrimRightOf(y: string, b: string)
    requires AllSpaces(b) && (y != [] ==> y[|y| - 1] != ' ')
    ensures TrimRightBlanks(y + b) == y
  {
    if b == [] {
      assert y + b == y;
    } else {
      assert (y + b)[..|y + b| - 1] == y + b[..|b| - 1];
      TrimRightOf(y, b[..|b| - 1]);
    }
  }

  /** The only whitespace is spaces and line breaks. */
  predicate PlainBlanks(s: string) { forall c <- s :: IsSpace(c) ==> c == ' ' || c == '\n' }

  lemma {:induction false} NewlinesAppend(a: string, b: string)
    ensures NewlinesToSpaces(a + b) == NewlinesToSpaces(a) + NewlinesToSpaces(b)
  {
    if a == [] {
      assert a + b == b;
    } else {
      assert (a + b)[1..] == a[1..] + b;
      NewlinesAppend(a[1..], b);
    }
  }

  lemma {:induction false} BlanksToSpaces(a: string)
    requires Blank(a) && PlainBlanks(a)
    ensures AllSpaces(NewlinesToSpaces(a))
  {
    if a != [] {
      assert a[0] in a;
      BlanksToSpaces(a[1..]);
    }
  }

  lemma {:induction false} NoNewlinesKept(t: string)
    requires '\n' !in t
    ensures NewlinesToSpaces(t) == t
  {
    if t != [] { assert t[0] in t; NoNewlinesKept(t[1..]); }
  }

  lemma {:induction false} BlanksCollapse(a: string, b: string)
    requires AllSpaces(a) && AllSpaces(b)
    ensures TrimRightBlanks(TrimLeftBlanks(HalveSpaces(a + b))) == []
  {
    var w := a + b;
    assert w + [] == w && HalveSpaces(w) + [] == HalveSpaces(w);
    hide HalveSpaces, TrimLeftBlanks, TrimRightBlanks;
    SpacesHalve(w);
    TrimLeftOf(HalveSpaces(w), []);
    var e: string := [];
    TrimRightOf(e, e);
    assert e + e == e;
  }

  lemma {:induction false} FrameCollapse(a: string, t: string, b: string)
    requires AllSpaces(a) && AllSpaces(b) && t != [] && t[0] != ' ' && t[|t| - 1] != ' '
    ensures TrimRightBlanks(TrimLeftBlanks(HalveSpaces(a + (t + b)))) == HalveSpaces(t)
  {
    hide HalveSpaces, TrimLeftBlanks, TrimRightBlanks;
    var h := HalveSpaces(t);
    HalveFrame(a, t + b);
    HalveTail(t, b);
    SpacesHalve(b);
    HalveEnds(t);
    TrimLeftOf(HalveSpaces(a), h + HalveSpaces(b));
    TrimRightOf(h, HalveSpaces(b));
  }

  lemma {:induction false} BlankSide(a: string, x: string)
    requires Blank(a) && PlainBlanks(x) && forall c <- a :: c in x
    ensures AllSpaces(NewlinesToSpaces(a))
  {
    BlanksToSpaces(a);
  }

  lemma {:induction false} CoreWord(t: string)
    requires Trimmed(t) && t != []
    ensures t[0] != ' ' && t[|t| - 1] != ' '
  {}

  lemma {:induction false} CollapseOf(x: string)
    ensures CollapseInline(x) == TrimRightBlanks(TrimLeftBlanks(HalveSpaces(NewlinesToSpaces(x))))
    ensures !SpansLines(x) ==> '\n' !in Trim(x)
  {
    hide HalveSpaces, TrimLeftBlanks, TrimRightBlanks, NewlinesToSpaces, Trim;
  }

  /** On one line of words, collapsing trims and halves. */
  lemma {:induction false} CollapseIs(x: string)
    requires PlainBlanks(x) && !SpansLines(x)
    ensures CollapseInline(x) == HalveSpaces(Trim(x))
  {
    hide *;
    var a, b := TrimSplit(x);
    var t := Trim(x);
    BlankSide(a, x);
    BlankSide(b, x);
    CollapseOf(x);
    NoNewlinesKept(t);
    NewlinesAppend(a, t + b);
    NewlinesAppend(t, b);
    assert x == a + (t + b);
    var a', b' := NewlinesToSpaces(a), NewlinesToSpaces(b);
    if t == [] {
      HalveNothingAt();
      BlanksCollapse(a', b');
      assert a' + (t + b') == a' + b';
    } else {
      CoreWord(t);
      FrameCollapse(a', t, b');
    }
  }

  lemma {:induction false} HalveSubset(t: string)
    ensures forall c <- HalveSpaces(t) :: c in t
    decreases |t|
  {
    if t == [] {
    } else if "  " <= t {
      HalveSubset(t[2..]);
      assert t[0] == ' ' && t[0] in t;
      forall c | c in t[2..] ensures c in t {}
    } else {
      HalveSubset(t[1..]);
      forall c | c in t[1..] ensures c in t {}
    }
  }

  /** The only whitespace of a text on one line is spaces and line breaks. */
  predicate CleanWords(x: string) { !SpansLines(x) ==> PlainBlanks(x) }

  /** A collapsed text is trimmed, on one line, and made of characters of the text. */
  lemma {:induction false} CollapsedText(x: string)
    requires CleanWords(x) && !SpansLines(x)
    ensures var y := CollapseInline(x);
            '\n' !in y && Trim(y) == y && !SpansLines(y) && PlainBlanks(y) && forall c <- y :: c in x
    ensures CollapseInline(CollapseInline(x)) == HalveSpaces(CollapseInline(x))
  {
    var t := Trim(x);
    var a, b := TrimSplit(x);
    forall c | c in t ensures c in x {}
    CollapseIs(x);
    HalveSubset(t);
    var h := HalveSpaces(t);
    if t != [] { HalveEnds(t); }
    assert Trim(h) == h by { TrimOf([], h, []); assert [] + h + [] == h; }
    CollapseIs(h);
  }

  /** Collapsing a collapsed text makes it no longer. */
  lemma {:induction false} CollapseShrinks(x: string)
    requires CleanWords(x) && !SpansLines(x)
    ensures var y := CollapseInline(x);
            |CollapseInline(y)| <= |y| && (|CollapseInline(y)| == |y| ==> CollapseInline(y) == y)
  {
    CollapsedText(x);
    hide CollapseInline, HalveSpaces;
    HalveNothing(CollapseInline(x));
  }

  /** On one line of words, collapsing twice is collapsing once exactly when no run of spaces
      between the words is longer than two. */
  lemma {:induction false} CollapseTwiceIff(x: string)
    requires CleanWords(x) && !SpansLines(x)
    ensures CollapseInline(CollapseInline(x)) == CollapseInline(x) <==> RunsAtMost(Trim(x), 2, 0)
  {
    CollapsedText(x);
    CollapseIs(x);
    hide CollapseInline, HalveSpaces, Trim;
    HalveTwiceIff(Trim(x));
  }

  /** The printed gap counts for an inline run as the text it was printed from. */
  lemma GapCollapses(bol: bool, x: string, d: nat, next: nat)
    requires CleanWords(x)
    ensures var g := GapText(LayText(bol, x), d, next);
            SpansLines(g) == SpansLines(x) && (!SpansLines(x) ==> CollapseInline(g) == CollapseInline(x) && PlainBlanks(g))
  {
    GapTrims(bol, x, d, next);
    if !SpansLines(x) {
      var lay := LayText(bol, x);
      var g := GapText(lay, d, next);
      var a, b := TrimSplit(x);
      forall c | c in Trim(x) ensures c in x {}
      GapPlain(g, lay, d, next, bol, x);
      CollapseIs(x);
      CollapseIs(g);
    }
  }

  lemma {:induction false} RenderChars(rows: seq<string>, d: nat)
    ensures forall c <- Render(rows, d) :: c == ' ' || c == '\n' || exists r :: r in rows && c in r
  {
    if rows != [] {
      IndentChars(d);
      RenderChars(rows[1..], d);
      var line := if rows[0] == [] then "\n" else Indent(d) + rows[0] + "\n";
      assert rows[0] in rows;
      forall c | c in Render(rows, d) ensures c == ' ' || c == '\n' || exists r :: r in rows && c in r {
        if c in line {
        } else {
          assert c in Render(rows[1..], d);
          if c != ' ' && c != '\n' {
            var r :| r in rows[1..] && c in r;
            assert r in rows;
          }
        }
      }
    }
  }

  lemma {:induction false} IndentChars(d: nat)
    ensures forall c <- Indent(d) :: c == ' '
  {
    if d > 0 { IndentChars(d - 1); }
  }

  lemma {:induction false} LineChars(s: string)
    ensures forall l <- SplitLines(s) :: forall c <- l :: c in s
  {
    if s != [] {
      LineChars(s[1..]);
      var r := SplitLines(s[1..]);
      assert s[0] in s && r[0] in r;
      forall c | c in s[1..] ensures c in s {}
      forall l, c | l in SplitLines(s) && c in l ensures c in s {
        if s[0] != '\n' && l == [s[0]] + r[0] {
          assert c == s[0] || c in r[0];
        } else {
          assert l == [] || l in r;
        }
      }
    }
  }

  lemma {:induction false} TrimsChars(ls: seq<string>)
    ensures forall t <- Trims(ls) :: forall c <- t :: exists l :: l in ls && c in l
  {
    if ls != [] {
      TrimsChars(ls[1..]);
      var a, b := TrimSplit(ls[0]);
      assert ls[0] in ls;
      forall c | c in Trim(ls[0]) ensures c in ls[0] {}
      forall t, c | t in Trims(ls[1..]) && c in t ensures exists l :: l in ls && c in l {
        var l :| l in ls[1..] && c in l;
        assert l in ls;
      }
    }
  }

  lemma {:induction false} RowsSubset(ts: seq<string>, prevBlank: bool)
    ensures forall r <- Rows(ts, prevBlank) :: r == [] || r in ts
  {
    if ts != [] {
      RowsSubset(ts[1..], false);
      RowsSubset(ts[1..], true);
    }
  }

  /** A printed gap holds nothing but characters of its text, spaces and line breaks. */
  lemma GapChars(bol: bool, x: string, d: nat, next: nat)
    ensures forall c <- GapText(LayText(bol, x), d, next) :: c == ' ' || c == '\n' || c in x
  {
    var lay := LayText(bol, x);
    var ts := Trims(SplitLines(x));
    assert forall r <- lay.rows + [lay.glue] :: r == [] || r in ts by {
      RowsSubset(ts, false);
      RowsSubset(ts[1..], false);
      if |ts| > 1 { RowsSubset(ts[2..], false); }
    }
    LineChars(x);
    TrimsChars(SplitLines(x));
    RenderChars(lay.rows, d);
    IndentChars(next);
    forall c | c in GapText(lay, d, next) ensures c == ' ' || c == '\n' || c in x {
      if c != ' ' && c != '\n' {
        if c in lay.glue {
          assert lay.glue in lay.rows + [lay.glue];
          assert lay.glue in ts;
        } else {
          assert c in Render(lay.rows, d);
          var r :| r in lay.rows && c in r;
          assert r in lay.rows + [lay.glue];
          assert r in ts;
        }
      }
    }
  }

  lemma GapPlain(g: string, lay: Lay, d: nat, next: nat, bol: bool, x: string)
    requires lay == LayText(bol, x) && g == GapText(lay, d, next) && PlainBlanks(x)
    ensures PlainBlanks(g)
  {
    hide LayText, GapText;
    GapChars(bol, x, d, next);
  }
}
