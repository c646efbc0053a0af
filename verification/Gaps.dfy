/** The text between two lexemes: how it is printed, and that printing it again changes nothing. */
module Gaps {
  import opened Text
  import opened Tokens
  import opened Layout
  import opened Cleanup

  /** A printed gap: the piece glued to the line it starts on, then the following lines,
      a blank line being an empty row. */
  datatype Lay = Lay(glue: string, rows: seq<string>)

  function Trims(ls: seq<string>): (r: seq<string>)
    ensures |r| == |ls|
  {
    if ls == [] then [] else [Trim(ls[0])] + Trims(ls[1..])
  }

  /** The rows printed for the trimmed lines `ts`: no two blank ones in a row, none for the last line. */
  function Rows(ts: seq<string>, prevBlank: bool): seq<string> {
    if ts == [] then []
    else if ts[0] == [] then
      if |ts| == 1 || prevBlank then Rows(ts[1..], prevBlank) else [[]] + Rows(ts[1..], true)
    else [ts[0]] + Rows(ts[1..], false)
  }

  function LayLines(bol: bool, ts: seq<string>): Lay
    requires ts != []
  {
    if bol then Lay([], Rows(if ts[0] == [] then ts[1..] else ts, false))
    else if ts[0] != [] then Lay(ts[0], Rows(ts[1..], false))
    else if |ts| > 1 && ts[1] != [] then Lay(ts[1], Rows(ts[2..], false))
    else Lay([], Rows(ts[1..], false))
  }

  /** How the text `x` is laid out after a lexeme; `bol`: the lexeme ended its line. */
  function LayText(bol: bool, x: string): Lay {
    if Trim(x) == [] then Lay([], if CountNewlines(x) >= 2 then [[]] else [])
    else LayLines(bol, Trims(SplitLines(x)))
  }

  function Render(rows: seq<string>, d: nat): string {
    if rows == [] then []
    else (if rows[0] == [] then "\n" else Indent(d) + rows[0] + "\n") + Render(rows[1..], d)
  }

  /** The characters between two lexemes, the indent of the next one included. */
  function GapText(lay: Lay, d: nat, next: nat): string {
    lay.glue + "\n" + Render(lay.rows, d) + Indent(next)
  }

  predicate RowOk(r: string) { Trimmed(r) && '\n' !in r }

  predicate NoBlankPair(rows: seq<string>) {
    forall i :: 0 <= i < |rows| - 1 && rows[i] == [] ==> rows[i + 1] != []
  }

  predicate Good(bol: bool, lay: Lay) {
    && RowOk(lay.glue) && (forall r <- lay.rows :: RowOk(r)) && NoBlankPair(lay.rows)
    && (bol ==> lay.glue == [])
    && (!bol && lay.glue == [] && lay.rows != [] ==> lay.rows[0] == [])
  }

  // ----- lay-outs are good -----

  lemma {:induction false} TrimsOk(ls: seq<string>)
    requires forall k :: 0 <= k < |ls| ==> '\n' !in ls[k]
    ensures forall r <- Trims(ls) :: RowOk(r)
  {
    if ls != [] {
      TrimsOk(ls[1..]);
      var a, b := TrimSplit(ls[0]);
      forall k | 0 <= k < |Trim(ls[0])| ensures Trim(ls[0])[k] != '\n' {
        assert Trim(ls[0])[k] == ls[0][|a| + k] && ls[0][|a| + k] in ls[0];
      }
    }
  }

  lemma {:induction false} RowsOk(ts: seq<string>, prevBlank: bool)
    requires forall r <- ts :: RowOk(r)
    ensures forall r <- Rows(ts, prevBlank) :: RowOk(r)
    ensures NoBlankPair(Rows(ts, prevBlank))
    ensures prevBlank && Rows(ts, prevBlank) != [] ==> Rows(ts, prevBlank)[0] != []
    ensures !prevBlank && |ts| > 1 && ts[0] == [] ==> Rows(ts, prevBlank) != [] && Rows(ts, prevBlank)[0] == []
  {
    hide RowOk;
    if ts != [] {
      assert ts[0] in ts;
      RowsOk(ts[1..], false);
      RowsOk(ts[1..], true);
    }
  }

  lemma LayGood(bol: bool, x: string)
    ensures Good(bol, LayText(bol, x))
  {
    if Trim(x) != [] {
      var ts := Trims(SplitLines(x));
      TrimsOk(SplitLines(x));
      hide RowOk, Trims, SplitLines, Trim;
      assert RowOk([]) by { EmptyRowOk(); }
      assert ts[0] in ts;
      RowsOk(ts, false);
      RowsOk(ts[1..], false);
      if |ts| > 1 { assert ts[1] in ts; RowsOk(ts[2..], false); }
      if |ts| == 1 { assert ts[1..] == []; }
      SomeLine(x);
    } else {
      EmptyRowOk();
    }
  }

  lemma EmptyRowOk()
    ensures RowOk([])
  {}

  predicate AllNothing(ts: seq<string>) { forall k :: 0 <= k < |ts| ==> ts[k] == [] }

  lemma {:induction false} BlankJoin(ls: seq<string>)
    requires AllNothing(Trims(ls))
    ensures Blank(JoinLines(ls))
  {
    if ls != [] {
      BlankTrims(ls[0]);
      assert Trims(ls)[0] == [] && Trims(ls)[0] == Trim(ls[0]);
      assert Trims(ls)[1..] == Trims(ls[1..]);
      forall k | 0 <= k < |Trims(ls[1..])| ensures Trims(ls[1..])[k] == [] { assert Trims(ls)[k + 1] == []; }
      hide Trim, Trims;
      BlankJoin(ls[1..]);
      BlankAppend(ls[0], "\n");
      BlankAppend(ls[0] + "\n", JoinLines(ls[1..]));
    }
  }

  lemma {:induction false} BlankAppend(a: string, b: string)
    requires Blank(a) && Blank(b)
    ensures Blank(a + b)
  {}

  /** A text that is not blank has a line that is not blank. */
  lemma SomeLine(x: string)
    requires Trim(x) != []
    ensures exists k :: 0 <= k < |Trims(SplitLines(x))| && Trims(SplitLines(x))[k] != []
  {
    if forall k :: 0 <= k < |Trims(SplitLines(x))| ==> Trims(SplitLines(x))[k] == [] {
      BlankJoin(SplitLines(x));
      JoinSplit(x);
      BlankTrims(x);
    }
  }

  // ----- printing gives the lay-out -----

  predicate AtLineStart(q: string, prevBlank: bool) {
    EndsWith(q, "\n") && (prevBlank <==> EndsWith(q, "\n\n"))
  }

  lemma AtLineStartLine(q: string, line: string)
    requires line != [] && line[|line| - 1] != '\n'
    ensures AtLineStart(q + line + "\n", false)
  {
    EndsInNewline(q + line + "\n");
    EndsInTwo(q + line + "\n");
  }

  lemma AtLineStartBlank(q: string)
    requires EndsWith(q, "\n")
    ensures AtLineStart(q + "\n", true)
  {
    EndsInNewline(q);
    EndsInNewline(q + "\n");
    EndsInTwo(q + "\n");
  }

  /** Where the page stands at the head of the lines `ls`: at a line start, or at the very start
      of the page with a line to print. */
  predicate Ready(q: string, prevBlank: bool, ts: seq<string>) {
    if q == [] then !prevBlank && ts != [] && ts[0] != [] else AtLineStart(q, prevBlank)
  }

  lemma {:induction false} PutRows(q: string, prevBlank: bool, ls: seq<string>, first: bool, endsNl: bool, d: nat, next: nat)
    requires Ready(q, prevBlank, Trims(ls))
    requires first ==> ls != [] && Trim(ls[0]) != []
    ensures EnsureIndent(PutLines(Page(q, true), ls, first, endsNl, d), next)
         == Page(q + Render(Rows(Trims(ls), prevBlank), d) + Indent(next), false)
    decreases |ls|
  {
    hide Trim, Indent, EndsWith, AtLineStart;
    if ls == [] {
      assert q + [] == q;
      return;
    }
    var t := Trim(ls[0]);
    var ts := Trims(ls);
    var last := |ls| == 1;
    assert ts[0] == t && ts[1..] == Trims(ls[1..]);
    if t == [] {
      if last {
        assert ls[1..] == [] && ts[1..] == [];
        assert PutLines(Page(q, true), ls, first, endsNl, d) == Page(q, true);
        assert q + [] == q;
      } else if prevBlank {
        ReadyMeans(q, prevBlank, ts);
        PutRows(q, true, ls[1..], false, endsNl, d, next);
      } else {
        ReadyMeans(q, prevBlank, ts);
        AtLineStartBlank(q);
        PutRows(q + "\n", true, ls[1..], false, endsNl, d, next);
        RenderHead([], Rows(ts[1..], true), d);
        assert q + "\n" + Render(Rows(ts[1..], true), d) == q + ("\n" + Render(Rows(ts[1..], true), d));
      }
    } else {
      PutRow(q, prevBlank, ls, endsNl, d, next);
      if !last {
        AtLineStartRow(q, ls[0], d);
        PutRows(q + (Indent(d) + t) + "\n", false, ls[1..], false, endsNl, d, next);
      }
      RenderHead(t, Rows(ts[1..], false), d);
      var rest := Render(Rows(ts[1..], false), d);
      assert q + (Indent(d) + t) + "\n" + rest == q + (Indent(d) + t + "\n" + rest);
    }
  }

  lemma ReadyMeans(q: string, prevBlank: bool, ts: seq<string>)
    requires Ready(q, prevBlank, ts) && ts != [] && ts[0] == []
    ensures EndsWith(q, "\n") && (prevBlank <==> EndsWith(q, "\n\n")) && AtLineStart(q, prevBlank)
  {}

  lemma RenderHead(r: string, rows: seq<string>, d: nat)
    ensures Render([r] + rows, d) == (if r == [] then "\n" else Indent(d) + r + "\n") + Render(rows, d)
  {
    assert ([r] + rows)[1..] == rows;
  }

  lemma AtLineStartRow(q: string, l: string, d: nat)
    requires Trim(l) != []
    ensures AtLineStart(q + (Indent(d) + Trim(l)) + "\n", false)
  {
    var a, b := TrimSplit(l);
    AtLineStartLine(q, Indent(d) + Trim(l));
  }

  lemma PutRow(q: string, prevBlank: bool, ls: seq<string>, endsNl: bool, d: nat, next: nat)
    requires ls != [] && Trim(ls[0]) != []
    ensures forall first :: PutLines(Page(q, true), ls, first, endsNl, d)
              == if |ls| > 1 then PutLines(Page(q + (Indent(d) + Trim(ls[0])) + "\n", true), ls[1..], false, endsNl, d)
                 else if endsNl then Page(q + (Indent(d) + Trim(ls[0])) + "\n", true)
                 else Page(q + (Indent(d) + Trim(ls[0])), false)
  {
    hide Trim, Indent;
    var t := Trim(ls[0]);
    assert q + Indent(d) + t == q + (Indent(d) + t);
    if |ls| == 1 { assert ls[1..] == []; }
  }

  lemma PutGlue(o: string, ls: seq<string>, first: bool, endsNl: bool, d: nat, next: nat)
    requires ls != [] && Trim(ls[0]) != []
    ensures EnsureIndent(PutLines(Page(o, false), ls, first, endsNl, d), next)
         == Page(o + GapText(Lay(Trim(ls[0]), Rows(Trims(ls[1..]), false)), d, next), false)
  {
    hide Trim, Indent;
    var t := Trim(ls[0]);
    var rows := Rows(Trims(ls[1..]), false);
    assert o + (t + "\n" + Render(rows, d) + Indent(next)) == o + t + "\n" + Render(rows, d) + Indent(next);
    if |ls| > 1 {
      GlueAtLineStart(o, ls[0]);
      PutRows(o + t + "\n", false, ls[1..], false, endsNl, d, next);
    } else {
      assert ls[1..] == [] && o + t + "\n" + [] == o + t + "\n";
    }
  }

  lemma GlueAtLineStart(o: string, l: string)
    requires Trim(l) != []
    ensures AtLineStart(o + Trim(l) + "\n", false)
  {
    var a, b := TrimSplit(l);
    AtLineStartLine(o, Trim(l));
  }

  lemma {:induction false} SkipFirst(p: Page, ls: seq<string>, endsNl: bool, d: nat)
    requires ls != [] && Trim(ls[0]) == []
    ensures PutLines(p, ls, true, endsNl, d) == PutLines(p, ls[1..], false, endsNl, d)
  {
    hide Trim, BlankLine;
  }

  lemma {:induction false} TrimsAre(ls: seq<string>)
    requires ls != []
    ensures Trims(ls)[0] == Trim(ls[0]) && Trims(ls)[1..] == Trims(ls[1..])
    ensures |ls| > 1 ==> Trims(ls)[1] == Trim(ls[1]) && Trims(ls)[2..] == Trims(ls[2..])
  {
    hide Trim;
    if |ls| > 1 {
      assert ls[1..][1..] == ls[2..];
      assert Trims(ls)[2..] == Trims(ls)[1..][1..];
    }
  }

  lemma {:induction false} LayAtStart(ls: seq<string>)
    requires ls != []
    ensures LayLines(true, Trims(ls)) == Lay([], Rows(Trims(if Trim(ls[0]) == [] then ls[1..] else ls), false))
  {
    TrimsAre(ls);
    hide Trim, Rows;
  }

  lemma {:induction false} StartsReady(o: string, ls: seq<string>)
    requires o != [] && o[|o| - 1] != '\n'
    ensures Ready(o + "\n", false, Trims(ls))
  {
    AtLineStartLine([], o);
    hide Trim, Trims, EndsWith;
    assert [] + o + "\n" == o + "\n";
  }

  lemma {:induction false} GapFromStart(o: string, rows: seq<string>, d: nat, next: nat)
    ensures o + "\n" + Render(rows, d) + Indent(next) == o + GapText(Lay([], rows), d, next)
  {
    hide Render, Indent;
    assert [] + "\n" + Render(rows, d) + Indent(next) == "\n" + Render(rows, d) + Indent(next);
  }

  lemma {:induction false} LineStartPrinted(o: string, ls: seq<string>, endsNl: bool, d: nat, next: nat)
    requires o != [] && o[|o| - 1] != '\n' && ls != []
    ensures EnsureIndent(PutLines(Page(o + "\n", true), ls, true, endsNl, d), next)
         == Page(o + GapText(LayLines(true, Trims(ls)), d, next), false)
  {
    hide *;
    LayAtStart(ls);
    var blank := Trim(ls[0]) == [];
    var rest := if blank then ls[1..] else ls;
    if blank { SkipFirst(Page(o + "\n", true), ls, endsNl, d); }
    StartsReady(o, rest);
    PutRows(o + "\n", false, rest, !blank, endsNl, d, next);
    GapFromStart(o, Rows(Trims(rest), false), d, next);
  }

  lemma {:induction false} GluePrinted(o: string, ls: seq<string>, endsNl: bool, d: nat, next: nat)
    requires o != [] && o[|o| - 1] != '\n' && ls != []
    requires Trim(ls[0]) != [] || |ls| > 2 || (|ls| == 2 && Trim(ls[1]) != [])
    ensures EnsureIndent(PutLines(Page(o, false), ls, true, endsNl, d), next)
         == Page(o + GapText(LayLines(false, Trims(ls)), d, next), false)
  {
    TrimsAre(ls);
    hide Trim, Indent, PutLines, EnsureIndent, Render, Rows, Trims, GapText;
    if Trim(ls[0]) != [] {
      PutGlue(o, ls, true, endsNl, d, next);
    } else if Trim(ls[1]) != [] {
      SkipFirst(Page(o, false), ls, endsNl, d);
      assert ls[1..][0] == ls[1] && ls[1..][1..] == ls[2..];
      PutGlue(o, ls[1..], false, endsNl, d, next);
    } else {
      BlankThenRows(o, ls, endsNl, d, next);
    }
  }

  lemma {:induction false} LinesPrinted(o: string, bol: bool, ls: seq<string>, endsNl: bool, d: nat, next: nat)
    requires o != [] && o[|o| - 1] != '\n'
    requires exists k :: 0 <= k < |Trims(ls)| && Trims(ls)[k] != []
    ensures EnsureIndent(PutLines(Page(if bol then o + "\n" else o, bol), ls, true, endsNl, d), next)
         == Page(o + GapText(LayLines(bol, Trims(ls)), d, next), false)
  {
    TrimsAre(ls);
    hide Trim, Indent, PutLines, EnsureIndent, Render, Rows, Trims, GapText, LayLines;
    if bol { LineStartPrinted(o, ls, endsNl, d, next); } else { GluePrinted(o, ls, endsNl, d, next); }
  }

  lemma BlankThenRows(o: string, ls: seq<string>, endsNl: bool, d: nat, next: nat)
    requires o != [] && o[|o| - 1] != '\n'
    requires |ls| > 2 && Trim(ls[0]) == [] && Trim(ls[1]) == []
    ensures EnsureIndent(PutLines(Page(o, false), ls, true, endsNl, d), next)
         == Page(o + GapText(Lay([], Rows(Trims(ls[1..]), false)), d, next), false)
  {
    hide Trim, Indent;
    EndsInTwo(o);
    EndsInNewline(o + "\n");
    AtLineStartBlank(o + "\n");
    var q := o + "\n" + "\n";
    var us := ls[1..];
    assert us[0] == ls[1] && us[1..] == ls[2..];
    assert PutLines(Page(o, false), ls, true, endsNl, d) == PutLines(Page(o, false), us, false, endsNl, d);
    assert BlankLine(Page(o, false)) == Page(q, true);
    PutRows(q, true, ls[2..], false, endsNl, d, next);
    var rows := Rows(Trims(ls[2..]), true);
    assert Trims(us)[1..] == Trims(ls[2..]);
    assert Rows(Trims(us), false) == [[]] + rows;
    RenderHead([], rows, d);
    assert q + Render(rows, d) + Indent(next) == o + ([] + "\n" + ("\n" + Render(rows, d)) + Indent(next));
  }

  lemma BlankPrinted(o: string, bol: bool, x: string, d: nat, next: nat)
    requires o != [] && o[|o| - 1] != '\n' && Trim(x) == []
    ensures EnsureIndent(PutText(Page(if bol then o + "\n" else o, bol), x, d), next)
         == Page(o + GapText(LayText(bol, x), d, next), false)
  {
    hide Indent, Trim;
    var q := if bol then o + "\n" else o;
    EndsInTwo(q);
    EndsInNewline(q);
    RenderHead([], [], d);
    var one: seq<string> := [[]];
    assert one + [] == one;
    if CountNewlines(x) >= 2 {
      assert o + "\n" + "\n" + Indent(next) == o + ([] + "\n" + ("\n" + []) + Indent(next));
    } else {
      assert o + "\n" + Indent(next) == o + ([] + "\n" + [] + Indent(next));
    }
  }

  /** After a lexeme, text is printed as its lay-out says. */
  lemma GapPrinted(o: string, bol: bool, x: string, d: nat, next: nat)
    requires o != [] && o[|o| - 1] != '\n'
    ensures EnsureIndent(PutText(Page(if bol then o + "\n" else o, bol), x, d), next)
         == Page(o + GapText(LayText(bol, x), d, next), false)
  {
    if Trim(x) == [] {
      BlankPrinted(o, bol, x, d, next);
    } else {
      SomeLine(x);
      LinesPrinted(o, bol, SplitLines(x), EndsWith(x, "\n"), d, next);
    }
  }
}
