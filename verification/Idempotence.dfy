/** When formatting a clean template twice is formatting it once: exactly when no blank line precedes
    leading text, no run of more than two spaces stands inside an inline run, and one clean-up settles
    every comment and raw body. */
module Idempotence {
  import opened Text
  import opened Tokens
  import opened Lexing
  import opened Lexemes
  import opened Comments
  import opened Layout
  import opened Cleanup
  import opened Neatness
  import opened Gaps
  import opened GapFix
  import opened Runs
  import opened NormalForm
  import opened PlainTexts
  import opened Polishing
  import opened PrintedForm
  import opened Reread
  import opened Stable
  import opened Tidy

  // ----- the text before the first lexeme -----

  function Breaks(k: nat): string { if k == 0 then [] else "\n" + Breaks(k - 1) }

  /** The number of blank lines in front. */
  function Blanks(ts: seq<string>): (n: nat)
    ensures n <= |ts| && (n < |ts| ==> ts[n] != [])
  {
    if ts == [] || ts[0] != [] then 0 else 1 + Blanks(ts[1..])
  }

  function AtMostTwo(n: nat): nat { if n > 2 then 2 else n }

  /** The printed form of leading text: blank lines in front survive, except the first one and
      those beyond the third. */
  datatype Lead = Lead(breaks: nat, rows: seq<string>)

  function LeadOf(x: string): Lead {
    var ts := Trims(SplitLines(x));
    var j := Blanks(ts);
    Lead(if j <= 1 then 0 else AtMostTwo(j - 1), Rows(ts[j..], false))
  }

  function LeadText(x: string, last: bool): string {
    if Trim(x) == [] then if last then "\n" else []
    else
      var l := LeadOf(x);
      Breaks(l.breaks) + Render(if last then Seal(Lay([], l.rows)).rows else l.rows, 0)
  }

  /** The lines of `x` start with text or are all blank, the first line set aside. */
  predicate CleanLead(x: string) {
    var ls := SplitLines(x);
    Trim(x) == [] || |ls| == 1 || Trim(ls[0]) != [] || Trim(ls[1]) != []
  }

  lemma {:induction false} TrimsAt(ls: seq<string>, k: nat)
    requires k < |ls|
    ensures Trims(ls)[k] == Trim(ls[k]) && Trims(ls)[k..] == Trims(ls[k..])
  {
    hide Trim;
    if k > 0 { TrimsAt(ls[1..], k - 1); }
  }

  lemma {:induction false} SomeText(x: string)
    requires Trim(x) != []
    ensures Blanks(Trims(SplitLines(x))) < |SplitLines(x)|
  {
    SomeLine(x);
    var ts := Trims(SplitLines(x));
    AllBlank(ts);
  }

  lemma {:induction false} AllBlank(ts: seq<string>)
    ensures Blanks(ts) == |ts| ==> forall k :: 0 <= k < |ts| ==> ts[k] == []
  {
    if ts != [] && ts[0] == [] { AllBlank(ts[1..]); }
  }

  lemma {:induction false} CleanLeadIs(x: string)
    requires Trim(x) != []
    ensures CleanLead(x) <==> LeadOf(x).breaks == 0
  {
    var ls := SplitLines(x);
    SomeText(x);
    TrimsAt(ls, 0);
    if |ls| > 1 { TrimsAt(ls, 1); }
    hide SplitLines, Trims, Trim, Rows;
    var ts := Trims(ls);
    if |ts| > 1 { assert ts[1..][0] == ts[1]; }
  }

  lemma {:induction false} BreaksAre()
    ensures Breaks(0) == [] && Breaks(1) == "\n" && Breaks(2) == "\n\n"
  {
    assert Breaks(2) == "\n" + Breaks(1) && Breaks(1) == "\n" + Breaks(0);
  }

  lemma {:induction false} BreaksEnds(k: nat)
    requires k <= 2
    ensures k > 0 ==> EndsWith(Breaks(k), "\n")
    ensures EndsWith(Breaks(k), "\n\n") <==> k == 2
  {
    BreaksAre();
    EndsInNewline(Breaks(k));
    EndsInTwo(Breaks(k));
    hide EndsWith, Breaks;
    assert k == 0 || k == 1 || k == 2;
  }

  lemma {:induction false} BlanksHead(ls: seq<string>)
    requires ls != []
    ensures Trim(ls[0]) != [] ==> Blanks(Trims(ls)) == 0
    ensures Trim(ls[0]) == [] ==> Blanks(Trims(ls)) == 1 + Blanks(Trims(ls[1..]))
  {
    hide Trim;
    TrimsAt(ls, 0);
    TrimsTail(ls);
  }

  lemma {:induction false} LeadBlanks(k: nat, ls: seq<string>, endsNl: bool)
    requires k <= 2 && Blanks(Trims(ls)) < |ls|
    ensures var j := Blanks(Trims(ls));
            PutLines(Page(Breaks(k), true), ls, false, endsNl, 0)
            == PutLines(Page(Breaks(AtMostTwo(k + j)), true), ls[j..], false, endsNl, 0)
    decreases |ls|
  {
    hide *;
    BlanksHead(ls);
    if Trim(ls[0]) != [] {
      AtMost(k, 0);
      assert ls[0..] == ls;
    } else {
      var j := Blanks(Trims(ls[1..]));
      BreakMore(k);
      AtMost(k, j);
      LeadBlanks(AtMostTwo(k + 1), ls[1..], endsNl);
      assert ls[1..][j..] == ls[j + 1..];
      PutBlank(Page(Breaks(k), true), ls, endsNl);
    }
  }

  lemma {:induction false} AtMost(k: nat, j: nat)
    ensures AtMostTwo(k + 1) <= 2 && AtMostTwo(AtMostTwo(k + 1) + j) == AtMostTwo(k + (1 + j))
    ensures k <= 2 ==> AtMostTwo(k + 0) == k
  {}

  lemma {:induction false} TrimsTail(ls: seq<string>)
    requires ls != []
    ensures Trims(ls)[1..] == Trims(ls[1..])
  {}

  lemma {:induction false} BreakMore(k: nat)
    requires k <= 2
    ensures BlankLine(Page(Breaks(k), true)) == Page(Breaks(AtMostTwo(k + 1)), true)
  {
    BreaksEnds(k);
    BreaksAre();
    hide EndsWith, Breaks;
    assert k == 0 || k == 1 || k == 2;
    assert [] + "\n" == "\n" && "\n" + "\n" == "\n\n";
  }

  lemma {:induction false} PutBlank(p: Page, ls: seq<string>, endsNl: bool)
    requires |ls| > 1 && Trim(ls[0]) == []
    ensures PutLines(p, ls, false, endsNl, 0) == PutLines(BlankLine(p), ls[1..], false, endsNl, 0)
  {
    hide Trim, BlankLine;
  }

  lemma {:induction false} PutFirstBlank(p: Page, ls: seq<string>, endsNl: bool)
    requires ls != [] && Trim(ls[0]) == []
    ensures PutLines(p, ls, true, endsNl, 0) == PutLines(p, ls[1..], false, endsNl, 0)
  {
    hide Trim, BlankLine;
  }

  lemma {:induction false} RowsFromText(ts: seq<string>, prevBlank: bool)
    requires ts != [] && ts[0] != []
    ensures Rows(ts, prevBlank) == Rows(ts, false) && Rows(ts, false) != [] && Rows(ts, false)[0] != []
  {}

  lemma {:induction false} LeadRows(k: nat, ls: seq<string>, first: bool, endsNl: bool)
    requires k <= 2 && ls != [] && Trim(ls[0]) != []
    ensures EnsureIndent(PutLines(Page(Breaks(k), true), ls, first, endsNl, 0), 0)
         == Page(Breaks(k) + Render(Rows(Trims(ls), false), 0), false)
  {
    TrimsAt(ls, 0);
    BreaksEnds(k);
    hide Trim, EndsWith, EnsureIndent, Render;
    RowsFromText(Trims(ls), k == 2);
    PutRows(Breaks(k), k == 2, ls, first, endsNl, 0, 0);
    NoIndent();
    var s := Breaks(k) + Render(Rows(Trims(ls), false), 0);
    assert s + [] == s;
  }

  /** Leading text is printed as its lead says. */
  lemma {:induction false} LeadPrinted(x: string)
    requires Trim(x) != []
    ensures EnsureIndent(PutText(Page([], true), x, 0), 0) == Page(LeadText(x, false), false)
  {
    var ls := SplitLines(x);
    var e := EndsWith(x, "\n");
    SomeText(x);
    TrimsAt(ls, 0);
    TrimsTail(ls);
    hide SplitLines, Trim, EndsWith, PutLines, EnsureIndent, Rows, Render;
    var ts := Trims(ls);
    var j := Blanks(ts);
    assert Breaks(0) == [];
    assert PutText(Page([], true), x, 0) == PutLines(Page([], true), ls, true, e, 0);
    if j == 0 {
      assert ts[0..] == ts;
      LeadRows(0, ls, true, e);
    } else {
      PutFirstBlank(Page([], true), ls, e);
      LeadBlanks(0, ls[1..], e);
      assert ls[1..][j - 1..] == ls[j..];
      TrimsAt(ls, j);
      LeadRows(AtMostTwo(j - 1), ls[j..], false, e);
    }
  }

  // ----- leads read back -----

  lemma {:induction false} LeadOk(x: string)
    requires Trim(x) != []
    ensures var l := LeadOf(x);
            && l.breaks <= 2 && l.rows != [] && l.rows[0] != []
            && (forall r <- l.rows :: RowOk(r)) && NoBlankPair(l.rows)
  {
    SomeText(x);
    var ls := SplitLines(x);
    TrimsOk(ls);
    hide SplitLines, Trim, RowOk, Trims;
    var ts := Trims(ls);
    var j := Blanks(ts);
    forall r | r in ts[j..] ensures RowOk(r) { assert r in ts; }
    RowsOk(ts[j..], false);
    RowsFromText(ts[j..], false);
  }

  lemma {:induction false} SealedLead(rows: seq<string>)
    requires rows != [] && rows[0] != [] && (forall r <- rows :: RowOk(r)) && NoBlankPair(rows)
    ensures var s := Seal(Lay([], rows)).rows;
            && s != [] && s[0] != [] && s[|s| - 1] != [] && (forall r <- s :: RowOk(r)) && NoBlankPair(s)
            && Seal(Lay([], s)).rows == s
  {
    SealedRowsOk(rows);
    hide RowOk;
    var s := Seal(Lay([], rows)).rows;
    if |s| < |rows| { NotBlankBefore(rows, |s| - 1); }
  }

  lemma {:induction false} SealedRowsOk(rows: seq<string>)
    requires (forall r <- rows :: RowOk(r)) && NoBlankPair(rows)
    ensures var s := Seal(Lay([], rows)).rows; (forall r <- s :: RowOk(r)) && NoBlankPair(s)
  {
    EmptyRowOk();
    SealGood(true, Lay([], rows));
  }

  lemma {:induction false} BlanksBack(k: nat, ts: seq<string>)
    requires ts != [] && ts[0] != []
    ensures Blanks(Copies([], k) + ts) == k && (Copies([], k) + ts)[k..] == ts
  {
    if k > 0 {
      var one: seq<string> := [[]];
      assert Copies([], k) + ts == one + (Copies([], k - 1) + ts);
      BlanksBack(k - 1, ts);
    } else {
      assert Copies([], 0) + ts == ts;
    }
  }

  lemma {:induction false} BreaksTurn(k: nat, z: string)
    requires k > 0
    ensures Breaks(k) + z == [] + "\n" + (Breaks(k - 1) + z)
    ensures Breaks(0) == []
  {
    hide Breaks;
    assert Breaks(k) == "\n" + Breaks(k - 1) by { BreakOne(k); }
    assert Breaks(0) == [] by { BreakOne(k); }
    assert "\n" + Breaks(k - 1) + z == [] + "\n" + (Breaks(k - 1) + z);
  }

  lemma {:induction false} BreakOne(k: nat)
    requires k > 0
    ensures Breaks(k) == "\n" + Breaks(k - 1) && Breaks(0) == []
  {}

  lemma {:induction false} CopiesTurn(w: string, k: nat, ls: seq<string>)
    requires k > 0
    ensures Copies(w, k) + ls == [w] + (Copies(w, k - 1) + ls) && Copies(w, 0) + ls == ls
  {
    assert Copies(w, 0) == [] && [] + ls == ls;
    assert [w] + Copies(w, k - 1) + ls == [w] + (Copies(w, k - 1) + ls);
  }

  lemma {:induction false} BreakLines(k: nat, z: string)
    ensures Trims(SplitLines(Breaks(k) + z)) == Copies([], k) + Trims(SplitLines(z))
  {
    hide *;
    if k == 0 {
      BreaksTurn(1, z);
      CopiesTurn([], 1, Trims(SplitLines(z)));
      assert [] + z == z;
    } else {
      var rest := Breaks(k - 1) + z;
      BreaksTurn(k, z);
      SplitAt([], rest);
      BreakLines(k - 1, z);
      TrimsHead([], SplitLines(rest));
      NothingTrims();
      CopiesTurn([], k, Trims(SplitLines(z)));
    }
  }

  /** The lead of printed leading text. */
  lemma {:induction false} LeadBack(k: nat, rows: seq<string>)
    requires k <= 2 && rows != [] && rows[0] != [] && (forall r <- rows :: RowOk(r)) && NoBlankPair(rows)
    ensures var y := Breaks(k) + Render(rows, 0);
            Trim(y) != [] && LeadOf(y) == Lead(if k <= 1 then 0 else 1, rows)
  {
    var z := Render(rows, 0);
    var y := Breaks(k) + z;
    NoIndent();
    assert z + [] == z;
    RenderLines(rows, 0, 0);
    BreakLines(k, z);
    BlanksBack(k, rows + [[]]);
    RowsBack(rows, false);
    hide Trim, Render, RowOk, SplitLines, Trims, Rows;
    var ts := Trims(SplitLines(y));
    assert ts[k..][0] == rows[0];
    LineNotBlank(y, k);
  }

  lemma {:induction false} LineNotBlank(y: string, k: nat)
    requires k < |Trims(SplitLines(y))| && Trims(SplitLines(y))[k] != []
    ensures Trim(y) != []
  {
    hide Trim, SplitLines, Trims;
    var ts := Trims(SplitLines(y));
    assert ts[k] in ts;
    if Trim(y) == [] { BlankLinesOfBlank(y); }
  }

  lemma {:induction false} LeadTextOf(x: string, last: bool)
    requires Trim(x) != []
    ensures LeadText(x, last)
         == Breaks(LeadOf(x).breaks) + Render(if last then Seal(Lay([], LeadOf(x).rows)).rows else LeadOf(x).rows, 0)
  {}

  /** Printing printed leading text drops one of the blank lines in front, if there is one. */
  lemma {:induction false} LeadAgain(x: string, last: bool)
    requires Trim(x) != []
    ensures var l := LeadOf(x);
            var rows := if last then Seal(Lay([], l.rows)).rows else l.rows;
            && Trim(LeadText(x, last)) != []
            && LeadOf(LeadText(x, last)).breaks == (if l.breaks <= 1 then 0 else 1)
            && LeadText(LeadText(x, last), last) == Breaks(if l.breaks <= 1 then 0 else 1) + Render(rows, 0)
  {
    LeadOk(x);
    SealedLead(LeadOf(x).rows);
    hide Trim, Render, RowOk, LeadOf, Seal, LeadText;
    var l := LeadOf(x);
    var rows := if last then Seal(Lay([], l.rows)).rows else l.rows;
    LeadTextOf(x, last);
    LeadBack(l.breaks, rows);
    LeadTextOf(LeadText(x, last), last);
  }

  lemma {:induction false} BlankLeadAgain(x: string, last: bool)
    requires Trim(x) == []
    ensures LeadText(LeadText(x, last), last) == LeadText(x, last) && Trim(LeadText(x, last)) == []
  {
    BlankTrims([]);
    BlankTrims("\n");
  }

  // ----- leads are plain and neat -----

  lemma {:induction false} NeatTail(s: string)
    requires s != [] && Neat(s)
    ensures Neat(s[1..])
  {
    var t := s[1..];
    forall i | 0 <= i < |t| - 1 && IsSpace(t[i]) && t[i] != '\n' ensures t[i + 1] != '\n' {
      assert t[i] == s[i + 1] && t[i + 1] == s[i + 1 + 1];
    }
    forall i | 0 <= i < |t| - 2 && t[i] == '\n' && t[i + 1] == '\n' ensures t[i + 2] != '\n' {
      assert t[i] == s[i + 1] && t[i + 1] == s[i + 1 + 1] && t[i + 2] == s[i + 1 + 2];
    }
  }

  lemma {:induction false} RenderNeat(rows: seq<string>)
    requires rows != [] && rows[0] != [] && (forall r <- rows :: RowOk(r)) && NoBlankPair(rows)
    ensures Neat(Render(rows, 0)) && Render(rows, 0) != [] && !IsSpace(Render(rows, 0)[0])
  {
    RowsNeat(rows, 0, 0);
    NoIndent();
    var z := Render(rows, 0);
    assert Below(rows, 0, 0)[1..] == z;
    NeatTail(Below(rows, 0, 0));
    hide Neat;
    assert rows[0] in rows;
    assert z[0] == rows[0][0];
  }

  lemma {:induction false} LeadNeat(x: string, last: bool)
    ensures Neat(LeadText(x, last))
  {
    if Trim(x) == [] {
      NeatOneLine([]);
      NeatBreak([]);
      assert "\n" + [] == "\n";
    } else {
      LeadOk(x);
      SealedLead(LeadOf(x).rows);
      hide Trim, Render, RowOk, LeadOf, Seal, LeadText, Neat;
      var l := LeadOf(x);
      var rows := if last then Seal(Lay([], l.rows)).rows else l.rows;
      LeadTextOf(x, last);
      RenderNeat(rows);
      BreaksNeat(l.breaks);
      NeatJoin(Breaks(l.breaks), Render(rows, 0));
    }
  }

  lemma {:induction false} BreaksNeat(k: nat)
    requires k <= 2
    ensures Neat(Breaks(k))
  {
    BreaksAre();
    hide Breaks;
    assert k == 0 || k == 1 || k == 2;
  }

  lemma {:induction false} LeadPlain(x: string, last: bool)
    requires PlainText(x)
    ensures PlainText(LeadText(x, last))
  {
    if Trim(x) == [] {
      NoAngles("\n");
    } else {
      TextPlain(x);
      hide PlainText, LeadText, Render, Trim, SplitLines, Trims, Seal, Rows;
      var ts := Trims(SplitLines(x));
      var l := LeadOf(x);
      PartPlain(ts, Blanks(ts));
      RowsPlain(ts[Blanks(ts)..], false);
      SealPlain(Lay([], l.rows));
      var rows := if last then Seal(Lay([], l.rows)).rows else l.rows;
      RowsRenderPlain(rows, 0);
      BreaksPlain(l.breaks);
      LeadTextOf(x, last);
      PlainJoin(Breaks(l.breaks), Render(rows, 0));
    }
  }

  lemma {:induction false} BreaksPlain(k: nat)
    ensures PlainText(Breaks(k))
  {
    if k == 0 {
      NoAngles([]);
    } else {
      NoAngles("\n");
      BreaksPlain(k - 1);
      hide PlainText;
      PlainJoin("\n", Breaks(k - 1));
    }
  }

  // ----- printing a document -----

  /** The document `d` prints to. */
  function NormalDoc(d: Doc): Doc
    requires Renders(d.units)
  {
    Doc(LeadText(d.lead, d.units == []), NormalUnits(d.units, 0))
  }

  lemma {:induction false} TextOnly(x: string, d: nat)
    ensures PrintFrom(TextTokens(x) + UnitsTokens([]), BLANK_PAGE) == Ok(State(PutText(Page([], true), x, 0), 0, false))
  {
    hide PutText;
    TextPrinted(x, [], BLANK_PAGE);
    assert UnitsTokens([]) == [];
  }

  lemma {:induction false} PageEnd(p: Page, s: string)
    requires EnsureIndent(p, 0) == Page(s + "\n", false) || EnsureIndent(p, 0) == Page(s + "\n" + "\n", false)
    requires Solid(s)
    ensures StripNewlines(p.out) == s
  {
    NoIndent();
    StripOf(s);
    assert p.out + [] == p.out && p.out + "\n" + [] == p.out + "\n";
    if !p.bol {
      var e := EnsureIndent(p, 0).out;
      assert e == p.out + "\n";
      assert e[..|e| - 1] == p.out;
      assert (s + "\n")[..|s|] == s;
      assert (s + "\n" + "\n")[..|s| + 1] == s + "\n";
    }
  }

  /** A sealed lead up to its final newline. */
  function LeadCore(k: nat, rows: seq<string>): string
    requires rows != []
  {
    Breaks(k) + (Render(rows[..|rows| - 1], 0) + rows[|rows| - 1])
  }

  lemma {:induction false} LeadCoreIs(k: nat, rows: seq<string>)
    requires rows != [] && rows[|rows| - 1] != [] && forall r <- rows :: RowOk(r)
    ensures Breaks(k) + Render(rows, 0) == LeadCore(k, rows) + "\n" && Solid(LeadCore(k, rows))
    ensures Breaks(k) + Render(rows + [[]], 0) == LeadCore(k, rows) + "\n" + "\n"
  {
    var r := rows[|rows| - 1];
    assert r in rows;
    RowSolid(r);
    LastRow(rows, 0);
    NoIndent();
    RenderAppend(rows, [[]], 0);
    BlankRow();
    hide RowOk, Render, Indent;
    assert [] + r == r;
    assert Breaks(k) + (Render(rows[..|rows| - 1], 0) + (r + "\n")) == LeadCore(k, rows) + "\n";
  }

  lemma {:induction false} LeadAlone(x: string)
    ensures StripNewlines(PutText(Page([], true), x, 0).out) + "\n" == LeadText(x, true)
  {
    if Trim(x) != [] {
      LeadOk(x);
      LeadPrinted(x);
      SealedLead(LeadOf(x).rows);
      SealCases(LeadOf(x).rows);
      hide *;
      var l := LeadOf(x);
      var s := Seal(Lay([], l.rows)).rows;
      LeadTextOf(x, true);
      LeadTextOf(x, false);
      LeadCoreIs(l.breaks, s);
      PageEnd(PutText(Page([], true), x, 0), LeadCore(l.breaks, s));
    }
  }

  lemma {:induction false} SealCases(rows: seq<string>)
    ensures var s := Seal(Lay([], rows)).rows; rows == s || rows == s + [[]]
  {}

  lemma {:induction false} RowSolid(r: string)
    requires RowOk(r) && r != []
    ensures Solid(r)
  {}

  lemma {:induction false} BlankRow()
    ensures Render([[]], 0) == "\n"
  {
    var one: seq<string> := [[]];
    assert one[1..] == [];
  }

  /** The printed page, final newlines aside, is the source of the normal form. */
  lemma {:induction false} DocPrints(d: Doc)
    requires Printable(d.units)
    ensures var r := PrintFrom(DocTokens(d), BLANK_PAGE);
            r.Ok? && StripNewlines(r.value.page.out) + "\n" == Source(NormalDoc(d))
  {
    var x, us := d.lead, d.units;
    if us == [] {
      hide PutText, LeadText, StripNewlines, TextTokens;
      TextOnly(x, 0);
      LeadAlone(x);
      assert LeadText(x, true) + [] == LeadText(x, true);
    } else {
      hide *;
      TextPrinted(x, UnitsTokens(us), BLANK_PAGE);
      LeadIndent(x, us);
      PrintsNormal(us, State(PutText(Page([], true), x, 0), 0, false), LeadText(x, false));
      DocParts(d);
      PrintsMeans(us, State(PutText(Page([], true), x, 0), 0, false), LeadText(x, false) + UnitsSource(NormalUnits(us, 0)));
    }
  }

  lemma {:induction false} PrintsMeans(us: seq<Unit>, st: State, result: string)
    requires PrintsTo(us, st, result)
    ensures PrintFrom(UnitsTokens(us), st).Ok? && StripNewlines(PrintFrom(UnitsTokens(us), st).value.page.out) + "\n" == result
  {
    hide PrintFrom, UnitsTokens, StripNewlines;
  }

  lemma {:induction false} DocParts(d: Doc)
    requires d.units != [] && Renders(d.units)
    ensures DocTokens(d) == TextTokens(d.lead) + UnitsTokens(d.units)
    ensures Source(NormalDoc(d)) == LeadText(d.lead, false) + UnitsSource(NormalUnits(d.units, 0))
    ensures BLANK_PAGE == State(Page([], true), 0, false)
  {
    hide TextTokens, UnitsTokens, LeadText, NormalUnits, UnitsSource, Renders;
  }

  lemma {:induction false} LeadIndent(x: string, us: seq<Unit>)
    requires us != []
    ensures LevelOf(us[0].item, 0) == 0
    ensures EnsureIndent(PutText(Page([], true), x, 0), LevelOf(us[0].item, 0)) == Page(LeadText(x, false), false)
  {
    hide PutText, LeadText;
    if Trim(x) != [] {
      LeadPrinted(x);
    } else {
      BlankLead(x);
    }
  }

  lemma {:induction false} BlankLead(x: string)
    requires Trim(x) == []
    ensures EnsureIndent(PutText(Page([], true), x, 0), 0) == Page(LeadText(x, false), false)
  {
    NoIndent();
    var e: string := [];
    assert e + [] == e;
  }

  // ----- the printed document is printable -----

  predicate CleanDoc(d: Doc) { PlainText(d.lead) && CleanUnits(d.units) && TidyUnits(d.units) }

  lemma {:induction false} CleanItemPrintable(item: Item)
    requires ItemLexed(item) && CleanLexeme(item)
    ensures ItemRenders(item) && ItemSolid(item)
  {
    ItemNeat(item, 0);
    hide *;
    forall d: nat ensures Settles(item, d) && (item.Raw? ==> Solid(TokenSource(RawStart(item), d))) {
      ItemNeat(item, d);
      FirmSolid(ItemSource(item, d));
      SettlesIs(item, d);
      if item.Raw? { FirmSolid(TokenSource(RawStart(item), d)); }
    }
    SolidIs(item);
  }

  lemma {:induction false} SolidIs(item: Item)
    requires forall d: nat :: Settles(item, d) && (item.Raw? ==> Solid(TokenSource(RawStart(item), d)))
    ensures ItemSolid(item)
  {
    hide Settles, Solid, TokenSource;
  }

  lemma {:induction false} SettlesIs(item: Item, d: nat)
    requires Solid(ItemSource(item, d))
    ensures Settles(item, d)
  {}

  lemma {:induction false} FirmSolid(s: string)
    requires Firm(s)
    ensures Solid(s)
  {}

  lemma {:induction false} CleanPrintable(us: seq<Unit>)
    requires CleanUnits(us)
    ensures Printable(us)
  {
    forall u | u in us ensures ItemRenders(u.item) && ItemSolid(u.item) && ItemLexed(u.item) {
      assert CleanUnit(u);
      hide ItemRenders, ItemSolid, ItemLexed, CleanLexeme, CleanWords, PlainText;
      CleanItemPrintable(u.item);
    }
    hide ItemRenders, ItemSolid, CleanUnits;
    assert Renders(us) && AllSolid(us);
    forall u | u in us ensures match u.item
                              case Single(t) => !t.Text? && !t.RawText?
                              case Raw(name, _, _) => IsRawContent(name) {
      LexedKind(u.item);
    }
  }

  lemma {:induction false} LexedKind(item: Item)
    requires ItemLexed(item)
    ensures match item
            case Single(t) => !t.Text? && !t.RawText?
            case Raw(name, _, _) => IsRawContent(name)
  {
    hide IsRawContent;
  }

  /** An alike lexeme is as solid. */
  lemma {:induction false} LikeSolid(i: Item, i': Item)
    requires LikeItem(i, i') && ItemSolid(i)
    ensures ItemSolid(i')
  {
    forall d: nat ensures Settles(i', d) && (i'.Raw? ==> Solid(TokenSource(RawStart(i'), d))) {
      assert Settles(i, d) && (i.Raw? ==> Solid(TokenSource(RawStart(i), d)));
      LikeItemSolid(i, i', d);
    }
  }

  lemma {:induction false} LikeItemSolid(i: Item, i': Item, d: nat)
    requires LikeItem(i, i') && Settles(i, d) && (i.Raw? ==> Solid(TokenSource(RawStart(i), d)))
    ensures Settles(i', d) && (i'.Raw? ==> Solid(TokenSource(RawStart(i'), d)))
  {
    LikePrints(OpenerOf(i), OpenerOf(i'), d);
    hide TokenSource, RawGap, LikeToken;
    if i'.Raw? {
      var s := ItemSource(i', d);
      assert s[|s| - 1] == '>';
    }
  }

  lemma {:induction false} LikeKindOk(i: Item, i': Item)
    requires LikeItem(i, i')
    requires match i
             case Single(t) => !t.Text? && !t.RawText?
             case Raw(name, _, _) => IsRawContent(name)
    ensures match i'
            case Single(t) => !t.Text? && !t.RawText?
            case Raw(name, _, _) => IsRawContent(name)
  {
    hide IsRawContent, TokenText, SameAttrs, IsVoid;
  }

  lemma {:induction false} LikePrintable(us: seq<Unit>, us': seq<Unit>)
    requires LikeUnits(us, us') && Printable(us)
    ensures Printable(us')
  {
    if us != [] {
      LikePrintableHead(us, us');
      PrintableDrop(us, 1);
      LikeUnitsTail(us, us');
      hide *;
      LikePrintable(us[1..], us'[1..]);
      PrintableCons(us');
    }
  }

  lemma {:induction false} LikeUnitsTail(us: seq<Unit>, us': seq<Unit>)
    requires LikeUnits(us, us') && us != []
    ensures us' != [] && LikeUnits(us[1..], us'[1..])
  {
    hide LikeItem, LikeText;
  }

  predicate KindOk(i: Item) {
    match i
    case Single(t) => !t.Text? && !t.RawText?
    case Raw(name, _, _) => IsRawContent(name)
  }

  lemma {:induction false} LikePrintableHead(us: seq<Unit>, us': seq<Unit>)
    requires us != [] && LikeUnits(us, us') && Printable(us)
    ensures us' != [] && KindOk(us'[0].item) && ItemRenders(us'[0].item) && ItemSolid(us'[0].item)
  {
    assert us[0] in us;
    assert ItemSolid(us[0].item) && ItemRenders(us[0].item);
    hide ItemSolid, ItemRenders, LikeToken, IsRawContent;
    LikeKindOk(us[0].item, us'[0].item);
    LikeSolid(us[0].item, us'[0].item);
    LikeItemRenders(us[0].item, us'[0].item);
  }

  lemma {:induction false} PrintableCons(us: seq<Unit>)
    requires us != [] && KindOk(us[0].item) && ItemRenders(us[0].item) && ItemSolid(us[0].item) && Printable(us[1..])
    ensures Printable(us)
  {
    hide ItemSolid, ItemRenders, IsRawContent;
    forall u | u in us ensures KindOk(u.item) && ItemRenders(u.item) && ItemSolid(u.item) {
      assert u == us[0] || u in us[1..];
    }
  }

  // ----- one pass -----

  /** The document `d` is read back as once it is printed and cleaned up. */
  function PrintedDoc(d: Doc): Doc
    requires Renders(d.units)
  {
    Doc(NormalDoc(d).lead, PolishUnits(NormalDoc(d).units))
  }

  lemma {:induction false} NormalDocIs(d: Doc)
    requires Renders(d.units)
    ensures NormalDoc(d) == Doc(LeadText(d.lead, d.units == []), NormalUnits(d.units, 0))
    ensures Source(NormalDoc(d)) == LeadText(d.lead, d.units == []) + UnitsSource(NormalUnits(d.units, 0))
    ensures PrintedDoc(d) == Doc(LeadText(d.lead, d.units == []), PolishUnits(NormalUnits(d.units, 0)))
    ensures Source(PrintedDoc(d)) == LeadText(d.lead, d.units == []) + UnitsSource(PolishUnits(NormalUnits(d.units, 0)))
  {
    hide LeadText, NormalUnits, UnitsSource, Renders, PolishUnits;
  }

  lemma {:induction false} PageEndsOnce(out: string, s: string)
    requires StripNewlines(out) + "\n" == s
    ensures EndsOnce(s) && PostProcess(out) == PostProcess(s)
  {
    var t := StripNewlines(out);
    StripSplit(out);
    hide PostProcess, StripNewlines;
    PostStripped(out);
    PostDropsLast(t);
  }

  /** What a printable document formats to, when the clean-up treats its lexemes one by one. */
  lemma {:induction false} PageFormats(src: string, d: Doc)
    requires Lex([], src) == Ok(d) && Printable(d.units) && Renders(d.units) && AllSeparate(NormalUnits(d.units, 0))
    ensures Format(src) == Ok(Source(PrintedDoc(d)))
  {
    hide *;
    DocPrints(d);
    NormalDocIs(d);
    var out := PrintFrom(DocTokens(d), BLANK_PAGE).value.page.out;
    PageEndsOnce(out, Source(NormalDoc(d)));
    LeadNeat(d.lead, d.units == []);
    PagePolished(LeadText(d.lead, d.units == []), NormalUnits(d.units, 0));
    FormatPage(src, d);
  }

  lemma {:induction false} FormatPage(src: string, d: Doc)
    requires Lex([], src) == Ok(d) && PrintFrom(DocTokens(d), BLANK_PAGE).Ok?
    ensures Format(src) == Ok(PostProcess(PrintFrom(DocTokens(d), BLANK_PAGE).value.page.out))
  {
    hide Lex, PrintFrom, DocTokens, PostProcess;
  }

  lemma {:induction false} OkSeparate(us: seq<Unit>)
    requires AllPrintedOk(us)
    ensures AllSeparate(us)
  {
    hide PlainText, ReadsBack, Firm, Neat;
    forall u | u in us ensures Separate(u) { assert PrintedOk(u); }
  }

  /** Printed units are read back behind any plain text. */
  lemma {:induction false} LeadReread(x: string, us: seq<Unit>)
    requires AllPrintedOk(us) && PlainText(x)
    ensures Lex([], x + UnitsSource(us)) == Ok(Doc(x, us))
  {
    hide PrintedOk, Lex, PlainText, Readable;
    forall u | u in us ensures Readable(u) { OkReadable(u); }
    UnitsReread(x, us);
    LexGap([], x, UnitsSource(us));
    assert [] + x == x;
  }

  lemma {:induction false} CleanDocIs(d: Doc)
    requires CleanDoc(d)
    ensures PlainText(d.lead) && CleanUnits(d.units) && TidyUnits(d.units)
  {
    hide PlainText, CleanUnits, TidyUnits;
  }

  /** A clean template formats to the source of its printed document, which is read back as exactly that. */
  lemma {:induction false} CleanFormats(src: string, d: Doc)
    requires Lex([], src) == Ok(d) && CleanDoc(d)
    ensures Renders(d.units)
    ensures Format(src) == Ok(Source(PrintedDoc(d)))
    ensures Lex([], Source(PrintedDoc(d))) == Ok(PrintedDoc(d))
  {
    hide *;
    CleanDocIs(d);
    CleanPrintable(d.units);
    PrintableDrop(d.units, 0);
    NormalOk(d.units, 0);
    OkSeparate(NormalUnits(d.units, 0));
    PageFormats(src, d);
    NormalDocIs(d);
    AllOkPolished(NormalUnits(d.units, 0));
    LeadPlain(d.lead, d.units == []);
    LeadReread(LeadText(d.lead, d.units == []), PolishUnits(NormalUnits(d.units, 0)));
  }

  // ----- the next pass -----

  lemma {:induction false} PolishableFirm(i: Item, d: nat)
    requires Polishable(i)
    ensures Firm(ItemSource(i, d)) && (i.Raw? ==> Firm(TokenSource(RawStart(i), d)))
  {
    if i.Raw? {
      hide *;
      RawParts(i);
      PlainIs(RawStart(i), d);
      BodyLaid(i, d);
      RawFirm(TokenSource(RawStart(i), d), RawGap(i.body, d), i.name);
    } else if IsComment(i.token) {
      CommentSource(i.token, d);
      hide TokenSource;
    } else {
      PlainIs(i.token, d);
      hide TokenSource, Firm, Neat;
    }
  }

  lemma {:induction false} PolishableSolid(i: Item)
    requires Polishable(i)
    ensures ItemSolid(i)
  {
    hide *;
    forall d: nat ensures Settles(i, d) && (i.Raw? ==> Solid(TokenSource(RawStart(i), d))) {
      PolishableFirm(i, d);
      FirmSolid(ItemSource(i, d));
      SettlesIs(i, d);
      if i.Raw? { FirmSolid(TokenSource(RawStart(i), d)); }
    }
    SolidIs(i);
  }

  lemma {:induction false} KindPolished(i: Item)
    ensures KindOk(PolishItem(i)) == KindOk(i)
  {
    hide Polished, IsRawContent;
  }

  /** The polished document is printable. */
  lemma {:induction false} PolishedPrintable(us: seq<Unit>)
    requires Printable(us) && AllPolishable(us)
    ensures Printable(PolishUnits(us))
  {
    PrintableDrop(us, 0);
    PolishedUnitsRender(us);
    PolishedAllPolishable(us);
    forall u | u in PolishUnits(us) ensures KindOk(u.item) && ItemSolid(u.item) {
      var k :| 0 <= k < |us| && PolishUnits(us)[k] == u;
      PolishAt(us, k);
      assert us[k] in us && KindOk(us[k].item);
      hide ItemSolid, Polishable, ItemRenders, PolishItem, IsRawContent;
      KindPolished(us[k].item);
      PolishableSolid(u.item);
    }
    hide ItemSolid, Polishable, ItemRenders, PolishItem, IsRawContent;
  }

  /** A printed document behind plain text: what the next pass makes of it. */
  lemma {:induction false} NextPass(x: string, us: seq<Unit>)
    requires PlainText(x) && AllPrintedOk(us) && Printable(us) && Renders(us) && AllSeparate(NormalUnits(us, 0))
    ensures Format(x + UnitsSource(us)) == Ok(LeadText(x, us == []) + UnitsSource(PolishUnits(NormalUnits(us, 0))))
  {
    hide *;
    LeadReread(x, us);
    PageFormats(x + UnitsSource(us), Doc(x, us));
    NormalDocIs(Doc(x, us));
  }

  lemma {:induction false} SeparateAgain(us: seq<Unit>, vs: seq<Unit>)
    requires AllSeparate(us) && Tighter(vs, us) && NeatTexts(vs)
    ensures AllSeparate(PolishUnits(vs))
  {
    hide Firm, Neat, Polished, PolishItem;
    forall u | u in PolishUnits(vs) ensures Separate(u) {
      var k :| 0 <= k < |vs| && PolishUnits(vs)[k] == u;
      PolishAt(vs, k);
      assert us[k] in us && Separate(us[k]);
      assert TighterUnit(vs[k], us[k]);
      assert vs[k] in vs;
      PolishedFirm(vs[k].src);
    }
  }

  /** What holds of the printed units of a clean document. */
  lemma {:induction false} NormalFacts(us: seq<Unit>)
    requires CleanUnits(us) && TidyUnits(us) && Renders(us)
    ensures var ns := NormalUnits(us, 0);
            && AllPrintedOk(ns) && AllPolishable(ns) && Printable(ns) && Renders(ns) && |ns| == |us|
            && Renders(PolishUnits(ns)) && Printable(PolishUnits(ns)) && AllPrintedOk(PolishUnits(ns))
            && NormalUnits(PolishUnits(ns), 0) == PolishUnits(NormalUnits(ns, 0))
            && AllSeparate(PolishUnits(NormalUnits(ns, 0)))
  {
    hide *;
    var ns := NormalUnits(us, 0);
    CleanPrintable(us);
    NormalOk(us, 0);
    NormalPolishable(us, 0);
    NormalLike(us, 0);
    LikePrintable(us, ns);
    PrintableDrop(ns, 0);
    LikeLength(us, ns);
    PolishCommutes(ns, 0);
    PolishedPrintable(ns);
    AllOkPolished(ns);
    OkSeparate(ns);
    NormalTwice(us, 0);
    NormalNeatTexts(ns, 0);
    SeparateAgain(ns, NormalUnits(ns, 0));
  }

  /** Formatting the output again. */
  lemma {:induction false} FormatsAgain(src: string, d: Doc)
    requires Lex([], src) == Ok(d) && CleanDoc(d)
    ensures Renders(d.units) && Renders(NormalUnits(d.units, 0))
    ensures Format(Source(PrintedDoc(d)))
         == Ok(LeadText(LeadText(d.lead, d.units == []), d.units == [])
               + UnitsSource(PolishUnits(PolishUnits(NormalUnits(NormalUnits(d.units, 0), 0)))))
  {
    hide *;
    CleanDocIs(d);
    CleanPrintable(d.units);
    PrintableDrop(d.units, 0);
    NormalFacts(d.units);
    LeadPlain(d.lead, d.units == []);
    NormalDocIs(d);
    NextPass(LeadText(d.lead, d.units == []), PolishUnits(NormalUnits(d.units, 0)));
  }

  // ----- no longer than before -----

  predicate Shrunk(u: Unit, v: Unit) {
    && |u.src| <= |v.src| && (|u.src| == |v.src| ==> u.src == v.src)
    && |u.after| <= |v.after| && (|u.after| == |v.after| ==> u.after == v.after)
  }

  predicate SameText(u: Unit, v: Unit) { u.src == v.src && u.after == v.after }

  predicate AllShrunk(us: seq<Unit>, vs: seq<Unit>) { |us| == |vs| && forall k | 0 <= k < |us| :: Shrunk(us[k], vs[k]) }

  predicate SameTexts(us: seq<Unit>, vs: seq<Unit>) { |us| == |vs| && forall k | 0 <= k < |us| :: SameText(us[k], vs[k]) }

  lemma {:induction false} ShrunkTail(us: seq<Unit>, vs: seq<Unit>)
    requires AllShrunk(us, vs) && us != []
    ensures vs != [] && Shrunk(us[0], vs[0]) && AllShrunk(us[1..], vs[1..])
    ensures SameTexts(us, vs) <==> SameText(us[0], vs[0]) && SameTexts(us[1..], vs[1..])
  {
    hide Shrunk, SameText;
    forall k | 0 <= k < |us| - 1 ensures us[1..][k] == us[k + 1] && vs[1..][k] == vs[k + 1] {}
    if SameText(us[0], vs[0]) && SameTexts(us[1..], vs[1..]) {
      forall k | 0 <= k < |us| ensures SameText(us[k], vs[k]) {
        if k > 0 { assert SameText(us[1..][k - 1], vs[1..][k - 1]); }
      }
    }
  }

  lemma {:induction false} SameParts(a: string, b: string, c: string, a': string, b': string, c': string)
    requires |a| <= |a'| && |b| <= |b'| && |c| <= |c'|
    ensures |a + b + c| <= |a' + b' + c'|
    ensures |a + b + c| == |a' + b' + c'| ==> |a| == |a'| && |b| == |b'| && |c| == |c'|
  {}

  /** Pieces that are no longer make a text that is no longer, and the same text only when they are
      the same. */
  lemma {:induction false} ShrunkSource(us: seq<Unit>, vs: seq<Unit>)
    requires AllShrunk(us, vs)
    ensures |UnitsSource(us)| <= |UnitsSource(vs)|
    ensures SameTexts(us, vs) ==> UnitsSource(us) == UnitsSource(vs)
    ensures |UnitsSource(us)| == |UnitsSource(vs)| ==> SameTexts(us, vs)
  {
    if us != [] {
      ShrunkTail(us, vs);
      ShrunkSource(us[1..], vs[1..]);
      SourceTurn(us);
      SourceTurn(vs);
      hide UnitsSource, AllShrunk, SameTexts;
      SameParts(us[0].src, us[0].after, UnitsSource(us[1..]), vs[0].src, vs[0].after, UnitsSource(vs[1..]));
    }
  }

  /** Polishing a second time changes none of the sources. */
  predicate Calmed(u: Unit) { Polished(Polished(u.src)) == Polished(u.src) }

  predicate AllCalmed(us: seq<Unit>) { forall u <- us :: Calmed(u) }

  lemma {:induction false} UnitShrinks(u: Unit, v: Unit)
    requires TighterUnit(u, v)
    ensures Shrunk(PolishUnit(PolishUnit(u)), PolishUnit(v))
    ensures SameText(PolishUnit(PolishUnit(u)), PolishUnit(v)) <==> u == v && Calmed(v)
  {
    PolishedShorter(Polished(u.src));
    hide Polished, PolishItem;
  }

  /** The next pass makes nothing longer. */
  lemma {:induction false} PassShrinks(us: seq<Unit>, vs: seq<Unit>)
    requires Tighter(us, vs)
    ensures AllShrunk(PolishUnits(PolishUnits(us)), PolishUnits(vs))
    ensures SameTexts(PolishUnits(PolishUnits(us)), PolishUnits(vs)) <==> us == vs && AllCalmed(vs)
  {
    hide PolishUnit, TighterUnit, Shrunk, SameText, Calmed;
    var a, b := PolishUnits(PolishUnits(us)), PolishUnits(vs);
    forall k | 0 <= k < |us|
      ensures Shrunk(a[k], b[k]) && (SameText(a[k], b[k]) <==> us[k] == vs[k] && Calmed(vs[k]))
    {
      PolishAt(us, k);
      PolishAt(PolishUnits(us), k);
      PolishAt(vs, k);
      UnitShrinks(us[k], vs[k]);
    }
    if us == vs && AllCalmed(vs) {
      forall k | 0 <= k < |us| ensures SameText(a[k], b[k]) { assert vs[k] in vs; }
    }
    if SameTexts(a, b) {
      forall v | v in vs ensures Calmed(v) {
        var k :| 0 <= k < |vs| && vs[k] == v;
        assert SameText(a[k], b[k]);
      }
    }
  }

  // ----- lexemes that settle at once -----

  /** One clean-up settles the lexeme. */
  predicate LexemeCalm(i: Item) {
    if i.Raw? then BodySettles(i.body) else IsComment(i.token) ==> SettlesAtOnce(i.token.raw)
  }

  predicate LexemesCalm(us: seq<Unit>) { forall u <- us :: LexemeCalm(u.item) }

  lemma {:induction false} SameCore(a: string, x: string, y: string, b: string)
    ensures a + x + b == a + y + b <==> x == y
  {
    if a + x + b == a + y + b {
      assert |x| == |y|;
      assert x == (a + x + b)[|a|..|a| + |x|] && y == (a + y + b)[|a|..|a| + |y|];
    }
  }

  lemma {:induction false} ItemCalmed(item: Item, d: nat)
    requires ItemLexed(item) && CleanLexeme(item) && TidyLexeme(item)
    ensures Polished(Polished(ItemSource(item, d))) == Polished(ItemSource(item, d)) <==> LexemeCalm(item)
  {
    if item.Raw? {
      hide *;
      CleanRaw(item);
      RawItemNeat(item, d);
      BodyLaid(item, d);
      var start, gap := TokenSource(RawStart(item), d), RawGap(item.body, d);
      RawPolished(start, gap, item.name);
      RawPolished(start, Polished(gap), item.name);
      SameCore(start, Polished(Polished(gap)), Polished(gap), EndTag(item.name));
      GapSettlesIff(item.body, d);
      RawCalmIs(item);
    } else if IsComment(item.token) {
      CommentSource(item.token, d);
      LexedFirm(item.token);
      hide Polished, SettlesAtOnce, TokenSource;
      PolishedTwiceIff(item.token.raw);
    } else {
      hide *;
      ItemNeat(item, d);
      PolishedIff(ItemSource(item, d));
      PlainCalm(item);
    }
  }

  lemma {:induction false} RawCalmIs(item: Item)
    requires item.Raw?
    ensures LexemeCalm(item) <==> BodySettles(item.body)
  {
    hide BodySettles;
  }

  lemma {:induction false} PlainCalm(item: Item)
    requires item.Single? && !IsComment(item.token)
    ensures LexemeCalm(item)
  {
    hide SettlesAtOnce;
  }

  lemma {:induction false} MemberCalmed(item: Item)
    requires ItemLexed(item) && CleanLexeme(item) && TidyLexeme(item) && RunMember(item)
    ensures Polished(Polished(InlineSource(item))) == Polished(InlineSource(item)) && LexemeCalm(item)
  {
    if item.Raw? {
      hide *;
      CleanRaw(item);
      CleanPlain(item);
      MemberBody(item);
      IsPolishable(item);
      MemberPolished(item);
      RawCalmIs(item);
      NothingTrims();
      BlankSettles(item.body);
    } else if IsComment(item.token) {
      LexedFirm(item.token);
      PolishedOneLine(item.token.raw);
      CommentSource(item.token, 0);
      hide Polished, SettlesAtOnce, TextOf;
      PolishedTwiceIff(item.token.raw);
    } else {
      hide *;
      ItemNeat(item, 0);
      PolishedIff(InlineSource(item));
      PlainCalm(item);
    }
  }

  lemma {:induction false} CalmHead(us: seq<Unit>)
    requires us != []
    ensures LexemesCalm(us) <==> LexemeCalm(us[0].item) && LexemesCalm(us[1..])
  {
    hide LexemeCalm;
    forall u ensures u in us <==> u == us[0] || u in us[1..] {}
  }

  lemma {:induction false} CalmedCons(u: Unit, us: seq<Unit>)
    ensures AllCalmed([u] + us) <==> Calmed(u) && AllCalmed(us)
  {
    hide Calmed;
    forall v ensures v in [u] + us <==> v == u || v in us {}
  }

  lemma {:induction false} CalmedIs(i: Item, src: string, after: string)
    ensures Calmed(Unit(i, src, after)) <==> Polished(Polished(src)) == Polished(src)
  {
    hide Polished;
  }

  lemma {:induction false} RunCalmed(us: seq<Unit>, n: nat, last: string, rest: seq<Unit>)
    requires 1 <= n <= |us| && CleanUnits(us) && TidyUnits(us) && RunMembersOf(us, n)
    requires AllCalmed(rest) <==> LexemesCalm(us[n..])
    ensures AllCalmed(RunUnits(us, n, last) + rest) <==> LexemesCalm(us)
    decreases n
  {
    hide *;
    CleanHead(us);
    TidyHead(us);
    MembersTail(us, n);
    MemberCalmed(us[0].item);
    CalmHead(us);
    RunUnitsTurn(us, n, last);
    var i, src := InlineItem(us[0].item), InlineSource(us[0].item);
    if n == 1 {
      CalmedIs(i, src, last);
      CalmedCons(Unit(i, src, last), rest);
    } else {
      var x := CollapseInline(us[0].after);
      CalmedIs(i, src, x);
      assert us[1..][n - 1..] == us[n..];
      RunCalmed(us[1..], n - 1, last, rest);
      var tail := RunUnits(us[1..], n - 1, last);
      CalmedCons(Unit(i, src, x), tail + rest);
      assert [Unit(i, src, x)] + tail + rest == [Unit(i, src, x)] + (tail + rest);
    }
  }

  /** A second clean-up changes no printed lexeme exactly when one settles every comment and raw body
      of the template. */
  lemma {:induction false} NormalCalmed(us: seq<Unit>, d: nat)
    requires CleanUnits(us) && TidyUnits(us) && Renders(us)
    ensures AllCalmed(NormalUnits(us, d)) <==> LexemesCalm(us)
    decreases |us|, 1
  {
    if us != [] {
      if TryUnit(us, d).Some? {
        hide *;
        NormalRunCalmed(us, d, TryUnit(us, d).value);
      } else {
        hide *;
        NormalUnitCalmed(us, d);
      }
    }
  }

  lemma {:induction false} NormalRunCalmed(us: seq<Unit>, d: nat, r: UnitRun)
    requires us != [] && CleanUnits(us) && TidyUnits(us) && Renders(us) && TryUnit(us, d) == Some(r)
    ensures AllCalmed(NormalUnits(us, d)) <==> LexemesCalm(us)
    decreases |us|, 0
  {
    hide *;
    RunIsMembers(us, d, r);
    MembersFit(us, r.units);
    var n, rest := r.units, us[r.units..];
    RendersDrop(us, n);
    CleanDrop(us, n);
    TidyDrop(us, n);
    PrintedForm.NormalRunHead(us, d, r);
    NormalCalmed(rest, d);
    RunCalmed(us, n, GapBefore(LayText(true, us[n - 1].after), d, rest), NormalUnits(rest, d));
  }

  lemma {:induction false} NormalUnitCalmed(us: seq<Unit>, d: nat)
    requires us != [] && CleanUnits(us) && TidyUnits(us) && Renders(us) && TryUnit(us, d).None?
    ensures AllCalmed(NormalUnits(us, d)) <==> LexemesCalm(us)
    decreases |us|, 0
  {
    hide *;
    CleanHead(us);
    TidyHead(us);
    RendersDrop(us, 1);
    PrintedForm.NormalHead(us, d);
    NormalParts(us, d);
    var item, d1 := us[0].item, DepthAfter(us[0].item, d);
    ItemCalmed(item, d);
    CalmedIs(NormalItem(item, d), ItemSource(item, d), NormalUnit(us, d).after);
    NormalCalmed(us[1..], d1);
    CalmHead(us);
    CalmedCons(NormalUnit(us, d), NormalUnits(us[1..], d1));
  }

  // ----- the theorem -----

  lemma {:induction false} LeadShrinks(x: string, last: bool)
    ensures |LeadText(LeadText(x, last), last)| <= |LeadText(x, last)|
    ensures |LeadText(LeadText(x, last), last)| == |LeadText(x, last)|
            ==> LeadText(LeadText(x, last), last) == LeadText(x, last)
  {
    if Trim(x) == [] {
      hide *;
      BlankLeadAgain(x, last);
    } else {
      hide *;
      LeadAgain(x, last);
      LeadTextOf(x, last);
      LeadOk(x);
      BreaksLength(LeadOf(x).breaks);
      BreaksLength(0);
      BreaksLength(1);
    }
  }

  lemma {:induction false} SameWhole(a: string, u: string, b: string, v: string)
    requires |a| <= |b| && |u| <= |v|
    requires |a| == |b| ==> a == b
    ensures a + u == b + v <==> a == b && u == v
  {
    if a + u == b + v {
      assert |a + u| == |b + v|;
      assert (a + u)[|a|..] == u && (b + v)[|b|..] == v;
    }
  }

  /** On clean templates, formatting twice is formatting once exactly when no blank line comes before
      leading text, no run of more than two spaces stands between words inside an inline run, and one
      clean-up settles every comment and raw body. */
  lemma {:induction false} IdempotentIff(src: string, d: Doc)
    requires Lex([], src) == Ok(d) && CleanDoc(d)
    ensures Format(src).Ok? && Format(Format(src).value).Ok? && Renders(d.units)
    ensures Format(Format(src).value) == Format(src)
       <==> CleanLead(d.lead) && RunsCalm(d.units, 0) && LexemesCalm(d.units)
  {
    hide *;
    CleanFormats(src, d);
    FormatsAgain(src, d);
    CleanDocIs(d);
    NormalDocIs(d);
    var last := d.units == [];
    var x := LeadText(d.lead, last);
    LeadTwiceIff(d.lead, last);
    LeadShrinks(d.lead, last);
    var ns := NormalUnits(d.units, 0);
    NormalTwice(d.units, 0);
    NormalCalmed(d.units, 0);
    var us, vs := PolishUnits(PolishUnits(NormalUnits(ns, 0))), PolishUnits(ns);
    PassShrinks(NormalUnits(ns, 0), ns);
    ShrunkSource(us, vs);
    SameWhole(LeadText(x, last), UnitsSource(us), x, UnitsSource(vs));
  }

  // ----- further passes -----

  /** Units that print to themselves. */
  ghost predicate Fixed(us: seq<Unit>) {
    AllPrintedOk(us) && AllPolishable(us) && Printable(us) && Renders(us) && NormalUnits(us, 0) == us
  }

  lemma {:induction false} FixedParts(us: seq<Unit>)
    requires Fixed(us)
    ensures AllPrintedOk(us) && AllPolishable(us) && Printable(us) && Renders(us) && NormalUnits(us, 0) == us
  {
    hide AllPrintedOk, AllPolishable, Printable, Renders, NormalUnits;
  }

  lemma {:induction false} IsFixed(us: seq<Unit>)
    requires AllPrintedOk(us) && AllPolishable(us) && Printable(us) && Renders(us) && NormalUnits(us, 0) == us
    ensures Fixed(us)
  {
    hide AllPrintedOk, AllPolishable, Printable, Renders, NormalUnits;
  }

  /** Units that print to themselves, polished, print to themselves too. */
  lemma {:induction false} FixedPolished(us: seq<Unit>)
    requires Fixed(us)
    ensures Fixed(PolishUnits(us))
  {
    hide *;
    FixedParts(us);
    AllOkPolished(us);
    PolishedAllPolishable(us);
    PolishedPrintable(us);
    PolishCommutes(us, 0);
    IsFixed(PolishUnits(us));
  }

  lemma {:induction false} FixedPass(x: string, us: seq<Unit>)
    requires Fixed(us) && PlainText(x)
    ensures Format(x + UnitsSource(us)) == Ok(LeadText(x, us == []) + UnitsSource(PolishUnits(us)))
  {
    hide *;
    FixedParts(us);
    OkSeparate(us);
    NextPass(x, us);
  }

  lemma {:induction false} NormalFixed(us: seq<Unit>)
    requires CleanUnits(us) && TidyUnits(us) && Renders(us) && RunsCalm(us, 0)
    ensures Fixed(NormalUnits(us, 0)) && |NormalUnits(us, 0)| == |us|
  {
    hide *;
    NormalFacts(us);
    NormalTwice(us, 0);
    IsFixed(NormalUnits(us, 0));
  }

  lemma {:induction false} Settled2(us: seq<Unit>)
    requires AllSeparate(us)
    ensures UnitsSource(PolishUnits(PolishUnits(PolishUnits(us)))) == UnitsSource(PolishUnits(PolishUnits(us)))
  {
    if us != [] {
      SeparateHead(us);
      hide *;
      PolishHead(us);
      PolishHead(PolishUnits(us));
      PolishHead(PolishUnits(PolishUnits(us)));
      Settled2(us[1..]);
      PolishedThrice(us[0].src);
      PolishedSources(us[0]);
      SourceTurn(PolishUnits(PolishUnits(us)));
      SourceTurn(PolishUnits(PolishUnits(PolishUnits(us))));
    }
  }

  lemma {:induction false} PolishedSources(u: Unit)
    ensures PolishUnit(u).src == Polished(u.src) && PolishUnit(u).after == u.after
    ensures PolishUnit(PolishUnit(u)).src == Polished(Polished(u.src)) && PolishUnit(PolishUnit(u)).after == u.after
    ensures PolishUnit(PolishUnit(PolishUnit(u))).src == Polished(Polished(Polished(u.src)))
    ensures PolishUnit(PolishUnit(PolishUnit(u))).after == u.after
  {
    hide PolishItem, Polished;
  }

  /** Where no run of more than two spaces stands inside an inline run, the units printed by the second
      pass are final: behind any plain leading text they are kept, whatever becomes of that text. */
  lemma {:induction false} PrintedFormats(d: Doc, x: string)
    requires CleanDoc(d) && PlainText(x) && Renders(d.units) && RunsCalm(d.units, 0)
    ensures var u := UnitsSource(PolishUnits(PolishUnits(NormalUnits(d.units, 0))));
            Format(x + u) == Ok(LeadText(x, d.units == []) + u)
  {
    hide *;
    CleanDocIs(d);
    NormalFixed(d.units);
    var ns := NormalUnits(d.units, 0);
    FixedPolished(ns);
    FixedPolished(PolishUnits(ns));
    FixedPass(x, PolishUnits(PolishUnits(ns)));
    FixedParts(ns);
    OkSeparate(ns);
    Settled2(ns);
  }

  /** Whatever blank lines come first and whatever its comments and raw bodies hold, a clean template
      whose inline runs are calm is stable after three passes. */
  lemma {:induction false} ThreePassesSettle(src: string, d: Doc)
    requires Lex([], src) == Ok(d) && CleanDoc(d) && Renders(d.units) && RunsCalm(d.units, 0)
    ensures Format(src).Ok? && Format(Format(src).value).Ok?
    ensures var s3 := Format(Format(Format(src).value).value);
            s3.Ok? && Format(s3.value) == s3
  {
    hide *;
    CleanFormats(src, d);
    CleanDocIs(d);
    NormalDocIs(d);
    NormalFixed(d.units);
    var ns := NormalUnits(d.units, 0);
    FixedPolished(ns);
    var last := d.units == [];
    var x1 := LeadText(d.lead, last);
    var x2 := LeadText(x1, last);
    var x3 := LeadText(x2, last);
    LeadPlain(d.lead, last);
    LeadPlain(x1, last);
    LeadPlain(x2, last);
    FixedPass(x1, PolishUnits(ns));
    PrintedFormats(d, x2);
    PrintedFormats(d, x3);
    LeadSettles(d.lead, last);
  }

  lemma {:induction false} LeadSettles(x: string, last: bool)
    ensures var x3 := LeadText(LeadText(LeadText(x, last), last), last); LeadText(x3, last) == x3
  {
    if Trim(x) == [] {
      hide *;
      BlankLeadAgain(x, last);
    } else {
      hide *;
      var x1 := LeadText(x, last);
      LeadOk(x);
      LeadAgain(x, last);
      LeadAgain(x1, last);
      var x2 := LeadText(x1, last);
      LeadOk(x1);
      CleanLeadIs(x2);
      LeadTwiceIff(x2, last);
    }
  }

  lemma {:induction false} LeadTwiceIff(x: string, last: bool)
    ensures LeadText(LeadText(x, last), last) == LeadText(x, last) <==> CleanLead(x)
  {
    if Trim(x) == [] {
      BlankLeadAgain(x, last);
      assert CleanLead(x);
    } else {
      hide *;
      CleanLeadIs(x);
      LeadAgain(x, last);
      LeadTextOf(x, last);
      LeadOk(x);
      BreaksLength(LeadOf(x).breaks);
      BreaksLength(0);
      BreaksLength(1);
    }
  }

  lemma {:induction false} BreaksLength(k: nat)
    ensures |Breaks(k)| == k
  {
    if k > 0 { BreaksLength(k - 1); }
  }

  // ----- where idempotence fails -----

  lemma {:induction false} WordLines(k: nat)
    ensures Trims(SplitLines(Breaks(k) + "foo")) == Copies([], k) + ["foo"]
  {
    SplitOne("foo");
    TrimOf([], "foo", []);
    assert [] + "foo" + [] == "foo";
    TrimsHead("foo", []);
    hide Trim, SplitLines;
    BreakLines(k, "foo");
    assert ["foo"] + [] == ["foo"];
  }

  lemma {:induction false} OneRow()
    ensures Rows(["foo"], false) == ["foo"] && Seal(Lay([], ["foo"])).rows == ["foo"] && Render(["foo"], 0) == "foo\n"
  {
    var one := ["foo"];
    assert one[1..] == [];
    NoIndent();
    assert [] + "foo" + "\n" + [] == "foo\n";
  }

  lemma {:induction false} LeadIs(x: string)
    ensures var ts := Trims(SplitLines(x));
            LeadOf(x) == Lead(if Blanks(ts) <= 1 then 0 else AtMostTwo(Blanks(ts) - 1), Rows(ts[Blanks(ts)..], false))
  {
    hide Trims, SplitLines, Rows;
  }

  lemma {:induction false} WordText(k: nat)
    requires 1 <= k <= 2
    ensures Trim(Breaks(k) + "foo") != [] && LeadOf(Breaks(k) + "foo") == Lead(k - 1, ["foo"])
    ensures LeadText(Breaks(k) + "foo", true) == Breaks(k - 1) + "foo\n"
  {
    hide *;
    var x := Breaks(k) + "foo";
    WordLines(k);
    OneRow();
    BlanksBack(k, ["foo"]);
    LineNotBlank(x, k) by { WordAt(k); }
    LeadIs(x);
    AtMostOne(k);
    LeadTextOf(x, true);
  }

  lemma {:induction false} AtMostOne(k: nat)
    requires 1 <= k <= 2
    ensures (if k <= 1 then 0 else AtMostTwo(k - 1)) == k - 1
  {}

  lemma {:induction false} WordAt(k: nat)
    ensures var ts := Copies([], k) + ["foo"]; k < |ts| && ts[k] != []
  {}

  lemma {:induction false} TextFormats(x: string)
    requires PlainText(x)
    ensures Format(x) == Ok(LeadText(x, true)) && Format(LeadText(x, true)) == Ok(LeadText(LeadText(x, true), true))
  {
    hide *;
    var d := Doc(x, []);
    TextDocument(x);
    CleanFormats(x, d);
    FormatsAgain(x, d);
    NormalDocIs(d);
    NothingMore();
    NothingPolished();
    assert LeadText(x, true) + [] == LeadText(x, true);
    assert LeadText(LeadText(x, true), true) + [] == LeadText(LeadText(x, true), true);
  }

  lemma {:induction false} TextDocument(x: string)
    requires PlainText(x)
    ensures Lex([], x) == Ok(Doc(x, [])) && CleanDoc(Doc(x, []))
  {
    LexGap([], x, []);
    LexNothing(x);
    assert x + [] == x && [] + x == x;
  }

  lemma {:induction false} NothingMore()
    ensures Renders([]) && NormalUnits([], 0) == [] && UnitsSource([]) == []
  {}

  /** Blank lines before leading text: the first pass keeps one of two, the second drops it. */
  lemma {:induction false} BlankLinesShrink()
    ensures Format("\n\nfoo") == Ok("\nfoo\n") && Format("\nfoo\n") == Ok("foo\n")
  {
    var x := "\n\nfoo";
    NoAngles(x);
    hide *;
    BreaksAre();
    assert x == Breaks(2) + "foo" && "\nfoo\n" == Breaks(1) + "foo\n" && "foo\n" == Breaks(0) + "foo\n";
    WordText(2);
    TextFormats(x);
    LeadAgain(x, true);
    OneRow();
  }
}
