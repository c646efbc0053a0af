/** Printing a document yields its normal form. */
module PrintedForm {
  import opened Text
  import opened Tokens
  import opened Lexing
  import opened Layout
  import opened Cleanup
  import opened Gaps
  import opened GapFix
  import opened Runs
  import opened NormalForm
  import Conservation

  // ----- the text of a run -----

  lemma {:induction false} SourceHead(u: Unit, us: seq<Unit>)
    ensures UnitsSource([u] + us) == u.src + u.after + UnitsSource(us)
  {
    assert ([u] + us)[1..] == us;
  }

  lemma {:induction false} Concat5(c: string, t: string, x: string, b: string, e: string, l: string)
    requires x == b + e + l
    ensures c + (t + x) == c + (t + b) + e + l
  {}

  lemma {:induction false} RunBodyHead(after: string, us: seq<Unit>, j: nat)
    requires 0 < j <= |us| && RunReady(us, j) && RunReady(us[1..], j - 1)
    requires us[0].item.Single? && TokenText(us[0].item.token).Ok?
    ensures RunBody(after, us, j) == CollapseInline(after) + (TextOf(us[0].item.token) + RunBody(us[0].after, us[1..], j - 1))
    ensures InlineSource(us[0].item) == TextOf(us[0].item.token)
  {
    hide CollapseInline, TokenText, RunReady;
  }

  lemma {:induction false} RunBodyNothing(after: string, us: seq<Unit>)
    requires RunReady(us, 0)
    ensures RunBody(after, us, 0) == CollapseInline(after)
  {
    hide CollapseInline, RunReady;
    assert CollapseInline(after) + [] == CollapseInline(after);
  }

  /** The closer and the units before it, behind the text `after`, spell out the body and end tag. */
  lemma {:induction false} RunTailSource(after: string, us: seq<Unit>, j: nat, name: string, last: string)
    requires j < |us| && RunReady(us, j) && us[j].item == Single(HtmlEnd(name))
    ensures CollapseInline(after) + UnitsSource(RunUnits(us, j + 1, last)) == RunBody(after, us, j) + EndTag(name) + last
    decreases j
  {
    hide *;
    var c := CollapseInline(after);
    LastSource(us, last);
    EndText(name);
    if j == 0 {
      RunBodyNothing(after, us);
      EndSource(us[0].item, name);
      assert c + (EndTag(name) + last) == c + EndTag(name) + last;
    } else {
      RunReadyTail(us, j);
      RunBodyHead(after, us, j);
      RunTailSource(us[0].after, us[1..], j - 1, name, last);
      RunHeadSource(us, j + 1, last);
      var rest := UnitsSource(RunUnits(us[1..], j, last));
      var c' := CollapseInline(us[0].after);
      var text := TextOf(us[0].item.token);
      assert text + c' + rest == text + (c' + rest);
      Concat5(c, text, c' + rest, RunBody(us[0].after, us[1..], j - 1), EndTag(name), last);
    }
  }

  lemma {:induction false} EndSource(item: Item, name: string)
    requires item == Single(HtmlEnd(name))
    ensures InlineSource(item) == EndTag(name)
  {}

  lemma {:induction false} LastSource(us: seq<Unit>, last: string)
    requires us != []
    ensures UnitsSource(RunUnits(us, 1, last)) == InlineSource(us[0].item) + last
  {
    hide InlineSource, InlineItem;
    var u := Unit(InlineItem(us[0].item), InlineSource(us[0].item), last);
    SourceHead(u, []);
    assert [u] + [] == [u];
  }

  lemma {:induction false} EndText(name: string)
    ensures TextOf(HtmlEnd(name)) == EndTag(name)
  {}

  lemma {:induction false} RunReadyTail(us: seq<Unit>, j: nat)
    requires 0 < j <= |us| && RunReady(us, j)
    ensures us[0].item.Single? && TokenText(us[0].item.token).Ok? && RunReady(us[1..], j - 1)
  {
    hide TokenText;
    forall k | 0 <= k < j - 1 ensures us[1..][k].item.Single? && TokenText(us[1..][k].item.token).Ok? {
      assert us[1..][k] == us[k + 1];
    }
  }

  lemma {:induction false} LineConcat(opener: string, c: string, rest: string, b: string, e: string, l: string)
    requires c + rest == b + e + l
    ensures opener + c + rest == opener + b + e + l
  {
    assert opener + c + rest == opener + (c + rest);
    assert opener + (b + e + l) == opener + b + e + l;
  }

  lemma {:induction false} SingleRunSource(us: seq<Unit>, d: nat, r: UnitRun, last: string)
    requires us != [] && NoText(us) && Renders(us) && us[0].item.Single? && TryUnit(us, d) == Some(r)
    ensures UnitsSource(RunUnits(us, r.units, last)) == r.text + last
  {
    hide *;
    var t := us[0].item.token;
    var opener, j := RunParts(us, d);
    OpenerRendered(t, opener);
    OpenerSource(t, opener);
    RunTailSource(us[0].after, us[1..], j, t.name, last);
    RunHeadSource(us, j + 2, last);
    LineConcat(opener, CollapseInline(us[0].after), UnitsSource(RunUnits(us[1..], j + 1, last)),
               RunBody(us[0].after, us[1..], j), EndTag(t.name), last);
  }

  lemma {:induction false} OpenerRendered(t: Token, opener: string)
    requires InlineOpener(t) == Ok(Some(opener))
    ensures TokenText(t) == Ok(opener)
  {
    Conservation.OpenerText(t);
    hide InlineOpener, TokenText;
  }

  lemma {:induction false} OpenerSource(t: Token, opener: string)
    requires InlineOpener(t) == Ok(Some(opener)) && TokenText(t) == Ok(opener)
    ensures InlineSource(Single(t)) == opener
  {
    hide InlineOpener, TokenText;
  }

  /** The printed units of a run spell out its line. */
  lemma {:induction false} RunSource(us: seq<Unit>, d: nat, r: UnitRun, last: string)
    requires us != [] && NoText(us) && Renders(us) && TryUnit(us, d) == Some(r)
    ensures UnitsSource(RunUnits(us, r.units, last)) == r.text + last
  {
    if us[0].item.Raw? {
      assert us[0] in us;
      Conservation.OpenerText(OpenerOf(us[0].item));
      OpenerOk(OpenerOf(us[0].item));
      RawRunSource(us, d, r, last);
    } else {
      SingleRunSource(us, d, r, last);
    }
  }

  lemma {:induction false} RunHeadSource(us: seq<Unit>, n: nat, last: string)
    requires 2 <= n <= |us|
    ensures UnitsSource(RunUnits(us, n, last))
         == InlineSource(us[0].item) + CollapseInline(us[0].after) + UnitsSource(RunUnits(us[1..], n - 1, last))
  {
    hide CollapseInline, InlineSource, InlineItem;
    SourceHead(Unit(InlineItem(us[0].item), InlineSource(us[0].item), CollapseInline(us[0].after)), RunUnits(us[1..], n - 1, last));
  }

  lemma {:induction false} RawRunText(us: seq<Unit>, d: nat, r: UnitRun)
    requires us != [] && Renders(us) && us[0].item.Raw? && TryUnit(us, d) == Some(r)
    requires var t := RawStart(us[0].item);
             TokenText(t).Ok? && InlineOpener(t) == Ok(Some(TokenText(t).value))
    ensures r.units == 1 && us[0].item.body == [] && r.text == TextOf(RawStart(us[0].item)) + EndTag(us[0].item.name)
  {
    hide TokenText, InlineOpener, EndTag, Renders;
  }

  lemma {:induction false} RawRunSource(us: seq<Unit>, d: nat, r: UnitRun, last: string)
    requires us != [] && Renders(us) && us[0].item.Raw? && TryUnit(us, d) == Some(r)
    requires var t := RawStart(us[0].item);
             TokenText(t).Ok? && InlineOpener(t) == Ok(Some(TokenText(t).value))
    ensures UnitsSource(RunUnits(us, r.units, last)) == r.text + last
  {
    hide *;
    RawRunText(us, d, r);
    LastSource(us, last);
    EmptyRawSource(us[0].item);
  }

  lemma {:induction false} EmptyRawSource(item: Item)
    requires item.Raw? && item.body == []
    ensures InlineSource(item) == TextOf(RawStart(item)) + EndTag(item.name)
  {
    hide TextOf, EndTag;
    var o := TextOf(RawStart(item));
    assert o + [] + EndTag(item.name) == o + EndTag(item.name);
  }

  // ----- the whole document -----

  ghost predicate ItemSolid(item: Item) {
    forall d: nat :: Settles(item, d) && (item.Raw? ==> Solid(TokenSource(RawStart(item), d)))
  }

  ghost predicate AllSolid(us: seq<Unit>) { forall u <- us :: ItemSolid(u.item) }

  /** What the printer needs of the units of a document. */
  ghost predicate Printable(us: seq<Unit>) { NoText(us) && Renders(us) && AllSolid(us) }

  lemma {:induction false} PrintableDrop(us: seq<Unit>, n: nat)
    requires Printable(us) && n <= |us|
    ensures Printable(us[n..]) && Renders(us)
  {
    hide ItemSolid, ItemRenders;
    forall u | u in us[n..] ensures u in us {}
  }

  lemma {:induction false} RunSolid(us: seq<Unit>, d: nat, r: UnitRun)
    requires us != [] && Renders(us) && TryUnit(us, d) == Some(r)
    ensures Solid(r.text)
  {
    OpensRun(us, d);
    hide InlineOpener, RunBody, RunSingle, RunEnd;
    var name := OpenerOf(us[0].item).name;
    assert EndTag(name)[|EndTag(name)| - 1] == '>';
  }

  /** The rest of the page, printed from a state that stands before the unit at the head of `us`
      with the page up to there being `o`. */
  ghost predicate PrintsTo(us: seq<Unit>, st: State, result: string) {
    && PrintFrom(UnitsTokens(us), st).Ok?
    && StripNewlines(PrintFrom(UnitsTokens(us), st).value.page.out) + "\n" == result
  }

  /** Printing text `x` after a lexeme and then the units `rest`. */
  lemma {:induction false} RestPrinted(o: string, bol: bool, x: string, d: nat, rest: seq<Unit>)
    requires Solid(o) && Printable(rest)
    requires rest != [] ==>
               var gap := GapText(LayText(bol, x), d, LevelOf(rest[0].item, d));
               PrintsTo(rest, State(PutText(After(o, bol), x, d), d, false), o + gap + UnitsSource(NormalUnits(rest, d)))
    ensures PrintsTo(rest, State(PutText(After(o, bol), x, d), d, false),
                     o + GapBefore(LayText(bol, x), d, rest) + UnitsSource(NormalUnits(rest, d)))
  {
    hide PutText, LayText, GapText, Solid;
    if rest == [] {
      FinalGap(o, bol, x, d);
      var g := GapBefore(LayText(bol, x), d, rest);
      assert o + g + [] == o + g;
    }
  }

  lemma {:induction false} GapAfter(o: string, bol: bool, x: string, d: nat, next: nat)
    requires Solid(o)
    ensures EnsureIndent(PutText(After(o, bol), x, d), next) == Page(o + GapText(LayText(bol, x), d, next), false)
  {
    hide PutText, EnsureIndent, LayText, GapText;
    GapPrinted(o, bol, x, d, next);
  }

  lemma {:induction false} NormalHead(us: seq<Unit>, d: nat)
    requires us != [] && Renders(us) && Renders(us[1..]) && TryUnit(us, d).None?
    ensures NormalUnits(us, d) == [NormalUnit(us, d)] + NormalUnits(us[1..], DepthAfter(us[0].item, d))
  {
    hide TryUnit, NormalUnit, DepthAfter, Renders;
  }

  lemma {:induction false} NormalRunHead(us: seq<Unit>, d: nat, r: UnitRun)
    requires us != [] && 1 <= r.units <= |us|
    requires Renders(us) && Renders(us[r.units..]) && TryUnit(us, d) == Some(r)
    ensures NormalUnits(us, d)
         == RunUnits(us, r.units, GapBefore(LayText(true, us[r.units - 1].after), d, us[r.units..])) + NormalUnits(us[r.units..], d)
  {
    hide TryUnit, RunUnits, GapBefore, LayText, Renders;
  }

  lemma {:induction false} UnitLeaves(u: Unit, st: State, o: string)
    ensures var d := DepthAfter(u.item, st.depth);
            StateAfter(u, st, o) == State(PutText(After(o + ItemSource(u.item, st.depth), EndsLine(u.item)), u.after, d), d, false)
  {
    hide DepthAfter, PutText, ItemSource, EndsLine;
  }

  /** Printing the units of a document appends the units of its normal form. */
  lemma {:induction false} PrintsNormal(us: seq<Unit>, st: State, o: string)
    requires us != [] && Printable(us) && !st.hug
    requires EnsureIndent(st.page, LevelOf(us[0].item, st.depth)) == Page(o, false)
    ensures PrintsTo(us, st, o + UnitsSource(NormalUnits(us, st.depth)))
    decreases |us|, 1
  {
    if TryUnit(us, st.depth).Some? {
      PrintsRun(us, st, o, TryUnit(us, st.depth).value);
    } else {
      PrintsUnit(us, st, o);
    }
  }

  lemma {:induction false} PrintsUnit(us: seq<Unit>, st: State, o: string)
    requires us != [] && Printable(us) && !st.hug && TryUnit(us, st.depth).None?
    requires EnsureIndent(st.page, LevelOf(us[0].item, st.depth)) == Page(o, false)
    ensures PrintsTo(us, st, o + UnitsSource(NormalUnits(us, st.depth)))
    decreases |us|, 0
  {
    var d := st.depth;
    var u, rest := us[0], us[1..];
    SolidHead(us, d);
    UnitPrinted(us, st, o);
    PrintableDrop(us, 1);
    UnitLeaves(u, st, o);
    hide *;
    var src := ItemSource(u.item, d);
    var o1, bol, d1 := o + src, EndsLine(u.item), DepthAfter(u.item, d);
    SolidAfter(o, src);
    if rest != [] {
      var next := LevelOf(rest[0].item, d1);
      GapAfter(o1, bol, u.after, d1, next);
      PrintsNormal(rest, State(PutText(After(o1, bol), u.after, d1), d1, false), o1 + GapText(LayText(bol, u.after), d1, next));
    }
    RestPrinted(o1, bol, u.after, d1, rest);
    NormalHead(us, d);
    var gap := GapBefore(LayText(bol, u.after), d1, rest);
    NormalUnitIs(us, d);
    SourceHead(NormalUnit(us, d), NormalUnits(rest, d1));
    Regroup4(o, src, gap, UnitsSource(NormalUnits(rest, d1)));
    PrintsSame(us, st, rest, StateAfter(u, st, o), o + UnitsSource(NormalUnits(us, d)));
  }

  lemma {:induction false} PrintsRun(us: seq<Unit>, st: State, o: string, r: UnitRun)
    requires us != [] && Printable(us) && !st.hug && TryUnit(us, st.depth) == Some(r)
    requires EnsureIndent(st.page, LevelOf(us[0].item, st.depth)) == Page(o, false)
    ensures PrintsTo(us, st, o + UnitsSource(NormalUnits(us, st.depth)))
    decreases |us|, 0
  {
    var d := st.depth;
    RunPrinted(us, st, o, r);
    RunSolid(us, d, r);
    PrintableDrop(us, r.units);
    var x, rest := us[r.units - 1].after, us[r.units..];
    hide *;
    var o1 := o + r.text;
    SolidAfter(o, r.text);
    var st1 := State(PutText(After(o1, true), x, d), d, false);
    if rest != [] {
      var next := LevelOf(rest[0].item, d);
      GapAfter(o1, true, x, d, next);
      PrintsNormal(rest, st1, o1 + GapText(LayText(true, x), d, next));
    }
    RestPrinted(o1, true, x, d, rest);
    NormalRunHead(us, d, r);
    var gap := GapBefore(LayText(true, x), d, rest);
    RunSource(us, d, r, gap);
    SourceAppend(RunUnits(us, r.units, gap), NormalUnits(rest, d));
    Regroup4(o, r.text, gap, UnitsSource(NormalUnits(rest, d)));
    PrintsSame(us, st, rest, st1, o + UnitsSource(NormalUnits(us, d)));
  }

  lemma {:induction false} SolidHead(us: seq<Unit>, d: nat)
    requires us != [] && Printable(us)
    ensures NoText(us) && Renders(us) && Settles(us[0].item, d) && Solid(ItemSource(us[0].item, d))
    ensures us[0].item.Raw? ==> Solid(TokenSource(RawStart(us[0].item), d))
  {
    hide ItemRenders, NoText;
    assert us[0] in us;
    assert Settles(us[0].item, d);
  }

  lemma {:induction false} NormalUnitIs(us: seq<Unit>, d: nat)
    requires us != []
    ensures NormalUnit(us, d).src == ItemSource(us[0].item, d)
    ensures NormalUnit(us, d).after
         == GapBefore(LayText(EndsLine(us[0].item), us[0].after), DepthAfter(us[0].item, d), us[1..])
  {
    hide ItemSource, GapBefore, LayText, EndsLine, DepthAfter, NormalItem;
  }

  lemma {:induction false} SolidAfter(o: string, s: string)
    requires Solid(s)
    ensures Solid(o + s)
  {}

  lemma {:induction false} Regroup4(a: string, b: string, c: string, e: string)
    ensures a + b + c + e == a + (b + c + e)
  {}

  lemma {:induction false} PrintsSame(us: seq<Unit>, st: State, us': seq<Unit>, st': State, result: string)
    requires PrintFrom(UnitsTokens(us), st) == PrintFrom(UnitsTokens(us'), st') && PrintsTo(us', st', result)
    ensures PrintsTo(us, st, result)
  {
    hide PrintFrom, UnitsTokens, StripNewlines;
  }
}
