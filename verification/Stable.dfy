/** The printed document makes the printer take the same decisions as the one it was printed from. */
module Stable {
  import opened Text
  import opened Tokens
  import opened Lexing
  import opened LexingProps
  import opened Lexemes
  import opened AttributeProps
  import opened Layout
  import opened Gaps
  import opened GapFix
  import opened Runs
  import opened NormalForm
  import opened PrintedForm
  import opened PlainTexts
  import opened Relex
  import opened Retag
  import opened Reread

  // ----- alike for the printer -----

  predicate LikeToken(t: Token, t': Token) {
    if t.HtmlStart? then
      && t'.HtmlStart? && t'.name == t.name && SameAttrs(t.attrsRaw, t'.attrsRaw)
      && SlashClosed(t'.name, t'.selfClosed) == SlashClosed(t.name, t.selfClosed)
    else if IsMustache(t) then IsMustache(t') && t' == SetRaw(t, t'.raw) && TokenText(t) == TokenText(t')
    else t' == t
  }

  predicate LikeItem(i: Item, i': Item) { i.Raw? == i'.Raw? && LikeToken(OpenerOf(i), OpenerOf(i')) }

  predicate LikeText(x: string, x': string) {
    SpansLines(x') == SpansLines(x) && (!SpansLines(x) ==> CollapseInline(x') == CollapseInline(x))
  }

  /** Alike unit by unit, with the same texts on one line; the text after the last one is set aside. */
  predicate LikeUnits(us: seq<Unit>, us': seq<Unit>) {
    && |us| == |us'|
    && (us != [] ==>
          && LikeItem(us[0].item, us'[0].item) && (|us| > 1 ==> SpansLines(us'[0].after) == SpansLines(us[0].after))
          && LikeUnits(us[1..], us'[1..]))
  }

  /** The texts up to the next lexeme that opens a level collapse alike. */
  predicate LikeHere(us: seq<Unit>, us': seq<Unit>)
    requires |us| == |us'|
  {
    |us| > 1 ==>
      && LikeText(us[0].after, us'[0].after)
      && (!OpensLevel(us[1].item) ==> LikeHere(us[1..], us'[1..]))
  }

  lemma {:induction false} LikeRenders(t: Token, t': Token)
    requires LikeToken(t, t')
    ensures TokenText(t') == TokenText(t) && InlineOpener(t') == InlineOpener(t)
  {
    hide ParseAttributes, RenderAttrs, OneLine, IsVoid, NormalizeMustache;
    if t.HtmlStart? { LikeTag(t, t'); }
  }

  lemma {:induction false} LikeTag(t: Token, t': Token)
    requires LikeToken(t, t') && t.HtmlStart?
    ensures TokenText(t') == TokenText(t) && InlineOpener(t') == InlineOpener(t)
    ensures AttrsOf(t.attrsRaw) == ParseAttributes(t.attrsRaw).value
    ensures AttrsOf(t'.attrsRaw) == ParseAttributes(t'.attrsRaw).value
  {
    hide ParseAttributes, RenderAttrs, OneLine, IsVoid;
  }

  lemma {:induction false} LikePrints(t: Token, t': Token, d: nat)
    requires LikeToken(t, t')
    ensures NormalToken(t', d) == NormalToken(t, d) && TokenSource(t', d) == TokenSource(t, d)
    ensures InlineAttrs(t') == InlineAttrs(t) && TextOf(t') == TextOf(t)
  {
    LikeRenders(t, t');
    hide ParseAttributes, RenderAttrs, OneLine, IsVoid, NormalizeMustache, TokenText;
  }

  lemma {:induction false} LikeKind(i: Item, i': Item)
    requires LikeItem(i, i')
    ensures OpensLevel(i') == OpensLevel(i)
    ensures i.Single? ==> SingleLineItem(i') == SingleLineItem(i) && i'.token.HbsElse? == i.token.HbsElse?
    ensures i.Single? ==> forall n :: i'.token == HtmlEnd(n) <==> i.token == HtmlEnd(n)
  {
    hide IsVoid, IsRawContent, SameAttrs, TokenText;
  }

  lemma {:induction false} LikeDepth(i: Item, i': Item, d: nat)
    requires LikeItem(i, i')
    ensures DepthAfter(i', d) == DepthAfter(i, d) && LevelOf(i', d) == LevelOf(i, d) && EndsLine(i') == EndsLine(i)
  {
    hide IsVoid, IsRawContent, SameAttrs, TokenText;
  }

  lemma {:induction false} LikeItemRenders(i: Item, i': Item)
    requires LikeItem(i, i') && ItemRenders(i)
    ensures ItemRenders(i')
  {
    LikeRenders(OpenerOf(i), OpenerOf(i'));
    hide TokenText, IsRawContent;
  }

  lemma {:induction false} LikeUnitsRender(us: seq<Unit>, us': seq<Unit>)
    requires LikeUnits(us, us') && Renders(us)
    ensures Renders(us')
  {
    hide ItemRenders, LikeItem, SpansLines;
    if us != [] {
      assert us[0] in us;
      LikeItemRenders(us[0].item, us'[0].item);
      RendersDrop(us, 1);
      LikeUnitsRender(us[1..], us'[1..]);
      forall u | u in us' ensures ItemRenders(u.item) { assert u == us'[0] || u in us'[1..]; }
    }
  }

  // ----- the same decisions -----

  lemma {:induction false} LikeEnd(us: seq<Unit>, us': seq<Unit>, name: string)
    requires LikeUnits(us, us')
    ensures RunEnd(us', name) == RunEnd(us, name)
  {
    hide SpansLines, LikeItem, OpensLevel;
    if us != [] {
      LikeKind(us[0].item, us'[0].item);
      LikeRaw(us[0].item, us'[0].item);
      LikeEnd(us[1..], us'[1..], name);
    }
  }

  lemma {:induction false} LikeRaw(i: Item, i': Item)
    requires LikeItem(i, i')
    ensures i.Raw? == i'.Raw? && (i.Raw? ==> OpensLevel(i) && OpensLevel(i'))
  {
    hide LikeToken;
  }

  lemma {:induction false} LikeSingle(x: string, x': string, us: seq<Unit>, us': seq<Unit>, j: nat)
    requires LikeUnits(us, us') && SpansLines(x') == SpansLines(x) && j < |us|
    ensures RunSingle(x', us', j) == RunSingle(x, us, j)
    decreases j
  {
    hide SpansLines, CollapseInline, LikeItem, SingleLineItem;
    if j > 0 {
      LikeSingleItem(us[0].item, us'[0].item);
      LikeSingle(us[0].after, us'[0].after, us[1..], us'[1..], j - 1);
    }
  }

  lemma {:induction false} LikeSingleItem(i: Item, i': Item)
    requires LikeItem(i, i')
    ensures SingleLineItem(i') == SingleLineItem(i)
  {
    if i.Single? { LikeKind(i, i'); }
    hide LikeToken;
  }

  lemma {:induction false} RunSingleText(x: string, us: seq<Unit>, j: nat)
    requires j <= |us| && RunSingle(x, us, j)
    ensures !SpansLines(x) && (j > 0 ==> RunSingle(us[0].after, us[1..], j - 1))
  {
    hide SpansLines, SingleLineItem;
  }

  lemma {:induction false} LikeTexts(t: Token, t': Token)
    requires LikeToken(t, t')
    ensures TextOf(t') == TextOf(t)
  {
    LikeRenders(t, t');
    hide TokenText, LikeToken;
  }

  lemma {:induction false} LikeCollapses(x: string, x': string)
    requires LikeText(x, x') && !SpansLines(x)
    ensures CollapseInline(x') == CollapseInline(x)
  {
    hide SpansLines, CollapseInline;
  }

  lemma {:induction false} LikeHead(us: seq<Unit>, us': seq<Unit>)
    requires LikeUnits(us, us') && us != []
    ensures us' != [] && LikeUnits(us[1..], us'[1..]) && LikeItem(us[0].item, us'[0].item)
    ensures |us'| == |us| && (|us| > 1 ==> SpansLines(us'[0].after) == SpansLines(us[0].after))
  {
    hide LikeItem, SpansLines;
  }

  lemma {:induction false} LikeLength(us: seq<Unit>, us': seq<Unit>)
    requires LikeUnits(us, us')
    ensures |us'| == |us|
  {}

  lemma {:induction false} HereText(us: seq<Unit>, us': seq<Unit>)
    requires |us| == |us'| && LikeHere(us, us') && |us| > 1
    ensures LikeText(us[0].after, us'[0].after) && (!OpensLevel(us[1].item) ==> LikeHere(us[1..], us'[1..]))
  {
    hide LikeText, OpensLevel;
  }

  lemma {:induction false} LikeSingles(i: Item, i': Item)
    requires LikeItem(i, i') && i.Single?
    ensures i'.Single? && LikeToken(i.token, i'.token)
  {
    hide LikeToken;
  }

  predicate NoLevels(us: seq<Unit>, j: nat) { j <= |us| && forall k | 0 <= k < j :: !OpensLevel(us[k].item) }

  lemma {:induction false} NoLevelsTail(us: seq<Unit>, j: nat)
    requires 0 < j && NoLevels(us, j)
    ensures !OpensLevel(us[0].item) && NoLevels(us[1..], j - 1)
  {
    hide OpensLevel;
  }

  lemma {:induction false} EndNoLevels(us: seq<Unit>, name: string, j: nat)
    requires RunEnd(us, name) == Some(j)
    ensures NoLevels(us, j) && (us != [] ==> !OpensLevel(us[0].item))
  {
    hide OpensLevel;
  }

  lemma {:induction false} LikeBody(x: string, x': string, us: seq<Unit>, us': seq<Unit>, j: nat)
    requires LikeUnits(us, us') && LikeText(x, x') && j < |us| && RunSingle(x, us, j) && NoLevels(us, j)
    requires |us| == |us'| && (j > 0 ==> LikeHere(us, us'))
    requires RunReady(us, j) && RunReady(us', j)
    ensures RunBody(x', us', j) == RunBody(x, us, j)
    decreases j
  {
    hide *;
    RunSingleText(x, us, j);
    LikeCollapses(x, x');
    LikeHead(us, us');
    if j == 0 {
      RunBodyNothing(x, us);
      RunBodyNothing(x', us');
    } else {
      RunReadyTail(us, j);
      RunReadyTail(us', j);
      NoLevelsTail(us, j);
      LikeSingles(us[0].item, us'[0].item);
      LikeTexts(us[0].item.token, us'[0].item.token);
      RunBodyHead(x, us, j);
      RunBodyHead(x', us', j);
      HereText(us, us');
      if j > 1 { NoLevelsTail(us[1..], j - 1); assert us[1..][0] == us[1]; }
      LikeBody(us[0].after, us'[0].after, us[1..], us'[1..], j - 1);
    }
  }

  lemma {:induction false} NoEnd(us: seq<Unit>, d: nat)
    requires us != [] && Renders(us) && us[0].item.Single? && us[0].item.token.HtmlStart?
    requires var e := RunEnd(us[1..], us[0].item.token.name); e.None? || !RunSingle(us[0].after, us[1..], e.value)
    ensures TryUnit(us, d).None?
  {
    hide InlineOpener, RunEnd, RunSingle, RunBody, Fits, EndTag, Renders, RunReady;
  }

  lemma {:induction false} TrySingle(us: seq<Unit>, d: nat)
    requires us != [] && Renders(us) && us[0].item.Single?
    requires InlineOpener(us[0].item.token).Ok? && InlineOpener(us[0].item.token).value.Some?
    ensures var t := us[0].item.token;
            var e := RunEnd(us[1..], t.name);
            && t.HtmlStart?
            && (e.None? || !RunSingle(us[0].after, us[1..], e.value) ==> TryUnit(us, d).None?)
            && (e.Some? && RunSingle(us[0].after, us[1..], e.value) ==>
                  && RunReady(us[1..], e.value)
                  && TryUnit(us, d) == Fits(InlineOpener(t).value.value + RunBody(us[0].after, us[1..], e.value) + EndTag(t.name), e.value + 2, d))
  {
    hide *;
    var t := us[0].item.token;
    OpenerIsTag(t);
    var e := RunEnd(us[1..], t.name);
    if e.None? || !RunSingle(us[0].after, us[1..], e.value) {
      NoEnd(us, d);
    } else {
      RunItemsRender(us, e.value, t.name);
      TryFits(us, d, e.value);
    }
  }

  lemma {:induction false} TryNothing(us: seq<Unit>, d: nat)
    requires us != [] && Renders(us)
    requires var o := InlineOpener(OpenerOf(us[0].item)); o.Ok? ==> o.value.None?
    ensures TryUnit(us, d).None?
  {
    hide InlineOpener, RunEnd, RunSingle, RunBody, Fits, EndTag, Renders;
  }

  lemma {:induction false} TryRaw(us: seq<Unit>, d: nat)
    requires us != [] && Renders(us) && us[0].item.Raw?
    requires InlineOpener(OpenerOf(us[0].item)).Ok? && InlineOpener(OpenerOf(us[0].item)).value.Some?
    ensures TryUnit(us, d) == if us[0].item.body == []
                              then Fits(InlineOpener(OpenerOf(us[0].item)).value.value + EndTag(us[0].item.name), 1, d)
                              else None
  {
    hide InlineOpener, RunEnd, RunSingle, RunBody, Fits, EndTag, Renders;
  }

  /** The same runs are found. */
  lemma {:induction false} LikeTry(us: seq<Unit>, us': seq<Unit>, d: nat)
    requires us != [] && LikeUnits(us, us') && LikeHere(us, us') && Renders(us) && Renders(us')
    requires us[0].item.Raw? ==> us'[0].item.body == us[0].item.body
    ensures TryUnit(us', d) == TryUnit(us, d)
  {
    var i, i' := us[0].item, us'[0].item;
    var t, t' := OpenerOf(i), OpenerOf(i');
    LikeRenders(t, t');
    var o := InlineOpener(t);
    if !o.Ok? || o.value.None? {
      hide InlineOpener, TryUnit, LikeItem;
      TryNothing(us, d);
      TryNothing(us', d);
    } else if i.Raw? {
      hide InlineOpener, TryUnit, LikeToken;
      TryRaw(us, d);
      TryRaw(us', d);
      LikeName(t, t');
    } else {
      LikeTrySingle(us, us', d);
    }
  }

  lemma {:induction false} LikeName(t: Token, t': Token)
    requires LikeToken(t, t') && t.HtmlStart?
    ensures t'.HtmlStart? && t'.name == t.name
  {}

  lemma {:induction false} LikeTrySingle(us: seq<Unit>, us': seq<Unit>, d: nat)
    requires us != [] && LikeUnits(us, us') && LikeHere(us, us') && Renders(us) && Renders(us') && us[0].item.Single?
    requires InlineOpener(us[0].item.token).Ok? && InlineOpener(us[0].item.token).value.Some?
    ensures TryUnit(us', d) == TryUnit(us, d)
  {
    hide *;
    LikeHead(us, us');
    LikeSingles(us[0].item, us'[0].item);
    var t, t' := us[0].item.token, us'[0].item.token;
    LikeRenders(t, t');
    TrySingle(us, d);
    LikeName(t, t');
    TrySingle(us', d);
    LikeEnd(us[1..], us'[1..], t.name);
    var e := RunEnd(us[1..], t.name);
    RunEndFits(us[1..], t.name);
    if e.Some? {
      HereText(us, us');
      EndNoLevels(us[1..], t.name, e.value);
      assert us[1..][0] == us[1];
      LikeSingle(us[0].after, us'[0].after, us[1..], us'[1..], e.value);
      if RunSingle(us[0].after, us[1..], e.value) {
        LikeLength(us[1..], us'[1..]);
        LikeBody(us[0].after, us'[0].after, us[1..], us'[1..], e.value);
      }
    }
  }

  // ----- a lexeme and its printed form are alike -----

  lemma {:induction false} MustacheLike(t: Token)
    requires IsMustache(t) && MustacheLexed(t) && CleanMustache(t.raw)
    ensures LikeToken(t, SetRaw(t, TextOf(t)))
  {
    MustacheRelexes(t, []);
    NormalizedTwice(t);
    MustacheText(t);
    hide NormalizeMustache, MustacheLexed, CleanMustache, Scan, TextOf;
    MustacheTokenText(t);
    MustacheTokenText(SetRaw(t, TextOf(t)));
  }

  lemma {:induction false} MustacheTokenText(t: Token)
    requires IsMustache(t)
    ensures TokenText(t) == NormalizeMustache(t.raw)
  {}

  lemma {:induction false} SlashTwice(name: string, selfClosed: bool)
    ensures SlashClosed(name, SlashClosed(name, selfClosed)) == SlashClosed(name, selfClosed)
  {}

  lemma {:induction false} TokenLike(t: Token, d: nat)
    requires ItemLexed(Single(t)) && CleanLexeme(Single(t))
    ensures LikeToken(t, NormalToken(t, d)) && LikeToken(t, InlineAttrs(t))
  {
    hide SameAttrs, CleanTag, AttrsAt, Spaced, RenderingsOf, TokenText, IsVoid, MustacheLexed, CleanMustache, MustacheOk;
    if t.HtmlStart? {
      AttrsAtBack(t.attrsRaw, d);
      SpacedBack(t.attrsRaw);
      SlashTwice(t.name, t.selfClosed);
    } else if IsMustache(t) {
      hide LikeToken, TextOf;
      MustacheLike(t);
    }
  }

  lemma {:induction false} RawLike(item: Item, d: nat)
    requires item.Raw? && IsRawContent(item.name) && CleanTag(item.attrsRaw)
    ensures LikeToken(RawStart(item), HtmlStart(item.name, AttrsAt(item.attrsRaw, d), false))
    ensures LikeToken(RawStart(item), HtmlStart(item.name, Spaced(RenderingsOf(item.attrsRaw)), false))
  {
    hide SameAttrs, CleanTag, AttrsAt, Spaced, RenderingsOf, IsVoid, IsRawContent;
    AttrsAtBack(item.attrsRaw, d);
    SpacedBack(item.attrsRaw);
  }

  lemma {:induction false} ItemLike(item: Item, d: nat)
    requires ItemLexed(item) && CleanLexeme(item)
    ensures LikeItem(item, NormalItem(item, d)) && LikeItem(item, InlineItem(item))
    ensures item.Raw? ==> NormalItem(item, d).body == RawGap(item.body, d) && InlineItem(item).body == item.body
  {
    if item.Raw? {
      RawLike(item, d);
      hide LikeToken, AttrsAt, RawGap, Spaced, RenderingsOf;
    } else {
      TokenLike(item.token, d);
      hide LikeToken, NormalToken, InlineAttrs;
    }
  }

  /** Alike lexemes print the same, outside a run and inside one. */
  lemma {:induction false} LikeItemPrints(i: Item, i': Item, d: nat)
    requires LikeItem(i, i')
    requires i.Raw? ==> RawGap(i'.body, d) == RawGap(i.body, d)
    ensures NormalItem(i', d) == NormalItem(i, d) && ItemSource(i', d) == ItemSource(i, d)
  {
    LikePrints(OpenerOf(i), OpenerOf(i'), d);
    if i.Raw? {
      LikeName(OpenerOf(i), OpenerOf(i'));
      LikeAttrsAt(i.attrsRaw, i'.attrsRaw, d);
    }
    hide LikeToken, NormalToken, TokenSource, RawGap, AttrsAt;
  }

  lemma {:induction false} LikeAttrsAt(a: string, a': string, d: nat)
    requires SameAttrs(a, a')
    ensures AttrsAt(a', d) == AttrsAt(a, d) && RenderingsOf(a') == RenderingsOf(a)
  {
    hide ParseAttributes, RenderAttrs, OneLine;
  }

  lemma {:induction false} LikeItemInline(i: Item, i': Item)
    requires LikeItem(i, i') && (i.Raw? ==> i'.body == i.body)
    ensures InlineItem(i') == InlineItem(i) && InlineSource(i') == InlineSource(i)
  {
    LikePrints(OpenerOf(i), OpenerOf(i'), 0);
    if i.Raw? {
      LikeName(OpenerOf(i), OpenerOf(i'));
      LikeAttrsAt(i.attrsRaw, i'.attrsRaw, 0);
    }
    hide LikeToken, InlineAttrs, TextOf, Spaced, RenderingsOf;
  }

  // ----- a text and its printed form are alike -----

  lemma {:induction false} GapLike(bol: bool, x: string, d: nat, next: nat)
    requires CleanWords(x)
    ensures LikeText(x, GapText(LayText(bol, x), d, next))
  {
    GapCollapses(bol, x, d, next);
    hide GapText, LayText, SpansLines, CollapseInline;
  }

  lemma {:induction false} InlineLike(x: string)
    requires CleanWords(x) && !SpansLines(x)
    ensures !SpansLines(CollapseInline(x))
  {
    CollapsedText(x);
    hide CollapseInline;
  }

  // ----- gaps are fixed -----

  lemma {:induction false} SealGood(bol: bool, lay: Lay)
    requires Good(bol, lay)
    ensures Good(bol, Seal(lay)) && Seal(Seal(lay)) == Seal(lay)
  {
    hide RowOk;
    var rows := lay.rows;
    if rows != [] && rows[|rows| - 1] == [] {
      var n := |rows| - 1;
      forall r | r in rows[..n] ensures r in rows {}
      forall i | 0 <= i < n - 1 && rows[..n][i] == [] ensures rows[..n][i + 1] != [] { assert rows[i + 1] != []; }
      if n > 0 { NotBlankBefore(rows, n - 1); }
    }
  }

  lemma {:induction false} GapBack(bol: bool, x: string, d: nat, rest: seq<Unit>, rest': seq<Unit>)
    requires rest == [] <==> rest' == []
    requires rest != [] ==> LevelOf(rest'[0].item, d) == LevelOf(rest[0].item, d)
    ensures var g := GapBefore(LayText(bol, x), d, rest); GapBefore(LayText(bol, g), d, rest') == g
  {
    var lay := LayText(bol, x);
    LayGood(bol, x);
    SealGood(bol, lay);
    hide LayText, Good, GapText, Seal, LevelOf;
    if rest == [] {
      GapFixed(bol, Seal(lay), d, 0);
    } else {
      GapFixed(bol, lay, d, LevelOf(rest[0].item, d));
    }
  }

  // ----- the printed document is alike -----

  predicate CleanUnit(u: Unit) {
    ItemLexed(u.item) && CleanLexeme(u.item) && CleanWords(u.after) && PlainText(u.after)
  }

  predicate CleanUnits(us: seq<Unit>) { forall u <- us :: CleanUnit(u) }

  lemma {:induction false} CleanDrop(us: seq<Unit>, n: nat)
    requires CleanUnits(us) && n <= |us|
    ensures CleanUnits(us[n..])
  {
    hide CleanUnit;
    forall u | u in us[n..] ensures u in us {}
  }

  lemma {:induction false} CleanHead(us: seq<Unit>)
    requires us != [] && CleanUnits(us)
    ensures ItemLexed(us[0].item) && CleanLexeme(us[0].item) && CleanWords(us[0].after) && PlainText(us[0].after)
    ensures CleanUnits(us[1..])
  {
    assert us[0] in us;
    assert CleanUnit(us[0]);
    hide ItemLexed, CleanLexeme, CleanWords, PlainText;
    CleanDrop(us, 1);
  }

  /** The texts inside the first `n` units stay on one line. */
  predicate OneLineTexts(us: seq<Unit>, n: nat)
    requires n <= |us|
    decreases n
  {
    n <= 1 || (!SpansLines(us[0].after) && OneLineTexts(us[1..], n - 1))
  }

  lemma {:induction false} RunSingleTexts(x: string, us: seq<Unit>, j: nat)
    requires j < |us| && RunSingle(x, us, j)
    ensures !SpansLines(x) && OneLineTexts(us, j + 1)
    decreases j
  {
    hide SpansLines, SingleLineItem;
    if j > 0 { RunSingleTexts(us[0].after, us[1..], j - 1); }
  }

  lemma {:induction false} FitsUnits(text: string, units: nat, d: nat)
    ensures Fits(text, units, d).Some? ==> Fits(text, units, d).value.units == units
  {}

  lemma {:induction false} RawRunIs(us: seq<Unit>, d: nat, r: UnitRun)
    requires us != [] && Renders(us) && us[0].item.Raw? && TryUnit(us, d) == Some(r)
    ensures r.units == 1 && us[0].item.body == []
  {
    hide *;
    var o := InlineOpener(OpenerOf(us[0].item));
    if o.Ok? && o.value.Some? {
      TryRaw(us, d);
      FitsUnits(o.value.value + EndTag(us[0].item.name), 1, d);
    } else {
      TryNothing(us, d);
    }
  }

  lemma {:induction false} OneText(us: seq<Unit>)
    requires us != []
    ensures OneLineTexts(us, 1)
  {}

  lemma {:induction false} TextsHead(us: seq<Unit>, n: nat)
    requires 1 < n <= |us| && !SpansLines(us[0].after) && OneLineTexts(us[1..], n - 1)
    ensures OneLineTexts(us, n)
  {
    hide SpansLines;
  }

  lemma {:induction false} RunTexts(us: seq<Unit>, d: nat, r: UnitRun)
    requires us != [] && Renders(us) && TryUnit(us, d) == Some(r)
    ensures 1 <= r.units <= |us| && OneLineTexts(us, r.units)
    ensures us[0].item.Raw? ==> r.units == 1 && us[0].item.body == []
  {
    hide *;
    if us[0].item.Raw? {
      RawRunIs(us, d, r);
      OneText(us);
    } else {
      var opener, j := RunParts(us, d);
      RunEndSingle(us[1..], us[0].item.token.name, j);
      RunSingleTexts(us[0].after, us[1..], j);
      TextsHead(us, j + 2);
    }
  }

  lemma {:induction false} LikeCons(us: seq<Unit>, u': Unit, rest': seq<Unit>)
    requires us != [] && LikeItem(us[0].item, u'.item) && LikeUnits(us[1..], rest')
    requires |us| > 1 ==> SpansLines(u'.after) == SpansLines(us[0].after)
    ensures LikeUnits(us, [u'] + rest')
  {
    hide LikeItem, SpansLines;
    assert ([u'] + rest')[1..] == rest';
  }

  lemma {:induction false} RunUnitsHead(us: seq<Unit>, n: nat, last: string)
    requires 1 <= n <= |us| && OneLineTexts(us, n)
    ensures var after := if n == 1 then last else CollapseInline(us[0].after);
            RunUnits(us, n, last)
            == [Unit(InlineItem(us[0].item), InlineSource(us[0].item), after)]
             + (if n == 1 then [] else RunUnits(us[1..], n - 1, last))
    ensures n > 1 ==> OneLineTexts(us[1..], n - 1) && !SpansLines(us[0].after)
  {
    hide InlineItem, InlineSource, CollapseInline, SpansLines;
  }

  lemma {:induction false} RunLike(us: seq<Unit>, n: nat, last: string, rest': seq<Unit>)
    requires 1 <= n <= |us| && CleanUnits(us) && OneLineTexts(us, n)
    requires LikeUnits(us[n..], rest') && (n < |us| ==> SpansLines(last) == SpansLines(us[n - 1].after))
    ensures LikeUnits(us, RunUnits(us, n, last) + rest')
    decreases n
  {
    hide *;
    CleanHead(us);
    ItemLike(us[0].item, 0);
    RunUnitsHead(us, n, last);
    var u := RunUnits(us, n, last)[0];
    if n == 1 {
      assert [u] + [] == [u];
      LikeCons(us, u, rest');
    } else {
      InlineLike(us[0].after);
      assert us[1..][n - 1..] == us[n..];
      RunLike(us[1..], n - 1, last, rest');
      LikeCons(us, u, RunUnits(us[1..], n - 1, last) + rest');
      assert [u] + RunUnits(us[1..], n - 1, last) + rest' == [u] + (RunUnits(us[1..], n - 1, last) + rest');
    }
  }

  lemma {:induction false} NormalLike(us: seq<Unit>, d: nat)
    requires CleanUnits(us) && Renders(us)
    ensures LikeUnits(us, NormalUnits(us, d))
    decreases |us|, 1
  {
    if us != [] {
      if TryUnit(us, d).Some? {
        hide *;
        NormalLikeRun(us, d, TryUnit(us, d).value);
      } else {
        hide *;
        NormalLikeUnit(us, d);
      }
    }
  }

  lemma {:induction false} NormalLikeRun(us: seq<Unit>, d: nat, r: UnitRun)
    requires us != [] && CleanUnits(us) && Renders(us) && TryUnit(us, d) == Some(r)
    ensures LikeUnits(us, NormalUnits(us, d))
    decreases |us|, 0
  {
    hide *;
    RunTexts(us, d, r);
    var n, rest := r.units, us[r.units..];
    RendersDrop(us, n);
    CleanDrop(us, n);
    NormalRunHead(us, d, r);
    NormalLike(rest, d);
    LastSpans(us, n, d);
    RunLike(us, n, GapBefore(LayText(true, us[n - 1].after), d, rest), NormalUnits(rest, d));
  }

  lemma {:induction false} NormalLikeUnit(us: seq<Unit>, d: nat)
    requires us != [] && CleanUnits(us) && Renders(us) && TryUnit(us, d).None?
    ensures LikeUnits(us, NormalUnits(us, d))
    decreases |us|, 0
  {
    hide *;
    CleanHead(us);
    ItemLike(us[0].item, d);
    RendersDrop(us, 1);
    NormalHead(us, d);
    NormalLike(us[1..], DepthAfter(us[0].item, d));
    UnitLike(us, d);
    if |us| > 1 { LikeTextSpans(us[0].after, NormalUnit(us, d).after); }
    LikeCons(us, NormalUnit(us, d), NormalUnits(us[1..], DepthAfter(us[0].item, d)));
  }

  lemma {:induction false} LastSpans(us: seq<Unit>, n: nat, d: nat)
    requires 1 <= n <= |us| && CleanUnits(us)
    ensures n < |us| ==> SpansLines(GapBefore(LayText(true, us[n - 1].after), d, us[n..])) == SpansLines(us[n - 1].after)
  {
    if n < |us| {
      var u := us[n - 1];
      assert u in us;
      assert CleanUnit(u);
      hide CleanWords, SpansLines, GapText, LayText;
      GapLike(true, u.after, d, LevelOf(us[n..][0].item, d));
    }
  }

  lemma {:induction false} LikeTextSpans(x: string, x': string)
    requires LikeText(x, x')
    ensures SpansLines(x') == SpansLines(x)
  {
    hide SpansLines;
  }

  lemma {:induction false} UnitLike(us: seq<Unit>, d: nat)
    requires us != [] && CleanUnits(us)
    ensures NormalUnit(us, d).item == NormalItem(us[0].item, d)
    ensures |us| > 1 ==> LikeText(us[0].after, NormalUnit(us, d).after)
  {
    CleanHead(us);
    hide CleanWords, LikeText, GapText, LayText, NormalItem, ItemSource, EndsLine, DepthAfter;
    if |us| > 1 {
      var d1 := DepthAfter(us[0].item, d);
      GapLike(EndsLine(us[0].item), us[0].after, d1, LevelOf(us[1..][0].item, d1));
    }
  }

  lemma {:induction false} NoOpenerNoRun(us: seq<Unit>, d: nat)
    requires us != [] && Renders(us) && !OpensLevel(us[0].item)
    ensures TryUnit(us, d).None?
  {
    NoOpener(us[0].item);
    hide *;
    TryNothing(us, d);
  }

  lemma {:induction false} NoOpener(item: Item)
    requires !OpensLevel(item)
    ensures InlineOpener(OpenerOf(item)) == Ok(None)
  {
    hide IsVoid;
  }

  /** Where no run starts, the texts up to the next opener are printed as gaps, which collapse as
      the texts they were printed from. */
  lemma {:induction false} NormalHere(us: seq<Unit>, d: nat)
    requires us != [] && CleanUnits(us) && Renders(us) && TryUnit(us, d).None?
    ensures |NormalUnits(us, d)| == |us| && LikeHere(us, NormalUnits(us, d))
    decreases |us|
  {
    hide *;
    CleanHead(us);
    RendersDrop(us, 1);
    NormalHead(us, d);
    UnitLike(us, d);
    NormalLike(us, d);
    var u := NormalUnit(us, d);
    var d1 := DepthAfter(us[0].item, d);
    var rest' := NormalUnits(us[1..], d1);
    LikeLength(us, [u] + rest');
    if |us| > 1 && !OpensLevel(us[1].item) {
      assert us[1..][0] == us[1];
      NoOpenerNoRun(us[1..], d1);
      NormalHere(us[1..], d1);
    }
    HereCons(us, u, rest');
  }

  lemma {:induction false} HereCons(us: seq<Unit>, u: Unit, rest': seq<Unit>)
    requires us != [] && |us[1..]| == |rest'|
    requires |us| > 1 ==> LikeText(us[0].after, u.after) && (!OpensLevel(us[1].item) ==> LikeHere(us[1..], rest'))
    ensures LikeHere(us, [u] + rest')
  {
    hide LikeText, OpensLevel;
    assert ([u] + rest')[1..] == rest';
  }

  // ----- accepted runs are accepted again -----

  /** The texts inside the first `n` units are those of `us`, collapsed. */
  predicate Squeezed(us: seq<Unit>, us': seq<Unit>, n: nat)
    requires n <= |us| == |us'|
    decreases n
  {
    n <= 1 || (us'[0].after == CollapseInline(us[0].after) && Squeezed(us[1..], us'[1..], n - 1))
  }

  lemma {:induction false} SqueezedHead(us: seq<Unit>, us': seq<Unit>, n: nat)
    requires 1 < n <= |us| == |us'| && Squeezed(us, us', n)
    ensures us'[0].after == CollapseInline(us[0].after) && Squeezed(us[1..], us'[1..], n - 1)
  {
    hide CollapseInline;
  }

  lemma {:induction false} RunSqueezed(us: seq<Unit>, n: nat, last: string, rest': seq<Unit>)
    requires 1 <= n <= |us| && OneLineTexts(us, n) && |rest'| == |us| - n
    ensures |RunUnits(us, n, last) + rest'| == |us| && Squeezed(us, RunUnits(us, n, last) + rest', n)
    decreases n
  {
    hide CollapseInline, SpansLines, InlineItem, InlineSource;
    RunUnitsHead(us, n, last);
    if n > 1 {
      RunSqueezed(us[1..], n - 1, last, rest');
      var u := RunUnits(us, n, last)[0];
      assert (RunUnits(us, n, last) + rest')[1..] == RunUnits(us[1..], n - 1, last) + rest';
    }
  }

  lemma {:induction false} SqueezedAgain(x: string)
    requires CleanWords(x) && !SpansLines(x)
    ensures var y := CollapseInline(x);
            |CollapseInline(y)| <= |y| && '\n' !in CollapseInline(y) && (CollapseInline(y) == y <==> RunsAtMost(Trim(x), 2, 0))
            && (|CollapseInline(y)| == |y| ==> CollapseInline(y) == y)
  {
    CollapsedText(x);
    CollapseShrinks(x);
    CollapseTwiceIff(x);
    var y := CollapseInline(x);
    hide CollapseInline, SpansLines, HalveSpaces, Trim;
    CollapsedText(y);
  }

  lemma {:induction false} ShrunkBody(x: string, us: seq<Unit>, us': seq<Unit>, j: nat)
    requires LikeUnits(us, us') && j < |us| == |us'| && CleanWords(x) && CleanUnits(us) && RunSingle(x, us, j)
    requires Squeezed(us, us', j + 1)
    requires RunReady(us, j) && RunReady(us', j)
    ensures |RunBody(CollapseInline(x), us', j)| <= |RunBody(x, us, j)|
    ensures '\n' in RunBody(CollapseInline(x), us', j) ==> '\n' in RunBody(x, us, j)
    decreases j
  {
    hide *;
    RunSingleText(x, us, j);
    SqueezedAgain(x);
    LikeHead(us, us');
    var y := CollapseInline(x);
    if j == 0 {
      RunBodyNothing(x, us);
      RunBodyNothing(y, us');
    } else {
      RunReadyTail(us, j);
      RunReadyTail(us', j);
      LikeSingles(us[0].item, us'[0].item);
      LikeTexts(us[0].item.token, us'[0].item.token);
      RunBodyHead(x, us, j);
      RunBodyHead(y, us', j);
      SqueezedHead(us, us', j + 1);
      CleanHead(us);
      ShrunkBody(us[0].after, us[1..], us'[1..], j - 1);
    }
  }

  lemma {:induction false} StillFits(a: string, b: string, b': string, c: string, units: nat, d: nat)
    requires |b'| <= |b| && ('\n' in b' ==> '\n' in b) && '\n' !in a + b + c && |a + b + c| + 2 * d <= LINE_LIMIT
    ensures Fits(a + b' + c, units, d) == Some(UnitRun(a + b' + c, units))
  {
    forall x | x in b ensures x in a + b + c {}
    assert forall x | x in a :: x in a + b + c;
    assert forall x | x in c :: x in a + b + c;
  }

  /** A run that was accepted is accepted again, with the same members. */
  lemma {:induction false} RunTryAgain(us: seq<Unit>, us': seq<Unit>, d: nat, r: UnitRun)
    requires us != [] && CleanUnits(us) && LikeUnits(us, us') && Renders(us) && Renders(us') && TryUnit(us, d) == Some(r)
    requires us[0].item.Raw? ==> us'[0].item.body == us[0].item.body
    requires r.units <= |us| == |us'| && Squeezed(us, us', r.units)
    ensures TryUnit(us', d).Some? && TryUnit(us', d).value.units == r.units
  {
    hide *;
    LikeHead(us, us');
    if us[0].item.Raw? {
      RawTryAgain(us, us', d);
    } else {
      var opener, j := RunParts(us, d);
      LikeSingles(us[0].item, us'[0].item);
      var t, t' := us[0].item.token, us'[0].item.token;
      LikeRenders(t, t');
      LikeName(t, t');
      LikeEnd(us[1..], us'[1..], t.name);
      RunEndFits(us[1..], t.name);
      SqueezedHead(us, us', j + 2);
      CleanHead(us);
      RunSingleText(us[0].after, us[1..], j);
      InlineLike(us[0].after);
      LikeSingle(us[0].after, us'[0].after, us[1..], us'[1..], j);
      RunItemsRender(us', j, t.name);
      LikeLength(us[1..], us'[1..]);
      ShrunkBody(us[0].after, us[1..], us'[1..], j);
      TryFits(us', d, j);
      StillFits(opener, RunBody(us[0].after, us[1..], j), RunBody(us'[0].after, us'[1..], j), EndTag(t.name), j + 2, d);
    }
  }

  lemma {:induction false} RawTryAgain(us: seq<Unit>, us': seq<Unit>, d: nat)
    requires us != [] && us' != [] && LikeItem(us[0].item, us'[0].item) && Renders(us) && Renders(us') && us[0].item.Raw?
    requires us'[0].item.Raw? ==> us'[0].item.body == us[0].item.body
    ensures TryUnit(us', d) == TryUnit(us, d)
  {
    var t, t' := OpenerOf(us[0].item), OpenerOf(us'[0].item);
    LikeRenders(t, t');
    LikeName(t, t');
    var o := InlineOpener(t);
    hide InlineOpener, TryUnit, LikeToken, Renders;
    if !o.Ok? || o.value.None? {
      TryNothing(us, d);
      TryNothing(us', d);
    } else {
      TryRaw(us, d);
      TryRaw(us', d);
    }
  }

  // ----- the normal form of the normal form -----

  /** The same lexemes, and texts that are the same or shorter. */
  predicate TighterUnit(u: Unit, v: Unit) {
    u.item == v.item && u.src == v.src && |u.after| <= |v.after| && (|u.after| == |v.after| ==> u.after == v.after)
  }

  predicate Tighter(us: seq<Unit>, vs: seq<Unit>) {
    |us| == |vs| && forall k | 0 <= k < |us| :: TighterUnit(us[k], vs[k])
  }

  lemma {:induction false} TighterJoin(a: seq<Unit>, b: seq<Unit>, a': seq<Unit>, b': seq<Unit>)
    requires Tighter(a', a) && Tighter(b', b)
    ensures Tighter(a' + b', a + b) && (a' + b' == a + b <==> a' == a && b' == b)
  {
    hide TighterUnit;
    forall k | 0 <= k < |a' + b'| ensures TighterUnit((a' + b')[k], (a + b)[k]) {
      if k >= |a| { assert (a' + b')[k] == b'[k - |a|] && (a + b)[k] == b[k - |a|]; }
    }
    if a' + b' == a + b {
      assert a' == (a' + b')[..|a|] && a == (a + b)[..|a|] && b' == (a' + b')[|a|..] && b == (a + b)[|a|..];
    }
  }

  lemma {:induction false} OneTighter(u: Unit, v: Unit)
    requires TighterUnit(u, v)
    ensures Tighter([u], [v]) && ([u] == [v] <==> u.after == v.after)
  {}

  lemma {:induction false} TighterSame(us: seq<Unit>)
    ensures Tighter(us, us)
  {}

  /** No run of more than two spaces between the words inside the first `n` units. */
  predicate CalmTexts(us: seq<Unit>, n: nat)
    requires n <= |us|
    decreases n
  {
    n <= 1 || (RunsAtMost(Trim(us[0].after), 2, 0) && CalmTexts(us[1..], n - 1))
  }

  /** The texts inside the inline runs of the document hold no run of more than two spaces. */
  predicate RunsCalm(us: seq<Unit>, d: nat)
    requires Renders(us)
    decreases |us|
  {
    us == [] ||
    match TryUnit(us, d)
    case Some(r) =>
      RendersDrop(us, r.units);
      CalmTexts(us, r.units) && RunsCalm(us[r.units..], d)
    case None =>
      RendersDrop(us, 1);
      RunsCalm(us[1..], DepthAfter(us[0].item, d))
  }

  lemma {:induction false} CalmRunHead(us: seq<Unit>, d: nat, r: UnitRun)
    requires us != [] && Renders(us) && TryUnit(us, d) == Some(r) && r.units <= |us| && Renders(us[r.units..])
    ensures RunsCalm(us, d) <==> CalmTexts(us, r.units) && RunsCalm(us[r.units..], d)
  {
    hide TryUnit, CalmTexts, Renders;
  }

  lemma {:induction false} CalmUnitHead(us: seq<Unit>, d: nat)
    requires us != [] && Renders(us) && TryUnit(us, d).None? && Renders(us[1..])
    ensures RunsCalm(us, d) <==> RunsCalm(us[1..], DepthAfter(us[0].item, d))
  {
    hide TryUnit, DepthAfter, Renders;
  }

  /** Printed again, a run keeps its lexemes, and its texts exactly when they are calm. */
  lemma {:induction false} RunAgain(us: seq<Unit>, us': seq<Unit>, n: nat, last: string)
    requires 1 <= n <= |us| == |us'| && CleanUnits(us) && LikeUnits(us, us') && OneLineTexts(us, n) && Squeezed(us, us', n)
    requires us[0].item.Raw? ==> n == 1 && us'[0].item.body == us[0].item.body
    requires forall k | 1 <= k < n :: us[k].item.Single?
    ensures Tighter(RunUnits(us', n, last), RunUnits(us, n, last))
    ensures RunUnits(us', n, last) == RunUnits(us, n, last) <==> CalmTexts(us, n)
    decreases n
  {
    hide *;
    LikeHead(us, us');
    LikeItemInline(us[0].item, us'[0].item);
    RunUnitsTurn(us, n, last);
    RunUnitsTurn(us', n, last);
    CalmTextsTurn(us, n);
    if n == 1 {
      TighterSame(RunUnits(us, 1, last));
    } else {
      CleanHead(us);
      RunUnitsHead(us, n, last);
      SqueezedHead(us, us', n);
      SqueezedAgain(us[0].after);
      LikeLength(us[1..], us'[1..]);
      assert us[1..][0] == us[1];
      forall k | 1 <= k < n - 1 ensures us[1..][k].item.Single? { assert us[1..][k] == us[k + 1]; }
      RunAgain(us[1..], us'[1..], n - 1, last);
      var i, src := InlineItem(us[0].item), InlineSource(us[0].item);
      var y := CollapseInline(us[0].after);
      IsTighter(i, src, CollapseInline(y), y);
      OneTighter(Unit(i, src, CollapseInline(y)), Unit(i, src, y));
      TighterJoin([Unit(i, src, y)], RunUnits(us[1..], n - 1, last), [Unit(i, src, CollapseInline(y))], RunUnits(us'[1..], n - 1, last));
    }
  }

  lemma {:induction false} IsTighter(i: Item, src: string, x: string, y: string)
    requires |x| <= |y| && (|x| == |y| ==> x == y)
    ensures TighterUnit(Unit(i, src, x), Unit(i, src, y))
  {}

  lemma {:induction false} RunUnitsTurn(us: seq<Unit>, n: nat, last: string)
    requires 1 <= n <= |us|
    ensures RunUnits(us, n, last)
         == if n == 1 then [Unit(InlineItem(us[0].item), InlineSource(us[0].item), last)]
            else [Unit(InlineItem(us[0].item), InlineSource(us[0].item), CollapseInline(us[0].after))] + RunUnits(us[1..], n - 1, last)
  {
    hide InlineItem, InlineSource, CollapseInline;
  }

  lemma {:induction false} CalmTextsTurn(us: seq<Unit>, n: nat)
    requires n <= |us|
    ensures CalmTexts(us, n) <==> n <= 1 || (RunsAtMost(Trim(us[0].after), 2, 0) && CalmTexts(us[1..], n - 1))
  {
    hide RunsAtMost, Trim;
  }

  lemma {:induction false} RunMembers(us: seq<Unit>, d: nat, r: UnitRun)
    requires us != [] && Renders(us) && TryUnit(us, d) == Some(r)
    ensures 1 <= r.units <= |us| && forall k | 1 <= k < r.units :: us[k].item.Single?
  {
    if us[0].item.Raw? {
      hide *;
      RunTexts(us, d, r);
    } else {
      hide *;
      var opener, j := RunParts(us, d);
      RunEndSingle(us[1..], us[0].item.token.name, j);
      forall k | 1 <= k < r.units ensures us[k].item.Single? { assert us[1..][k - 1] == us[k]; }
    }
  }

  lemma {:induction false} RunEndSingle(us: seq<Unit>, name: string, j: nat)
    requires RunEnd(us, name) == Some(j)
    ensures j < |us| && forall k :: 0 <= k <= j ==> us[k].item.Single?
  {
    hide OpensElement;
  }

  lemma {:induction false} HeadOf(a: seq<Unit>, b: seq<Unit>, n: nat)
    requires |a| == n
    ensures (a + b)[n..] == b && (n > 0 ==> (a + b)[n - 1] == a[n - 1] && (a + b)[0] == a[0])
  {}

  lemma {:induction false} RunUnitsLast(us: seq<Unit>, n: nat, last: string)
    requires 1 <= n <= |us|
    ensures var r := RunUnits(us, n, last);
            |r| == n && r[n - 1].after == last && r[0].item == InlineItem(us[0].item)
    decreases n
  {
    hide InlineItem, InlineSource, CollapseInline;
    if n > 1 { RunUnitsLast(us[1..], n - 1, last); }
  }

  lemma {:induction false} LikeLevel(us: seq<Unit>, us': seq<Unit>, d: nat)
    requires LikeUnits(us, us')
    ensures |us| == |us'| && (us != [] ==> LevelOf(us'[0].item, d) == LevelOf(us[0].item, d))
  {
    hide LikeItem, LikeText, LevelOf;
    if us != [] { LikeDepth(us[0].item, us'[0].item, d); }
  }

  /** Printed again, a printed document keeps its lexemes, and its texts exactly when no run of more
      than two spaces stands inside an inline run. */
  lemma {:induction false} NormalTwice(us: seq<Unit>, d: nat)
    requires CleanUnits(us) && Renders(us)
    ensures Renders(NormalUnits(us, d)) && Tighter(NormalUnits(NormalUnits(us, d), d), NormalUnits(us, d))
    ensures NormalUnits(NormalUnits(us, d), d) == NormalUnits(us, d) <==> RunsCalm(us, d)
    decreases |us|, 1
  {
    NormalLike(us, d);
    LikeUnitsRender(us, NormalUnits(us, d));
    if us == [] { return; }
    if TryUnit(us, d).Some? {
      hide *;
      RunTwice(us, d, TryUnit(us, d).value);
    } else {
      hide *;
      UnitTwice(us, d);
    }
  }

  lemma {:induction false} RunTwice(us: seq<Unit>, d: nat, r: UnitRun)
    requires us != [] && CleanUnits(us) && Renders(us) && TryUnit(us, d) == Some(r)
    requires Renders(NormalUnits(us, d)) && LikeUnits(us, NormalUnits(us, d))
    ensures Tighter(NormalUnits(NormalUnits(us, d), d), NormalUnits(us, d))
    ensures NormalUnits(NormalUnits(us, d), d) == NormalUnits(us, d) <==> RunsCalm(us, d)
    decreases |us|, 0
  {
    hide *;
    RunTexts(us, d, r);
    RunMembers(us, d, r);
    CleanHead(us);
    ItemLike(us[0].item, d);
    var n, rest := r.units, us[r.units..];
    var us' := NormalUnits(us, d);
    RendersDrop(us, n);
    CleanDrop(us, n);
    NormalTwice(rest, d);
    NormalRunHead(us, d, r);
    CalmRunHead(us, d, r);
    NormalLike(rest, d);
    var rest' := NormalUnits(rest, d);
    LikeLevel(rest, rest', d);
    var x := us[n - 1].after;
    var last := GapBefore(LayText(true, x), d, rest);
    RunUnitsLast(us, n, last);
    HeadOf(RunUnits(us, n, last), rest', n);
    GapBack(true, x, d, rest, rest');
    RunSqueezed(us, n, last, rest');
    RunTryAgain(us, us', d, r);
    NormalRunHead(us', d, TryUnit(us', d).value);
    RunAgain(us, us', n, last);
    TighterJoin(RunUnits(us, n, last), rest', RunUnits(us', n, last), NormalUnits(rest', d));
  }

  lemma {:induction false} GapNotEmpty(body: string, d: nat)
    ensures RawGap(body, d) != []
  {}

  lemma {:induction false} UnitTryAgain(us: seq<Unit>, us': seq<Unit>, d: nat)
    requires us != [] && LikeUnits(us, us') && LikeHere(us, us') && Renders(us) && Renders(us') && TryUnit(us, d).None?
    requires us[0].item.Raw? ==> us'[0].item.body != []
    ensures TryUnit(us', d).None?
  {
    if us[0].item.Raw? {
      var o := InlineOpener(OpenerOf(us'[0].item));
      hide InlineOpener, TryUnit, LikeToken, Renders;
      if o.Ok? && o.value.Some? { TryRaw(us', d); } else { TryNothing(us', d); }
    } else {
      hide *;
      LikeTry(us, us', d);
    }
  }

  lemma {:induction false} UnitTwice(us: seq<Unit>, d: nat)
    requires us != [] && CleanUnits(us) && Renders(us) && TryUnit(us, d).None?
    requires Renders(NormalUnits(us, d)) && LikeUnits(us, NormalUnits(us, d))
    ensures Tighter(NormalUnits(NormalUnits(us, d), d), NormalUnits(us, d))
    ensures NormalUnits(NormalUnits(us, d), d) == NormalUnits(us, d) <==> RunsCalm(us, d)
    decreases |us|, 0
  {
    CleanHead(us);
    var item := us[0].item;
    ItemLike(item, d);
    if item.Raw? { GapTwice(item.body, d); GapNotEmpty(item.body, d); }
    UnitLike(us, d);
    LikeItemPrints(item, NormalItem(item, d), d);
    hide *;
    var us' := NormalUnits(us, d);
    var d1 := DepthAfter(item, d);
    RendersDrop(us, 1);
    NormalHead(us, d);
    CalmUnitHead(us, d);
    NormalTwice(us[1..], d1);
    var rest' := NormalUnits(us[1..], d1);
    HeadOf([NormalUnit(us, d)], rest', 1);
    NormalHere(us, d);
    UnitTryAgain(us, us', d);
    LikeDepth(item, NormalItem(item, d), d);
    NormalHead(us', d);
    NormalLike(us[1..], d1);
    LikeLevel(us[1..], rest', d1);
    SameUnit(us, us', d, d1);
    TighterSame([NormalUnit(us, d)]);
    TighterJoin([NormalUnit(us, d)], rest', [NormalUnit(us, d)], NormalUnits(rest', d1));
  }

  lemma {:induction false} SameUnit(us: seq<Unit>, us': seq<Unit>, d: nat, d1: nat)
    requires us != [] && us' != [] && us'[0] == NormalUnit(us, d) && d1 == DepthAfter(us[0].item, d)
    requires var i := NormalItem(us[0].item, d);
             && NormalItem(i, d) == i && ItemSource(i, d) == ItemSource(us[0].item, d)
             && DepthAfter(i, d) == d1 && EndsLine(i) == EndsLine(us[0].item)
    requires |us'[1..]| == |us[1..]|
    requires us[1..] != [] ==> LevelOf(us'[1..][0].item, d1) == LevelOf(us[1..][0].item, d1)
    ensures NormalUnit(us', d) == NormalUnit(us, d)
  {
    hide NormalItem, ItemSource, DepthAfter, EndsLine, LayText, GapBefore, LevelOf;
    GapBack(EndsLine(us[0].item), us[0].after, d1, us[1..], us'[1..]);
  }
}
