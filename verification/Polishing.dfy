/** Documents as the final clean-up leaves them: comments and raw bodies polished, the rest kept.
    Polishing a printed document and printing it again commute. */
module Polishing {
  import opened Text
  import opened Tokens
  import opened Lexing
  import opened LexingProps
  import opened Lexemes
  import opened Layout
  import opened Cleanup
  import opened Neatness
  import opened Needles
  import opened Gaps
  import opened GapFix
  import opened Runs
  import opened NormalForm
  import opened PrintedForm
  import opened Relex
  import opened Stable

  // ----- raw bodies -----

  predicate EndsLineBreak(s: string) { s != [] && s[|s| - 1] == '\n' }

  /** What polishing leaves of text behind a line break. */
  function Inner(z: string): string { DropTrailing(CapNewlines(z, 1)) }

  lemma {:induction false} PolishedBreak(z: string)
    ensures Polished("\n" + z) == "\n" + Inner(z)
  {
    var s := "\n" + z;
    assert s[1..] == z;
    CapTurnOf(s, 0);
    hide CapNewlines, DropTrailing;
    var x := CapNewlines(z, 1);
    assert CapNewlines(s, 0) == "\n" + x;
    DropTurn("\n" + x);
    assert ("\n" + x)[1..] == x;
  }

  lemma {:induction false} CapEndsBreak(y: string, run: nat)
    requires EndsLineBreak(y)
    ensures CapNewlines(y, run) == [] || EndsLineBreak(CapNewlines(y, run))
    ensures run <= 1 ==> CapNewlines(y, run) != []
  {
    CapTurnOf(y, run);
    hide CapNewlines;
    var run' := if y[0] == '\n' then run + 1 else 0;
    if |y| > 1 {
      CapEndsBreak(y[1..], run');
    } else {
      assert y[1..] == [];
      CapNothingAt(run');
    }
  }

  lemma {:induction false} ToBreakBefore(a: string, b: string)
    requires EndsLineBreak(a)
    ensures ToBreak(a + b) == ToBreak(a)
  {
    var s := a + b;
    assert s[0] == a[0] && s[1..] == a[1..] + b;
    if |a| > 1 { ToBreakBefore(a[1..], b); }
  }

  lemma {:induction false} DropAfterBreak(a: string, b: string)
    requires EndsLineBreak(a)
    ensures DropTrailing(a + b) == DropTrailing(a) + DropTrailing(b) && EndsLineBreak(DropTrailing(a))
  {
    hide *;
    BreakEnd(a);
    ToBreakBefore(a, b);
    DropTurn(a);
    DropTurn(a + b);
    assert (a + b)[0] == a[0] && (a + b)[1..] == a[1..] + b;
    var x := if a[0] != '\n' && ToBreak(a) then [] else [a[0]];
    if |a| > 1 {
      DropAfterBreak(a[1..], b);
      BehindEnds(x, DropTrailing(a[1..]));
      assert x + (DropTrailing(a[1..]) + DropTrailing(b)) == x + DropTrailing(a[1..]) + DropTrailing(b);
    } else {
      assert a[1..] == [] && [] + b == b && x + [] == x;
      OneBreak(x);
    }
  }

  lemma {:induction false} BreakEnd(a: string)
    requires EndsLineBreak(a)
    ensures a != [] && (|a| > 1 ==> EndsLineBreak(a[1..])) && (|a| == 1 ==> a[0] == '\n')
  {}

  lemma {:induction false} BehindEnds(x: string, y: string)
    requires EndsLineBreak(y)
    ensures EndsLineBreak(x + y)
  {}

  lemma {:induction false} OneBreak(x: string)
    ensures x == ['\n'] ==> EndsLineBreak(x)
  {}

  /** The last line of a text behind a line break is kept. */
  lemma {:induction false} InnerTail(y: string, w: string)
    requires '\n' !in w && (y == [] || EndsLineBreak(y))
    ensures Inner(y + w) == Inner(y) + w && (if y == [] then Inner(y) == [] else EndsLineBreak(Inner(y)))
  {
    NeatOneLine(w);
    NeatCapped(w, 0);
    CapNothing(w, 0);
    DropNothingIff(w);
    CapJoin(y, w, 1);
    hide CapNewlines, DropTrailing;
    if y == [] {
      CapNothingAt(1);
      DropTurn("x");
      assert [] + w == w;
    } else {
      CapEndsBreak(y, 1);
      DropAfterBreak(CapNewlines(y, 1), w);
    }
  }

  /** A text cut after its last line break. */
  lemma {:induction false} LastLine(z: string) returns (y: string, w: string)
    ensures z == y + w && '\n' !in w && (y == [] || EndsLineBreak(y))
  {
    LastNewlineIs(z);
    match LastNewline(z)
    case None =>
      y, w := [], z;
    case Some(i) =>
      y, w := z[..i + 1], z[i + 1..];
  }

  lemma {:induction false} LastNewlineAt(y: string, w: string)
    requires '\n' !in w && (y == [] || EndsLineBreak(y))
    ensures LastNewline(y + w) == if y == [] then None else Some(|y| - 1)
    decreases |w|
  {
    var s := y + w;
    if w == [] {
      assert s == y;
    } else {
      var n := |w| - 1;
      assert w[n] in w && s[|s| - 1] == w[n];
      assert s[..|s| - 1] == y + w[..n];
      LastNewlineAt(y, w[..n]);
    }
  }

  lemma {:induction false} RawBodyCut(y: string, w: string)
    requires '\n' !in w && (y == [] || EndsLineBreak(y))
    ensures RawBody("\n" + (y + w)) == if y != [] && Trim(w) == [] then y else y + w
  {
    LastNewlineAt(y, w);
    hide LastNewline, Trim;
    var s := "\n" + (y + w);
    assert s[1..] == y + w;
    if y != [] { assert (y + w)[|y|..] == w && (y + w)[..|y|] == y; }
  }

  /** The last line of a raw body, indented for its end tag when it is blank. */
  function LastPart(y: string, w: string, d: nat): string { if y != [] && Trim(w) == [] then Indent(d) else w }

  lemma {:induction false} RawGapOf(s: string, d: nat)
    requires Trim(s) != []
    ensures RawGap(s, d) == "\n" + RawBody(s) + (if EndsWith(RawBody(s), "\n") then Indent(d) else [])
  {
    hide Trim, RawBody, Indent, EndsWith;
  }

  lemma {:induction false} OpenEnd(y: string, w: string)
    requires '\n' !in w && Trim("\n" + (y + w)) != [] && !(y != [] && Trim(w) == [])
    ensures !EndsWith(y + w, "\n")
  {
    EndsInNewline(y + w);
    NothingTrims();
    BlankTrims("\n");
    hide Trim;
    if w != [] {
      assert w[|w| - 1] in w;
    } else {
      assert y + w == [] && "\n" + (y + w) == "\n";
    }
  }

  lemma {:induction false} Regroup3(a: string, b: string, c: string)
    ensures a + b + c == a + (b + c) && a + b + [] == a + b
  {}

  lemma {:induction false} LastPartIs(y: string, w: string, d: nat)
    ensures LastPart(y, w, d) == if y != [] && Trim(w) == [] then Indent(d) else w
    ensures EndsLineBreak(y) ==> EndsWith(y, "\n")
  {
    EndsInNewline(y);
    hide Trim, Indent;
  }

  lemma {:induction false} RawGapCut(y: string, w: string, d: nat)
    requires '\n' !in w && (y == [] || EndsLineBreak(y)) && Trim("\n" + (y + w)) != []
    ensures RawGap("\n" + (y + w), d) == "\n" + (y + LastPart(y, w, d))
  {
    hide *;
    RawBodyCut(y, w);
    LastPartIs(y, w, d);
    RawGapOf("\n" + (y + w), d);
    if y != [] && Trim(w) == [] {
      Regroup3("\n", y, Indent(d));
    } else {
      OpenEnd(y, w);
      Regroup3("\n", y + w, []);
    }
  }

  lemma {:induction false} BlankGapIs(g: string, d: nat)
    requires Trim(g) == []
    ensures RawGap(g, d) == "\n" + Indent(d) && Polished(RawGap(g, d)) == RawGap(g, d)
  {
    IndentChars(d);
    NeatBreak(Indent(d));
    PolishedIff("\n" + Indent(d));
  }

  lemma {:induction false} PolishedTrims(g: string)
    ensures Trim(Polished(g)) == [] <==> Trim(g) == []
  {
    PolishedBlank(g);
    BlankTrims(g);
    BlankTrims(Polished(g));
  }

  lemma {:induction false} PartOneLine(y: string, w: string, d: nat)
    requires '\n' !in w
    ensures '\n' !in LastPart(y, w, d)
  {
    IndentChars(d);
    hide Indent, Trim;
  }

  /** Laying out a polished raw body is polishing its lay-out. */
  lemma {:induction false} RawGapPolished(g: string, d: nat)
    requires g == [] || "\n" <= g
    ensures RawGap(Polished(g), d) == Polished(RawGap(g, d))
  {
    hide *;
    PolishedTrims(g);
    if Trim(g) == [] {
      BlankGapIs(g, d);
      BlankGapIs(Polished(g), d);
    } else {
      assert g != [] by { NothingTrims(); }
      var z := g[1..];
      assert g == "\n" + z;
      var y, w := LastLine(z);
      PolishedBreak(z);
      InnerTail(y, w);
      var w' := LastPart(y, w, d);
      PartOneLine(y, w, d);
      RawGapCut(y, w, d);
      PolishedBreak(y + w');
      InnerTail(y, w');
      InnerNothing(y);
      RawGapCut(Inner(y), w, d);
      SamePart(y, Inner(y), w, d);
    }
  }

  lemma {:induction false} InnerNothing(y: string)
    requires if y == [] then Inner(y) == [] else EndsLineBreak(Inner(y))
    ensures Inner(y) == [] <==> y == []
  {}

  lemma {:induction false} SamePart(y: string, y': string, w: string, d: nat)
    requires y' == [] <==> y == []
    ensures LastPart(y', w, d) == LastPart(y, w, d)
  {}

  // ----- settling at once -----

  /** A raw body that one clean-up settles; the brackets stand for the tags around it. */
  predicate BodySettles(body: string) { Trim(body) == [] || SettlesAtOnce(">\n" + RawBody(body) + "<") }

  lemma {:induction false} Bracketed(x: string)
    ensures Firm(">" + x + "<") && Polished(">" + x + "<") == ">" + Polished(x) + "<"
  {
    hide Polished;
    PolishedBehind(">", x);
    PolishedBefore(">" + x, "<");
  }

  lemma {:induction false} BracketedTwice(x: string)
    ensures var c := ">" + x + "<";
            Firm(c) && (Polished(Polished(c)) == Polished(c) <==> Polished(Polished(x)) == Polished(x))
  {
    hide Polished, Firm;
    Bracketed(x);
    Bracketed(Polished(x));
    var p, q := Polished(x), Polished(Polished(x));
    if ">" + q + "<" == ">" + p + "<" {
      assert |q| == |p|;
      assert (">" + q + "<")[1..|q| + 1] == q && (">" + p + "<")[1..|p| + 1] == p;
    }
  }

  lemma {:induction false} LaidBody(body: string, d: nat) returns (tail: string)
    requires Trim(body) != []
    ensures RawGap(body, d) == "\n" + (RawBody(body) + tail) && '\n' !in tail
    ensures tail == [] || EndsLineBreak(RawBody(body))
  {
    IndentChars(d);
    EndsInNewline(RawBody(body));
    hide RawBody, Indent, Trim, EndsWith;
    tail := if EndsWith(RawBody(body), "\n") then Indent(d) else [];
    assert "\n" + RawBody(body) + tail == "\n" + (RawBody(body) + tail);
  }

  lemma {:induction false} PolishedBody(b: string, tail: string)
    requires '\n' !in tail && (tail == [] || EndsLineBreak(b))
    ensures Polished("\n" + (b + tail)) == "\n" + (Inner(b) + tail)
    ensures tail == [] || EndsLineBreak(Inner(b))
  {
    PolishedBreak(b + tail);
    hide *;
    if tail == [] {
      assert b + tail == b && Inner(b) + tail == Inner(b);
    } else {
      InnerTail(b, tail);
      BreakEnd(b);
    }
  }

  lemma {:induction false} GapSettlesIff(body: string, d: nat)
    ensures Polished(Polished(RawGap(body, d))) == Polished(RawGap(body, d)) <==> BodySettles(body)
  {
    if Trim(body) == [] {
      hide *;
      BlankGapIs(body, d);
      BlankSettles(body);
    } else {
      hide *;
      var b := RawBody(body);
      var tail := LaidBody(body, d);
      PolishedBody(b, tail);
      PolishedBody(Inner(b), tail);
      assert b + [] == b && Inner(b) + [] == Inner(b) && Inner(Inner(b)) + [] == Inner(Inner(b));
      PolishedBody(b, []);
      PolishedBody(Inner(b), []);
      SameBehindBreak(Inner(Inner(b)), Inner(b), tail);
      SameBehindBreak(Inner(Inner(b)), Inner(b), []);
      BracketedTwice("\n" + b);
      var c := ">" + ("\n" + b) + "<";
      assert c == ">\n" + b + "<";
      PolishedTwiceIff(c);
      BodySettlesIs(body);
    }
  }

  lemma {:induction false} BlankSettles(body: string)
    requires Trim(body) == []
    ensures BodySettles(body)
  {}

  lemma {:induction false} BodySettlesIs(body: string)
    requires Trim(body) != []
    ensures BodySettles(body) <==> SettlesAtOnce(">\n" + RawBody(body) + "<")
  {
    hide RawBody, SettlesAtOnce;
  }

  lemma {:induction false} SameBehindBreak(x: string, y: string, tail: string)
    ensures "\n" + (x + tail) == "\n" + (y + tail) <==> x == y
  {
    if "\n" + (x + tail) == "\n" + (y + tail) {
      assert |x| == |y|;
      assert x == ("\n" + (x + tail))[1..|x| + 1] && y == ("\n" + (y + tail))[1..|y| + 1];
    }
  }

  // ----- polished lexemes -----

  predicate IsCommentItem(i: Item) { i.Single? && IsComment(i.token) }

  function PolishComment(t: Token): (r: Token)
    requires IsComment(t)
    ensures IsComment(r) && r.raw == Polished(t.raw) && r.HtmlComment? == t.HtmlComment?
  {
    if t.HtmlComment? then HtmlComment(Polished(t.raw)) else HbsComment(Polished(t.raw))
  }

  /** A lexeme as the clean-up leaves it: comments and raw bodies are polished. */
  function PolishItem(i: Item): Item {
    if i.Raw? then Raw(i.name, i.attrsRaw, Polished(i.body))
    else if IsComment(i.token) then Single(PolishComment(i.token))
    else i
  }

  function PolishUnit(u: Unit): Unit { Unit(PolishItem(u.item), Polished(u.src), u.after) }

  function PolishUnits(us: seq<Unit>): (r: seq<Unit>)
    ensures |r| == |us|
  {
    if us == [] then [] else [PolishUnit(us[0])] + PolishUnits(us[1..])
  }

  lemma {:induction false} PolishAt(us: seq<Unit>, k: nat)
    requires k < |us|
    ensures PolishUnits(us)[k] == PolishUnit(us[k])
  {
    hide PolishUnit;
    if k > 0 { PolishAt(us[1..], k - 1); }
  }

  lemma {:induction false} PolishAppend(a: seq<Unit>, b: seq<Unit>)
    ensures PolishUnits(a + b) == PolishUnits(a) + PolishUnits(b)
  {
    hide PolishUnit;
    if a == [] {
      assert a + b == b;
    } else {
      assert (a + b)[1..] == a[1..] + b;
      PolishAppend(a[1..], b);
    }
  }

  lemma {:induction false} PolishDrop(us: seq<Unit>, n: nat)
    requires n <= |us|
    ensures PolishUnits(us[n..]) == PolishUnits(us)[n..] && PolishUnits(us[..n]) == PolishUnits(us)[..n]
  {
    hide PolishUnits;
    assert us == us[..n] + us[n..];
    PolishAppend(us[..n], us[n..]);
  }

  lemma {:induction false} PolishHead(us: seq<Unit>)
    requires us != []
    ensures PolishUnits(us)[0] == PolishUnit(us[0]) && PolishUnits(us)[1..] == PolishUnits(us[1..])
    ensures PolishUnits(us)[0].after == us[0].after && PolishUnits(us)[0].item == PolishItem(us[0].item)
  {
    hide PolishItem, Polished;
  }

  /** Printed outside a raw body and a comment, at any depth, there is nothing to clean up. */
  predicate PlainAt(t: Token, d: nat) {
    Neat(TokenSource(t, d)) && Firm(TokenSource(t, d)) && Neat(TextOf(t)) && Firm(TextOf(t))
  }

  ghost predicate PlainToken(t: Token) { forall d: nat :: PlainAt(t, d) }

  /** Every lexeme of a printed document: raw bodies start with a line break. */
  ghost predicate Polishable(i: Item) {
    if IsCommentItem(i) then Firm(i.token.raw)
    else
      && PlainToken(OpenerOf(i))
      && (i.Raw? ==> (i.body == [] || "\n" <= i.body) && NameLen(i.name) == |i.name|)
  }

  ghost predicate AllPolishable(us: seq<Unit>) { forall u <- us :: Polishable(u.item) }

  lemma {:induction false} PolishableDrop(us: seq<Unit>, n: nat)
    requires AllPolishable(us) && n <= |us|
    ensures AllPolishable(us[n..]) && (us != [] ==> Polishable(us[0].item))
  {
    hide Polishable;
    forall u | u in us[n..] ensures u in us {}
  }

  lemma {:induction false} RawPolished(start: string, gap: string, name: string)
    requires Neat(start) && Firm(start) && NameLen(name) == |name|
    ensures Polished(start + gap + EndTag(name)) == start + Polished(gap) + EndTag(name)
  {
    NamePlain(name);
    EndTagPlain(name);
    PolishedIff(start);
    hide Polished, EndTag, NoSpaces, Neat;
    PolishedJoin(start, gap);
    PolishedBefore(start + gap, EndTag(name));
  }

  lemma {:induction false} PlainIs(t: Token, d: nat)
    requires PlainToken(t)
    ensures Neat(TokenSource(t, d)) && Firm(TokenSource(t, d)) && Neat(TextOf(t)) && Firm(TextOf(t))
  {
    assert PlainAt(t, d);
    hide Neat, Firm, TokenSource, TextOf;
  }

  lemma {:induction false} CommentSource(t: Token, d: nat)
    requires IsComment(t)
    ensures TokenSource(t, d) == t.raw && TextOf(t) == t.raw && NormalToken(t, d) == t && InlineAttrs(t) == t
    ensures TokenText(t) == Ok(t.raw) && InlineOpener(t) == Ok(None) && !OpensElement(t) && !OpensBlock(t)
  {}

  lemma {:induction false} NoCommentPrinted(t: Token, d: nat)
    requires !IsComment(t)
    ensures !IsComment(NormalToken(t, d)) && !IsComment(InlineAttrs(t))
  {
    hide TextOf, AttrsAt, Spaced, RenderingsOf, SlashClosed;
  }

  lemma {:induction false} BodyLaid(item: Item, d: nat)
    requires item.Raw?
    ensures ItemSource(item, d) == TokenSource(RawStart(item), d) + RawGap(item.body, d) + EndTag(item.name)
    ensures RawStart(PolishItem(item)) == RawStart(item) && PolishItem(item).Raw?
    ensures PolishItem(item).body == Polished(item.body) && PolishItem(item).name == item.name
    ensures NormalItem(item, d) == Raw(item.name, AttrsAt(item.attrsRaw, d), RawGap(item.body, d))
    ensures NormalItem(PolishItem(item), d) == Raw(item.name, AttrsAt(item.attrsRaw, d), RawGap(Polished(item.body), d))
    ensures PolishItem(NormalItem(item, d)) == Raw(item.name, AttrsAt(item.attrsRaw, d), Polished(RawGap(item.body, d)))
  {
    hide TokenSource, RawGap, EndTag, AttrsAt, Polished;
  }

  /** Printing a polished lexeme is polishing the printed lexeme. */
  lemma {:induction false} SourcePolished(i: Item, d: nat)
    requires Polishable(i)
    ensures ItemSource(PolishItem(i), d) == Polished(ItemSource(i, d))
    ensures NormalItem(PolishItem(i), d) == PolishItem(NormalItem(i, d))
  {
    if i.Raw? {
      hide *;
      RawSourcePolished(i, d);
    } else if IsComment(i.token) {
      CommentSource(i.token, d);
      CommentSource(PolishComment(i.token), d);
      hide Polished, TokenSource, NormalToken;
    } else {
      PlainIs(i.token, d);
      PolishedIff(TokenSource(i.token, d));
      NoCommentPrinted(i.token, d);
      hide Polished, TokenSource, NormalToken, Neat, Firm;
    }
  }

  lemma {:induction false} RawSourcePolished(i: Item, d: nat)
    requires i.Raw? && Polishable(i)
    ensures ItemSource(PolishItem(i), d) == Polished(ItemSource(i, d))
    ensures NormalItem(PolishItem(i), d) == PolishItem(NormalItem(i, d))
  {
    RawParts(i);
    hide *;
    PlainIs(RawStart(i), d);
    BodyLaid(i, d);
    BodyLaid(PolishItem(i), d);
    RawGapPolished(i.body, d);
    RawPolished(TokenSource(RawStart(i), d), RawGap(i.body, d), i.name);
  }

  lemma {:induction false} RawParts(i: Item)
    requires i.Raw? && Polishable(i)
    ensures PlainToken(RawStart(i)) && (i.body == [] || "\n" <= i.body) && NameLen(i.name) == |i.name|
  {
    hide PlainToken, NameLen;
  }

  /** In an inline run, comments are on one line and raw bodies are empty. */
  predicate RunMember(i: Item) { if i.Raw? then i.body == [] else IsComment(i.token) ==> '\n' !in i.token.raw }

  lemma {:induction false} MemberPolished(i: Item)
    requires Polishable(i) && RunMember(i)
    ensures PolishItem(i) == i && PolishItem(InlineItem(i)) == InlineItem(i) && Polished(InlineSource(i)) == InlineSource(i)
  {
    PolishedOneLine([]);
    if i.Raw? {
      RawParts(i);
      PlainIs(RawStart(i), 0);
      RawPolished(TextOf(RawStart(i)), [], i.name);
      hide Polished, TextOf, Spaced, RenderingsOf, EndTag, Neat, Firm;
    } else if IsComment(i.token) {
      PolishedOneLine(i.token.raw);
      CommentSource(i.token, 0);
      hide Polished, TextOf, InlineAttrs;
    } else {
      PlainIs(i.token, 0);
      PolishedIff(TextOf(i.token));
      NoCommentPrinted(i.token, 0);
      hide Polished, TextOf, InlineAttrs, Neat, Firm;
    }
  }

  // ----- the same decisions -----

  lemma {:induction false} PolishedKind(i: Item)
    ensures var i' := PolishItem(i);
            && i'.Raw? == i.Raw? && OpensLevel(i') == OpensLevel(i) && EndsLine(i') == EndsLine(i)
            && SingleLineItem(i') == SingleLineItem(i) && InlineOpener(OpenerOf(i')) == InlineOpener(OpenerOf(i))
            && (i.Single? ==> i'.token.HbsElse? == i.token.HbsElse? && forall n :: i'.token == HtmlEnd(n) <==> i.token == HtmlEnd(n))
    ensures forall d: nat :: DepthAfter(PolishItem(i), d) == DepthAfter(i, d) && LevelOf(PolishItem(i), d) == LevelOf(i, d)
  {
    if i.Single? && IsComment(i.token) {
      PolishedChars(i.token.raw);
      CommentSource(i.token, 0);
      CommentSource(PolishComment(i.token), 0);
    }
    hide Polished, InlineOpener, IsVoid;
  }

  lemma {:induction false} PolishedRenders(i: Item)
    requires ItemRenders(i)
    ensures ItemRenders(PolishItem(i))
  {
    hide Polished, ParseAttributes, RenderAttrs, IsRawContent;
  }

  lemma {:induction false} PolishedUnitsRender(us: seq<Unit>)
    requires Renders(us)
    ensures Renders(PolishUnits(us))
  {
    hide ItemRenders, PolishItem;
    forall u | u in PolishUnits(us) ensures ItemRenders(u.item) {
      var k :| 0 <= k < |us| && PolishUnits(us)[k] == u;
      PolishAt(us, k);
      assert us[k] in us;
      PolishedRenders(us[k].item);
    }
  }

  lemma {:induction false} PolishedEnd(us: seq<Unit>, name: string)
    ensures RunEnd(PolishUnits(us), name) == RunEnd(us, name)
  {
    if us != [] {
      PolishHead(us);
      PolishedKind(us[0].item);
      PolishedEnd(us[1..], name);
      RawOpens(us[0].item);
      RawOpens(PolishItem(us[0].item));
      hide PolishItem, OpensLevel, PolishUnits;
    }
  }

  lemma {:induction false} RawOpens(i: Item)
    ensures i.Raw? ==> OpensLevel(i)
  {}

  lemma {:induction false} PolishedSingle(x: string, us: seq<Unit>, j: nat)
    requires j <= |us|
    ensures RunSingle(x, PolishUnits(us), j) == RunSingle(x, us, j)
    decreases j
  {
    if j > 0 {
      PolishHead(us);
      PolishedKind(us[0].item);
      PolishedSingle(us[0].after, us[1..], j - 1);
      hide PolishItem, SpansLines, SingleLineItem, PolishUnits;
    }
  }

  lemma {:induction false} SingleHead(x: string, us: seq<Unit>, j: nat)
    requires 0 < j <= |us| && RunSingle(x, us, j)
    ensures us[0].item.Single? && RunMember(us[0].item) && RunSingle(us[0].after, us[1..], j - 1)
  {
    hide SpansLines;
  }

  lemma {:induction false} PolishedMember(i: Item)
    requires RunMember(i)
    ensures PolishItem(i) == i
  {
    PolishedOneLine(if i.Single? && IsComment(i.token) then i.token.raw else []);
    hide Polished;
  }

  lemma {:induction false} PolishedBodies(x: string, us: seq<Unit>, j: nat)
    requires j <= |us| && RunSingle(x, us, j) && RunReady(us, j) && RunReady(PolishUnits(us), j)
    ensures RunBody(x, PolishUnits(us), j) == RunBody(x, us, j)
    decreases j
  {
    hide *;
    if j == 0 {
      RunBodyNothing(x, us);
      RunBodyNothing(x, PolishUnits(us));
    } else {
      PolishHead(us);
      SingleHead(x, us, j);
      PolishedMember(us[0].item);
      RunReadyTail(us, j);
      RunReadyTail(PolishUnits(us), j);
      RunBodyHead(x, us, j);
      RunBodyHead(x, PolishUnits(us), j);
      PolishedBodies(us[0].after, us[1..], j - 1);
    }
  }

  lemma {:induction false} PolishedEmpty(i: Item)
    requires i.Raw? && Polishable(i)
    ensures PolishItem(i).Raw? && PolishItem(i).name == i.name && RawStart(PolishItem(i)) == RawStart(i)
    ensures PolishItem(i).body == [] <==> i.body == []
  {
    PolishedChars(i.body);
    PolishedOneLine([]);
    hide Polished, PlainToken;
    if "\n" <= i.body { assert i.body[0] in i.body; }
  }

  /** The same inline runs are found in the polished document. */
  lemma {:induction false} PolishedTry(us: seq<Unit>, d: nat)
    requires us != [] && Renders(us) && Renders(PolishUnits(us)) && Polishable(us[0].item)
    ensures TryUnit(PolishUnits(us), d) == TryUnit(us, d)
  {
    PolishedKind(us[0].item);
    hide *;
    PolishHead(us);
    var us' := PolishUnits(us);
    var o := InlineOpener(OpenerOf(us[0].item));
    if !o.Ok? || o.value.None? {
      TryNothing(us, d);
      TryNothing(us', d);
    } else if us[0].item.Raw? {
      PolishedEmpty(us[0].item);
      TryRaw(us, d);
      TryRaw(us', d);
    } else {
      PolishedTrySingle(us, d);
    }
  }

  lemma {:induction false} OpenerKept(i: Item)
    requires i.Single? && InlineOpener(OpenerOf(i)).Ok? && InlineOpener(OpenerOf(i)).value.Some?
    ensures PolishItem(i) == i && OpenerOf(i) == i.token
  {
    if IsComment(i.token) { CommentSource(i.token, 0); }
    hide InlineOpener;
  }

  lemma {:induction false} PolishedTrySingle(us: seq<Unit>, d: nat)
    requires us != [] && Renders(us) && Renders(PolishUnits(us)) && us[0].item.Single?
    requires InlineOpener(OpenerOf(us[0].item)).Ok? && InlineOpener(OpenerOf(us[0].item)).value.Some?
    ensures TryUnit(PolishUnits(us), d) == TryUnit(us, d)
  {
    hide *;
    PolishHead(us);
    OpenerKept(us[0].item);
    var us' := PolishUnits(us);
    var t := us[0].item.token;
    TrySingle(us, d);
    TrySingle(us', d);
    PolishedEnd(us[1..], t.name);
    RunEndFits(us[1..], t.name);
    var e := RunEnd(us[1..], t.name);
    if e.Some? {
      PolishedSingle(us[0].after, us[1..], e.value);
      if RunSingle(us[0].after, us[1..], e.value) {
        PolishedBodies(us[0].after, us[1..], e.value);
      }
    }
  }

  // ----- printing a polished document -----

  predicate RunMembersOf(us: seq<Unit>, n: nat) { n <= |us| && forall k | 0 <= k < n :: RunMember(us[k].item) }

  lemma {:induction false} SinglesAreMembers(x: string, us: seq<Unit>, j: nat)
    requires j <= |us| && RunSingle(x, us, j)
    ensures RunMembersOf(us, j)
    decreases j
  {
    if j > 0 {
      SingleHead(x, us, j);
      SinglesAreMembers(us[0].after, us[1..], j - 1);
      hide RunMember, RunSingle;
      forall k | 0 <= k < j ensures RunMember(us[k].item) { if k > 0 { assert us[1..][k - 1] == us[k]; } }
    }
  }

  lemma {:induction false} RunIsMembers(us: seq<Unit>, d: nat, r: UnitRun)
    requires us != [] && Renders(us) && TryUnit(us, d) == Some(r)
    ensures 1 <= r.units && RunMembersOf(us, r.units)
  {
    hide *;
    if us[0].item.Raw? {
      RawRunIs(us, d, r);
      OneMember(us);
    } else {
      var opener, j := RunParts(us, d);
      var t := us[0].item.token;
      RunEndIs(us[1..], t.name, j);
      SinglesAreMembers(us[0].after, us[1..], j);
      AllMembers(us, t.name, j);
    }
  }

  lemma {:induction false} OneMember(us: seq<Unit>)
    requires us != [] && us[0].item.Raw? && us[0].item.body == []
    ensures RunMembersOf(us, 1)
  {}

  lemma {:induction false} RunEndIs(us: seq<Unit>, name: string, j: nat)
    requires RunEnd(us, name) == Some(j)
    ensures j < |us| && us[j].item == Single(HtmlEnd(name))
  {
    hide OpensLevel;
  }

  lemma {:induction false} AllMembers(us: seq<Unit>, name: string, j: nat)
    requires us != [] && us[0].item.Single? && us[0].item.token.HtmlStart?
    requires j + 1 < |us| && us[1..][j].item == Single(HtmlEnd(name)) && RunMembersOf(us[1..], j)
    ensures RunMembersOf(us, j + 2)
  {
    forall k | 0 <= k < j + 2 ensures RunMember(us[k].item) {
      if k > 0 { assert us[1..][k - 1] == us[k]; }
    }
  }

  lemma {:induction false} MembersTail(us: seq<Unit>, n: nat)
    requires 0 < n && RunMembersOf(us, n)
    ensures us != [] && RunMember(us[0].item) && RunMembersOf(us[1..], n - 1)
  {
    hide RunMember;
    forall k | 0 <= k < n - 1 ensures RunMember(us[1..][k].item) { assert us[1..][k] == us[k + 1]; }
  }

  /** An inline run has nothing to polish. */
  lemma {:induction false} RunPolished(us: seq<Unit>, n: nat, last: string)
    requires 1 <= n <= |us| && AllPolishable(us) && RunMembersOf(us, n)
    ensures RunUnits(PolishUnits(us), n, last) == RunUnits(us, n, last)
    ensures PolishUnits(RunUnits(us, n, last)) == RunUnits(us, n, last)
    decreases n
  {
    hide *;
    PolishHead(us);
    MembersTail(us, n);
    PolishableDrop(us, 1);
    MemberPolished(us[0].item);
    RunUnitsTurn(us, n, last);
    RunUnitsTurn(PolishUnits(us), n, last);
    var i, src := InlineItem(us[0].item), InlineSource(us[0].item);
    UnitPolished(i, src, if n == 1 then last else CollapseInline(us[0].after));
    if n == 1 {
      OnePolished(Unit(i, src, last));
    } else {
      RunPolished(us[1..], n - 1, last);
      var u := Unit(i, src, CollapseInline(us[0].after));
      OnePolished(u);
      PolishAppend([u], RunUnits(us[1..], n - 1, last));
    }
  }

  lemma {:induction false} UnitPolished(i: Item, src: string, after: string)
    requires PolishItem(i) == i && Polished(src) == src
    ensures PolishUnit(Unit(i, src, after)) == Unit(i, src, after)
  {
    hide PolishItem, Polished;
  }

  lemma {:induction false} OnePolished(u: Unit)
    ensures PolishUnits([u]) == [PolishUnit(u)]
  {
    hide PolishUnit;
    assert [u][1..] == [];
  }

  lemma {:induction false} SameGap(lay: Lay, d: nat, rest: seq<Unit>)
    ensures GapBefore(lay, d, PolishUnits(rest)) == GapBefore(lay, d, rest)
  {
    if rest != [] {
      PolishHead(rest);
      PolishedKind(rest[0].item);
      hide PolishUnits, PolishItem, LevelOf, GapText, Seal;
    }
  }

  lemma {:induction false} NormalPolished(us: seq<Unit>, d: nat)
    requires us != [] && Polishable(us[0].item)
    ensures NormalUnit(PolishUnits(us), d) == PolishUnit(NormalUnit(us, d))
    ensures DepthAfter(PolishUnits(us)[0].item, d) == DepthAfter(us[0].item, d)
  {
    var i := us[0].item;
    var d1 := DepthAfter(i, d);
    var lay := LayText(EndsLine(i), us[0].after);
    PolishedKind(i);
    hide *;
    PolishHead(us);
    SourcePolished(i, d);
    SameGap(lay, d1, us[1..]);
    NormalParts(us, d);
    NormalParts(PolishUnits(us), d);
    PolishParts(NormalItem(i, d), ItemSource(i, d), GapBefore(lay, d1, us[1..]));
  }

  lemma {:induction false} NormalParts(us: seq<Unit>, d: nat)
    requires us != []
    ensures NormalUnit(us, d)
         == Unit(NormalItem(us[0].item, d), ItemSource(us[0].item, d),
                 GapBefore(LayText(EndsLine(us[0].item), us[0].after), DepthAfter(us[0].item, d), us[1..]))
  {
    hide NormalItem, ItemSource, GapBefore, LayText, EndsLine, DepthAfter;
  }

  lemma {:induction false} PolishParts(i: Item, src: string, after: string)
    ensures PolishUnit(Unit(i, src, after)) == Unit(PolishItem(i), Polished(src), after)
  {
    hide PolishItem, Polished;
  }

  /** Printing a polished document is polishing the printed document. */
  lemma {:induction false} PolishCommutes(us: seq<Unit>, d: nat)
    requires Renders(us) && AllPolishable(us)
    ensures Renders(PolishUnits(us)) && NormalUnits(PolishUnits(us), d) == PolishUnits(NormalUnits(us, d))
    decreases |us|, 1
  {
    PolishedUnitsRender(us);
    if us != [] {
      if TryUnit(us, d).Some? {
        hide *;
        RunCommutes(us, d, TryUnit(us, d).value);
      } else {
        hide *;
        UnitCommutes(us, d);
      }
    }
  }

  lemma {:induction false} RunCommutes(us: seq<Unit>, d: nat, r: UnitRun)
    requires us != [] && Renders(us) && Renders(PolishUnits(us)) && AllPolishable(us) && TryUnit(us, d) == Some(r)
    ensures NormalUnits(PolishUnits(us), d) == PolishUnits(NormalUnits(us, d))
    decreases |us|, 0
  {
    hide *;
    RunIsMembers(us, d, r);
    MembersFit(us, r.units);
    var n, rest := r.units, us[r.units..];
    RendersDrop(us, n);
    PolishableDrop(us, n);
    PolishDrop(us, n);
    PolishAt(us, n - 1);
    PolishedTry(us, d);
    NormalRunHead(us, d, r);
    var us' := PolishUnits(us);
    RendersDrop(us', n);
    NormalRunHead(us', d, r);
    PolishCommutes(rest, d);
    AfterKept(us[n - 1]);
    var lay := LayText(true, us[n - 1].after);
    SameGap(lay, d, rest);
    var last := GapBefore(lay, d, rest);
    RunPolished(us, n, last);
    PolishAppend(RunUnits(us, n, last), NormalUnits(rest, d));
  }

  lemma {:induction false} MembersFit(us: seq<Unit>, n: nat)
    requires RunMembersOf(us, n)
    ensures n <= |us|
  {}

  lemma {:induction false} AfterKept(u: Unit)
    ensures PolishUnit(u).after == u.after
  {
    hide PolishItem, Polished;
  }

  lemma {:induction false} UnitCommutes(us: seq<Unit>, d: nat)
    requires us != [] && Renders(us) && Renders(PolishUnits(us)) && AllPolishable(us) && TryUnit(us, d).None?
    ensures NormalUnits(PolishUnits(us), d) == PolishUnits(NormalUnits(us, d))
    decreases |us|, 0
  {
    hide *;
    RendersDrop(us, 1);
    PolishableDrop(us, 1);
    PolishHead(us);
    PolishedTry(us, d);
    NormalHead(us, d);
    var us' := PolishUnits(us);
    RendersDrop(us', 1);
    NormalHead(us', d);
    NormalPolished(us, d);
    var d1 := DepthAfter(us[0].item, d);
    PolishCommutes(us[1..], d1);
    OnePolished(NormalUnit(us, d));
    PolishAppend([NormalUnit(us, d)], NormalUnits(us[1..], d1));
  }

  // ----- polished again -----

  lemma {:induction false} PolishedPolishable(i: Item)
    requires Polishable(i)
    ensures Polishable(PolishItem(i))
  {
    if i.Raw? {
      PolishedEmpty(i);
      BreakFirst(i.body);
    } else if IsComment(i.token) {
      PolishedFirm(i.token.raw);
    }
    hide Polished, PlainToken, NameLen, Firm;
  }

  lemma {:induction false} BreakFirst(g: string)
    ensures "\n" <= g ==> "\n" <= Polished(g)
  {
    if "\n" <= g {
      assert g == "\n" + g[1..];
      PolishedBreak(g[1..]);
    }
    hide Polished, Inner;
  }

  lemma {:induction false} PolishedAllPolishable(us: seq<Unit>)
    requires AllPolishable(us)
    ensures AllPolishable(PolishUnits(us))
  {
    hide Polishable, PolishItem;
    forall u | u in PolishUnits(us) ensures Polishable(u.item) {
      var k :| 0 <= k < |us| && PolishUnits(us)[k] == u;
      PolishAt(us, k);
      assert us[k] in us;
      PolishedPolishable(us[k].item);
    }
  }
}
