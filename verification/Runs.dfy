/** Inline runs seen from the document: the look-ahead over the flat token stream finds the same
    closer as a plain scan for the first end tag of the opener's name. */
module Runs {
  import opened Text
  import opened Tokens
  import opened Lexing
  import opened Layout

  /** Text tokens only ever come from the text between lexemes, raw elements have raw names. */
  predicate NoText(us: seq<Unit>) {
    forall u <- us :: match u.item
                      case Single(t) => !t.Text? && !t.RawText?
                      case Raw(name, _, _) => IsRawContent(name)
  }

  /** The start tag of a lexeme, if it is a raw element. */
  function RawStart(item: Item): Token
    requires item.Raw?
  {
    HtmlStart(item.name, item.attrsRaw, false)
  }

  predicate ItemRenders(item: Item) {
    match item
    case Single(t) => TokenText(t).Ok?
    case Raw(name, _, _) => TokenText(RawStart(item)).Ok? && IsRawContent(name)
  }

  predicate Renders(us: seq<Unit>) { forall u <- us :: ItemRenders(u.item) }

  predicate OpensLevel(item: Item) {
    item.Raw? || OpensElement(item.token) || OpensBlock(item.token)
  }

  /** The first end tag named `name`, if no level opens and no `{{else}}` stands before it. */
  function RunEnd(us: seq<Unit>, name: string): (r: Option<nat>)
    ensures r.Some? ==> r.value < |us| && us[r.value].item == Single(HtmlEnd(name))
    ensures r.Some? ==> forall k | 0 <= k < r.value :: !OpensLevel(us[k].item)
  {
    if us == [] || OpensLevel(us[0].item) || us[0].item.token.HbsElse? then None
    else if us[0].item.token == HtmlEnd(name) then Some(0)
    else Shift(RunEnd(us[1..], name), 1)
  }

  /** The tokens between the opener and the closer: `after` follows the opener, `us[j]` is the closer. */
  function RunTokens(after: string, us: seq<Unit>, j: nat): seq<Token>
    requires j <= |us|
    decreases j
  {
    TextTokens(after) + (if j == 0 then [] else ItemTokens(us[0].item) + RunTokens(us[0].after, us[1..], j - 1))
  }

  predicate SingleLineItem(item: Item) {
    item.Single? && (IsComment(item.token) ==> '\n' !in item.token.raw)
  }

  predicate RunSingle(after: string, us: seq<Unit>, j: nat)
    requires j <= |us|
    decreases j
  {
    !SpansLines(after) && (j > 0 ==> SingleLineItem(us[0].item) && RunSingle(us[0].after, us[1..], j - 1))
  }

  /** The first `j` lexemes are single tokens that render. */
  predicate RunReady(us: seq<Unit>, j: nat) {
    j <= |us| && forall k | 0 <= k < j :: us[k].item.Single? && TokenText(us[k].item.token).Ok?
  }

  function RunBody(after: string, us: seq<Unit>, j: nat): string
    requires RunReady(us, j)
    decreases j
  {
    CollapseInline(after)
    + (if j == 0 then [] else TokenText(us[0].item.token).value + RunBody(us[0].after, us[1..], j - 1))
  }

  datatype UnitRun = UnitRun(text: string, units: nat)

  function OpenerOf(item: Item): Token {
    if item.Raw? then RawStart(item) else item.token
  }

  function Fits(text: string, units: nat, d: nat): Option<UnitRun> {
    if '\n' in text || |text| + 2 * d > LINE_LIMIT then None else Some(UnitRun(text, units))
  }

  /** The inline run at the head of `us`. */
  function TryUnit(us: seq<Unit>, d: nat): (r: Option<UnitRun>)
    requires us != [] && Renders(us)
    ensures r.Some? ==> 1 <= r.value.units <= |us|
  {
    var t := OpenerOf(us[0].item);
    var opener := InlineOpener(t);
    if opener.IsFailure() || opener.value.None? then None
    else if us[0].item.Raw? then
      if us[0].item.body == [] then Fits(opener.value.value + EndTag(t.name), 1, d) else None
    else
      match RunEnd(us[1..], t.name)
      case None => None
      case Some(j) =>
        if !RunSingle(us[0].after, us[1..], j) then None
        else
          RunItemsRender(us, j, t.name);
          Fits(opener.value.value + RunBody(us[0].after, us[1..], j) + EndTag(t.name), j + 2, d)
  }

  lemma {:induction false} RunItemsRender(us: seq<Unit>, j: nat, name: string)
    requires us != [] && Renders(us) && RunEnd(us[1..], name) == Some(j)
    ensures RunReady(us[1..], j)
  {
    hide TokenText, OpensElement;
    forall k | 0 <= k < j ensures us[1..][k].item.Single? && TokenText(us[1..][k].item.token).Ok? {
      assert us[1..][k] in us;
      assert !OpensLevel(us[1..][k].item);
    }
  }

  // ----- the look-ahead over tokens -----

  lemma {:induction false} UnitsTokensHead(us: seq<Unit>)
    requires us != []
    ensures UnitsTokens(us) == ItemTokens(us[0].item) + TextTokens(us[0].after) + UnitsTokens(us[1..])
  {}

  /** Text and other tokens that neither open, close nor separate are passed over. */
  lemma {:induction false} CloserPasses(t: Token, ts: seq<Token>, name: string)
    requires Awaits(t).None? && Closes(t) != Some(ElementEnd(name)) && !t.HbsElse?
    ensures FindCloser([t] + ts, [ElementEnd(name)]) == Shift(FindCloser(ts, [ElementEnd(name)]), 1)
  {
    assert ([t] + ts)[1..] == ts;
  }

  lemma {:induction false} CloserPassesText(x: string, ts: seq<Token>, name: string)
    ensures FindCloser(TextTokens(x) + ts, [ElementEnd(name)]) == Shift(FindCloser(ts, [ElementEnd(name)]), |TextTokens(x)|)
  {
    hide FindCloser;
    if x == [] {
      assert TextTokens(x) + ts == ts;
    } else {
      CloserPasses(Text(x), ts, name);
    }
  }

  lemma {:induction false} RunEndTurn(us: seq<Unit>, name: string)
    requires us != []
    ensures !OpensLevel(us[0].item) ==> us[0].item.Single?
    ensures OpensLevel(us[0].item) ==> RunEnd(us, name).None?
    ensures !OpensLevel(us[0].item) ==>
              var t := us[0].item.token;
              && (t.HbsElse? ==> RunEnd(us, name).None?)
              && (t == HtmlEnd(name) ==> RunEnd(us, name) == Some(0))
              && (!t.HbsElse? && t != HtmlEnd(name) ==> RunEnd(us, name) == Shift(RunEnd(us[1..], name), 1))
  {
    hide OpensElement;
  }

  lemma {:induction false} LevelToken(t: Token, name: string)
    requires !OpensLevel(Single(t)) && t != HtmlEnd(name) && !t.HbsElse?
    ensures Awaits(t).None? && Closes(t) != Some(ElementEnd(name))
  {
    hide OpensElement;
  }

  lemma {:induction false} RunTokensHead(after: string, us: seq<Unit>, j: nat)
    requires 0 < j <= |us| && us[0].item.Single?
    ensures RunTokens(after, us, j) == TextTokens(after) + ([us[0].item.token] + RunTokens(us[0].after, us[1..], j - 1))
  {
    hide TextTokens;
  }

  lemma {:induction false} RunTokensNothing(after: string, us: seq<Unit>)
    ensures RunTokens(after, us, 0) == TextTokens(after)
  {
    hide TextTokens;
    assert TextTokens(after) + [] == TextTokens(after);
  }

  lemma {:induction false} Assemble(a: seq<Token>, t: Token, body: seq<Token>, e: Token, rest: seq<Token>)
    ensures a + ([t] + (body + [e] + rest)) == a + ([t] + body) + [e] + rest
    ensures |a + ([t] + body)| == |a| + (1 + |body|)
    ensures a + ([e] + rest) == a + [e] + rest
  {}

  /** The end tag found at `j` units past the text `after`. */
  predicate FoundAt(after: string, us: seq<Unit>, name: string, j: nat)
    requires j < |us|
  {
    && FindCloser(TextTokens(after) + UnitsTokens(us), [ElementEnd(name)]) == Some(|RunTokens(after, us, j)|)
    && TextTokens(after) + UnitsTokens(us)
       == RunTokens(after, us, j) + [HtmlEnd(name)] + (TextTokens(us[j].after) + UnitsTokens(us[j + 1..]))
  }

  lemma {:induction false} FoundHere(after: string, us: seq<Unit>, name: string)
    requires us != [] && us[0].item == Single(HtmlEnd(name))
    ensures FoundAt(after, us, name, 0)
  {
    hide FindCloser, TextTokens, UnitsTokens, RunTokens;
    var rest := TextTokens(us[0].after) + UnitsTokens(us[1..]);
    UnitTokens(us);
    CloserPassesText(after, UnitsTokens(us), name);
    CloserHere(name, rest);
    RunTokensNothing(after, us);
    Assemble(TextTokens(after), HtmlEnd(name), [], HtmlEnd(name), rest);
  }

  lemma {:induction false} FoundLater(after: string, us: seq<Unit>, name: string, j: nat)
    requires j + 1 < |us| && us[0].item.Single? && FoundAt(us[0].after, us[1..], name, j)
    requires !OpensLevel(us[0].item) && us[0].item.token != HtmlEnd(name) && !us[0].item.token.HbsElse?
    ensures FoundAt(after, us, name, j + 1)
  {
    hide FindCloser, TextTokens, UnitsTokens, RunTokens, OpensLevel;
    var t := us[0].item.token;
    var rest := TextTokens(us[0].after) + UnitsTokens(us[1..]);
    UnitTokens(us);
    CloserPassesText(after, UnitsTokens(us), name);
    LevelToken(t, name);
    CloserPasses(t, rest, name);
    var body := RunTokens(us[0].after, us[1..], j);
    RunTokensHead(after, us, j + 1);
    assert us[1..][j] == us[j + 1] && us[1..][j + 1..] == us[j + 2..];
    Assemble(TextTokens(after), t, body, HtmlEnd(name), TextTokens(us[j + 1].after) + UnitsTokens(us[j + 2..]));
  }

  lemma {:induction false} RunEndFits(us: seq<Unit>, name: string)
    ensures RunEnd(us, name).Some? ==> RunEnd(us, name).value < |us|
  {}

  lemma {:induction false} CloserFound(after: string, us: seq<Unit>, name: string)
    requires RunEnd(us, name).Some?
    ensures FoundAt(after, us, name, RunEnd(us, name).value)
    decreases |us|
  {
    hide *;
    RunEndFits(us, name);
    RunEndTurn(us, name);
    if us[0].item.token == HtmlEnd(name) {
      FoundHere(after, us, name);
    } else {
      ShiftIs(RunEnd(us[1..], name), 1);
      CloserFound(us[0].after, us[1..], name);
      FoundLater(after, us, name, RunEnd(us[1..], name).value);
    }
  }

  lemma {:induction false} NoTextTail(us: seq<Unit>)
    requires us != [] && NoText(us)
    ensures NoText(us[1..])
  {
    forall u | u in us[1..] ensures u in us {}
  }

  lemma {:induction false} UnitTokens(us: seq<Unit>)
    requires us != [] && us[0].item.Single?
    ensures UnitsTokens(us) == [us[0].item.token] + (TextTokens(us[0].after) + UnitsTokens(us[1..]))
  {}

  lemma {:induction false} CloserHere(name: string, rest: seq<Token>)
    ensures FindCloser([HtmlEnd(name)] + rest, [ElementEnd(name)]) == Some(0)
  {}

  lemma {:induction false} BodyWithOpener(ts: seq<Token>, k: nat, i: nat)
    requires i < k <= |ts| && (OpensElement(ts[i]) || OpensBlock(ts[i]))
    ensures !SingleLineBody(ts[..k])
  {
    assert ts[..k][i] in ts[..k];
  }

  lemma {:induction false} BodyTail(ts: seq<Token>, k: nat, n: nat)
    requires n <= k <= |ts| && !SingleLineBody(ts[n..][..k - n])
    ensures !SingleLineBody(ts[..k])
  {
    hide SingleLineToken;
    var t :| t in ts[n..][..k - n] && !SingleLineToken(t);
    assert t in ts[..k];
  }

  lemma {:induction false} ElseStops(t: Token, ts: seq<Token>, name: string)
    requires t.HbsElse?
    ensures FindCloser([t] + ts, [ElementEnd(name)]) == None
  {}

  lemma {:induction false} NothingCloses(name: string)
    ensures FindCloser([], [ElementEnd(name)]) == None
  {}

  lemma {:induction false} RestIs(a: seq<Token>, t: Token, rest: seq<Token>)
    ensures (a + ([t] + rest))[|a| + 1..] == rest && |a + ([t] + rest)| == |a| + 1 + |rest|
  {}

  lemma {:induction false} FoundInside(ts: seq<Token>, name: string)
    ensures var k := FindCloser(ts, [ElementEnd(name)]); k.Some? ==> k.value < |ts|
  {}

  lemma {:induction false} CloserMissed(after: string, us: seq<Unit>, name: string)
    requires RunEnd(us, name).None? && NoText(us)
    ensures var ts := TextTokens(after) + UnitsTokens(us);
            var k := FindCloser(ts, [ElementEnd(name)]);
            k.None? || !SingleLineBody(ts[..k.value])
    decreases |us|
  {
    if us == [] {
      NothingMissed(after, name);
    } else if OpensLevel(us[0].item) {
      OpenerInBody(after, us, name);
    } else {
      hide *;
      RunEndTurn(us, name);
      var t := us[0].item.token;
      var rest := TextTokens(us[0].after) + UnitsTokens(us[1..]);
      var ts := TextTokens(after) + UnitsTokens(us);
      var n := |TextTokens(after)|;
      UnitTokens(us);
      CloserPassesText(after, UnitsTokens(us), name);
      if t.HbsElse? {
        ElseStops(t, rest, name);
        ShiftIs(None, n);
      } else {
        ShiftIs(RunEnd(us[1..], name), 1);
        NoTextTail(us);
        CloserMissed(us[0].after, us[1..], name);
        LevelToken(t, name);
        CloserPasses(t, rest, name);
        var k := FindCloser(rest, [ElementEnd(name)]);
        ShiftIs(k, 1);
        ShiftIs(Shift(k, 1), n);
        RestIs(TextTokens(after), t, rest);
        FoundInside(rest, name);
        if k.Some? { BodyTail(ts, n + 1 + k.value, n + 1); }
      }
    }
  }

  lemma {:induction false} NothingMissed(after: string, name: string)
    ensures FindCloser(TextTokens(after) + UnitsTokens([]), [ElementEnd(name)]).None?
  {
    CloserPassesText(after, [], name);
    NothingCloses(name);
    hide FindCloser, TextTokens;
  }

  lemma {:induction false} OpenerInBody(after: string, us: seq<Unit>, name: string)
    requires us != [] && OpensLevel(us[0].item) && NoText(us)
    ensures var ts := TextTokens(after) + UnitsTokens(us);
            var k := FindCloser(ts, [ElementEnd(name)]);
            k.None? || !SingleLineBody(ts[..k.value])
  {
    hide IsVoid, IsRawContent;
    assert us[0] in us;
    if us[0].item.Raw? { RawIsNotVoid(us[0].item.name); }
    var ts := TextTokens(after) + UnitsTokens(us);
    var n := |TextTokens(after)|;
    CloserPassesText(after, UnitsTokens(us), name);
    UnitsTokensHead(us);
    var t := OpenerOf(us[0].item);
    assert UnitsTokens(us)[0] == t && ts[n] == t;
    var k := FindCloser(ts, [ElementEnd(name)]);
    if k.Some? {
      assert Awaits(t).Some?;
      BodyWithOpener(ts, k.value, n);
    }
  }

  // ----- the body of a run -----

  lemma {:induction false} SingleLineAppend(a: seq<Token>, b: seq<Token>)
    ensures SingleLineBody(a + b) <==> SingleLineBody(a) && SingleLineBody(b)
  {
    hide SingleLineToken;
    forall t | t in a || t in b ensures t in a + b {}
  }

  lemma {:induction false} TextSingleLine(x: string)
    ensures SingleLineBody(TextTokens(x)) <==> !SpansLines(x)
  {
    if x != [] { assert Text(x) in TextTokens(x); }
  }

  lemma {:induction false} BodySingle(after: string, us: seq<Unit>, j: nat)
    requires j <= |us| && NoText(us) && forall k | 0 <= k < j :: !OpensLevel(us[k].item)
    ensures SingleLineBody(RunTokens(after, us, j)) <==> RunSingle(after, us, j)
    decreases j
  {
    hide SpansLines, OpensElement, SingleLineBody;
    TextSingleLine(after);
    if j == 0 {
      assert TextTokens(after) + [] == TextTokens(after);
    } else {
      assert us[0] in us;
      forall u | u in us[1..] ensures u in us {}
      forall k | 0 <= k < j - 1 ensures !OpensLevel(us[1..][k].item) { assert us[1..][k] == us[k + 1]; }
      BodySingle(us[0].after, us[1..], j - 1);
      var t := us[0].item.token;
      var rest := RunTokens(us[0].after, us[1..], j - 1);
      SingleLineAppend(TextTokens(after), [t] + rest);
      SingleLineAppend([t], rest);
      OneSingleLine(t);
    }
  }

  lemma {:induction false} OneSingleLine(t: Token)
    requires !OpensLevel(Single(t)) && !t.Text? && !t.RawText?
    ensures SingleLineBody([t]) <==> SingleLineItem(Single(t))
  {
    assert t in [t];
  }

  lemma {:induction false} InlineBodyText(x: string, ts: seq<Token>, s: string)
    requires InlineBody(ts) == Ok(s)
    ensures InlineBody(TextTokens(x) + ts) == Ok(CollapseInline(x) + s)
  {
    hide CollapseInline;
    if x == [] {
      assert TextTokens(x) + ts == ts;
      CollapseNothing();
      assert [] + s == s;
    } else {
      assert (TextTokens(x) + ts)[1..] == ts;
    }
  }

  lemma {:induction false} CollapseNothing()
    ensures CollapseInline([]) == []
  {}

  lemma {:induction false} BodyText(after: string, us: seq<Unit>, j: nat)
    requires NoText(us)
    requires RunReady(us, j)
    ensures InlineBody(RunTokens(after, us, j)) == Ok(RunBody(after, us, j))
    decreases j
  {
    hide TokenText, CollapseInline;
    if j == 0 {
      InlineBodyText(after, [], []);
    } else {
      assert us[0] in us;
      forall u | u in us[1..] ensures u in us {}
      forall k | 0 <= k < j - 1 ensures us[1..][k].item.Single? && TokenText(us[1..][k].item.token).Ok? {
        assert us[1..][k] == us[k + 1];
      }
      BodyText(us[0].after, us[1..], j - 1);
      var t := us[0].item.token;
      var rest := RunTokens(us[0].after, us[1..], j - 1);
      assert ([t] + rest)[1..] == rest && InlineToken(t) == TokenText(t);
      InlineBodyText(after, [t] + rest, TokenText(t).value + RunBody(us[0].after, us[1..], j - 1));
    }
  }

  // ----- the whole decision -----

  lemma {:induction false} EndsInGreater(s: string, name: string)
    ensures TrimEnd(s + EndTag(name)) == s + EndTag(name)
  {
    var t := s + EndTag(name);
    assert t[|t| - 1] == '>';
  }

  lemma {:induction false} EndTagCloses(name: string)
    ensures CloserText(HtmlEnd(name)) == Ok(EndTag(name))
  {}

  lemma {:induction false} OpenerOk(t: Token)
    requires TokenText(t).Ok?
    ensures InlineOpener(t).Ok? && (InlineOpener(t).value.Some? ==> t.HtmlStart?)
  {
    hide ParseAttributes, RenderAttrs, OneLine, IsVoid;
  }

  /** The tokens after the opener, once the end of the run is known. */
  lemma {:induction false} RunRead(us: seq<Unit>, name: string, j: nat)
    requires us != [] && NoText(us) && Renders(us) && us[0].item.Single?
    requires RunEnd(us[1..], name) == Some(j)
    ensures RunReady(us[1..], j)
    ensures var ts := UnitsTokens(us);
            var body := RunTokens(us[0].after, us[1..], j);
            && ts == [us[0].item.token] + (body + [HtmlEnd(name)] + (TextTokens(us[j + 1].after) + UnitsTokens(us[j + 2..])))
            && FindCloser(ts[1..], [ElementEnd(name)]) == Some(|body|)
            && SingleLineBody(body) == RunSingle(us[0].after, us[1..], j)
            && InlineBody(body) == Ok(RunBody(us[0].after, us[1..], j))
  {
    NoTextTail(us);
    UnitTokens(us);
    RunItemsRender(us, j, name);
    hide FindCloser, SingleLineBody, RunSingle, InlineBody, RunBody, TokenText, UnitsTokens, RunTokens, OpensLevel, TextTokens, NoText, Renders;
    var ts := UnitsTokens(us);
    assert ts[1..] == TextTokens(us[0].after) + UnitsTokens(us[1..]);
    CloserFound(us[0].after, us[1..], name);
    BodySingle(us[0].after, us[1..], j);
    BodyText(us[0].after, us[1..], j);
    assert us[1..][j] == us[j + 1] && us[1..][j + 1..] == us[j + 2..];
  }

  /** The decision of `try_render_inline`, from the parts of the run. */
  lemma {:induction false} Decide(t: Token, body: seq<Token>, rest: seq<Token>, d: nat, opener: string, text: string)
    requires InlineOpener(t) == Ok(Some(opener)) && t.HtmlStart?
    requires InlineBody(body) == Ok(text)
    requires FindCloser(body + [HtmlEnd(t.name)] + rest, [ElementEnd(t.name)]) == Some(|body|)
    ensures var line := opener + text + EndTag(t.name);
            TryInline([t] + (body + [HtmlEnd(t.name)] + rest), d)
            == Ok(if !SingleLineBody(body) || '\n' in line || |line| + 2 * d > LINE_LIMIT then None
                  else Some(Run(line, |body| + 2)))
  {
    hide InlineOpener, InlineBody, FindCloser, SingleLineBody, TrimEnd, CloserText, EndTag;
    EndsInGreater(opener + text, t.name);
    EndTagCloses(t.name);
    var tail := body + [HtmlEnd(t.name)] + rest;
    var ts := [t] + tail;
    assert ts[1..] == tail;
    assert ts[1..1 + |body|] == body && ts[1 + |body|] == HtmlEnd(t.name);
  }

  /** Where no run starts in the document, the look-ahead over the tokens finds none. */
  lemma {:induction false} TryMissed(us: seq<Unit>, d: nat)
    requires us != [] && NoText(us) && Renders(us) && us[0].item.Single? && TryUnit(us, d).None?
    ensures TryInline(UnitsTokens(us), d) == Ok(None)
  {
    var t := us[0].item.token;
    assert us[0] in us;
    OpenerOk(t);
    UnitTokens(us);
    var ts := UnitsTokens(us);
    var rest := TextTokens(us[0].after) + UnitsTokens(us[1..]);
    assert ts[0] == t && ts[1..] == rest;
    if InlineOpener(t).value.None? { return; }
    hide FindCloser, InlineOpener, RunEnd, RunTokens, SingleLineBody, RunSingle, InlineBody, RunBody, TokenText, UnitsTokens, TextTokens, NoText, Renders;
    var e := RunEnd(us[1..], t.name);
    if e.None? {
      NoTextTail(us);
      CloserMissed(us[0].after, us[1..], t.name);
      NoCloser(ts, d);
    } else {
      var j := e.value;
      RunRead(us, t.name, j);
      var body := RunTokens(us[0].after, us[1..], j);
      var tail := TextTokens(us[j + 1].after) + UnitsTokens(us[j + 2..]);
      assert ts[1..] == body + [HtmlEnd(t.name)] + tail;
      Decide(t, body, tail, d, InlineOpener(t).value.value, RunBody(us[0].after, us[1..], j));
    }
  }

  lemma {:induction false} NoCloser(ts: seq<Token>, d: nat)
    requires ts != [] && ts[0].HtmlStart? && InlineOpener(ts[0]).Ok?
    requires var k := FindCloser(ts[1..], [ElementEnd(ts[0].name)]);
             k.None? || !SingleLineBody(ts[1..][..k.value])
    ensures TryInline(ts, d) == Ok(None)
  {
    hide FindCloser, InlineOpener, SingleLineBody;
    var k := FindCloser(ts[1..], [ElementEnd(ts[0].name)]);
    if k.Some? { assert ts[1..1 + k.value] == ts[1..][..k.value]; }
  }

  lemma {:induction false} TryOpener(us: seq<Unit>, d: nat)
    requires us != [] && Renders(us) && TryUnit(us, d).Some?
    ensures InlineOpener(OpenerOf(us[0].item)).Ok? && InlineOpener(OpenerOf(us[0].item)).value.Some?
  {
    hide InlineOpener, RunEnd, RunSingle, RunBody, Renders, EndTag, Fits, OpenerOf;
  }

  lemma {:induction false} TryEnd(us: seq<Unit>, d: nat)
    requires us != [] && Renders(us) && us[0].item.Single? && us[0].item.token.HtmlStart? && TryUnit(us, d).Some?
    ensures RunEnd(us[1..], us[0].item.token.name).Some?
    ensures RunSingle(us[0].after, us[1..], RunEnd(us[1..], us[0].item.token.name).value)
  {
    hide InlineOpener, RunEnd, RunSingle, RunBody, Renders, EndTag, Fits;
  }

  /** The run that is tried when the opener may start one and `us[1 + j]` is its end tag. */
  lemma {:induction false} TryFits(us: seq<Unit>, d: nat, j: nat)
    requires us != [] && Renders(us) && us[0].item.Single? && us[0].item.token.HtmlStart?
    requires InlineOpener(us[0].item.token).Ok? && InlineOpener(us[0].item.token).value.Some?
    requires RunEnd(us[1..], us[0].item.token.name) == Some(j) && RunSingle(us[0].after, us[1..], j) && RunReady(us[1..], j)
    ensures TryUnit(us, d) == Fits(InlineOpener(us[0].item.token).value.value + RunBody(us[0].after, us[1..], j)
                                   + EndTag(us[0].item.token.name), j + 2, d)
  {
    hide InlineOpener, RunEnd, RunSingle, RunBody, Renders, EndTag, Fits, RunReady;
  }

  lemma {:induction false} OpenerIsTag(t: Token)
    ensures InlineOpener(t).Ok? && InlineOpener(t).value.Some? ==> t.HtmlStart?
  {
    hide ParseAttributes, RenderAttrs, OneLine, IsVoid;
  }

  lemma {:induction false} OpenerIs(item: Item)
    ensures item.Single? ==> OpenerOf(item) == item.token
  {}

  lemma {:induction false} FitsMeans(text: string, units: nat, d: nat)
    ensures Fits(text, units, d).Some? ==>
              '\n' !in text && |text| + 2 * d <= LINE_LIMIT && Fits(text, units, d) == Some(UnitRun(text, units))
  {}

  /** The parts of the run at the head of `us`. */
  lemma {:induction false} RunParts(us: seq<Unit>, d: nat) returns (opener: string, j: nat)
    requires us != [] && Renders(us) && us[0].item.Single? && TryUnit(us, d).Some?
    ensures var t := us[0].item.token;
            && t.HtmlStart? && InlineOpener(t) == Ok(Some(opener))
            && RunEnd(us[1..], t.name) == Some(j) && RunSingle(us[0].after, us[1..], j)
            && RunReady(us[1..], j)
            && var line := opener + RunBody(us[0].after, us[1..], j) + EndTag(t.name);
               '\n' !in line && |line| + 2 * d <= LINE_LIMIT && TryUnit(us, d) == Some(UnitRun(line, j + 2))
  {
    hide *;
    var t := us[0].item.token;
    TryOpener(us, d);
    OpenerIs(us[0].item);
    OpenerIsTag(t);
    TryEnd(us, d);
    opener := InlineOpener(t).value.value;
    j := RunEnd(us[1..], t.name).value;
    RunItemsRender(us, j, t.name);
    TryFits(us, d, j);
    FitsMeans(opener + RunBody(us[0].after, us[1..], j) + EndTag(t.name), j + 2, d);
  }

  /** Where a run starts in the document, the look-ahead finds the same line and consumes its units. */
  lemma {:induction false} TryFound(us: seq<Unit>, d: nat, r: UnitRun) returns (len: nat)
    requires us != [] && NoText(us) && Renders(us) && us[0].item.Single? && TryUnit(us, d) == Some(r)
    ensures UnitsTokens(us) != [] && TryInline(UnitsTokens(us), d) == Ok(Some(Run(r.text, len)))
    ensures len <= |UnitsTokens(us)| && 0 < r.units <= |us|
    ensures UnitsTokens(us)[len..] == TextTokens(us[r.units - 1].after) + UnitsTokens(us[r.units..])
  {
    var t := us[0].item.token;
    var opener, j := RunParts(us, d);
    RunRead(us, t.name, j);
    hide *;
    var body := RunTokens(us[0].after, us[1..], j);
    var tail := TextTokens(us[j + 1].after) + UnitsTokens(us[j + 2..]);
    AfterRun(t, body, HtmlEnd(t.name), tail);
    Decide(t, body, tail, d, opener, RunBody(us[0].after, us[1..], j));
    len := |body| + 2;
  }

  lemma {:induction false} AfterRun(t: Token, body: seq<Token>, e: Token, tail: seq<Token>)
    ensures ([t] + (body + [e] + tail))[|body| + 2..] == tail
    ensures ([t] + (body + [e] + tail))[1..] == body + [e] + tail
  {}
}
