/** Which templates fail to format, and how. */
module Failures {
  import opened Text
  import opened Tokens
  import opened Lexing
  import opened LexingProps
  import opened AttributeProps
  import opened Layout
  import Conservation

  // ----- attributes that do not render -----

  lemma {:induction false} BraceFound(s: string, k: nat)
    requires "{{" <= s && FindClose(s[2..], None, "}}") == Some(k)
    ensures k + 4 <= |s| && s[k + 3] == '}'
  {
    FindCloseHere(s[2..], None, "}}");
    hide FindClose;
    assert s[2..][k..k + 2][1] == s[k + 3];
  }

  lemma {:induction false} BlockEndsInBrace(s: string, depth: int)
    requires BlockEnd(s, depth).Some?
    ensures s[BlockEnd(s, depth).value - 1] == '}'
    decreases |s|
  {
    hide *;
    BlockEndSome(s, depth);
    BlockEndTurn(s, depth);
    if "{{" <= s {
      var k := FindClose(s[2..], None, "}}").value;
      BraceFound(s, k);
      if !(depth == 1 && BlockDelta(s) == -1) {
        var rest := BlockEnd(s[k + 4..], depth + BlockDelta(s));
        ShiftIs(rest, k + 4);
        BlockEndsInBrace(s[k + 4..], depth + BlockDelta(s));
        ShiftIs(Some(rest.value), k + 4);
      }
    } else {
      var rest := BlockEnd(s[1..], depth);
      ShiftIs(rest, 1);
      BlockEndsInBrace(s[1..], depth);
      ShiftIs(Some(rest.value), 1);
    }
  }

  lemma {:induction false} BlockRenders(s: string)
    requires ("{{#" <= s || "{{^" <= s) && BlockEnd(s, 0).Some?
    ensures RenderAttr(BlockAttr(Trim(s[..BlockEnd(s, 0).value]))).Ok?
  {
    var n := BlockEnd(s, 0).value;
    var raw := s[..n];
    BlockEndsInBrace(s, 0);
    hide BlockEnd, Trim;
    assert raw[0] == '{' && raw[2] == s[2] && (s[2] == '#' || s[2] == '^');
    TrimOf([], raw, []);
    assert [] + raw + [] == raw;
  }

  lemma {:induction false} ExprRenders(s: string, k: nat)
    requires "{{" <= s && FindClose(s[2..], None, "}}") == Some(k)
    ensures var a := ExprAttr(s[..k + 4]);
            !RenderAttr(a).Err? && (RenderAttr(a).Panic? <==> a == ExprAttr("{{{}}"))
  {
    FindCloseHere(s[2..], None, "}}");
    hide FindClose, Trim;
    var raw := s[..k + 4];
    assert s[2..][k..k + 2] == "}}" && raw[k + 2..] == "}}";
    assert raw[..2] == "{{";
    if "{{{" <= raw {
      assert raw[2] == '{';
      assert raw[k + 2..][0] == raw[k + 2];
      if k == 1 { assert raw == raw[..3] + raw[3..]; }
    }
  }

  lemma {:induction false} OneRenders(s: string)
    requires ParseOne(s).Ok?
    ensures var a := ParseOne(s).value.attr;
            !RenderAttr(a).Err? && (RenderAttr(a).Panic? <==> a == ExprAttr("{{{}}"))
  {
    hide BlockEnd, FindClose, NormalizeMustache, FindValueQuote, AttrNameLen, WordLen, Lower, Trim;
    if "{{#" <= s || "{{^" <= s {
      BlockRenders(s);
    } else if "{{" <= s {
      ExprRenders(s, FindClose(s[2..], None, "}}").value);
    }
  }

  /** The one attribute that makes the formatter panic: its slices assume three closing braces. */
  const BAD_ATTR := ExprAttr("{{{}}")

  lemma {:induction false} ListRenders(s: string)
    requires ParseAttributes(s).Ok?
    ensures var attrs := ParseAttributes(s).value;
            !RenderAttrs(attrs).Err? && (RenderAttrs(attrs).Panic? <==> BAD_ATTR in attrs)
    decreases |s|
  {
    hide ParseOne, RenderAttr;
    var t := s[SpaceLen(s)..];
    if t != [] {
      OneRenders(t);
      var one := ParseOne(t).value;
      ListRenders(t[one.len..]);
      var rest := ParseAttributes(t[one.len..]).value;
      assert ParseAttributes(s).value[1..] == rest;
    }
  }

  // ----- templates that do not format -----

  /** The attribute list parses and holds no `{{{}}`. */
  predicate TagOk(t: Token) {
    t.HtmlStart? ==> ParseAttributes(t.attrsRaw).Ok? && BAD_ATTR !in ParseAttributes(t.attrsRaw).value
  }

  predicate TagPanics(t: Token) {
    t.HtmlStart? && ParseAttributes(t.attrsRaw).Ok? && BAD_ATTR in ParseAttributes(t.attrsRaw).value
  }

  lemma {:induction false} TokenRenders(t: Token)
    requires IsMustache(t) ==> NormalizeMustache(t.raw).Ok?
    ensures TokenText(t).Ok? <==> TagOk(t)
    ensures TokenText(t).Panic? <==> TagPanics(t)
  {
    hide ParseAttributes, RenderAttrs, NormalizeMustache, InlineTag;
    if t.HtmlStart? && ParseAttributes(t.attrsRaw).Ok? { ListRenders(t.attrsRaw); }
  }

  /** The first start tag with a bad attribute list decides. */
  lemma {:induction false} CanonFails(ts: seq<Token>)
    requires forall t <- ts :: IsMustache(t) ==> NormalizeMustache(t.raw).Ok?
    ensures Conservation.Canon(ts).Ok? <==> forall t <- ts :: TagOk(t)
    ensures Conservation.Canon(ts).Panic? <==> exists k | 0 <= k < |ts| :: TagPanics(ts[k]) && forall t <- ts[..k] :: TagOk(t)
    decreases |ts|
  {
    hide TagOk, TagPanics, TokenText, NormalizeMustache;
    if ts != [] {
      TokenRenders(ts[0]);
      OkDoesNotPanic(ts[0]);
      forall t | t in ts[1..] ensures t in ts {}
      CanonFails(ts[1..]);
      if TagOk(ts[0]) {
        assert (forall t <- ts :: TagOk(t)) <==> forall t <- ts[1..] :: TagOk(t) by {
          forall t | t in ts ensures t == ts[0] || t in ts[1..] {}
        }
        FirstShifts(ts);
      } else {
        assert ts[0] in ts;
        FirstHere(ts);
      }
    }
  }

  lemma {:induction false} OkDoesNotPanic(t: Token)
    ensures TagOk(t) ==> !TagPanics(t)
  {}

  lemma {:induction false} FirstHere(ts: seq<Token>)
    requires ts != [] && !TagOk(ts[0])
    ensures TagPanics(ts[0]) <==> exists k | 0 <= k < |ts| :: TagPanics(ts[k]) && forall t <- ts[..k] :: TagOk(t)
  {
    hide TagOk, TagPanics;
    if TagPanics(ts[0]) { assert ts[..0] == []; }
    forall k | 0 < k < |ts| ensures !(forall t <- ts[..k] :: TagOk(t)) { assert ts[0] in ts[..k]; }
  }

  lemma {:induction false} FirstShifts(ts: seq<Token>)
    requires ts != [] && TagOk(ts[0])
    ensures (exists k | 0 <= k < |ts| :: TagPanics(ts[k]) && forall t <- ts[..k] :: TagOk(t))
       <==> (exists k | 0 <= k < |ts[1..]| :: TagPanics(ts[1..][k]) && forall t <- ts[1..][..k] :: TagOk(t))
  {
    OkDoesNotPanic(ts[0]);
    hide TagOk, TagPanics;
    if k :| 0 <= k < |ts| && TagPanics(ts[k]) && forall t <- ts[..k] :: TagOk(t) {
      assert ts[1..][k - 1] == ts[k];
      forall t | t in ts[1..][..k - 1] ensures TagOk(t) { assert t in ts[..k]; }
    }
    if k :| 0 <= k < |ts[1..]| && TagPanics(ts[1..][k]) && forall t <- ts[1..][..k] :: TagOk(t) {
      assert ts[k + 1] == ts[1..][k];
      forall t | t in ts[..k + 1] ensures TagOk(t) { assert t == ts[0] || t in ts[1..][..k]; }
    }
  }

  /** A template formats exactly when it tokenizes, all its attribute lists parse and none holds a
      bare `{{{}}`; it makes the formatter panic exactly when the first list at fault holds one. */
  lemma {:induction false} FormatFails(src: string)
    ensures Format(src).Ok? <==>
              LexTokens([], src).Ok? && forall t <- LexTokens([], src).value :: TagOk(t)
    ensures Format(src).Panic? <==>
              && LexTokens([], src).Ok?
              && var ts := LexTokens([], src).value;
                 exists k | 0 <= k < |ts| :: TagPanics(ts[k]) && forall t <- ts[..k] :: TagOk(t)
  {
    if LexTokens([], src).Ok? {
      var ts := LexTokens([], src).value;
      TokensWellFormed(src);
      CanonFails(ts);
      Conservation.PrintConserves(ts);
    }
    hide Lex, Print, TagOk, TagPanics;
  }
}
