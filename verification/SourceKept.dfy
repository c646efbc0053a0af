/** What the output keeps of the template itself, whitespace aside: mustaches, comments and text are
    kept, and so are mustaches in attribute lists, unless they open with three braces. */
module SourceKept {
  import opened Text
  import opened Tokens
  import opened Lexing
  import opened LexingProps
  import opened Lexemes
  import opened AttributeProps
  import opened Layout
  import opened Runs
  import opened NormalForm
  import opened Relex
  import Conservation

  // ----- mustaches as tokens -----

  lemma {:induction false} EraseFramed(a: string, b: string, c: string)
    ensures Erase(a + Trim(b) + c) == Erase(a + b + c)
  {
    hide Erase, Trim;
    EraseTrim(b);
    EraseAppend(a + b, c);
    EraseAppend(a, b);
    EraseAppend(a + Trim(b), c);
    EraseAppend(a, Trim(b));
  }

  lemma {:induction false} MustacheKept(raw: string)
    requires MustacheOk(raw)
    ensures NormalizeMustache(raw).Ok? && Erase(NormalizeMustache(raw).value) == Erase(raw)
  {
    hide Erase, Trim;
    var b := MustacheBody(raw);
    if "{{{" <= raw {
      assert raw[2] == '{';
      assert raw == "{{{" + b + "}}}";
      EraseFramed("{{{", b, "}}}");
    } else {
      DoubleText(raw);
      EraseFramed("{{", b, "}}");
    }
  }

  /** The text a token other than a tag is read from. */
  function TokenOrigin(t: Token): string
    requires !t.HtmlStart? && !t.HtmlEnd?
  {
    if t.Text? || t.RawText? then t.text else t.raw
  }

  lemma {:induction false} OriginKept(t: Token)
    requires !t.HtmlStart? && !t.HtmlEnd? && (IsMustache(t) ==> MustacheOk(t.raw))
    ensures TokenText(t).Ok? && Erase(TokenText(t).value) == Erase(TokenOrigin(t))
  {
    if IsMustache(t) { MustacheKept(t.raw); }
    hide Erase, NormalizeMustache;
  }

  /** Every token of a template that is not a tag renders as its own source, whitespace aside. */
  lemma {:induction false} TokensKept(src: string)
    requires LexTokens([], src).Ok?
    ensures forall t <- LexTokens([], src).value ::
              !t.HtmlStart? && !t.HtmlEnd? ==> TokenText(t).Ok? && Erase(TokenText(t).value) == Erase(TokenOrigin(t))
  {
    TokensWellFormed(src);
    hide LexTokens, WellSpaced, MustacheOk, TokenText, Erase, TokenOrigin;
    forall t | t in LexTokens([], src).value && !t.HtmlStart? && !t.HtmlEnd?
      ensures TokenText(t).Ok? && Erase(TokenText(t).value) == Erase(TokenOrigin(t))
    {
      OriginKept(t);
    }
  }

  // ----- whole templates -----

  predicate IsTag(item: Item) { item.Raw? || item.token.HtmlStart? || item.token.HtmlEnd? }

  /** A lexeme as it should appear in the output: tags in their rendering, the rest as in the source. */
  function UnitKept(u: Unit): string { if IsTag(u.item) then InlineSource(u.item) else u.src }

  /** The units of a template with its tags replaced by their renderings. */
  function Kept(us: seq<Unit>): string {
    if us == [] then [] else UnitKept(us[0]) + us[0].after + Kept(us[1..])
  }

  lemma {:induction false} CanonTwo(a: seq<Token>, b: seq<Token>)
    requires Conservation.Canon(a + b).Ok?
    ensures Conservation.Canon(a).Ok? && Conservation.Canon(b).Ok?
    ensures Conservation.Canon(a + b).value == Conservation.Canon(a).value + Conservation.Canon(b).value
  {
    Conservation.CanonAppend(a, b);
    hide Conservation.Canon;
  }

  lemma {:induction false} CanonSingle(t: Token)
    requires Conservation.Canon([t]).Ok?
    ensures TokenText(t) == Ok(Conservation.Canon([t]).value)
  {
    Conservation.CanonOne(t);
    hide Conservation.Canon, TokenText;
  }

  lemma {:induction false} CanonText(x: string)
    ensures Conservation.Canon(TextTokens(x)) == Ok(x)
  {
    if x != [] {
      Conservation.CanonOne(Text(x));
      Conservation.TextText(x);
    }
  }

  lemma {:induction false} RawCanon(item: Item)
    requires item.Raw? && Conservation.Canon(ItemTokens(item)).Ok?
    ensures Conservation.Canon(ItemTokens(item)).value == InlineSource(item)
  {
    var start, end := RawStart(item), HtmlEnd(item.name);
    var body := if item.body == [] then [] else [RawText(item.body)];
    assert ItemTokens(item) == [start] + body + [end];
    hide Conservation.Canon, TokenText, ItemTokens;
    CanonTwo([start] + body, [end]);
    CanonTwo([start], body);
    CanonSingle(start);
    CanonSingle(end);
    EndRendering(item.name);
    if item.body != [] {
      CanonSingle(RawText(item.body));
      RawRendering(item.body);
    } else {
      CanonNone();
      var x: string := TextOf(start);
      assert x + [] == x;
    }
  }

  lemma {:induction false} CanonNone()
    ensures Conservation.Canon([]) == Ok([])
  {}

  lemma {:induction false} EndRendering(name: string)
    ensures TokenText(HtmlEnd(name)) == Ok(EndTag(name))
  {}

  lemma {:induction false} RawRendering(body: string)
    ensures TokenText(RawText(body)) == Ok(body)
  {}

  lemma {:induction false} UnitCanon(u: Unit)
    requires Spells(u.item, u.src) && ItemOk(u.item) && Conservation.Canon(ItemTokens(u.item)).Ok?
    ensures Erase(Conservation.Canon(ItemTokens(u.item)).value) == Erase(UnitKept(u))
  {
    if u.item.Raw? {
      hide *;
      RawCanon(u.item);
      RawTagKept(u);
    } else {
      var t := u.item.token;
      assert ItemTokens(u.item) == [t];
      hide Conservation.Canon, Erase, MustacheOk, TokenText, IsVoid, IsRawContent;
      CanonSingle(t);
      if !t.HtmlStart? && !t.HtmlEnd? {
        OriginKept(t);
        assert TokenOrigin(t) == u.src;
      }
    }
  }

  lemma {:induction false} RawTagKept(u: Unit)
    requires u.item.Raw?
    ensures UnitKept(u) == InlineSource(u.item)
  {
    hide InlineSource;
  }

  lemma {:induction false} KeptTurn(us: seq<Unit>)
    requires us != []
    ensures Kept(us) == UnitKept(us[0]) + us[0].after + Kept(us[1..])
  {
    hide UnitKept;
  }

  lemma {:induction false} UnitsCanon(us: seq<Unit>)
    requires UnitsSpell(us) && Conservation.Canon(UnitsTokens(us)).Ok?
    ensures Erase(Conservation.Canon(UnitsTokens(us)).value) == Erase(Kept(us))
  {
    hide Conservation.Canon, Erase, Spells, ItemOk, UnitKept, ItemTokens, TextTokens;
    if us == [] {
      CanonNone();
    } else {
      var u := us[0];
      assert u in us;
      forall v | v in us[1..] ensures v in us {}
      UnitsTokensHead(us);
      var a, x, rest := ItemTokens(u.item), TextTokens(u.after), UnitsTokens(us[1..]);
      CanonTwo(a + x, rest);
      CanonTwo(a, x);
      CanonText(u.after);
      UnitCanon(u);
      UnitsCanon(us[1..]);
      KeptTurn(us);
      hide *;
      var c, k := Conservation.Canon(a).value, UnitKept(u);
      var c', k' := Conservation.Canon(rest).value, Kept(us[1..]);
      Conservation.EraseThree(c, u.after, c');
      Conservation.EraseThree(k, u.after, k');
    }
  }

  /** A template that formats keeps everything of its source, whitespace aside, but for the tags,
      which appear in their renderings. */
  lemma {:induction false} FormatKeepsSource(src: string)
    requires Format(src).Ok?
    ensures Lex([], src).Ok?
    ensures var d := Lex([], src).value;
            Source(d) == src && Erase(Format(src).value) == Erase(d.lead + Kept(d.units))
  {
    var d := Lex([], src).value;
    LexTiles([], src, d);
    assert [] + src == src;
    hide Lex, Print, Conservation.Canon, Erase, UnitsSpell, Kept, TextTokens, UnitsTokens, UnitsSource;
    var ts := TextTokens(d.lead) + UnitsTokens(d.units);
    Conservation.PrintConserves(ts);
    CanonTwo(TextTokens(d.lead), UnitsTokens(d.units));
    CanonText(d.lead);
    UnitsCanon(d.units);
    EraseAppend(d.lead, Conservation.Canon(UnitsTokens(d.units)).value);
    EraseAppend(d.lead, Kept(d.units));
  }

  // ----- mustaches in attribute lists -----

  /** A mustache read up to its first closing braces. */
  predicate ExprLexed(raw: string) {
    |raw| >= 4 && "{{" <= raw && FindClose(raw[2..], None, "}}") == Some(|raw| - 4)
  }

  lemma {:induction false} ExprIsLexed(s: string, k: nat)
    requires "{{" <= s && FindClose(s[2..], None, "}}") == Some(k)
    ensures k + 4 <= |s| && ExprLexed(s[..k + 4])
  {
    FindClosePrefix(s[2..], None, "}}", k + 2);
    hide FindClose;
    assert s[2..][..k + 2] == s[..k + 4][2..];
    assert s[..k + 4][..2] == s[..2];
  }

  lemma {:induction false} OneLexed(s: string)
    requires ParseOne(s).Ok? && ParseOne(s).value.attr.ExprAttr?
    ensures ExprLexed(ParseOne(s).value.attr.raw)
  {
    hide BlockEnd, FindClose, FindValueQuote, AttrNameLen, WordLen, Lower, Trim, ExprLexed;
    if "{{" <= s && FindClose(s[2..], None, "}}").Some? { ExprIsLexed(s, FindClose(s[2..], None, "}}").value); }
  }

  lemma {:induction false} AttrsLexed(s: string)
    requires ParseAttributes(s).Ok?
    ensures forall a <- ParseAttributes(s).value :: a.ExprAttr? ==> ExprLexed(a.raw)
    decreases |s|
  {
    hide ParseOne, ExprLexed;
    var t := s[SpaceLen(s)..];
    if t != [] {
      var one := ParseOne(t).value;
      if one.attr.ExprAttr? { OneLexed(t); }
      AttrsLexed(t[one.len..]);
      var rest := ParseAttributes(t[one.len..]).value;
      assert ParseAttributes(s).value == [one.attr] + rest;
    }
  }

  /** The pieces of an attribute mustache: its content does not end in a brace. */
  lemma {:induction false} ExprParts(raw: string) returns (body: string)
    requires ExprLexed(raw)
    ensures raw == "{{" + body + "}}" && (body != [] ==> body[|body| - 1] != '}')
  {
    FindCloseHere(raw[2..], None, "}}");
    hide FindClose;
    body := raw[2..|raw| - 2];
    assert raw[2..] == body + "}}";
    assert raw[..2] == "{{";
    BodyEnd(body);
  }

  lemma {:induction false} TripleLoses(m: string, c: char)
    requires c != '}'
    ensures Erase("{{{" + Trim(m) + "}}}") != Erase("{{{" + m + [c] + "}}")
  {
    EraseFramed("{{{", m, "}}}");
    hide Trim;
    var a, e := "{{{" + m, "}}";
    EraseAppend(a, "}}}");
    EraseAppend(a, [c]);
    EraseAppend(a + [c], e);
    OneErased(c);
    ThreeBraces();
    hide Erase;
    var x := Erase(a);
    if Erase([c]) == [] {
      assert |x + "}}}"| == |x| + 3 && |x + [] + "}}"| == |x| + 2;
    } else {
      assert (x + "}}}")[|x|] == '}' && (x + [c] + "}}")[|x|] == c;
    }
  }

  lemma {:induction false} OneErased(c: char)
    ensures Erase([c]) == if IsSpace(c) then [] else [c]
  {
    assert [c][1..] == [];
  }

  lemma {:induction false} ThreeBraces()
    ensures Erase("}}}") == "}}}" && Erase("}}") == "}}"
  {
    assert "}}}"[1..] == "}}" && "}}"[1..] == "}" && "}"[1..] == [];
    assert Erase("}") == "}" && Erase("}}") == "}" + Erase("}");
  }

  lemma {:induction false} TripleAttr(raw: string, m: string, c: char)
    requires raw == "{{{" + m + [c] + "}}"
    ensures RenderAttr(ExprAttr(raw)) == Ok("{{{" + Trim(m) + "}}}")
  {
    hide Trim;
    assert |raw| >= 6 && raw[3..|raw| - 3] == m;
    assert raw[..3] == "{{{" && raw[2] == '{';
  }

  lemma {:induction false} DoubleAttr(raw: string, body: string)
    requires raw == "{{" + body + "}}" && !("{{{" <= raw)
    ensures RenderAttr(ExprAttr(raw)) == Ok(if "{{!" <= raw then raw else "{{" + Trim(body) + "}}")
  {
    hide Trim;
    assert raw[2..|raw| - 2] == body;
  }

  /** An attribute mustache that renders keeps its characters exactly when it does not open with three
      braces: the closing braces are found two at a time, and then three are cut off. */
  lemma {:induction false} ExprKept(raw: string)
    requires ExprLexed(raw) && RenderAttr(ExprAttr(raw)).Ok?
    ensures Erase(RenderAttr(ExprAttr(raw)).value) == Erase(raw) <==> !("{{{" <= raw)
  {
    var body := ExprParts(raw);
    if "{{{" <= raw {
      LongEnough(raw);
      hide RenderAttr, Erase, Trim, ExprLexed;
      var n := |body| - 1;
      assert body[0] == raw[2] && raw[2] == '{';
      var m, c := body[1..n], body[n];
      assert body == "{" + m + [c];
      assert "{{" + ("{" + m + [c]) + "}}" == "{{{" + m + [c] + "}}";
      TripleAttr(raw, m, c);
      TripleLoses(m, c);
    } else {
      hide RenderAttr, Erase, Trim, ExprLexed;
      DoubleAttr(raw, body);
      EraseFramed("{{", body, "}}");
    }
  }

  lemma {:induction false} LongEnough(raw: string)
    requires "{{{" <= raw && RenderAttr(ExprAttr(raw)).Ok?
    ensures |raw| >= 6
  {
    hide Trim;
    assert raw[2] == '{';
  }

  /** The same for every attribute list: exactly the mustaches that open with three braces are damaged. */
  lemma {:induction false} AttrsKept(s: string)
    requires ParseAttributes(s).Ok?
    ensures forall a <- ParseAttributes(s).value :: a.ExprAttr? && RenderAttr(a).Ok? ==>
              (Erase(RenderAttr(a).value) == Erase(a.raw) <==> !("{{{" <= a.raw))
  {
    AttrsLexed(s);
    hide ParseAttributes, ExprLexed, RenderAttr, Erase;
    forall a | a in ParseAttributes(s).value && a.ExprAttr? && RenderAttr(a).Ok?
      ensures Erase(RenderAttr(a).value) == Erase(a.raw) <==> !("{{{" <= a.raw)
    {
      ExprKept(a.raw);
    }
  }
}
