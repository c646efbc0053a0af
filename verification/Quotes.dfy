/** A family of templates whose formatted form no longer parses: a value that holds a double quote and, inside a mustache,
    a single one is printed in double quotes. */
module Quotes {
  import opened Text
  import opened Tokens
  import opened Lexing
  import opened AttributeProps
  import opened Layout
  import opened Cleanup
  import opened Runs
  import opened Retag
  import opened Boundaries
  import opened Readings
  import opened Spellings
  import Limits
  import Values

  predicate Letters(s: string) { forall c <- s :: 'a' <= c <= 'z' }

  /** The content of the mustache. */
  function Inside(z: string): string { "t '" + z + "'" }

  /** `x"y{{t 'z'}}` */
  function Value(x: string, y: string, z: string): string { x + "\"" + y + ("{{" + Inside(z) + "}}") }

  function AttrIn(quote: string, v: string): string { " a=" + (quote + v + quote) }

  function TagIn(quote: string, v: string): string { "<p" + AttrIn(quote, v) + ">" }

  // ----- the value as parts -----

  function ValueParts(x: string, y: string, z: string): seq<Values.Part> {
    [Values.Chars(x + "\"" + y), Values.Braced([Values.Chars(Inside(z))])]
  }

  lemma {:induction false} InsideOk(z: string)
    requires Letters(z)
    ensures '{' !in Inside(z) && '}' !in Inside(z)
  {}

  lemma {:induction false} PartsAre(x: string, y: string, z: string)
    requires Letters(x) && Letters(y) && Letters(z)
    ensures var ps := ValueParts(x, y, z);
            && Values.ValueOk(ps, '\'') && Values.PartsText(ps) == Value(x, y, z)
            && '"' in Values.BareText(ps) && '\'' in Value(x, y, z)
  {
    InsideOk(z);
    var ps, inner := ValueParts(x, y, z), [Values.Chars(Inside(z))];
    assert ps[1..] == [Values.Braced(inner)] && ps[1..][1..] == [] && inner[1..] == [];
    Values.NoParts([]);
    Values.PartsTurn(inner);
    assert Inside(z) + [] == Inside(z);
    assert Values.InnerPartOk(inner[0]) && Values.InnerOk(inner[1..]);
    assert Values.InnerOk(inner) && Values.PartsText(inner) == Inside(z);
    assert (x + "\"" + y)[|x|] == '"';
    assert Values.PartsText(ps[1..]) == "{{" + (Inside(z) + "}}");
    assert Inside(z)[2] == '\'' && Value(x, y, z)[|x| + 1 + |y| + 2 + 2] == '\'';
    assert "{{" + (Inside(z) + "}}") == "{{" + Inside(z) + "}}";
  }

  // ----- reading and printing the attribute -----

  lemma {:induction false} NameIs()
    ensures IsNameText("a") && Lower("a") == "a" && "a" !in BOOLEAN_ATTRS
  {
    var n := "a";
    assert n[1..] == [] && n[0] == 'a';
    assert Lower(n) == [LowerChar('a')] + Lower([]);
    var vs := BOOLEAN_ATTRS;
    assert forall k | 0 <= k < |vs| :: |vs[k]| > 1;
    assert |n| == 1;
  }

  lemma {:induction false} AttrParses(x: string, y: string, z: string)
    requires Letters(x) && Letters(y) && Letters(z)
    ensures ParseAttributes(AttrIn("'", Value(x, y, z))) == Ok([Plain("a", Some(Value(x, y, z)))])
  {
    hide *;
    var v := Value(x, y, z);
    var t := "a" + "=" + ['\''] + v + ['\''];
    PartsAre(x, y, z);
    NameIs();
    SingleIsQuote();
    Values.QuotedValueRead("a", '\'', ValueParts(x, y, z), v, []);
    NothingParses();
    assert t + [] == t && t[0] == 'a' && |t| == |v| + 4;
    FirstIsNoSpace();
    AttributeThen(t, ReadAttr(Plain("a", Some(v)), |v| + 4), []);
    SkipsSpace(" ", t) by { OneSpace(); }
    AttrInIs("'", v);
    assert [Plain("a", Some(v))] + [] == [Plain("a", Some(v))];
    assert " " + t == " a=" + ("'" + v + "'");
  }

  lemma {:induction false} SingleIsQuote()
    ensures IsQuote('\'') && IsQuote('"')
  {}

  lemma {:induction false} NothingParses()
    ensures ParseAttributes([]) == Ok([])
  {}

  lemma {:induction false} FirstIsNoSpace()
    ensures !IsAsciiSpace('a')
  {}

  lemma {:induction false} OneSpace()
    ensures AllAsciiSpace(" ")
  {}

  lemma {:induction false} AttrInIs(quote: string, v: string)
    ensures AttrIn(quote, v) == " a=" + (quote + v + quote)
  {}

  lemma {:induction false} AttrPrints(x: string, y: string, z: string)
    requires Letters(x) && Letters(y) && Letters(z)
    ensures RenderAttrs([Plain("a", Some(Value(x, y, z)))]) == Ok(["a" + "=" + ['"'] + Value(x, y, z) + ['"']])
    ensures OneLine([Plain("a", Some(Value(x, y, z)))])
  {
    var v := Value(x, y, z);
    NameIs();
    PartsAre(x, y, z);
    assert '"' in v by { assert v[|x|] == '"'; }
    var attrs := [Plain("a", Some(v))];
    assert attrs[1..] == [] && RenderAttrs(attrs[1..]) == Ok([]);
    assert RenderPlain("a", Some(v)) == "a" + "=\"" + v + "\"";
    assert "a" + "=\"" + v + "\"" == "a" + "=" + ['"'] + v + ['"'];
    hide Value, Values.BareText, Values.PartsText;
    assert [RenderPlain("a", Some(v))] + [] == [RenderPlain("a", Some(v))];
  }

  // ----- the tag scan over the template -----

  /** Characters that mean nothing to the tag scan. */
  predicate Unmarked(s: string) { forall c <- s :: c != '"' && c != '\'' && c != '{' && c != '>' && c != '/' }

  lemma {:induction false} UnmarkedPasses(s: string, rest: string)
    requires Unmarked(s)
    ensures TagPass(s + rest, None, 0) == TagPass(rest, None, 0)
  {
    if s == [] {
      assert s + rest == rest;
    } else {
      assert s[0] in s && (s + rest)[0] == s[0] && (s + rest)[1..] == s[1..] + rest;
      forall c | c in s[1..] ensures c in s {}
      UnmarkedPasses(s[1..], rest);
    }
  }

  lemma {:induction false} QuotePasses(u: string, q: char, rest: string)
    requires IsQuote(q) && q !in u
    ensures TagPass([q] + u + [q] + rest, None, 0) == TagPass(rest, None, 0)
  {
    var s := [q] + u + [q] + rest;
    assert s[1..] == u + [q] + rest;
    QuotedPasses(u, q, rest);
    hide TagPass, IsQuote;
    FirstQuote(s);
  }

  lemma {:induction false} FirstQuote(s: string)
    requires s != [] && IsQuote(s[0])
    ensures TagPass(s, None, 0) == TagPass(s[1..], Some(s[0]), 0)
  {}

  lemma {:induction false} WordsUnmarked(x: string, y: string, z: string)
    requires Letters(x) && Letters(y) && Letters(z)
    ensures Unmarked(" a=") && Unmarked(x) && Unmarked(y) && Unmarked(z)
    ensures '\'' !in x + "\"" + y + "{{t " && '\'' !in "}}" && '"' !in x
    ensures Find(Inside(z), "}}").None?
  {
    hide Find;
    InsideOk(z);
    NoBrace(Inside(z));
  }

  lemma {:induction false} NoBrace(s: string)
    requires '}' !in s
    ensures Find(s, "}}").None? && (s != [] ==> s[|s| - 1] != '}')
  {
    if s != [] {
      assert s[0] in s && s[|s| - 1] in s;
      NoBrace(s[1..]);
    }
  }

  lemma {:induction false} SourcePasses(x: string, y: string, z: string)
    requires Letters(x) && Letters(y) && Letters(z)
    ensures TagPass(AttrIn("'", Value(x, y, z)), None, 0)
  {
    WordsUnmarked(x, y, z);
    SingleIsQuote();
    NothingPasses();
    hide *;
    var u := x + "\"" + y + "{{t ";
    var last := ['\''] + "}}" + ['\''] + [];
    QuotePasses("}}", '\'', []);
    UnmarkedPasses(z, last);
    QuotePasses(u, '\'', z + last);
    UnmarkedPasses(" a=", ['\''] + u + ['\''] + (z + last));
    SourceIs(x, y, z);
  }

  lemma {:induction false} NothingPasses()
    ensures TagPass([], None, 0)
  {}

  lemma {:induction false} SourceIs(x: string, y: string, z: string)
    ensures AttrIn("'", Value(x, y, z))
         == " a=" + (['\''] + (x + "\"" + y + "{{t ") + ['\''] + (z + (['\''] + "}}" + ['\''] + [])))
  {
    assert "{{" + Inside(z) + "}}" == "{{t " + (['\''] + (z + (['\''] + "}}")));
  }

  /** The printed tag up to its last quote: the value ends at its own double quote, the mustache is outside it. */
  function Before(x: string, y: string, z: string): string { " a=" + (['"'] + x + ['"'] + (y + ("{{" + Inside(z) + "}}"))) }

  lemma {:induction false} PrintedPasses(x: string, y: string, z: string)
    requires Letters(x) && Letters(y) && Letters(z)
    ensures TagPass(Before(x, y, z), None, 0)
  {
    WordsUnmarked(x, y, z);
    SingleIsQuote();
    InsideOk(z);
    NoBrace(Inside(z));
    BeforeIs(x, y, z);
    hide *;
    var m := "{{" + Inside(z) + "}}";
    ExprPasses(Inside(z));
    UnmarkedPasses(y, m);
    QuotePasses(x, '"', y + m);
    UnmarkedPasses(" a=", ['"'] + x + ['"'] + (y + m));
  }

  lemma {:induction false} BeforeIs(x: string, y: string, z: string)
    ensures Before(x, y, z) == " a=" + (['"'] + x + ['"'] + (y + ("{{" + Inside(z) + "}}")))
  {}

  lemma {:induction false} OpenForever(rest: string)
    requires '"' !in rest
    ensures TagScan(rest, Some('"'), 0).None?
  {
    if rest != [] {
      assert rest[0] in rest;
      OpenForever(rest[1..]);
    }
  }

  lemma {:induction false} LastQuote()
    ensures TagScan("\">\n", None, 0).None?
  {
    var s := "\">\n";
    assert s[1..] == ">\n" && s[0] == '"' && IsQuote(s[0]);
    OpenForever(s[1..]);
    assert TagScan(s, None, 0) == ShiftClose(TagScan(s[1..], Some('"'), 0), 1);
  }

  lemma {:induction false} PrintedTail(x: string, y: string, z: string)
    ensures AttrIn("\"", Value(x, y, z)) + ">\n" == Before(x, y, z) + "\">\n"
    ensures var b := Before(x, y, z); b != [] && b[0] == ' ' && b[|b| - 1] == '}'
  {
    assert AttrIn("\"", Value(x, y, z)) == Before(x, y, z) + "\"";
  }

  /** The formatted template is not tokenized: its last quote is never closed. */
  lemma {:induction false} PrintedFails(x: string, y: string, z: string)
    requires Letters(x) && Letters(y) && Letters(z)
    ensures Format(TagIn("\"", Value(x, y, z)) + "\n").Err?
  {
    hide *;
    var tail := Before(x, y, z) + "\">\n";
    PrintedPasses(x, y, z);
    PrintedTail(x, y, z);
    LastQuote();
    PassOver(Before(x, y, z), None, 0, "\">\n");
    NoneShifted(|Before(x, y, z)|);
    TagNameP(tail);
    UnclosedStart("p", tail);
    TagInIs("\"", Value(x, y, z));
    FailsAtOnce("<" + "p" + tail);
  }

  lemma {:induction false} NoneShifted(n: nat)
    ensures ShiftClose(None, n).None?
  {}

  lemma {:induction false} TagNameP(tail: string)
    requires tail != [] && tail[0] == ' '
    ensures IsTagName("p") && IsAlpha("p"[0]) && EndsTagName(tail)
  {}

  lemma {:induction false} TagInIs(quote: string, v: string)
    ensures TagIn(quote, v) + "\n" == "<" + "p" + (AttrIn(quote, v) + ">\n")
    ensures TagIn(quote, v) == "<p" + AttrIn(quote, v) + ">"
  {}

  lemma {:induction false} FailsAtOnce(s: string)
    requires s != [] && Scan(s).Fail?
    ensures Format(s).Err?
  {
    hide Scan, Print;
    assert Lex([], s).Err?;
    assert LexTokens([], s).Err?;
  }

  // ----- formatting the template -----

  lemma {:induction false} SourceReads(x: string, y: string, z: string)
    requires Letters(x) && Letters(y) && Letters(z)
    ensures var a := AttrIn("'", Value(x, y, z));
            Lex([], TagIn("'", Value(x, y, z))) == Ok(Doc([], [Unit(Single(HtmlStart("p", a, false)), TagIn("'", Value(x, y, z)), [])]))
  {
    hide *;
    var a := AttrIn("'", Value(x, y, z));
    SourcePasses(x, y, z);
    AttrEnds("'", Value(x, y, z));
    PassOver(a, None, 0, ">");
    CloseHere(false, []);
    assert ">" + [] == ">" && [] + (">" + []) == ">";
    ShiftsTo(a);
    NoTail();
    LoneTagRead(a, [], []);
    TagInIs("'", Value(x, y, z));
    assert "<p" + a + [] + ">" + [] == "<p" + a + [] + ">" == "<p" + a + ">";
  }

  lemma {:induction false} NoTail()
    ensures PageTail([]) && Blank([])
  {}

  lemma {:induction false} ShiftsTo(a: string)
    ensures ShiftClose(Some(TagClose(0, false)), |a|) == Some(TagClose(|a|, false))
  {}

  lemma {:induction false} AttrEnds(quote: string, v: string)
    requires quote == "'" || quote == "\""
    ensures var a := AttrIn(quote, v); a != [] && IsSpace(a[0]) && !IsSpace(a[|a| - 1]) && a[|a| - 1] != '{' && a[|a| - 1] != '/'
  {}

  lemma {:induction false} ParagraphNotVoid()
    ensures !IsVoid("p") && !SlashClosed("p", false)
  {
    LongVoids();
  }

  function Attribute(v: string): string { "a" + "=" + ['"'] + v + ['"'] }

  lemma {:induction false} PrintedTagText(v: string)
    ensures TagText("p", [Plain("a", Some(v))], [Attribute(v)], false, 0) == TagIn("\"", v)
  {
    ParagraphNotVoid();
    var r := Attribute(v);
    assert [r][1..] == [] && Spaced([r]) == " " + r + [] == " " + r;
    hide IsVoid, Spaced;
    assert "<" + "p" + (" " + r) + ">" == TagIn("\"", v);
  }

  lemma {:induction false} PrintsStart(name: string, a: string, attrs: seq<Attr>, rs: seq<string>, tag: string)
    requires ParseAttributes(a) == Ok(attrs) && RenderAttrs(attrs) == Ok(rs) && OneLine(attrs) && !IsVoid(name)
    requires TagText(name, attrs, rs, false, 0) == tag && tag != [] && tag[|tag| - 1] != '\n'
    ensures InlineOpener(HtmlStart(name, a, false)).Ok?
    ensures PrintToken(HtmlStart(name, a, false), BLANK_PAGE) == Ok(State(Page(tag + "\n", true), 1, false))
  {
    Limits.TagAlone(tag);
    hide ParseAttributes, RenderAttrs, OneLine, TagText, Newline, Push, EnsureIndent, IsVoid;
  }

  lemma {:induction false} TagPrints(x: string, y: string, z: string)
    requires Letters(x) && Letters(y) && Letters(z)
    ensures var t := HtmlStart("p", AttrIn("'", Value(x, y, z)), false);
            && InlineOpener(t).Ok?
            && PrintToken(t, BLANK_PAGE) == Ok(State(Page(TagIn("\"", Value(x, y, z)) + "\n", true), 1, false))
  {
    hide *;
    var v := Value(x, y, z);
    ParagraphNotVoid();
    AttrParses(x, y, z);
    AttrPrints(x, y, z);
    PrintedTagText(v);
    AttributeIs(v);
    TagHasNoBreak(x, y, z);
    PrintsStart("p", AttrIn("'", v), [Plain("a", Some(v))], [Attribute(v)], TagIn("\"", v));
  }

  lemma {:induction false} AttributeIs(v: string)
    ensures Attribute(v) == "a" + "=" + ['"'] + v + ['"']
  {}

  lemma {:induction false} OneTagLine(tag: string)
    requires '\n' !in tag && tag != [] && !IsSpace(tag[|tag| - 1])
    ensures PostProcess(tag + "\n") == tag + "\n"
  {
    var s, b := tag + "\n", "\n";
    assert b[1..] == [] && Capped(b, 0);
    Limits.CappedOver(tag, b, 0);
    assert forall i | 0 <= i < |tag| :: s[i] == tag[i];
    forall i | 0 <= i < |s| && IsSpace(s[i]) && s[i] != '\n' ensures i + 1 < |s| && s[i + 1] != '\n' {
      assert i + 1 < |tag| && tag[i + 1] in tag;
    }
    EndsInNewline(s);
    EndsInTwo(s);
    FixedIffSettled(s);
  }

  lemma {:induction false} TagHasNoBreak(x: string, y: string, z: string)
    requires Letters(x) && Letters(y) && Letters(z)
    ensures var tag := TagIn("\"", Value(x, y, z)); '\n' !in tag && tag != [] && tag[|tag| - 1] == '>'
  {}

  lemma {:induction false} LonePrints(t: Token, page: Page)
    requires t.HtmlStart? && InlineOpener(t).Ok? && PrintToken(t, BLANK_PAGE) == Ok(State(page, 1, false))
    ensures PrintFrom([t] + [], BLANK_PAGE) == Ok(State(page, 1, false))
  {
    hide InlineOpener, PrintToken, FindCloser;
    assert [t] + [] == [t] && [t][1..] == [];
    NothingCloses(t.name);
    NoCloser([t], 0);
    Limits.BlankDepth();
    Limits.PrintTurn(t, [], BLANK_PAGE, State(page, 1, false));
  }

  lemma {:induction false} TagsAre(x: string, y: string, z: string)
    ensures TagIn("'", Value(x, y, z)) == "<p a='" + x + "\"" + y + "{{t '" + z + "'}}'>"
    ensures TagIn("\"", Value(x, y, z)) + "\n" == "<p a=\"" + x + "\"" + y + "{{t '" + z + "'}}\">\n"
  {
    assert "{{" + Inside(z) + "}}" == "{{t '" + z + "'}}";
  }

  /** Formatting `<p a='x"y{{t 'z'}}'>` prints its value in double quotes, and what it prints no longer formats. */
  lemma {:induction false} QuotesBreak(x: string, y: string, z: string)
    requires Letters(x) && Letters(y) && Letters(z)
    ensures Format("<p a='" + x + "\"" + y + "{{t '" + z + "'}}'>") == Ok("<p a=\"" + x + "\"" + y + "{{t '" + z + "'}}\">\n")
    ensures Format("<p a=\"" + x + "\"" + y + "{{t '" + z + "'}}\">\n").Err?
  {
    PrintedFails(x, y, z);
    TemplateFormats(x, y, z);
    TagsAre(x, y, z);
    hide *;
  }

  lemma {:induction false} TemplateFormats(x: string, y: string, z: string)
    requires Letters(x) && Letters(y) && Letters(z)
    ensures Format(TagIn("'", Value(x, y, z))) == Ok(TagIn("\"", Value(x, y, z)) + "\n")
  {
    hide *;
    var v := Value(x, y, z);
    var t, out := HtmlStart("p", AttrIn("'", v), false), TagIn("\"", v) + "\n";
    SourceReads(x, y, z);
    LoneTokens(t, TagIn("'", v), []);
    NoText();
    TagPrints(x, y, z);
    LonePrints(t, Page(out, true));
    TagHasNoBreak(x, y, z);
    GreaterIsNoSpace();
    OneTagLine(TagIn("\"", v));
    Limits.FormatFrom(TagIn("'", v), Doc([], [Unit(Single(t), TagIn("'", v), [])]), t, [], out);
  }

  lemma {:induction false} NoText()
    ensures TextTokens([]) == []
  {}

  lemma {:induction false} GreaterIsNoSpace()
    ensures !IsSpace('>')
  {}
}
