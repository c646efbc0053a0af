/** Attribute lists as they can be written: which attributes a list of names, unquoted values and quoted
    values denotes, whatever whitespace stands between them. */
module Spellings {
  import opened Text
  import opened Tokens
  import opened Lexing
  import opened Layout
  import opened AttributeProps
  import AttributeParser

  datatype Spelling =
    | NameOnly(name: string)
    | Unquoted(name: string, word: string)
    | Quoted(name: string, text: string, quote: char)

  predicate IsNameText(name: string) {
    && name != [] && !("{{" <= name)
    && forall c <- name :: c !in [' ', '\t', '\n', '\r', '\U{C}', '=', '>', '/', '"', '\'']
  }

  /** A value that ends where whitespace starts. */
  predicate IsWord(w: string) {
    && w != [] && w[0] != '"' && w[0] != '\''
    && forall c <- w :: c !in [' ', '\t', '\n', '\r', '\U{C}']
  }

  predicate Proper(sp: Spelling) {
    && IsNameText(sp.name)
    && match sp
       case NameOnly(_) => true
       case Unquoted(_, w) => IsWord(w)
       case Quoted(_, v, q) => (q == '"' || q == '\'') && q !in v && RegionsClose(v)
  }

  function Written(sp: Spelling): string {
    match sp
    case NameOnly(name) => name
    case Unquoted(name, w) => name + "=" + w
    case Quoted(name, v, q) => name + "=" + [q] + v + [q]
  }

  function Denotes(sp: Spelling): Attr {
    match sp
    case NameOnly(name) => Plain(Lower(name), None)
    case Unquoted(name, w) => Plain(Lower(name), Some(w))
    case Quoted(name, v, _) => Plain(Lower(name), Some(v))
  }

  // ----- one attribute -----

  lemma {:induction false} NameChars(name: string)
    requires IsNameText(name)
    ensures forall c <- name :: IsAttrNameChar(c)
    ensures !IsAttrNameChar('=') && name != []
  {}

  lemma {:induction false} NameFirst(name: string, rest: string)
    requires IsNameText(name) && (rest != [] ==> rest[0] != '{')
    ensures !("{{" <= name + rest)
  {
    var s := name + rest;
    assert s[0] == name[0];
    assert if |name| >= 2 then s[1] == name[1] else rest == [] || s[1] == rest[0];
  }

  lemma {:induction false} WordIsBare(w: string)
    requires IsWord(w)
    ensures w != [] && !IsQuote(w[0]) && forall c <- w :: !IsAsciiSpace(c)
  {}

  lemma {:induction false} WordEnds(w: string, rest: string)
    requires forall c <- w :: !IsAsciiSpace(c)
    requires Delimited(rest)
    ensures WordLen(w + rest) == |w|
  {
    hide IsAsciiSpace;
    if w == [] {
      assert w + rest == rest;
    } else {
      assert w[0] in w;
      assert (w + rest)[1..] == w[1..] + rest;
      WordEnds(w[1..], rest);
    }
  }

  lemma {:induction false} WordSlices(name: string, w: string, rest: string)
    requires w != []
    ensures var s, n := name + "=" + w + rest, |name|;
            && s == name + ("=" + w + rest) && n + 1 < |s|
            && s[..n] == name && s[n] == '=' && s[n + 1] == w[0]
            && s[n + 1..] == w + rest && s[n + 1..n + 1 + |w|] == w
  {}

  /** An unquoted value ends at the first whitespace behind it. */
  lemma {:induction false} ReadsUnquoted(name: string, w: string, rest: string)
    requires IsNameText(name) && IsWord(w) && Delimited(rest)
    ensures ParseOne(name + "=" + w + rest) == Ok(ReadAttr(Plain(Lower(name), Some(w)), |name| + 1 + |w|))
  {
    hide *;
    var s, tail := name + "=" + w + rest, "=" + w + rest;
    WordIsBare(w);
    WordSlices(name, w, rest);
    NameChars(name);
    NameFirst(name, tail);
    NameEnds(name, tail);
    WordEnds(w, rest);
    AttributeParser.WordIs(s, |name|);
  }

  lemma {:induction false} SpaceIsNotBrace(c: char)
    requires IsAsciiSpace(c)
    ensures c != '{'
  {}

  lemma {:induction false} ReadsName(name: string, rest: string)
    requires IsNameText(name) && Delimited(rest)
    ensures ParseOne(name + rest) == Ok(ReadAttr(Plain(Lower(name), None), |name|))
  {
    hide IsAsciiSpace, Lower, IsNameText;
    var s := name + rest;
    NameChars(name);
    if rest != [] { SpaceIsNotEquals(rest[0]); SpaceIsNotBrace(rest[0]); assert s[|name|] == rest[0]; }
    NameFirst(name, rest);
    NameEnds(name, rest);
    assert s[..|name|] == name;
    AttributeParser.BareIs(s);
  }

  lemma {:induction false} ReadsQuoted(name: string, v: string, q: char, rest: string)
    requires IsNameText(name) && RegionsClose(v) && IsQuote(q) && q !in v
    ensures var r := name + "=" + [q] + v + [q];
            ParseOne(r + rest) == Ok(ReadAttr(Plain(Lower(name), Some(v)), |r|))
  {
    hide *;
    var tail := "=" + [q] + v + [q] + rest;
    var s := name + "=" + [q] + v + [q] + rest;
    QuotedSlices(name, v, q, rest);
    NameChars(name);
    NameFirst(name, tail);
    NameEnds(name, tail);
    ValueEnds(v, q, rest);
    ParseQuoted(s, |name|, |v|);
  }

  lemma {:induction false} ReadsSpelling(sp: Spelling, rest: string)
    requires Proper(sp) && Delimited(rest)
    ensures ParseOne(Written(sp) + rest) == Ok(ReadAttr(Denotes(sp), |Written(sp)|))
  {
    hide IsNameText, IsWord, ParseOne, RegionsClose, Lower, Delimited;
    match sp
    case NameOnly(name) => ReadsName(name, rest);
    case Unquoted(name, w) => ReadsUnquoted(name, w, rest);
    case Quoted(name, v, q) => ReadsQuoted(name, v, q, rest);
  }

  lemma {:induction false} StartsApart(sp: Spelling)
    requires Proper(sp)
    ensures Written(sp) != [] && !IsAsciiSpace(Written(sp)[0])
  {
    assert sp.name[0] in sp.name && Written(sp)[0] == sp.name[0];
    hide RegionsClose, Lower, IsWord;
  }

  // ----- lists -----

  function AllWritten(sps: seq<Spelling>): (r: seq<string>)
    ensures |r| == |sps|
  {
    if sps == [] then [] else [Written(sps[0])] + AllWritten(sps[1..])
  }

  function AllDenoted(sps: seq<Spelling>): seq<Attr> {
    if sps == [] then [] else [Denotes(sps[0])] + AllDenoted(sps[1..])
  }

  /** Whitespace in front of every attribute, none being needed in front of the first one. */
  predicate Spread(seps: seq<string>) { seps != [] ==> AllAsciiSpace(seps[0]) && Separators(seps[1..]) }

  lemma {:induction false} SpreadTail(seps: seq<string>)
    requires Spread(seps) && seps != []
    ensures AllAsciiSpace(seps[0]) && Separators(seps[1..]) && Spread(seps[1..])
  {
    if |seps| > 1 { SeparatorHead(seps[1..]); }
    hide AllAsciiSpace, Separators;
  }

  predicate AllProper(sps: seq<Spelling>) { forall sp <- sps :: Proper(sp) }

  lemma {:induction false} ProperHead(sps: seq<Spelling>)
    requires AllProper(sps) && sps != []
    ensures Proper(sps[0]) && AllProper(sps[1..])
  {
    hide Proper;
    forall sp | sp in sps[1..] ensures sp in sps {}
  }

  lemma {:induction false} AttributeThen(t: string, one: ReadAttr, rest: string)
    requires t != [] && !IsAsciiSpace(t[0]) && ParseOne(t + rest) == Ok(one) && one.len == |t| && ParseAttributes(rest).Ok?
    ensures ParseAttributes(t + rest) == Ok([one.attr] + ParseAttributes(rest).value)
  {
    hide ParseOne, IsAsciiSpace;
    assert (t + rest)[0] == t[0] && SpaceLen(t + rest) == 0 && (t + rest)[0..] == t + rest;
    assert (t + rest)[|t|..] == rest;
  }

  lemma {:induction false} ListHead(sps: seq<Spelling>, seps: seq<string>, trail: string)
    requires sps != [] && |seps| == |sps|
    ensures AllDenoted(sps) == [Denotes(sps[0])] + AllDenoted(sps[1..])
    ensures Laid(seps, AllWritten(sps)) + trail
         == seps[0] + (Written(sps[0]) + (Laid(seps[1..], AllWritten(sps[1..])) + trail))
  {
    hide Written, Denotes;
    assert AllWritten(sps)[1..] == AllWritten(sps[1..]);
  }

  lemma {:induction false} NothingListed(trail: string)
    requires AllAsciiSpace(trail)
    ensures ParseAttributes(Laid([], AllWritten([])) + trail) == Ok(AllDenoted([]))
  {
    ParseNothing(trail);
  }

  /** A list denotes the attributes it spells, whatever whitespace stands around them. */
  lemma {:induction false} SpellingsParse(sps: seq<Spelling>, seps: seq<string>, trail: string)
    requires |seps| == |sps| && Spread(seps) && AllProper(sps) && AllAsciiSpace(trail)
    ensures ParseAttributes(Laid(seps, AllWritten(sps)) + trail) == Ok(AllDenoted(sps))
  {
    hide *;
    if sps == [] {
      assert seps == [];
      NothingListed(trail);
    } else {
      ProperHead(sps);
      SpreadTail(seps);
      SpellingsParse(sps[1..], seps[1..], trail);
      var rest := Laid(seps[1..], AllWritten(sps[1..])) + trail;
      LaidStarts(seps[1..], AllWritten(sps[1..]), trail);
      ReadsSpelling(sps[0], rest);
      StartsApart(sps[0]);
      ListHead(sps, seps, trail);
      AttributeThen(Written(sps[0]), ReadAttr(Denotes(sps[0]), |Written(sps[0])|), rest);
      SkipsSpace(seps[0], Written(sps[0]) + rest);
    }
  }

  // ----- quotes make no difference -----

  /** The same attribute with its value in double quotes. */
  function InQuotes(sp: Spelling): Spelling { if sp.Unquoted? then Quoted(sp.name, sp.word, '"') else sp }

  function AllInQuotes(sps: seq<Spelling>): (r: seq<Spelling>)
    ensures |r| == |sps|
  {
    if sps == [] then [] else [InQuotes(sps[0])] + AllInQuotes(sps[1..])
  }

  /** Every unquoted value can stand in double quotes. */
  predicate AllQuotable(sps: seq<Spelling>) {
    forall sp <- sps :: sp.Unquoted? ==> '"' !in sp.word && RegionsClose(sp.word)
  }

  lemma {:induction false} QuotedDenote(sps: seq<Spelling>)
    requires AllProper(sps) && AllQuotable(sps)
    ensures AllProper(AllInQuotes(sps)) && AllDenoted(AllInQuotes(sps)) == AllDenoted(sps)
  {
    hide IsNameText, IsWord, RegionsClose, Lower;
    if sps != [] {
      ProperHead(sps);
      forall sp | sp in sps[1..] ensures sp in sps {}
      QuotedDenote(sps[1..]);
      assert AllInQuotes(sps)[1..] == AllInQuotes(sps[1..]);
      assert sps[0] in sps;
    }
  }

  /** Putting unquoted values in quotes, and laying the list out anew, changes neither the attributes nor the tag. */
  lemma {:induction false} QuotesMakeNoDifference(
      sps: seq<Spelling>, a: seq<string>, b: seq<string>, trailA: string, trailB: string, name: string, selfClosed: bool)
    requires AllProper(sps) && AllQuotable(sps) && |a| == |b| == |sps|
    requires Spread(a) && Spread(b) && AllAsciiSpace(trailA) && AllAsciiSpace(trailB)
    ensures var x, y := Laid(a, AllWritten(sps)) + trailA, Laid(b, AllWritten(AllInQuotes(sps))) + trailB;
            && ParseAttributes(x) == ParseAttributes(y) == Ok(AllDenoted(sps))
            && TokenText(HtmlStart(name, x, selfClosed)) == TokenText(HtmlStart(name, y, selfClosed))
  {
    QuotedDenote(sps);
    SpellingsParse(sps, a, trailA);
    SpellingsParse(AllInQuotes(sps), b, trailB);
    hide ParseAttributes, Laid, AllWritten, AllInQuotes, AllDenoted, RenderAttrs;
  }

  // ----- what spells no attribute -----

  lemma {:induction false} NoNameHere(c: char, rest: string)
    requires c in ['=', '>', '/', '"', '\'']
    ensures ParseOne([c] + rest).Err?
  {
    var s := [c] + rest;
    assert s[0] == c && AttrNameLen(s) == 0;
    assert !("{{" <= s);
    AttributeParser.BareIs(s);
  }

  lemma {:induction false} EndsInEquals(name: string)
    requires IsNameText(name)
    ensures ParseOne(name + "=").Err?
  {
    hide *;
    NameChars(name);
    NameFirst(name, "=");
    NameEnds(name, "=");
    AttributeParser.EndsAtEquals(name + "=", |name|);
  }

  lemma {:induction false} NeverQuoted(v: string, q: char)
    requires q !in v
    ensures FindValueQuote(v, q).None?
  {
    hide FindValueQuote;
  }

  lemma {:induction false} QuoteStaysOpen(name: string, q: char, v: string)
    requires IsNameText(name) && (q == '"' || q == '\'') && q !in v
    ensures ParseOne(name + "=" + [q] + v).Err?
  {
    assert IsQuote(q);
    hide *;
    var s, tail := name + "=" + [q] + v, "=" + [q] + v;
    assert s == name + tail;
    NameChars(name);
    NameFirst(name, tail);
    NameEnds(name, tail);
    NeverQuoted(v, q);
    assert s[|name|] == '=' && s[|name| + 1] == q && s[|name| + 2..] == v;
    AttributeParser.QuotedIs(s, |name|);
  }

  /** A list fails at an attribute without a name, at an equals sign that ends it, and at a quote that stays open. */
  lemma {:induction false} BadListFails(ws: string, name: string, c: char, q: char, v: string, rest: string)
    requires AllAsciiSpace(ws) && IsNameText(name)
    ensures c in ['=', '>', '/', '"', '\''] ==> ParseAttributes(ws + ([c] + rest)).Err?
    ensures ParseAttributes(ws + (name + "=")).Err?
    ensures (q == '"' || q == '\'') && q !in v ==> ParseAttributes(ws + (name + "=" + [q] + v)).Err?
  {
    hide *;
    if c in ['=', '>', '/', '"', '\''] {
      NoNameHere(c, rest);
      FailsThere(ws, [c] + rest) by { SignIsNoSpace(c); }
    }
    NameStarts(name);
    assert (name + "=")[0] == name[0] && (name + "=" + [q] + v)[0] == name[0];
    EndsInEquals(name);
    FailsThere(ws, name + "=");
    if (q == '"' || q == '\'') && q !in v {
      QuoteStaysOpen(name, q, v);
      FailsThere(ws, name + "=" + [q] + v);
    }
  }

  lemma {:induction false} FailsThere(ws: string, t: string)
    requires AllAsciiSpace(ws) && t != [] && !IsAsciiSpace(t[0]) && ParseOne(t).Err?
    ensures ParseAttributes(ws + t).Err?
  {
    hide ParseOne, IsAsciiSpace;
    SkipsSpace(ws, t);
    assert SpaceLen(t) == 0 && t[0..] == t;
  }

  lemma {:induction false} SignIsNoSpace(c: char)
    requires c in ['=', '>', '/', '"', '\'']
    ensures !IsAsciiSpace(c)
  {}

  lemma {:induction false} NameStarts(name: string)
    requires IsNameText(name)
    ensures name != [] && !IsAsciiSpace(name[0])
  {
    assert name[0] in name;
  }
}
