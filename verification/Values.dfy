/** Quoted attribute values with mustaches in them, as trees: quotes inside a mustache do not end the value. */
module Values {
  import opened Text
  import opened Tokens
  import opened Lexing
  import opened AttributeProps
  import opened Layout
  import opened Spellings

  /** Characters, or the content of a pair of double braces. */
  datatype Part = Chars(text: string) | Braced(parts: seq<Part>)

  predicate InnerOk(ps: seq<Part>) { ps == [] || (InnerPartOk(ps[0]) && InnerOk(ps[1..])) }

  predicate InnerPartOk(p: Part) {
    match p
    case Chars(text) => '{' !in text && '}' !in text
    case Braced(inner) => InnerOk(inner)
  }

  /** Parts of a value between quotes `q`: the quote stands inside braces only. */
  predicate ValueOk(ps: seq<Part>, q: char) { ps == [] || (ValuePartOk(ps[0], q) && ValueOk(ps[1..], q)) }

  predicate ValuePartOk(p: Part, q: char) {
    match p
    case Chars(text) => '{' !in text && q !in text
    case Braced(inner) => InnerOk(inner)
  }

  function PartText(p: Part): string {
    match p
    case Chars(text) => text
    case Braced(inner) => "{{" + (PartsText(inner) + "}}")
  }

  function PartsText(ps: seq<Part>): string { if ps == [] then [] else PartText(ps[0]) + PartsText(ps[1..]) }

  // ----- a region is passed over -----

  lemma {:induction false} CharPasses(s: string, depth: int)
    requires s != [] && !("{{" <= s) && !("}}" <= s)
    ensures RegionLen(s, depth) == 1 + RegionLen(s[1..], depth)
  {}

  lemma {:induction false} CharsPass(text: string, rest: string, depth: int)
    requires '{' !in text && '}' !in text
    ensures RegionLen(text + rest, depth) == |text| + RegionLen(rest, depth)
  {
    hide RegionLen;
    if text == [] {
      assert text + rest == rest;
    } else {
      var s := text + rest;
      assert text[0] in text && s[0] == text[0] && s[1..] == text[1..] + rest;
      CharPasses(s, depth);
      CharsPass(text[1..], rest, depth);
    }
  }

  lemma {:induction false} Opens(rest: string, depth: int)
    ensures RegionLen("{{" + rest, depth) == 2 + RegionLen(rest, depth + 1)
  {
    var s := "{{" + rest;
    assert s[..2] == "{{" && s[2..] == rest;
  }

  lemma {:induction false} Closes(rest: string, depth: int)
    ensures RegionLen("}}" + rest, depth) == if depth == 1 then 2 else 2 + RegionLen(rest, depth - 1)
  {
    var s := "}}" + rest;
    assert s[..2] == "}}" && s[2..] == rest && s[0] == '}';
  }

  lemma {:induction false} PartsHead(ps: seq<Part>, rest: string)
    requires ps != [] && InnerOk(ps)
    ensures InnerPartOk(ps[0]) && InnerOk(ps[1..])
    ensures PartsText(ps) + rest == PartText(ps[0]) + (PartsText(ps[1..]) + rest)
    ensures |PartsText(ps)| == |PartText(ps[0])| + |PartsText(ps[1..])|
  {
    hide InnerPartOk, PartText;
  }

  lemma {:induction false} NoParts(rest: string)
    ensures PartsText([]) == [] && PartsText([]) + rest == rest
  {}

  lemma {:induction false} PartIs(p: Part, rest: string)
    requires InnerPartOk(p)
    ensures p.Chars? ==> '{' !in p.text && '}' !in p.text && PartText(p) == p.text
    ensures p.Braced? ==> InnerOk(p.parts) && PartText(p) + rest == "{{" + (PartsText(p.parts) + ("}}" + rest))
                          && |PartText(p)| == |PartsText(p.parts)| + 4
  {
    hide PartsText, InnerOk;
  }

  lemma {:induction false} InnerPasses(ps: seq<Part>, rest: string, depth: nat)
    requires InnerOk(ps) && depth >= 1
    ensures RegionLen(PartsText(ps) + rest, depth) == |PartsText(ps)| + RegionLen(rest, depth)
    decreases ps, 0
  {
    hide *;
    if ps == [] {
      NoParts(rest);
    } else {
      PartsHead(ps, rest);
      PartPasses(ps[0], PartsText(ps[1..]) + rest, depth);
      InnerPasses(ps[1..], rest, depth);
    }
  }

  lemma {:induction false} PartPasses(p: Part, rest: string, depth: nat)
    requires InnerPartOk(p) && depth >= 1
    ensures RegionLen(PartText(p) + rest, depth) == |PartText(p)| + RegionLen(rest, depth)
    decreases p, 0
  {
    hide *;
    PartIs(p, rest);
    match p
    case Chars(text) => CharsPass(text, rest, depth);
    case Braced(inner) =>
      Opens(PartsText(inner) + ("}}" + rest), depth);
      InnerPasses(inner, "}}" + rest, depth + 1);
      Closes(rest, depth + 1);
  }

  /** A pair of double braces is one region, whatever is nested in it. */
  lemma {:induction false} RegionIs(inner: seq<Part>, rest: string)
    requires InnerOk(inner)
    ensures var p := Braced(inner); RegionLen(PartText(p) + rest, 0) == |PartText(p)|
  {
    hide *;
    var p := Braced(inner);
    BracedOk(inner);
    PartIs(p, rest);
    Opens(PartsText(inner) + ("}}" + rest), 0);
    InnerPasses(inner, "}}" + rest, 1);
    Closes(rest, 1);
  }

  lemma {:induction false} BracedOk(inner: seq<Part>)
    requires InnerOk(inner)
    ensures InnerPartOk(Braced(inner))
  {
    hide InnerOk;
  }

  // ----- the closing quote -----

  lemma {:induction false} ValueHead(ps: seq<Part>, q: char, rest: string)
    requires ps != [] && ValueOk(ps, q)
    ensures ValuePartOk(ps[0], q) && ValueOk(ps[1..], q)
    ensures PartsText(ps) + rest == PartText(ps[0]) + (PartsText(ps[1..]) + rest)
    ensures |PartsText(ps)| == |PartText(ps[0])| + |PartsText(ps[1..])|
  {
    hide ValuePartOk, PartText;
  }

  lemma {:induction false} CharsQuoted(text: string, q: char, rest: string)
    requires '{' !in text && q !in text
    ensures FindValueQuote(text + rest, q) == Shift(FindValueQuote(rest, q), |text|)
  {
    hide FindValueQuote, RegionLen;
    if text == [] {
      assert text + rest == rest;
      ShiftNone(FindValueQuote(rest, q));
    } else {
      var s := text + rest;
      assert text[0] in text && s[0] == text[0] && s[1..] == text[1..] + rest;
      QuoteTurn(s, q);
      CharsQuoted(text[1..], q, rest);
      ShiftTwice(FindValueQuote(rest, q), |text| - 1, 1);
    }
  }

  lemma {:induction false} BracedQuoted(inner: seq<Part>, q: char, rest: string)
    requires InnerOk(inner)
    ensures var p := Braced(inner);
            FindValueQuote(PartText(p) + rest, q) == Shift(FindValueQuote(rest, q), |PartText(p)|)
  {
    hide *;
    var p := Braced(inner);
    var s := PartText(p) + rest;
    RegionIs(inner, rest);
    BracedOk(inner);
    PartIs(p, rest);
    assert s[..2] == "{{" && s[|PartText(p)|..] == rest;
    QuoteTurn(s, q);
  }

  lemma {:induction false} ValuePartIs(p: Part, q: char)
    requires ValuePartOk(p, q)
    ensures p.Chars? ==> '{' !in p.text && q !in p.text && PartText(p) == p.text
    ensures p.Braced? ==> InnerOk(p.parts)
  {
    hide PartsText, InnerOk;
  }

  lemma {:induction false} ValueQuoted(ps: seq<Part>, q: char, rest: string)
    requires ValueOk(ps, q) && IsQuote(q)
    ensures FindValueQuote(PartsText(ps) + ([q] + rest), q) == Some(|PartsText(ps)|)
  {
    hide *;
    var tail := [q] + rest;
    if ps == [] {
      NoParts(tail);
      QuoteHere(q, rest);
    } else {
      ValueHead(ps, q, tail);
      ValueQuoted(ps[1..], q, rest);
      ValuePartIs(ps[0], q);
      match ps[0] {
        case Chars(text) => CharsQuoted(text, q, PartsText(ps[1..]) + tail);
        case Braced(inner) => BracedQuoted(inner, q, PartsText(ps[1..]) + tail);
      }
      ShiftIs(Some(|PartsText(ps[1..])|), |PartText(ps[0])|);
    }
  }

  lemma {:induction false} PrefixOf(s: string, n: nat, v: string, t: string, w: string)
    requires n <= |s| && s[n..] == v + t && w <= v && t != []
    ensures n + |w| < |s| && s[n..n + |w|] == w
  {
    assert |s| == n + |v| + |t|;
    assert s[n..n + |w|] == s[n..][..|w|] == v[..|w|];
  }

  /** The value is `w`, up to the quote that the scan finds. */
  lemma {:induction false} ReadUpTo(s: string, name: string, q: char, w: string)
    requires IsNameText(name) && IsQuote(q) && |name| + 2 + |w| < |s|
    requires s[..|name|] == name && s[|name|] == '=' && s[|name| + 1] == q && s[|name| + 2..|name| + 2 + |w|] == w
    requires FindValueQuote(s[|name| + 2..], q) == Some(|w|)
    ensures ParseOne(s) == Ok(ReadAttr(Plain(Lower(name), Some(w)), |name| + 3 + |w|))
  {
    hide *;
    NameBefore(s, name);
    ParseQuoted(s, |name|, |w|);
  }

  lemma {:induction false} NameBefore(s: string, name: string)
    requires IsNameText(name) && |name| < |s| && s[..|name|] == name && s[|name|] == '='
    ensures AttrNameLen(s) == |name| > 0 && !("{{" <= s)
  {
    hide *;
    var tail := s[|name|..];
    assert s == name + tail;
    NameChars(name);
    NameFirst(name, tail);
    NameEnds(name, tail);
  }

  function Assigned(name: string, q: char, v: string, rest: string): string { name + "=" + [q] + v + [q] + rest }

  lemma {:induction false} AssignedParts(name: string, q: char, v: string, rest: string)
    ensures var s := Assigned(name, q, v, rest);
            |name| + 2 <= |s| && s[..|name|] == name && s[|name|] == '=' && s[|name| + 1] == q && s[|name| + 2..] == v + ([q] + rest)
  {
    QuotedSlices(name, v, q, rest);
  }

  lemma {:induction false} AssignedIs(name: string, q: char, v: string, rest: string)
    ensures Assigned(name, q, v, rest) == name + "=" + [q] + v + [q] + rest
  {}

  lemma {:induction false} AssignedUpTo(name: string, q: char, v: string, w: string, rest: string)
    requires IsNameText(name) && IsQuote(q) && w <= v && FindValueQuote(v + ([q] + rest), q) == Some(|w|)
    ensures ParseOne(Assigned(name, q, v, rest)) == Ok(ReadAttr(Plain(Lower(name), Some(w)), |name| + 3 + |w|))
  {
    hide *;
    var s := Assigned(name, q, v, rest);
    AssignedParts(name, q, v, rest);
    PrefixOf(s, |name| + 2, v, [q] + rest, w);
    ReadUpTo(s, name, q, w);
  }

  lemma {:induction false} Itself(v: string)
    ensures v <= v
  {}

  lemma {:induction false} AssignedWhole(name: string, q: char, v: string, rest: string)
    requires IsNameText(name) && IsQuote(q) && FindValueQuote(v + ([q] + rest), q) == Some(|v|)
    ensures ParseOne(Assigned(name, q, v, rest)) == Ok(ReadAttr(Plain(Lower(name), Some(v)), |name| + 3 + |v|))
  {
    hide *;
    Itself(v);
    AssignedUpTo(name, q, v, v, rest);
  }

  /** A quoted value ends at the first such quote outside its mustaches. */
  lemma {:induction false} QuotedValueRead(name: string, q: char, ps: seq<Part>, v: string, rest: string)
    requires IsNameText(name) && IsQuote(q) && ValueOk(ps, q) && v == PartsText(ps)
    ensures ParseOne(name + "=" + [q] + v + [q] + rest) == Ok(ReadAttr(Plain(Lower(name), Some(v)), |name| + 3 + |v|))
  {
    hide *;
    ValueQuoted(ps, q, rest);
    AssignedWhole(name, q, v, rest);
    AssignedIs(name, q, v, rest);
  }

  // ----- what printing makes of the value -----

  /** The characters of a value outside its mustaches. */
  function BareText(ps: seq<Part>): string {
    if ps == [] then [] else (if ps[0].Chars? then ps[0].text else []) + BareText(ps[1..])
  }

  lemma {:induction false} BareHead(ps: seq<Part>, c: char)
    requires ps != []
    ensures c in BareText(ps) <==> (ps[0].Chars? && c in ps[0].text) || c in BareText(ps[1..])
  {}

  lemma {:induction false} BareInText(ps: seq<Part>, c: char)
    requires c in BareText(ps)
    ensures c in PartsText(ps)
  {
    hide PartText;
    if ps != [] {
      BareHead(ps, c);
      if c in BareText(ps[1..]) { BareInText(ps[1..], c); }
      hide PartsText;
      PartsTurn(ps);
      CharsText(ps[0]);
    }
  }

  lemma {:induction false} PartsTurn(ps: seq<Part>)
    requires ps != []
    ensures PartsText(ps) == PartText(ps[0]) + PartsText(ps[1..])
  {}

  lemma {:induction false} CharsText(p: Part)
    ensures p.Chars? ==> PartText(p) == p.text
  {}

  /** A value that can stand in one kind of quotes can stand in the other exactly when it does not hold them bare. */
  lemma {:induction false} OtherQuote(ps: seq<Part>, q: char, p: char)
    requires ValueOk(ps, q)
    ensures ValueOk(ps, p) <==> p !in BareText(ps)
  {
    hide InnerOk;
    if ps != [] {
      BareHead(ps, p);
      OtherQuote(ps[1..], q, p);
    }
  }

  lemma {:induction false} CharsStop(text: string, p: char, rest: string)
    requires '{' !in text && p in text
    ensures FindValueQuote(text + rest, p).Some? && FindValueQuote(text + rest, p).value < |text|
  {
    hide FindValueQuote, RegionLen;
    var s := text + rest;
    assert text[0] in text && s[0] == text[0] && s[1..] == text[1..] + rest;
    QuoteTurn(s, p);
    if text[0] != p {
      assert p in text[1..];
      CharsStop(text[1..], p, rest);
      ShiftIs(FindValueQuote(s[1..], p), 1);
    } else {
      ShiftIs(Some(0), 0);
    }
  }

  /** A bare quote of the kind around the value ends it early. */
  lemma {:induction false} BareQuoteStops(ps: seq<Part>, q: char, p: char, rest: string)
    requires ValueOk(ps, q) && p in BareText(ps)
    ensures FindValueQuote(PartsText(ps) + rest, p).Some? && FindValueQuote(PartsText(ps) + rest, p).value < |PartsText(ps)|
  {
    hide *;
    BareIsSome(ps, p);
    BareHead(ps, p);
    ValueHead(ps, q, rest);
    ValuePartIs(ps[0], q);
    var tail := PartsText(ps[1..]) + rest;
    if ps[0].Chars? && p in ps[0].text {
      CharsStop(ps[0].text, p, tail);
    } else {
      BareQuoteStops(ps[1..], q, p, rest);
      match ps[0] {
        case Chars(text) => CharsQuoted(text, p, tail);
        case Braced(inner) => BracedQuoted(inner, p, tail);
      }
      ShiftIs(FindValueQuote(tail, p), |PartText(ps[0])|);
    }
  }

  lemma {:induction false} BareIsSome(ps: seq<Part>, p: char)
    requires p in BareText(ps)
    ensures ps != []
  {}

  /** The quotes a value is printed in: single ones exactly when it holds double ones and no single ones. */
  lemma {:induction false} PrintedIn(name: string, v: string) returns (p: char)
    requires RenderPlain(name, Some(v)) != name
    ensures p == (if '"' in v && '\'' !in v then '\'' else '"')
    ensures RenderPlain(name, Some(v)) == name + "=" + [p] + v + [p]
  {
    hide Lower;
    p := if '"' in v && '\'' !in v then '\'' else '"';
    assert name + "='" + v + "'" == name + "=" + ['\''] + v + ['\''];
    assert name + "=\"" + v + "\"" == name + "=" + ['"'] + v + ['"'];
  }

  lemma {:induction false} QuoteIs(p: char)
    requires p == '"' || p == '\''
    ensures IsQuote(p)
  {}

  /** A value read from quotes is printed so that it reads back exactly when it does not hold a bare double quote and,
      inside a mustache, a single one: then the double quotes it is printed in end it early. */
  lemma {:induction false} QuotesSurviveIff(name: string, q: char, ps: seq<Part>, rest: string)
    requires IsNameText(name) && Lower(name) == name && (q == '"' || q == '\'') && ValueOk(ps, q)
    requires RenderPlain(name, Some(PartsText(ps))) != name
    ensures var r := RenderPlain(name, Some(PartsText(ps)));
            ParseOne(r + rest) == Ok(ReadAttr(Plain(name, Some(PartsText(ps))), |r|))
            <==> !('"' in BareText(ps) && '\'' in PartsText(ps))
  {
    hide *;
    var v := PartsText(ps);
    var p := PrintedIn(name, v);
    QuoteIs(p);
    var r := name + "=" + [p] + v + [p];
    OtherQuote(ps, q, p);
    if p in BareText(ps) {
      BareInText(ps, p);
      BareQuoteStops(ps, q, p, [p] + rest);
      var k := FindValueQuote(v + ([p] + rest), p).value;
      AssignedIs(name, p, v, rest);
      AssignedUpTo(name, p, v, v[..k], rest);
      assert |v[..k]| != |v|;
    } else {
      QuotedValueRead(name, p, ps, v, rest);
      if '"' in BareText(ps) { BareInText(ps, '"'); }
    }
  }
}
