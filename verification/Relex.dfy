/** Printed lexemes read back as the lexemes they were printed from. */
module Relex {
  import opened Text
  import opened Tokens
  import opened Lexing
  import opened LexingProps
  import opened Lexemes
  import opened AttributeProps
  import opened Layout
  import opened Runs
  import opened NormalForm

  // ----- mustaches -----

  function MustacheBody(raw: string): string
    requires MustacheOk(raw)
  {
    if "{{{" <= raw then raw[3..|raw| - 3] else raw[2..|raw| - 2]
  }

  /** A mustache that trimming does not turn into something else: the trimmed content neither
      opens a third brace or a comment nor runs into the closing braces. */
  predicate CleanMustache(raw: string)
    requires MustacheOk(raw)
  {
    var b := Trim(MustacheBody(raw));
    b != [] ==> b[|b| - 1] != '}' && ("{{{" <= raw || (b[0] != '{' && b[0] != '!'))
  }

  lemma {:induction false} QuoteAppend(a: string, b: string, q: Option<char>)
    ensures QuoteAfter(a + b, q) == QuoteAfter(b, QuoteAfter(a, q))
    decreases |a|
  {
    if a == [] {
      assert a + b == b;
    } else {
      assert (a + b)[1..] == a[1..] + b;
      QuoteAppend(a[1..], b, QuoteStep(q, a[0]));
    }
  }

  lemma {:induction false} QuoteBlank(a: string, q: Option<char>)
    requires Blank(a) && (q.Some? ==> IsQuote(q.value))
    ensures QuoteAfter(a, q) == q
  {
    if a != [] {
      assert QuoteStep(q, a[0]) == q;
      QuoteBlank(a[1..], q);
    }
  }

  lemma {:induction false} QuoteState(s: string, q: Option<char>)
    requires q.Some? ==> IsQuote(q.value)
    ensures QuoteAfter(s, q).Some? ==> IsQuote(QuoteAfter(s, q).value)
  {
    if s != [] { QuoteState(s[1..], QuoteStep(q, s[0])); }
  }

  /** The closer found after trimmed content is the one found after the content. */
  lemma {:induction false} TrimClose(x: string, b: string, y: string, needle: string, rest: string)
    requires needle == "}}" || needle == "}}}"
    requires Blank(x) && Blank(y) && (b != [] ==> b[|b| - 1] != '}')
    requires FindClose(x + b + y + needle, None, needle) == Some(|x + b + y|)
    ensures FindClose(b + needle + rest, None, needle) == Some(|b|)
  {
    hide FindClose;
    var body := x + b + y;
    var s := body + needle;
    var t := b + needle;
    FindCloseIsFirst(s, None, needle);
    FindCloseIsFirst(t, None, needle);
    assert UnquotedAt(s, None, needle, |body|);
    assert s[..|body|] == x + (b + y);
    QuoteAppend(x, b + y, None);
    QuoteBlank(x, None);
    QuoteAppend(b, y, None);
    QuoteState(b, None);
    QuoteBlank(y, QuoteAfter(b, None));
    assert t[..|b|] == b && t[|b|..] == needle;
    assert UnquotedAt(t, None, needle, |b|);
    forall j | 0 <= j < |b| ensures !UnquotedAt(t, None, needle, j) {
      NotEarlier(x, b, y, needle, j);
    }
    FirstIs(t, needle, |b|);
    FindCloseExtends(t, None, needle, rest);
  }

  lemma {:induction false} FirstIs(t: string, needle: string, k: nat)
    requires needle != [] && !IsQuote(needle[0]) && k <= |t| && UnquotedAt(t, None, needle, k)
    requires forall j | 0 <= j < k :: !UnquotedAt(t, None, needle, j)
    ensures FindClose(t, None, needle) == Some(k)
  {
    hide FindClose, UnquotedAt;
    FindCloseIsFirst(t, None, needle);
  }

  lemma {:induction false} SameStart(x: string, b: string, z: string, z': string, needle: string, j: nat)
    requires j + |needle| <= |b|
    ensures needle <= (x + b + z)[|x| + j..] <==> needle <= (b + z')[j..]
  {
    assert (x + b + z)[|x| + j..][..|needle|] == b[j..j + |needle|];
    assert (b + z')[j..][..|needle|] == b[j..j + |needle|];
  }

  lemma {:induction false} UnquotedIs(s: string, needle: string, j: nat)
    requires j <= |s|
    ensures UnquotedAt(s, None, needle, j) <==> needle <= s[j..] && QuoteAfter(s[..j], None).None?
  {}

  lemma {:induction false} BeforeFound(s: string, needle: string, n: nat, j: nat)
    requires (needle == "}}" || needle == "}}}") && FindClose(s, None, needle) == Some(n) && j < n <= |s|
    ensures !UnquotedAt(s, None, needle, j)
  {
    FindCloseIsFirst(s, None, needle);
  }

  lemma {:induction false} NotEarlier(x: string, b: string, y: string, needle: string, j: nat)
    requires needle == "}}" || needle == "}}}"
    requires Blank(x) && j < |b| && b[|b| - 1] != '}'
    requires FindClose(x + b + y + needle, None, needle) == Some(|x + b + y|)
    ensures !UnquotedAt(b + needle, None, needle, j)
  {
    hide *;
    var s := x + b + y + needle;
    var t := b + needle;
    BeforeFound(s, needle, |x + b + y|, |x| + j);
    UnquotedIs(s, needle, |x| + j);
    UnquotedIs(t, needle, j);
    assert s[..|x| + j] == x + t[..j];
    QuoteAppend(x, t[..j], None);
    QuoteBlank(x, None);
    if j + |needle| <= |b| {
      assert s == x + b + (y + needle);
      SameStart(x, b, y + needle, needle, needle, j);
    } else if needle <= t[j..] {
      BracesAt(t, needle, j, |b| - 1);
    }
  }

  lemma {:induction false} BracesAt(t: string, needle: string, j: nat, i: nat)
    requires (needle == "}}" || needle == "}}}") && j <= i < j + |needle| <= |t| && needle <= t[j..]
    ensures t[i] == '}'
  {
    assert t[j..][i - j] == needle[i - j];
  }

  predicate NoSpaces(s: string) { forall i :: 0 <= i < |s| ==> !IsSpace(s[i]) }

  lemma {:induction false} PrefixFits(p: string, b: string, y: string)
    requires Blank(y) && NoSpaces(p) && p <= b + y
    ensures |p| <= |b|
  {
    if |p| > |b| { PrefixChar(p, b + y, |b|); }
  }

  lemma {:induction false} PrefixChar(p: string, s: string, i: nat)
    requires p <= s && i < |p|
    ensures p[i] == s[i]
  {}

  lemma {:induction false} PrefixSame(p: string, b: string, y: string)
    requires Blank(y) && NoSpaces(p)
    ensures p <= b + y <==> p <= b
  {
    if p <= b { assert p <= b + y; }
    if p <= b + y {
      PrefixFits(p, b, y);
      assert (b + y)[..|p|] == b[..|p|];
    }
  }

  /** A mustache is classified by its trimmed content. */
  function ClassOf(b: string, raw: string): Token {
    if "#>" <= b then HbsPartialOpen(raw)
    else if "#" <= b then HbsBlockOpen(raw)
    else if "/" <= b then if '/' in b[1..] then HbsPartialClose(raw) else HbsBlockClose(raw)
    else if "else" <= b then HbsElse(raw)
    else HbsExpr(raw)
  }

  lemma {:induction false} ClassTrimmed(b: string, y: string, raw: string)
    requires Blank(y)
    ensures ClassOf(b + y, raw) == ClassOf(b, raw)
  {
    PrefixSame("#>", b, y);
    PrefixSame("#", b, y);
    PrefixSame("/", b, y);
    PrefixSame("else", b, y);
    if "/" <= b {
      assert (b + y)[1..] == b[1..] + y;
    }
  }

  lemma {:induction false} StripBraces(body: string)
    requires body != [] ==> body[0] != '{' && body[|body| - 1] != '}'
    ensures StripMustache("{{" + body + "}}") == body
  {
    var raw, one, none := "{{" + body + "}}", "{" + body + "}}", body + "}}";
    assert none[0] != '{' by { if body != [] { assert none[0] == body[0]; } }
    assert raw[1..] == one && one[1..] == none;
    assert TrimStartBraces(raw) == TrimStartBraces(one) == TrimStartBraces(none) == none;
    var last := body + "}";
    assert none[..|none| - 1] == last && last[..|last| - 1] == body;
    assert TrimEndBraces(none) == TrimEndBraces(last) == TrimEndBraces(body) == body;
  }

  lemma {:induction false} ClassifyBody(body: string)
    requires body != [] ==> body[0] != '{' && body[|body| - 1] != '}'
    ensures var raw := "{{" + body + "}}"; Classify(raw) == ClassOf(TrimStart(body), raw)
  {
    hide TrimStart;
    StripBraces(body);
  }

  lemma {:induction false} BraceBefore(a: string)
    requires QuoteAfter(a + "}", None).None?
    ensures QuoteAfter(a, None).None?
  {
    QuoteAppend(a, "}", None);
    QuoteState(a, None);
    var q := QuoteAfter(a, None);
    assert "}"[1..] == [];
    assert QuoteAfter("}", q) == QuoteStep(q, '}');
  }

  lemma {:induction false} CloserOneEarlier(body: string)
    requires body != [] && body[|body| - 1] == '}' && UnquotedAt(body + "}}", None, "}}", |body|)
    ensures UnquotedAt(body + "}}", None, "}}", |body| - 1)
  {
    var s, n := body + "}}", |body| - 1;
    var a := body[..n];
    assert s[..|body|] == body && s[..n] == a && body == a + "}";
    assert s[n..] == "}}}";
    BraceBefore(a);
  }

  /** Content never ends in a brace: the closer would have been found one earlier. */
  lemma {:induction false} BodyEnd(body: string)
    requires FindClose(body + "}}", None, "}}") == Some(|body|)
    ensures body != [] ==> body[|body| - 1] != '}'
  {
    FindCloseIsFirst(body + "}}", None, "}}");
    hide FindClose, UnquotedAt;
    if body != [] && body[|body| - 1] == '}' { CloserOneEarlier(body); }
  }

  lemma {:induction false} DoubleText(raw: string)
    requires MustacheOk(raw) && !("{{{" <= raw)
    ensures raw == "{{" + MustacheBody(raw) + "}}" && raw[2..] == MustacheBody(raw) + "}}"
    ensures MustacheBody(raw) != [] ==> MustacheBody(raw)[0] != '{'
    ensures NormalizeMustache(raw) == Ok("{{" + Trim(MustacheBody(raw)) + "}}")
  {
    hide Trim;
    var body := raw[2..|raw| - 2];
    assert raw[..2] == "{{" && raw[|raw| - 2..] == "}}";
    if body != [] { assert raw[..3] == ['{', '{', body[0]]; }
  }

  lemma {:induction false} DoubleScans(b: string, rest: string)
    requires b != [] ==> b[0] != '{' && b[0] != '!'
    requires FindClose(b + "}}" + rest, None, "}}") == Some(|b|)
    ensures var m := "{{" + b + "}}"; Scan(m + rest) == Emit(Single(Classify(m)), |m|)
  {
    hide FindClose, Classify, ScanTag;
    var m := "{{" + b + "}}";
    var s := m + rest;
    assert s[2..] == b + "}}" + rest;
    assert s[..|b| + 4] == m;
    assert s[..2] == "{{";
    assert s[2] == if b == [] then '}' else b[0];
  }

  /** What a clean double mustache is made of. */
  lemma {:induction false} DoubleFound(t: Token)
    requires IsMustache(t) && MustacheLexed(t) && CleanMustache(t.raw) && !("{{{" <= t.raw)
    ensures MustacheOk(t.raw) && t == Classify(t.raw)
    ensures FindClose(t.raw[2..], None, "}}") == Some(|MustacheBody(t.raw)|)
    ensures var b := Trim(MustacheBody(t.raw)); b != [] ==> b[|b| - 1] != '}' && b[0] != '{' && b[0] != '!'
  {
    hide FindClose, Trim, Classify;
  }

  lemma {:induction false} DoubleClass(t: Token, b: string)
    requires IsMustache(t) && MustacheLexed(t) && CleanMustache(t.raw) && !("{{{" <= t.raw)
    requires b == Trim(MustacheBody(t.raw))
    ensures Classify("{{" + b + "}}") == SetRaw(t, "{{" + b + "}}")
  {
    var raw := t.raw;
    hide *;
    DoubleFound(t);
    var body := MustacheBody(raw);
    DoubleText(raw);
    BodyEnd(body);
    ClassifyBody(body);
    ClassifyBody(b);
    ClassOfBody(body, raw);
    TrimmedStart(body);
    SameClass(b, raw, "{{" + b + "}}", t);
  }

  lemma {:induction false} TrimmedStart(body: string)
    ensures TrimStart(Trim(body)) == Trim(body)
  {
    hide Trim;
    var x, y := TrimSplit(body);
    var b := Trim(body);
    TrimStartOf([], b);
    assert [] + b == b;
  }

  lemma {:induction false} ClassOfBody(body: string, raw: string)
    ensures ClassOf(TrimStart(body), raw) == ClassOf(Trim(body), raw)
  {
    hide ClassOf, Trim;
    var x, y := TrimSplit(body);
    var b := Trim(body);
    if b == [] {
      TrimStartOf(x + y, []);
      assert x + y + [] == body;
    } else {
      TrimStartOf(x, b + y);
      assert x + (b + y) == body;
      ClassTrimmed(b, y, raw);
    }
  }

  lemma {:induction false} DoubleRelexes(t: Token, rest: string)
    requires IsMustache(t) && MustacheLexed(t) && CleanMustache(t.raw) && !("{{{" <= t.raw)
    ensures var b := Trim(MustacheBody(t.raw));
            var m := "{{" + b + "}}";
            && NormalizeMustache(t.raw) == Ok(m)
            && Scan(m + rest) == Emit(Single(SetRaw(t, m)), |m|)
  {
    var raw := t.raw;
    hide *;
    DoubleFound(t);
    var body := MustacheBody(raw);
    var x, y := TrimSplit(body);
    var b := Trim(body);
    DoubleText(raw);
    DoubleClass(t, b);
    assert x + b + y + "}}" == raw[2..];
    assert |x + b + y| == |body|;
    TrimClose(x, b, y, "}}", rest);
    DoubleScans(b, rest);
  }

  lemma {:induction false} SameClass(b: string, raw: string, m: string, t: Token)
    requires t == ClassOf(b, raw)
    ensures ClassOf(b, m) == SetRaw(t, m)
  {}

  lemma {:induction false} TripleText(raw: string)
    requires MustacheOk(raw) && "{{{" <= raw
    ensures raw[3..] == MustacheBody(raw) + "}}}"
    ensures NormalizeMustache(raw) == Ok("{{{" + Trim(MustacheBody(raw)) + "}}}")
  {
    hide Trim;
    assert raw[..3] == "{{{" && raw[2] == '{' && raw[|raw| - 3..] == "}}}";
  }

  lemma {:induction false} TripleScans(b: string, rest: string)
    requires FindClose(b + "}}}" + rest, None, "}}}") == Some(|b|)
    ensures var m := "{{{" + b + "}}}"; Scan(m + rest) == Emit(Single(HbsExpr(m)), |m|)
  {
    hide FindClose, Classify, ScanTag;
    var m := "{{{" + b + "}}}";
    var s := m + rest;
    assert s[3..] == b + "}}}" + rest;
    assert s[..|b| + 6] == m;
    assert s[..3] == "{{{" && s[2] == '{';
  }

  lemma {:induction false} TripleFound(t: Token)
    requires IsMustache(t) && MustacheLexed(t) && CleanMustache(t.raw) && "{{{" <= t.raw
    ensures FindClose(t.raw[3..], None, "}}}") == Some(|MustacheBody(t.raw)|)
    ensures var b := Trim(MustacheBody(t.raw)); b != [] ==> b[|b| - 1] != '}'
    ensures MustacheOk(t.raw) && t.HbsExpr?
  {
    hide FindClose, Trim;
  }

  lemma {:induction false} TripleRelexes(t: Token, rest: string)
    requires IsMustache(t) && MustacheLexed(t) && CleanMustache(t.raw) && "{{{" <= t.raw
    ensures var b := Trim(MustacheBody(t.raw));
            var m := "{{{" + b + "}}}";
            && NormalizeMustache(t.raw) == Ok(m)
            && Scan(m + rest) == Emit(Single(SetRaw(t, m)), |m|)
  {
    TripleFound(t);
    hide *;
    var body := MustacheBody(t.raw);
    var x, y := TrimSplit(body);
    var b := Trim(body);
    TripleText(t.raw);
    assert x + b + y + "}}}" == t.raw[3..];
    assert |x + b + y| == |body|;
    TrimClose(x, b, y, "}}}", rest);
    TripleScans(b, rest);
    ExprIs(t, "{{{" + b + "}}}");
  }

  lemma {:induction false} ExprIs(t: Token, m: string)
    requires t.HbsExpr?
    ensures SetRaw(t, m) == HbsExpr(m)
  {}

  lemma {:induction false} MustacheRelexes(t: Token, rest: string)
    requires IsMustache(t) && MustacheLexed(t) && CleanMustache(t.raw)
    ensures Scan(TextOf(t) + rest) == Emit(Single(NormalToken(t, 0)), |TextOf(t)|)
    ensures MustacheLexed(SetRaw(t, TextOf(t))) && TextOf(SetRaw(t, TextOf(t))) == TextOf(t)
  {
    if "{{{" <= t.raw { TripleRelexes(t, rest); TripleRelexes(t, []); } else { DoubleRelexes(t, rest); DoubleRelexes(t, []); }
    MustacheText(t);
    var m := TextOf(t);
    assert m + [] == m;
    LexemeRead(m);
    assert m[..|m|] == m;
    NormalizedTwice(t);
  }

  lemma {:induction false} MustacheText(t: Token)
    requires IsMustache(t) && NormalizeMustache(t.raw).Ok?
    ensures TextOf(t) == NormalizeMustache(t.raw).value && NormalToken(t, 0) == SetRaw(t, TextOf(t))
  {}

  lemma {:induction false} NormalizedDouble(b: string)
    requires Trimmed(b) && (b != [] ==> b[0] != '{' && b[0] != '!')
    ensures NormalizeMustache("{{" + b + "}}") == Ok("{{" + b + "}}")
  {
    hide Trim;
    var m := "{{" + b + "}}";
    TrimOf([], b, []);
    assert [] + b + [] == b;
    assert m[2..|m| - 2] == b;
    assert m[2] == if b == [] then '}' else b[0];
  }

  lemma {:induction false} NormalizedTriple(b: string)
    requires Trimmed(b)
    ensures NormalizeMustache("{{{" + b + "}}}") == Ok("{{{" + b + "}}}")
  {
    hide Trim;
    var m := "{{{" + b + "}}}";
    TrimOf([], b, []);
    assert [] + b + [] == b;
    assert m[3..|m| - 3] == b;
    assert m[2] == '{';
  }

  lemma {:induction false} NormalizedTwice(t: Token)
    requires IsMustache(t) && MustacheLexed(t) && CleanMustache(t.raw)
    ensures NormalizeMustache(t.raw).Ok?
    ensures NormalizeMustache(NormalizeMustache(t.raw).value) == NormalizeMustache(t.raw)
  {
    var b := Trim(MustacheBody(t.raw));
    var x, y := TrimSplit(MustacheBody(t.raw));
    if "{{{" <= t.raw {
      NormalizedTriple(b);
      assert t.raw[..3] == "{{{";
    } else {
      DoubleText(t.raw);
      NormalizedDouble(b);
    }
  }
}
