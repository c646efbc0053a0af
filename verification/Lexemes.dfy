/** What reading a lexeme tells about it, independently of the text it was read from. */
module Lexemes {
  import opened Text
  import opened Tokens
  import opened Lexing
  import opened LexingProps
  import opened Layout

  predicate StartNameOk(name: string) {
    name != [] && IsAlpha(name[0]) && Lower(name) == name && NameLen(name) == |name|
  }

  predicate EndNameOk(name: string) { name != [] && Lower(name) == name && NameLen(name) == |name| }

  /** A mustache closed by its own braces, of the kind its content says. */
  predicate MustacheLexed(t: Token)
    requires IsMustache(t)
  {
    && MustacheOk(t.raw)
    && (if "{{{" <= t.raw then
          t.HbsExpr? && FindClose(t.raw[3..], None, "}}}") == Some(|t.raw| - 6)
        else
          t == Classify(t.raw) && FindClose(t.raw[2..], None, "}}") == Some(|t.raw| - 4))
  }

  predicate HtmlCommentLexed(raw: string) {
    |raw| >= 7 && "<!--" <= raw && Find(raw[4..], "-->") == Some(|raw| - 7)
  }

  predicate HbsCommentLexed(raw: string) { "{{!" <= raw && CommentEnd(raw) == Some(|raw|) }

  predicate RawLexed(name: string, body: string) {
    IsRawContent(name) && StartNameOk(name) && FindRawClose(body + EndTag(name), name) == Some(|body|)
  }

  predicate ItemLexed(item: Item) {
    match item
    case Single(t) =>
      (match t
       case HtmlStart(name, _, _) => StartNameOk(name) && !OpensRaw(t)
       case HtmlEnd(name) => EndNameOk(name)
       case HtmlComment(raw) => HtmlCommentLexed(raw)
       case HbsComment(raw) => HbsCommentLexed(raw)
       case Text(_) => false
       case RawText(_) => false
       case _ => MustacheLexed(t))
    case Raw(name, _, body) => RawLexed(name, body)
  }

  // ----- prefixes decide -----

  lemma {:induction false} FindPrefix(s: string, needle: string, m: nat)
    requires Find(s, needle).Some? && Find(s, needle).value + |needle| <= m <= |s|
    ensures Find(s[..m], needle) == Find(s, needle)
  {
    if needle <= s {
      assert needle <= s[..m];
    } else {
      assert s[..m][..|needle|] == s[..|needle|];
      assert s[..m][1..] == s[1..][..m - 1];
      FindPrefix(s[1..], needle, m - 1);
    }
  }

  lemma {:induction false} FindClosePrefix(s: string, q: Option<char>, needle: string, m: nat)
    requires needle != [] && FindClose(s, q, needle).Some? && FindClose(s, q, needle).value + |needle| <= m <= |s|
    ensures FindClose(s[..m], q, needle) == FindClose(s, q, needle)
    decreases |s|
  {
    var t := s[..m];
    assert t[1..] == s[1..][..m - 1] && t[..|needle|] == s[..|needle|];
    if q.Some? {
      FindClosePrefix(s[1..], if s[0] == q.value then None else q, needle, m - 1);
    } else if IsQuote(s[0]) {
      FindClosePrefix(s[1..], Some(s[0]), needle, m - 1);
    } else if !(needle <= s) {
      FindClosePrefix(s[1..], None, needle, m - 1);
    }
  }

  lemma {:induction false} CommentRead(s: string)
    requires "{{!" <= s && CommentEnd(s).Some?
    ensures HbsCommentLexed(s[..CommentEnd(s).value])
  {
    var n := CommentEnd(s).value;
    var raw := s[..n];
    assert raw[..3] == s[..3] && raw[..5] == s[..5];
    if "{{!--" <= s {
      FindPrefix(s[5..], "--}}", n - 5);
      assert raw[5..] == s[5..][..n - 5];
    } else {
      FindPrefix(s[3..], "}}", n - 3);
      assert raw[3..] == s[3..][..n - 3];
    }
  }

  lemma {:induction false} HtmlCommentRead(s: string)
    requires "<!--" <= s && Find(s[4..], "-->").Some?
    ensures HtmlCommentLexed(s[..Find(s[4..], "-->").value + 7])
  {
    var n := Find(s[4..], "-->").value + 7;
    FindPrefix(s[4..], "-->", n - 4);
    assert s[..n][4..] == s[4..][..n - 4];
    assert s[..n][..4] == s[..4];
  }

  lemma {:induction false} TripleRead(s: string)
    requires "{{{" <= s && FindClose(s[3..], None, "}}}").Some?
    ensures MustacheLexed(HbsExpr(s[..FindClose(s[3..], None, "}}}").value + 6]))
  {
    var k := FindClose(s[3..], None, "}}}").value;
    TripleSpelled(s, k);
    FindClosePrefix(s[3..], None, "}}}", k + 3);
    hide FindClose, MustacheOk;
    assert s[..k + 6][3..] == s[3..][..k + 3];
    assert s[..k + 6][..3] == s[..3];
  }

  lemma {:induction false} DoubleRead(s: string)
    requires "{{" <= s && !("{{!" <= s) && !("{{{" <= s) && FindClose(s[2..], None, "}}").Some?
    ensures MustacheLexed(Classify(s[..FindClose(s[2..], None, "}}").value + 4]))
  {
    var n := FindClose(s[2..], None, "}}").value + 4;
    MustacheSpells(s);
    FindClosePrefix(s[2..], None, "}}", n - 2);
    hide FindClose, MustacheOk, Classify;
    assert s[..n][2..] == s[2..][..n - 2];
    assert s[..n][..3] == s[..3];
  }

  // ----- names -----

  lemma {:induction false} NamePrefix(s: string)
    ensures NameLen(s[..NameLen(s)]) == NameLen(s)
    ensures NameLen(Lower(s[..NameLen(s)])) == NameLen(s)
  {
    var n := NameLen(s);
    if n > 0 {
      NamePrefix(s[1..]);
      assert s[..n][1..] == s[1..][..n - 1];
      assert Lower(s[..n])[1..] == Lower(s[1..][..n - 1]);
    }
  }

  lemma {:induction false} NameRead(s: string)
    requires StartsTag(s) && ReadHtmlTag(s).Ok?
    ensures var t := ReadHtmlTag(s).value.token;
            EndNameOk(t.name) && (t.HtmlStart? ==> StartNameOk(t.name))
  {
    var start := if s[1] == '/' then 2 else 1;
    var n := NameLen(s[start..]);
    NamePrefix(s[start..]);
    assert s[start..start + n] == s[start..][..n];
    LowerTwice(s[start..start + n]);
    hide TagScan, Find, TrimEnd, NameLen;
    if s[1] != '/' { assert s[start..start + n][0] == s[1]; }
  }

  // ----- raw bodies -----

  predicate EndsName(c: char) { c == '>' || IsAsciiSpace(c) }

  predicate NoNameEnd(s: string) { forall i :: 0 <= i < |s| ==> !EndsName(s[i]) }

  /** An end tag as far as the raw scan looks: `</` and the name in any case. */
  predicate EndTagHead(z: string, name: string) {
    |z| >= 2 + |name| && "</" <= z && Lower(z[2..2 + |name|]) == Lower(name) && NoNameEnd(z[2..2 + |name|])
  }

  lemma {:induction false} LowerPointwise(s: string)
    ensures forall i :: 0 <= i < |s| ==> Lower(s)[i] == LowerChar(s[i])
  {
    if s != [] { LowerPointwise(s[1..]); }
  }

  lemma {:induction false} LowerEqual(a: string, b: string)
    requires |a| == |b| && forall i :: 0 <= i < |a| ==> LowerChar(a[i]) == LowerChar(b[i])
    ensures Lower(a) == Lower(b)
  {
    LowerPointwise(a);
    LowerPointwise(b);
  }

  /** Alike to the raw scan: equal up to case, and alike as ends of a name. */
  predicate Alike(a: char, b: char) { LowerChar(a) == LowerChar(b) && (EndsName(a) <==> EndsName(b)) }

  lemma {:induction false} HeadsAlike(z: string, z': string, name: string, m: nat)
    requires EndTagHead(z, name) && EndTagHead(z', name) && m < 2 + |name|
    ensures Alike(z[m], z'[m])
  {
    var y, y' := z[2..2 + |name|], z'[2..2 + |name|];
    LowerPointwise(y);
    LowerPointwise(y');
    if m < 2 {
      assert z[m] == "</"[m] && z'[m] == "</"[m];
    } else {
      assert z[m] == y[m - 2] && z'[m] == y'[m - 2];
    }
  }

  lemma {:induction false} RawHereAlike(s: string, s': string, name: string)
    requires |s| >= 3 + |name| && |s'| >= 3 + |name|
    requires forall i :: 0 <= i < 3 + |name| ==> Alike(s[i], s'[i])
    ensures RawCloseHere(s, name) <==> RawCloseHere(s', name)
  {
    var k := |name|;
    var a, a' := s[2..2 + k], s'[2..2 + k];
    forall i | 0 <= i < k ensures LowerChar(a[i]) == LowerChar(a'[i]) {
      assert a[i] == s[i + 2] && a'[i] == s'[i + 2];
      assert Alike(s[i + 2], s'[i + 2]);
    }
    LowerEqual(a, a');
    assert Alike(s[0], s'[0]) && Alike(s[1], s'[1]) && Alike(s[2 + k], s'[2 + k]);
    assert s[..2] == [s[0], s[1]] && s'[..2] == [s'[0], s'[1]];
  }

  /** The raw scan sees a position of the body the same way however the end tag is spelled. */
  lemma {:induction false} RawHereSame(body: string, z: string, z': string, name: string, j: nat)
    requires j < |body| && EndTagHead(z, name) && EndTagHead(z', name)
    ensures |(body + z)[j..]| >= 2 + |name| && |(body + z')[j..]| >= 2 + |name|
    ensures RawCloseHere((body + z)[j..], name) <==> RawCloseHere((body + z')[j..], name)
  {
    hide Alike;
    var s, s' := (body + z)[j..], (body + z')[j..];
    forall i | 0 <= i < 3 + |name| ensures Alike(s[i], s'[i]) {
      if j + i >= |body| {
        HeadsAlike(z, z', name, j + i - |body|);
        assert s[i] == z[j + i - |body|] && s'[i] == z'[j + i - |body|];
      } else {
        assert s[i] == body[j + i] == s'[i];
        Reflexive(s[i]);
      }
    }
    RawHereAlike(s, s', name);
  }

  lemma {:induction false} Reflexive(c: char)
    ensures Alike(c, c)
  {}

  lemma {:induction false} NotFoundBefore(s: string, name: string, k: nat)
    requires k + 2 + |name| <= |s| && RawCloseHere(s[k..], name)
    requires forall j :: 0 <= j < k ==> |s[j..]| >= 2 + |name| && !RawCloseHere(s[j..], name)
    ensures FindRawClose(s, name) == Some(k)
  {
    hide RawCloseHere;
    assert s[0..] == s;
    if k > 0 {
      assert !RawCloseHere(s[0..], name);
      forall j | 0 <= j < k - 1 ensures |s[1..][j..]| >= 2 + |name| && !RawCloseHere(s[1..][j..], name) {
        assert s[1..][j..] == s[j + 1..];
      }
      assert s[1..][k - 1..] == s[k..];
      NotFoundBefore(s[1..], name, k - 1);
    }
  }

  lemma {:induction false} NameHasNoEnd(name: string)
    requires NameLen(name) == |name|
    ensures NoNameEnd(name)
  {
    if name != [] {
      NameHasNoEnd(name[1..]);
      forall i | 0 <= i < |name| ensures !EndsName(name[i]) {
        if i > 0 { assert name[i] == name[1..][i - 1]; }
      }
    }
  }

  lemma {:induction false} LowerHasNoEnd(y: string, name: string)
    requires Lower(y) == name && NoNameEnd(name)
    ensures NoNameEnd(y)
  {
    LowerPointwise(y);
    forall i | 0 <= i < |y| ensures !EndsName(y[i]) {
      assert name[i] == LowerChar(y[i]);
    }
  }

  lemma {:induction false} EndTagIsHead(name: string, rest: string)
    requires NameLen(name) == |name|
    ensures EndTagHead(EndTag(name) + rest, name) && RawCloseHere(EndTag(name) + rest, name)
  {
    var z := EndTag(name) + rest;
    NameHasNoEnd(name);
    assert z[2..2 + |name|] == name && z[..2] == "</" && z[2 + |name|] == '>';
  }

  /** Whatever spelling of its end tag ended a raw body, the canonical one ends it too. */
  lemma {:induction false} RawRead(s: string, name: string)
    requires StartNameOk(name) && FindRawClose(s, name).Some?
    ensures var k := FindRawClose(s, name).value;
            FindRawClose(s[..k] + EndTag(name), name) == Some(k)
  {
    var k := FindRawClose(s, name).value;
    RawCloseFound(s, name);
    var body, z, z' := s[..k], s[k..], EndTag(name);
    NameHasNoEnd(name);
    LowerHasNoEnd(z[2..2 + |name|], name);
    EndTagIsHead(name, []);
    assert z' + [] == z';
    hide RawCloseHere, NameLen, FindRawClose, EndTag;
    assert body + z == s;
    var t := body + z';
    assert t[k..] == z';
    forall j | 0 <= j < k ensures |t[j..]| >= 2 + |name| && !RawCloseHere(t[j..], name) {
      RawHereSame(body, z, z', name, j);
    }
    NotFoundBefore(t, name, k);
  }

  // ----- every lexeme -----

  lemma {:induction false} RawTagRead(s: string)
    requires StartsTag(s) && ScanTag(s).Emit? && ScanTag(s).item.Raw?
    ensures ItemLexed(ScanTag(s).item)
  {
    hide *;
    var i := RawParts(s);
    var item := ScanTag(s).item;
    NameRead(s);
    RawRead(s[i..], item.name);
    assert s[i..][..|item.body|] == s[i..i + |item.body|];
    RawIsLexed(item);
  }

  lemma {:induction false} RawIsLexed(item: Item)
    requires item.Raw? && IsRawContent(item.name) && StartNameOk(item.name)
    requires FindRawClose(item.body + EndTag(item.name), item.name) == Some(|item.body|)
    ensures ItemLexed(item)
  {
    hide FindRawClose, IsRawContent, StartNameOk;
  }

  lemma {:induction false} TagRead(s: string)
    requires StartsTag(s) && ScanTag(s).Emit?
    ensures ItemLexed(ScanTag(s).item)
  {
    if ScanTag(s).item.Raw? {
      hide *;
      RawTagRead(s);
    } else {
      NameRead(s);
      SingleTagSpells(s);
      hide FindRawClose, ReadHtmlTag, StartNameOk, EndNameOk, IsRawContent, StartsTag, Find;
    }
  }

  lemma {:induction false} CommentItem(s: string)
    requires s != [] && "{{!" <= s && Scan(s).Emit?
    ensures ItemLexed(Scan(s).item)
  {
    assert Scan(s) == ScanComment(s);
    hide Scan, CommentEnd, HbsCommentLexed;
    CommentRead(s);
  }

  lemma {:induction false} TripleItem(s: string)
    requires s != [] && "{{{" <= s && Scan(s).Emit?
    ensures ItemLexed(Scan(s).item)
  {
    assert s[..2] == "{{" && s[2] == '{';
    ScanIsMustache(s);
    hide MustacheLexed, FindClose, Scan;
    TripleRead(s);
  }

  lemma {:induction false} DoubleItem(s: string)
    requires s != [] && "{{" <= s && !("{{!" <= s) && !("{{{" <= s) && Scan(s).Emit?
    ensures ItemLexed(Scan(s).item)
  {
    ScanIsMustache(s);
    hide MustacheLexed, FindClose, Classify, Scan;
    DoubleRead(s);
    MustacheItem(Classify(s[..FindClose(s[2..], None, "}}").value + 4]));
  }

  lemma {:induction false} MustacheItem(t: Token)
    requires IsMustache(t) && MustacheLexed(t)
    ensures ItemLexed(Single(t))
  {
    hide MustacheLexed;
  }

  lemma {:induction false} HtmlCommentItem(s: string)
    requires s != [] && "<!--" <= s && Scan(s).Emit?
    ensures ItemLexed(Scan(s).item)
  {
    assert s[0] == '<';
    HtmlCommentRead(s);
    hide HtmlCommentLexed, Find;
    assert Scan(s) == ScanHtmlComment(s);
  }

  /** What reading a lexeme tells about it. */
  lemma {:induction false} LexemeRead(s: string)
    requires s != [] && Scan(s).Emit?
    ensures ItemLexed(Scan(s).item)
  {
    if !("{{!" <= s) && !("{{{" <= s) && !("{{" <= s) && !("<!--" <= s) { ScanIsTag(s); }
    hide *;
    if "{{!" <= s {
      CommentItem(s);
    } else if "{{{" <= s {
      TripleItem(s);
    } else if "{{" <= s {
      DoubleItem(s);
    } else if "<!--" <= s {
      HtmlCommentItem(s);
    } else {
      TagRead(s);
    }
  }

  ghost predicate UnitsLexed(us: seq<Unit>) { forall u <- us :: ItemLexed(u.item) }

  lemma {:induction false} DocumentRead(text: string, s: string, d: Doc)
    requires Lex(text, s) == Ok(d)
    ensures UnitsLexed(d.units)
    decreases |s|
  {
    if s == [] { return; }
    LexTurn(text, s);
    hide Scan, ItemLexed, Lex;
    var n := Scan(s).len;
    if Scan(s).Skip? {
      DocumentRead(text + s[..n], s[n..], d);
    } else {
      LexemeRead(s);
      DocumentRead([], s[n..], Lex([], s[n..]).value);
    }
  }
}
