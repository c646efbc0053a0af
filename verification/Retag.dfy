/** Printed tags, raw elements and comments read back as the lexemes they were printed from. */
module Retag {
  import opened Text
  import opened Tokens
  import opened Lexing
  import opened LexingProps
  import opened Lexemes
  import opened AttributeProps
  import opened Layout
  import opened Gaps
  import opened GapFix
  import opened Runs
  import opened NormalForm
  import opened Relex

  // ----- the tag scan over printed attributes -----

  lemma {:induction false} PassTurn(p: string, q: Option<char>, h: nat, r: string)
    requires p != [] && TagPass(p, q, h) && p[|p| - 1] != '{' && p[|p| - 1] != '/'
    ensures !TagStops(p + r, q, h) && TagTurn(p + r, q, h) == TagTurn(p, q, h)
    ensures var t := TagTurn(p, q, h); t.len <= |p| && TagPass(p[t.len..], t.q, t.h)
  {
    var s := p + r;
    assert s[0] == p[0];
    if |p| >= 2 {
      assert s[..2] == p[..2];
    } else {
      assert p[1..] == [];
    }
  }

  /** The tag scan passes over what it passes alone, unless the last character could pair with the next. */
  lemma {:induction false} PassOver(p: string, q: Option<char>, h: nat, r: string)
    requires TagPass(p, q, h) && (p != [] ==> p[|p| - 1] != '{' && p[|p| - 1] != '/')
    ensures TagScan(p + r, q, h) == ShiftClose(TagScan(r, None, 0), |p|)
    decreases |p|
  {
    hide *;
    if p == [] {
      PassNothing(q, h, r);
      assert p + r == r;
    } else {
      PassTurn(p, q, h, r);
      TagScanTurn(p + r, q, h);
      TurnMoves(p, q, h);
      var t := TagTurn(p, q, h);
      var rest := p[t.len..];
      assert (p + r)[t.len..] == rest + r;
      PassOver(rest, t.q, t.h, r);
      ShiftCloseTwice(TagScan(r, None, 0), |rest|, t.len);
      assert |rest| + t.len == |p|;
    }
  }

  lemma {:induction false} PassNothing(q: Option<char>, h: nat, r: string)
    requires TagPass([], q, h)
    ensures TagScan(r, q, h) == ShiftClose(TagScan(r, None, 0), 0)
  {
    hide TagScan;
  }

  lemma {:induction false} TurnMoves(p: string, q: Option<char>, h: nat)
    requires p != []
    ensures TagTurn(p, q, h).len >= 1
  {}

  lemma {:induction false} SpaceTurn(t: string)
    requires t != [] && IsSpace(t[0])
    ensures TagScan(t, None, 0) == ShiftClose(TagScan(t[1..], None, 0), 1)
  {}

  lemma {:induction false} PassBlank(w: string, r: string)
    requires Blank(w)
    ensures TagScan(w + r, None, 0) == ShiftClose(TagScan(r, None, 0), |w|)
  {
    if w == [] {
      NoShift(TagScan(r, None, 0));
      assert w + r == r;
    } else {
      assert (w + r)[1..] == w[1..] + r;
      PassBlank(w[1..], r);
      SpaceTurn(w + r);
      hide *;
      ShiftCloseTwice(TagScan(r, None, 0), |w| - 1, 1);
    }
  }

  lemma {:induction false} NoShift(c: Option<TagClose>)
    ensures ShiftClose(c, 0) == c
  {}

  lemma {:induction false} SeparatorBlank(w: string)
    requires forall c <- w :: IsAsciiSpace(c)
    ensures Blank(w)
  {
    forall i | 0 <= i < |w| ensures IsSpace(w[i]) { assert w[i] in w; }
  }

  lemma {:induction false} PassLaid(attrs: seq<Attr>, seps: seq<string>, r: string)
    requires |seps| == |attrs| && Separators(seps) && CleanAttrs(attrs)
    ensures RenderAttrs(attrs).Ok?
    ensures var a := Laid(seps, RenderAttrs(attrs).value);
            TagScan(a + r, None, 0) == ShiftClose(TagScan(r, None, 0), |a|)
    decreases |attrs|
  {
    hide CleanAttr, RenderAttr, TagScan, TagPass, IsAsciiSpace;
    if attrs == [] {
      assert [] + r == r;
    } else {
      assert attrs[0] in attrs && seps[0] in seps;
      forall b | b in attrs[1..] ensures b in attrs {}
      forall w | w in seps[1..] ensures w in seps {}
      PassLaid(attrs[1..], seps[1..], r);
      RenderedIsSolid(attrs[0]);
      var x := RenderAttr(attrs[0]).value;
      var rest := Laid(seps[1..], RenderAttrs(attrs[1..]).value);
      assert RenderAttrs(attrs).value[1..] == RenderAttrs(attrs[1..]).value;
      assert seps[0] + x + rest + r == seps[0] + (x + (rest + r));
      SeparatorBlank(seps[0]);
      PassBlank(seps[0], x + (rest + r));
      PassOver(x, None, 0, rest + r);
    }
  }

  /** A printed attribute list starts with whitespace and does not end in it. */
  lemma {:induction false} LaidEnds(attrs: seq<Attr>, seps: seq<string>)
    requires |seps| == |attrs| && Separators(seps) && CleanAttrs(attrs)
    ensures RenderAttrs(attrs).Ok?
    ensures var a := Laid(seps, RenderAttrs(attrs).value);
            a != [] ==> IsSpace(a[0]) && !IsSpace(a[|a| - 1])
    decreases |attrs|
  {
    hide CleanAttr, RenderAttr;
    if attrs != [] {
      assert attrs[0] in attrs && seps[0] in seps && seps[0][0] in seps[0];
      forall b | b in attrs[1..] ensures b in attrs {}
      forall w | w in seps[1..] ensures w in seps {}
      LaidEnds(attrs[1..], seps[1..]);
      RenderedIsSolid(attrs[0]);
      assert RenderAttrs(attrs).value[1..] == RenderAttrs(attrs[1..]).value;
    }
  }

  // ----- start and end tags -----

  lemma {:induction false} NameReads(name: string, rest: string)
    requires NameLen(name) == |name| && (rest != [] ==> !IsNameChar(rest[0]))
    ensures NameLen(name + rest) == |name|
  {
    if name == [] {
      assert name + rest == rest;
    } else {
      assert (name + rest)[1..] == name[1..] + rest;
      NameReads(name[1..], rest);
    }
  }

  /** A start tag with its attributes `a`, whitespace `w` and the closing characters. */
  function TagSource(name: string, a: string, w: string, slash: bool): string {
    "<" + name + a + w + (if slash then "/>" else ">")
  }

  lemma {:induction false} CloseHere(slash: bool, rest: string)
    ensures TagScan((if slash then "/>" else ">") + rest, None, 0) == Some(TagClose(0, slash))
  {
    var s := (if slash then "/>" else ">") + rest;
    if slash { assert s[..2] == "/>"; assert s[0] == '/'; } else { assert s[0] == '>'; }
  }

  lemma {:induction false} TailStarts(a: string, w: string, slash: bool, rest: string)
    requires Blank(w) && (a != [] ==> IsSpace(a[0]))
    ensures var tail := a + (w + ((if slash then "/>" else ">") + rest)); tail != [] && !IsNameChar(tail[0])
  {
    var close := if slash then "/>" else ">";
    var tail := a + (w + (close + rest));
    assert tail[0] == if a != [] then a[0] else if w != [] then w[0] else close[0];
  }

  lemma {:induction false} NameOkLen(name: string)
    requires StartNameOk(name)
    ensures NameLen(name) == |name|
  {}

  lemma {:induction false} TailScanned(a: string, w: string, slash: bool, rest: string)
    requires var close := if slash then "/>" else ">";
             && TagScan(a + (w + (close + rest)), None, 0) == ShiftClose(TagScan(w + (close + rest), None, 0), |a|)
             && TagScan(w + (close + rest), None, 0) == ShiftClose(TagScan(close + rest, None, 0), |w|)
             && TagScan(close + rest, None, 0) == Some(TagClose(0, slash))
    ensures TagScan(a + (w + ((if slash then "/>" else ">") + rest)), None, 0) == Some(TagClose(|w| + |a|, slash))
  {
    hide TagScan;
  }

  lemma {:induction false} StartRelexes(name: string, attrs: seq<Attr>, seps: seq<string>, w: string, slash: bool, rest: string)
    requires StartNameOk(name) && CleanAttrs(attrs)
    requires |seps| == |attrs| && Separators(seps) && Blank(w)
    ensures RenderAttrs(attrs).Ok?
    ensures var a := Laid(seps, RenderAttrs(attrs).value);
            var src := TagSource(name, a, w, slash);
            && StartsTag(src + rest)
            && ReadHtmlTag(src + rest) == Ok(ReadTag(HtmlStart(name, a, slash), |src|))
  {
    hide *;
    LaidEnds(attrs, seps);
    var a := Laid(seps, RenderAttrs(attrs).value);
    var close := if slash then "/>" else ">";
    PassLaid(attrs, seps, w + (close + rest));
    PassBlank(w, close + rest);
    CloseHere(slash, rest);
    TailScanned(a, w, slash, rest);
    TrimEndOf(a, w);
    TailStarts(a, w, slash, rest);
    NameOkLen(name);
    NameReads(name, a + (w + (close + rest)));
    StartReads(name, a, w, slash, rest, a + (w + (close + rest)));
  }

  lemma {:induction false} StartReads(name: string, a: string, w: string, slash: bool, rest: string, tail: string)
    requires StartNameOk(name) && TrimEnd(a + w) == a
    requires tail == a + (w + ((if slash then "/>" else ">") + rest))
    requires NameLen(name + tail) == |name| && TagScan(tail, None, 0) == Some(TagClose(|w| + |a|, slash))
    ensures var src := TagSource(name, a, w, slash);
            && StartsTag(src + rest)
            && ReadHtmlTag(src + rest) == Ok(ReadTag(HtmlStart(name, a, slash), |src|))
  {
    hide TagScan, NameLen, TrimEnd, Lower;
    var s := TagSource(name, a, w, slash) + rest;
    var n := |name|;
    assert s == "<" + (name + tail);
    assert s[1..] == name + tail && s[1] == name[0];
    assert s[1..1 + n] == name && s[1 + n..] == tail;
    assert s[1 + n..1 + n + (|w| + |a|)] == a + w;
  }

  lemma {:induction false} EndRelexes(name: string, rest: string)
    requires EndNameOk(name)
    ensures StartsTag(EndTag(name) + rest)
    ensures ReadHtmlTag(EndTag(name) + rest) == Ok(ReadTag(HtmlEnd(name), |EndTag(name)|))
  {
    var s := EndTag(name) + rest;
    var tail := ">" + rest;
    NameReads(name, tail);
    hide NameLen, Lower;
    assert s[2..] == name + tail && s[2..2 + |name|] == name && s[2 + |name|..] == tail;
    assert ">" <= tail;
    assert Find(tail, ">") == Some(0);
  }

  lemma {:induction false} ScansTag(s: string)
    requires StartsTag(s)
    ensures Scan(s) == ScanTag(s)
  {
    hide ScanTag, Find, ScanComment;
  }

  lemma {:induction false} SingleTag(s: string, t: Token, n: nat)
    requires StartsTag(s) && ReadHtmlTag(s) == Ok(ReadTag(t, n)) && !OpensRaw(t)
    ensures Scan(s) == Emit(Single(t), n)
  {
    ScansTag(s);
    hide ReadHtmlTag;
  }

  // ----- raw elements -----

  /** The raw scan over `x` and its end tag finds that end tag. */
  predicate Sealed(x: string, name: string) { FindRawClose(x + EndTag(name), name) == Some(|x|) }

  lemma {:induction false} SealedMeans(x: string, name: string, rest: string)
    requires Sealed(x, name) && StartNameOk(name)
    ensures FindRawClose(x + (EndTag(name) + rest), name) == Some(|x|)
  {
    var z, z' := EndTag(name), EndTag(name) + rest;
    RawCloseFound(x + z, name);
    EndTagIsHead(name, []);
    assert z + [] == z;
    EndTagIsHead(name, rest);
    hide RawCloseHere, FindRawClose, NameLen, EndTag, EndTagHead;
    var t := x + z';
    assert t[|x|..] == z';
    forall j | 0 <= j < |x| ensures |t[j..]| >= 2 + |name| && !RawCloseHere(t[j..], name) {
      RawHereSame(x, z, z', name, j);
    }
    EndTagHeadLen(z', name);
    NotFoundBefore(t, name, |x|);
  }

  lemma {:induction false} EndTagHeadLen(z: string, name: string)
    requires EndTagHead(z, name)
    ensures |z| >= 2 + |name|
  {}

  lemma {:induction false} SealedSkip(c: char, x: string, name: string)
    requires c != '<'
    ensures Sealed([c] + x, name) <==> Sealed(x, name)
  {
    var s := [c] + x + EndTag(name);
    assert s[1..] == x + EndTag(name);
    assert s[0] == c;
    assert !("</" <= s);
  }

  lemma {:induction false} SealedBlank(w: string, name: string)
    requires Blank(w) && StartNameOk(name)
    ensures Sealed(w, name)
  {
    if w == [] {
      EndTagIsHead(name, []);
      assert w + EndTag(name) == EndTag(name) + [];
    } else {
      SealedBlank(w[1..], name);
      assert w == [w[0]] + w[1..];
      SealedSkip(w[0], w[1..], name);
    }
  }

  /** After a line break, whitespace is as good as any other. */
  lemma {:induction false} SealedTail(b: string, w: string, w': string, name: string)
    requires b != [] && b[|b| - 1] == '\n' && Blank(w) && Blank(w') && StartNameOk(name)
    requires Sealed(b + w, name)
    ensures Sealed(b + w', name)
    decreases |b|
  {
    if |b| == 1 {
      assert b + w' == ['\n'] + w';
      SealedBlank(w', name);
      SealedSkip('\n', w', name);
    } else {
      NameHasNoEnd(name);
      assert b + w == [b[0]] + (b[1..] + w) && b + w' == [b[0]] + (b[1..] + w');
      SealedStep(b, w, name);
      HereLocal(b, w + EndTag(name), w' + EndTag(name), name);
      SealedTail(b[1..], w, w', name);
      SealedJoin(b, w', name);
    }
  }

  lemma {:induction false} SealedStep(b: string, w: string, name: string)
    requires b != [] && Sealed(b + w, name)
    ensures !RawCloseHere(b + (w + EndTag(name)), name) && Sealed(b[1..] + w, name)
  {
    hide RawCloseHere;
    var s := b + w + EndTag(name);
    assert s == b + (w + EndTag(name));
    assert s[1..] == b[1..] + w + EndTag(name);
  }

  lemma {:induction false} SealedJoin(b: string, w: string, name: string)
    requires b != [] && Sealed(b[1..] + w, name) && !RawCloseHere(b + (w + EndTag(name)), name)
    ensures Sealed(b + w, name)
  {
    hide RawCloseHere;
    var s := b + w + EndTag(name);
    assert s == b + (w + EndTag(name));
    assert s[1..] == b[1..] + w + EndTag(name);
  }

  /** No end tag at the head of `b` reaches past its final line break. */
  lemma {:induction false} HereLocal(b: string, u: string, u': string, name: string)
    requires b != [] && b[|b| - 1] == '\n' && NoNameEnd(name) && Lower(name) == name
    requires |u| >= 2 + |name| && |u'| >= 2 + |name|
    requires !RawCloseHere(b + u, name)
    ensures !RawCloseHere(b + u', name)
  {
    var k := |name|;
    var s, s' := b + u, b + u';
    if |b| >= 3 + k {
      assert s[2..2 + k] == b[2..2 + k] == s'[2..2 + k];
      assert s[..2] == b[..2] == s'[..2];
    } else if |b| <= 2 {
      assert s'[|b| - 1] == '\n';
    } else {
      BreakInName(s'[2..2 + k], name, |b| - 3);
    }
  }

  lemma {:induction false} BreakInName(y: string, name: string, i: nat)
    requires NoNameEnd(name) && Lower(name) == name && i < |y| && y[i] == '\n'
    ensures Lower(y) != Lower(name)
  {
    LowerPointwise(y);
    if |y| == |name| { assert !EndsName(name[i]); assert Lower(y)[i] == '\n'; }
  }

  lemma {:induction false} LastIndentIs(s: string)
    ensures var b, tail := RawBody(s), LastIndent(Unbroken(s));
            && Blank(tail)
            && (EndsWith(b, "\n") ==> LastNewline(b) == Some(|b| - 1))
            && (!EndsWith(b, "\n") ==> tail == [])
            && (!EndsWith(b, "\n") && LastNewline(b).Some? ==> Trim(b[LastNewline(b).value + 1..]) != [])
  {
    var body := Unbroken(s);
    var b := RawBody(s);
    BlankTrims(LastIndent(body));
    Cleanup.EndsInNewline(b);
    Cleanup.EndsInNewline(body);
    NothingTrims();
    hide Trim;
    var n := LastNewline(body);
    LastNewlineIs(body);
    if EndsWith(body, "\n") { assert n == Some(|body| - 1) && body[|body| - 1 + 1..] == []; }
    if n.Some? && LastIndent(body) != [] {
      assert b == body[..n.value + 1] && b[|b| - 1] == '\n';
    }
  }

  /** The parts of a body: a dropped newline, the lines kept, and a dropped indent. */
  lemma {:induction false} RawBodyParts(s: string) returns (tail: string)
    ensures s == RawBody(s) + tail || s == "\n" + RawBody(s) + tail
    ensures Blank(tail)
    ensures tail == [] || (RawBody(s) != [] && RawBody(s)[|RawBody(s)| - 1] == '\n')
    ensures EndsWith(RawBody(s), "\n") ==> LastNewline(RawBody(s)) == Some(|RawBody(s)| - 1)
    ensures !EndsWith(RawBody(s), "\n") ==>
              && tail == []
              && (LastNewline(RawBody(s)).Some? ==> Trim(RawBody(s)[LastNewline(RawBody(s)).value + 1..]) != [])
  {
    hide *;
    tail := LastIndent(Unbroken(s));
    UnbrokenIs(s);
    RawBodyIs(s);
    LastIndentIs(s);
    Cleanup.EndsInNewline(RawBody(s));
    assert "\n" + (RawBody(s) + tail) == "\n" + RawBody(s) + tail;
  }

  /** A printed raw body is ended by the same end tag. */
  lemma {:induction false} GapSealed(body: string, d: nat, name: string)
    requires StartNameOk(name) && Sealed(body, name)
    ensures Sealed(RawGap(body, d), name)
  {
    hide Indent, Trim;
    IndentBlank(d);
    if Trim(body) == [] {
      SealedBlank("\n" + Indent(d), name);
    } else {
      var tail := RawBodyParts(body);
      var b := RawBody(body);
      Cleanup.EndsInNewline(b);
      hide Sealed, RawBody, LastNewline;
      if body != b + tail {
        assert body == ['\n'] + (b + tail);
        SealedSkip('\n', b + tail, name);
      }
      if EndsWith(b, "\n") {
        SealedTail(b, tail, Indent(d), name);
        assert "\n" + b + Indent(d) == ['\n'] + (b + Indent(d));
        SealedSkip('\n', b + Indent(d), name);
      } else {
        assert b + tail == b && "\n" + b + [] == ['\n'] + b;
        SealedSkip('\n', b, name);
      }
    }
  }

  lemma {:induction false} LastNewlineOf(b: string, w: string)
    requires b != [] && b[|b| - 1] == '\n' && '\n' !in w
    ensures LastNewline(b + w) == Some(|b| - 1)
  {
    var s := b + w;
    if w == [] {
      assert s == b;
    } else {
      assert w[|w| - 1] in w;
      assert s[..|s| - 1] == b + w[..|w| - 1];
      LastNewlineOf(b, w[..|w| - 1]);
    }
  }

  lemma {:induction false} RawBodyEnds(b: string, w: string)
    requires b != [] && b[|b| - 1] == '\n' && '\n' !in w && Trim(w) == []
    ensures RawBody("\n" + b + w) == b
  {
    var g := "\n" + b + w;
    LastNewlineOf(b, w);
    hide Trim, LastNewline;
    assert g[1..] == b + w;
    assert (b + w)[..|b|] == b && (b + w)[|b|..] == w;
  }

  lemma {:induction false} RawBodyStays(b: string)
    requires LastNewline(b).Some? ==> Trim(b[LastNewline(b).value + 1..]) != []
    ensures RawBody("\n" + b) == b
  {
    hide Trim, LastNewline;
    assert ("\n" + b)[1..] == b;
  }

  lemma {:induction false} GapIs(body: string, d: nat)
    requires Trim(body) != []
    ensures RawGap(body, d) == "\n" + RawBody(body) + (if EndsWith(RawBody(body), "\n") then Indent(d) else [])
  {
    hide Trim, RawBody, Indent;
  }

  lemma {:induction false} IndentTrims(d: nat)
    ensures Blank(Indent(d)) && '\n' !in Indent(d) && Trim(Indent(d)) == []
  {
    IndentBlank(d);
    BlankTrims(Indent(d));
  }

  /** A printed raw body keeps exactly the lines it was printed from. */
  lemma {:induction false} GapKeeps(body: string, d: nat)
    requires Trim(body) != []
    ensures RawBody(RawGap(body, d)) == RawBody(body) && Trim(RawGap(body, d)) == Trim(body)
  {
    hide *;
    var tail := RawBodyParts(body);
    var b := RawBody(body);
    RawBodySplit(body);
    IndentTrims(d);
    GapIs(body, d);
    Cleanup.EndsInNewline(b);
    BreakTrims(b);
    if EndsWith(b, "\n") {
      TrimSkips(Indent(d), "\n" + b);
      RawBodyEnds(b, Indent(d));
    } else {
      assert "\n" + b + [] == "\n" + b;
      RawBodyStays(b);
    }
  }

  lemma {:induction false} BreakTrims(b: string)
    ensures Trim("\n" + b) == Trim(b)
  {
    TrimSkips("\n", b);
  }

  /** No whitespace accretes in raw elements: the printed body prints as itself. */
  lemma {:induction false} GapTwice(body: string, d: nat)
    ensures RawGap(RawGap(body, d), d) == RawGap(body, d)
  {
    if Trim(body) == [] {
      IndentBlank(d);
      BlankTrims("\n" + Indent(d));
    } else {
      GapKeeps(body, d);
    }
  }

  lemma {:induction false} FindsGreater(name: string, rest: string)
    requires '>' !in name
    ensures Find(EndTag(name) + rest, ">") == Some(2 + |name|)
  {
    assert EndTag(name) + rest == ("</" + name) + ">" + rest;
    GreaterAfter("</" + name, rest);
  }

  lemma {:induction false} GreaterAfter(a: string, rest: string)
    requires '>' !in a
    ensures Find(a + ">" + rest, ">") == Some(|a|)
  {
    var s := a + ">" + rest;
    if a == [] {
      assert ">" <= s;
    } else {
      assert a[0] in a && s[0] == a[0];
      assert s[1..] == a[1..] + ">" + rest;
      GreaterAfter(a[1..], rest);
    }
  }

  lemma {:induction false} ScanTagRaw(s: string, i: nat, name: string, a: string, c: nat, p: nat)
    requires StartsTag(s) && i <= |s| && OpensRaw(HtmlStart(name, a, false))
    requires ReadHtmlTag(s) == Ok(ReadTag(HtmlStart(name, a, false), i))
    requires FindRawClose(s[i..], name) == Some(c) && i + c <= |s| && Find(s[i + c..], ">") == Some(p)
    ensures ScanTag(s) == Emit(Raw(name, a, s[i..i + c]), i + c + p + 1)
  {
    hide ReadHtmlTag, StartsTag, FindRawClose, Find, OpensRaw;
  }

  lemma {:induction false} ScanRaw(s: string, i: nat, name: string, a: string, c: nat, p: nat)
    requires StartsTag(s) && i <= |s| && IsRawContent(name)
    requires ReadHtmlTag(s) == Ok(ReadTag(HtmlStart(name, a, false), i))
    requires FindRawClose(s[i..], name) == Some(c) && i + c <= |s| && Find(s[i + c..], ">") == Some(p)
    ensures Scan(s) == Emit(Raw(name, a, s[i..i + c]), i + c + p + 1)
  {
    var t := HtmlStart(name, a, false);
    assert OpensRaw(t);
    hide *;
    ScansTag(s);
    ScanTagRaw(s, i, name, a, c, p);
  }

  /** A raw element is read as one lexeme. */
  lemma {:induction false} RawRelexes(start: string, name: string, a: string, body: string, rest: string)
    requires IsRawContent(name) && StartNameOk(name) && Sealed(body, name)
    requires var s := start + (body + (EndTag(name) + rest));
             StartsTag(s) && ReadHtmlTag(s) == Ok(ReadTag(HtmlStart(name, a, false), |start|))
    ensures var src := start + body + EndTag(name); Scan(src + rest) == Emit(Raw(name, a, body), |src|)
  {
    hide *;
    var s := start + (body + (EndTag(name) + rest));
    SealedMeans(body, name, rest);
    RawTagPlain(name);
    FindsGreater(name, rest);
    EndTagLen(name);
    Slices(start, body, EndTag(name), rest);
    ScanRaw(s, |start|, name, a, |body|, 2 + |name|);
  }

  lemma {:induction false} Slices(a: string, b: string, c: string, r: string)
    ensures var s := a + (b + (c + r));
            && a + b + c + r == s && s[|a|..] == b + (c + r) && s[|a| + |b|..] == c + r && s[|a|..|a| + |b|] == b
  {}

  lemma {:induction false} EndTagLen(name: string)
    ensures |EndTag(name)| == 3 + |name|
  {}

  // ----- comments -----

  lemma {:induction false} HtmlCommentRelexes(raw: string, rest: string)
    requires HtmlCommentLexed(raw)
    ensures Scan(raw + rest) == Emit(Single(HtmlComment(raw)), |raw|)
  {
    var s := raw + rest;
    FindExtends(raw[4..], "-->", rest);
    hide Find;
    assert raw[0] == '<';
    assert s[4..] == raw[4..] + rest && s[..4] == raw[..4];
    assert s[..|raw|] == raw;
  }

  lemma {:induction false} HbsCommentRelexes(raw: string, rest: string)
    requires HbsCommentLexed(raw)
    ensures Scan(raw + rest) == Emit(Single(HbsComment(raw)), |raw|)
  {
    var s := raw + rest;
    assert s[..3] == raw[..3] && s[..5] == raw[..5];
    if "{{!--" <= raw {
      FindExtends(raw[5..], "--}}", rest);
      assert s[5..] == raw[5..] + rest;
    } else {
      FindExtends(raw[3..], "}}", rest);
      assert s[3..] == raw[3..] + rest;
    }
    hide Find;
    assert s[..|raw|] == raw;
  }

  // ----- raw bodies on the page -----

  lemma {:induction false} ElementPrinted(o: string, name: string, body: string, d: nat)
    requires Solid(o)
    ensures PrintFrom(BodyTokens(body) + [HtmlEnd(name)], State(After(o, true), d + 1, false))
         == Ok(State(After(o + RawGap(body, d) + EndTag(name), true), d, false))
  {
    hide RawGap, EndTag, After, BodyTokens;
    assert [HtmlEnd(name)] + [] == [HtmlEnd(name)];
    RawRest(Raw(name, [], body), [], State(After(o, true), d + 1, false), o);
  }

  /** What is printed for the body of a raw element is ended by the same end tag, keeps the lines
      of the body, and prints as itself from then on. */
  lemma {:induction false} RawBodyFixed(o: string, name: string, body: string, d: nat, rest: string)
    requires Solid(o) && RawLexed(name, body)
    ensures var gap := RawGap(body, d);
            var st := State(After(o, true), d + 1, false);
            && PrintFrom(BodyTokens(body) + [HtmlEnd(name)], st) == Ok(State(After(o + gap + EndTag(name), true), d, false))
            && FindRawClose(gap + (EndTag(name) + rest), name) == Some(|gap|)
            && PrintFrom(BodyTokens(gap) + [HtmlEnd(name)], st) == PrintFrom(BodyTokens(body) + [HtmlEnd(name)], st)
            && (Trim(body) != [] ==> RawBody(gap) == RawBody(body))
  {
    var gap := RawGap(body, d);
    GapSealed(body, d, name);
    SealedMeans(gap, name, rest);
    GapTwice(body, d);
    if Trim(body) != [] { GapKeeps(body, d); }
    hide *;
    ElementPrinted(o, name, body, d);
    ElementPrinted(o, name, gap, d);
  }
}
