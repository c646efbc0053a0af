/** What each form of source text is read as, wherever it stands. */
module Readings {
  import opened Text
  import opened Tokens
  import opened Lexing
  import opened LexingProps
  import opened Lexemes
  import opened AttributeProps
  import opened Relex
  import opened Retag
  import opened Boundaries

  // ----- mustaches -----

  /** The kind of a mustache follows from the first characters of its content: `#>` opens a partial and `#` a
      block, `/` closes a partial when another slash follows and a block otherwise, `else` separates. */
  lemma {:induction false} KindOf(ws: string, b: string)
    requires Blank(ws)
    requires b != [] ==> !IsSpace(b[0]) && b[0] != '{' && b[|b| - 1] != '}'
    ensures var raw := "{{" + (ws + b) + "}}";
            && ("#>" <= b ==> Classify(raw) == HbsPartialOpen(raw))
            && ("#" <= b && !("#>" <= b) ==> Classify(raw) == HbsBlockOpen(raw))
            && ("/" <= b && '/' in b[1..] ==> Classify(raw) == HbsPartialClose(raw))
            && ("/" <= b && '/' !in b[1..] ==> Classify(raw) == HbsBlockClose(raw))
            && ("else" <= b ==> Classify(raw) == HbsElse(raw))
            && (!("#" <= b) && !("/" <= b) && !("else" <= b) ==> Classify(raw) == HbsExpr(raw))
  {
    hide Classify, TrimStart, ClassOf;
    var body, raw := ws + b, "{{" + (ws + b) + "}}";
    if body != [] {
      assert body[0] == if ws == [] then b[0] else ws[0];
      assert body[|body| - 1] == if b == [] then ws[|ws| - 1] else b[|b| - 1];
    }
    ClassifyBody(body);
    TrimStartOf(ws, b);
    ClassFirst(b, raw);
  }

  lemma {:induction false} ClassFirst(b: string, raw: string)
    ensures "#>" <= b ==> ClassOf(b, raw) == HbsPartialOpen(raw)
    ensures "#" <= b && !("#>" <= b) ==> ClassOf(b, raw) == HbsBlockOpen(raw)
    ensures "/" <= b ==> ClassOf(b, raw) == if '/' in b[1..] then HbsPartialClose(raw) else HbsBlockClose(raw)
    ensures "else" <= b ==> ClassOf(b, raw) == HbsElse(raw)
    ensures !("#" <= b) && !("/" <= b) && !("else" <= b) ==> ClassOf(b, raw) == HbsExpr(raw)
  {
    if "#>" <= b { assert b[0] == '#' && b[..1] == "#"; }
    if "/" <= b { assert b[0] == '/'; OtherStart("#>", b); OtherStart("#", b); }
    if "else" <= b { assert b[0] == 'e'; OtherStart("#>", b); OtherStart("#", b); OtherStart("/", b); }
  }

  /** A mustache without quotes and braces inside it is read whole, as the kind its content says, wherever it stands. */
  lemma {:induction false} MustacheRead(ws: string, b: string, rest: string)
    requires Blank(ws) && (b != [] ==> !IsSpace(b[0]))
    requires forall c <- ws + b :: c != '"' && c != '\'' && c != '{' && c != '}'
    requires ws == [] && b != [] ==> b[0] != '!'
    ensures var raw := "{{" + (ws + b) + "}}";
            var step := Scan(raw + rest);
            && step.Emit? && step.len == |raw| && step.item == Single(Classify(raw))
            && ("#>" <= b ==> step.item.token == HbsPartialOpen(raw))
            && ("#" <= b && !("#>" <= b) ==> step.item.token == HbsBlockOpen(raw))
            && ("/" <= b && '/' in b[1..] ==> step.item.token == HbsPartialClose(raw))
            && ("/" <= b && '/' !in b[1..] ==> step.item.token == HbsBlockClose(raw))
            && ("else" <= b ==> step.item.token == HbsElse(raw))
            && (!("#" <= b) && !("/" <= b) && !("else" <= b) ==> step.item.token == HbsExpr(raw))
  {
    hide Scan, Classify, FindClose;
    var body, raw := ws + b, "{{" + (ws + b) + "}}";
    assert Quiet(body);
    if b != [] { assert b[0] == body[|ws|] && b[|b| - 1] == body[|body| - 1]; assert b[0] in body && b[|b| - 1] in body; }
    if body != [] { assert body[0] in body; assert body[0] == if ws == [] then b[0] else ws[0]; }
    KindOf(ws, b);
    QuietCloses(body, rest);
    DoubleScans(body, rest);
  }
  // ----- comments -----

  /** The first closer behind `b` is the one right after it. */
  predicate ClosedFirstBy(b: string, closer: string) { forall j | 0 <= j < |b| :: !(closer <= (b + closer)[j..]) }

  lemma {:induction false} FoundAtEnd(b: string, closer: string, rest: string)
    requires ClosedFirstBy(b, closer) && closer != []
    ensures Find(b + closer + rest, closer) == Some(|b|)
  {
    hide Find;
    var s := b + closer;
    FindIsFirst(s, closer);
    assert s[|b|..] == closer;
    FindExtends(s, closer, rest);
  }

  /** A long comment ends at the first `--}}`, a short one at the first `}}`, an HTML comment at the first `-->`. */
  lemma {:induction false} CommentRead(b: string, rest: string)
    ensures ClosedFirstBy(b, "--}}") ==>
              var c := "{{!--" + b + "--}}"; Scan(c + rest) == Emit(Single(HbsComment(c)), |c|)
    ensures ClosedFirstBy(b, "}}") && !("--" <= b + "}}") ==>
              var c := "{{!" + b + "}}"; Scan(c + rest) == Emit(Single(HbsComment(c)), |c|)
    ensures ClosedFirstBy(b, "-->") ==>
              var c := "<!--" + b + "-->"; Scan(c + rest) == Emit(Single(HtmlComment(c)), |c|)
  {
    hide ClosedFirstBy;
    if ClosedFirstBy(b, "--}}") { LongCommentRead(b, rest); }
    if ClosedFirstBy(b, "}}") && !("--" <= b + "}}") { ShortCommentRead(b, rest); }
    if ClosedFirstBy(b, "-->") { HtmlCommentRead(b, rest); }
  }

  lemma {:induction false} LongCommentRead(b: string, rest: string)
    requires ClosedFirstBy(b, "--}}")
    ensures var c := "{{!--" + b + "--}}"; Scan(c + rest) == Emit(Single(HbsComment(c)), |c|)
  {
    FoundAtEnd(b, "--}}", rest);
    hide ClosedFirstBy, Find, ScanTag;
    var c := "{{!--" + b + "--}}";
    var s := c + rest;
    assert s[5..] == b + "--}}" + rest && s[..5] == "{{!--" && s[..|b| + 9] == c;
  }

  lemma {:induction false} ShortCommentRead(b: string, rest: string)
    requires ClosedFirstBy(b, "}}") && !("--" <= b + "}}")
    ensures var c := "{{!" + b + "}}"; Scan(c + rest) == Emit(Single(HbsComment(c)), |c|)
  {
    FoundAtEnd(b, "}}", rest);
    hide ClosedFirstBy, Find, ScanTag;
    var c := "{{!" + b + "}}";
    var s := c + rest;
    assert s[3..] == b + "}}" + rest && s[..3] == "{{!" && s[..|b| + 5] == c;
    var t := b + "}}";
    assert s[3] == t[0] && s[4] == t[1] && t[..2] == [t[0], t[1]];
  }

  lemma {:induction false} HtmlCommentRead(b: string, rest: string)
    requires ClosedFirstBy(b, "-->")
    ensures var c := "<!--" + b + "-->"; Scan(c + rest) == Emit(Single(HtmlComment(c)), |c|)
  {
    FoundAtEnd(b, "-->", rest);
    hide ClosedFirstBy, Find, ScanTag;
    var c := "<!--" + b + "-->";
    var s := c + rest;
    assert s[4..] == b + "-->" + rest && s[..4] == "<!--" && s[..|b| + 7] == c;
    assert s[0] == '<';
  }

  // ----- declarations -----

  /** A declaration or processing instruction is passed over up to its first `>`. */
  lemma {:induction false} DeclarationPassed(b: string, rest: string)
    requires '>' !in b
    ensures !("--" <= b + ">" + rest) ==> Scan("<!" + b + ">" + rest) == Skip(|b| + 3)
    ensures Scan("<?" + b + ">" + rest) == Skip(|b| + 3)
  {
    hide *;
    var t := b + ">" + rest;
    GreaterFirst("<!" + b, rest);
    GreaterFirst("<?" + b, rest);
    assert "<!" + b + ">" + rest == "<!" + t && "<?" + b + ">" + rest == "<?" + t;
    if !("--" <= t) { NotAComment(t); MarkSkipped("<!" + t, |b| + 2); }
    var q := "<?" + t;
    assert q[1] == '?' && q[..2] == "<?";
    MarkSkipped(q, |b| + 2);
  }

  lemma {:induction false} NotAComment(t: string)
    requires !("--" <= t)
    ensures !("<!--" <= "<!" + t)
  {
    var s := "<!" + t;
    assert s[2..] == t;
    if |s| >= 4 { assert t[..2] == [s[2], s[3]]; }
  }

  lemma {:induction false} MarkSkipped(s: string, k: nat)
    requires ("<!" <= s || "<?" <= s) && !("<!--" <= s) && Find(s, ">") == Some(k)
    ensures Scan(s) == Skip(k + 1)
  {
    hide Find, ScanTag;
    assert s[0] == '<';
    if "<?" <= s { assert s[1] == '?'; }
  }

  lemma {:induction false} GreaterFirst(b: string, rest: string)
    requires '>' !in b
    ensures Find(b + ">" + rest, ">") == Some(|b|)
  {
    var s := b + ">" + rest;
    if b == [] {
      assert s == ">" + rest && ">" <= s;
    } else {
      assert b[0] in b && s[0] == b[0] && s[1..] == b[1..] + ">" + rest;
      GreaterFirst(b[1..], rest);
    }
  }

  /** A character is text when it opens no mustache and is no `<` before a letter, a slash or a closed declaration. */
  lemma {:induction false} CharacterPassed(s: string)
    requires s != [] && !("{{" <= s)
    requires s[0] == '<' && |s| > 1 ==> !('a' <= s[1] <= 'z' || 'A' <= s[1] <= 'Z') && s[1] != '/'
    requires s[0] == '<' && |s| > 1 && s[1] in ['!', '?'] ==> '>' !in s && !("<!--" <= s)
    ensures Scan(s) == Skip(1)
  {
    if s[0] == '<' && |s| > 1 && s[1] in ['!', '?'] { GreaterNowhere(s); }
    hide Find, ScanTag, ScanComment, ScanMustache, ScanTriple, ScanHtmlComment;
    NotDoubled(s);
    if "<!" <= s || "<?" <= s { assert s[0] == '<' && s[1] in ['!', '?']; }
  }

  lemma {:induction false} GreaterNowhere(s: string)
    requires '>' !in s
    ensures Find(s, ">").None?
  {
    if s != [] {
      assert s[0] in s;
      GreaterNowhere(s[1..]);
    }
  }

  lemma {:induction false} NotDoubled(s: string)
    requires !("{{" <= s)
    ensures !("{{!" <= s) && !("{{{" <= s)
  {
    if |s| >= 3 { assert s[..2] == [s[0], s[1]] && s[..3] == [s[0], s[1], s[2]]; }
  }

  // ----- tags -----

  predicate IsTagNameChar(c: char) {
    'a' <= c <= 'z' || 'A' <= c <= 'Z' || '0' <= c <= '9' || c in ['-', '_', ':']
  }

  /** A tag name in any case. */
  predicate IsTagName(name: string) { name != [] && forall c <- name :: IsTagNameChar(c) }

  /** What may follow a tag name. */
  predicate EndsTagName(s: string) { s != [] && !IsTagNameChar(s[0]) }

  lemma {:induction false} TagNameRead(name: string, tail: string)
    requires IsTagName(name) && EndsTagName(tail)
    ensures NameLen(name + tail) == |name|
  {
    if |name| == 1 {
      assert (name + tail)[1..] == tail;
      assert name[0] in name;
      assert NameLen(tail) == 0;
    } else {
      assert (name + tail)[1..] == name[1..] + tail;
      assert name[0] in name;
      forall c | c in name[1..] ensures IsTagNameChar(c) { assert c in name; }
      TagNameRead(name[1..], tail);
    }
  }

  lemma {:induction false} ReadsEnd(s: string, n: nat, m: nat)
    requires |s| >= 2 && s[0] == '<' && s[1] == '/'
    requires NameLen(s[2..]) == n > 0 && Find(s[2 + n..], ">") == Some(m)
    ensures StartsTag(s) && ReadHtmlTag(s) == Ok(ReadTag(HtmlEnd(Lower(s[2..2 + n])), 2 + n + m + 1))
  {
    hide NameLen, Lower, Find;
  }

  /** An end tag is its name in lower case; whatever stands between the name and `>` is dropped. */
  lemma {:induction false} EndTagRead(name: string, junk: string, rest: string)
    requires IsTagName(name) && EndsTagName(junk + ">") && '>' !in junk
    ensures Scan("</" + name + junk + ">" + rest) == Emit(Single(HtmlEnd(Lower(name))), |name| + |junk| + 3)
  {
    hide *;
    var tail := junk + ">" + rest;
    var s := "</" + name + junk + ">" + rest;
    assert tail[0] == (junk + ">")[0];
    SameTagEnd(junk + ">", tail);
    NotEmptyName(name);
    TagNameRead(name, tail);
    GreaterFirst(junk, rest);
    assert s[2..] == name + tail && s[2..2 + |name|] == name && s[2 + |name|..] == tail;
    assert s[0] == '<' && s[1] == '/';
    ReadsEnd(s, |name|, |junk|);
    EndOpensNothing(Lower(name));
    SingleTag(s, HtmlEnd(Lower(name)), |name| + |junk| + 3);
  }

  lemma {:induction false} EndOpensNothing(name: string)
    ensures !OpensRaw(HtmlEnd(name))
  {}

  /** The source of a start tag: name, attributes, whitespace, closing characters. */
  function StartTag(name: string, a: string, w: string, slash: bool): string {
    "<" + name + a + w + (if slash then "/>" else ">")
  }

  lemma {:induction false} StartTagScanned(a: string, w: string, slash: bool, rest: string)
    requires TagPass(a + w, None, 0) && (a + w != [] ==> (a + w)[|a + w| - 1] !in ['{', '/'])
    ensures TagScan(a + w + ((if slash then "/>" else ">") + rest), None, 0) == Some(TagClose(|a| + |w|, slash))
  {
    hide TagPass, TagScan;
    PassOver(a + w, None, 0, (if slash then "/>" else ">") + rest);
    CloseHere(slash, rest);
  }

  lemma {:induction false} StartTagPieces(name: string, a: string, w: string, slash: bool, rest: string)
    ensures var close := if slash then "/>" else ">";
            var tail := a + w + (close + rest);
            var s, n := StartTag(name, a, w, slash) + rest, |name|;
            && s[0] == '<' && s[1..] == name + tail && s[1..1 + n] == name && s[1 + n..] == tail
            && s[1 + n..1 + n + (|a| + |w|)] == a + w && tail[0] == (a + w + close)[0]
            && |StartTag(name, a, w, slash)| == 1 + n + |a| + |w| + |close|
  {
    var close := if slash then "/>" else ">";
    var tail := a + w + (close + rest);
    var s, n := StartTag(name, a, w, slash) + rest, |name|;
    assert s == "<" + (name + tail);
  }

  lemma {:induction false} ReadsStart(s: string, n: nat, m: nat, slash: bool)
    requires |s| >= 2 && s[0] == '<' && IsAlpha(s[1])
    requires NameLen(s[1..]) == n > 0 && TagScan(s[1 + n..], None, 0) == Some(TagClose(m, slash)) && 1 + n + m + 1 <= |s|
    ensures StartsTag(s)
    ensures ReadHtmlTag(s)
         == Ok(ReadTag(HtmlStart(Lower(s[1..1 + n]), TrimEnd(s[1 + n..1 + n + m]), slash), 1 + n + m + (if slash then 2 else 1)))
  {
    hide NameLen, Lower, TagScan, TrimEnd;
  }

  /** A start tag is its name in lower case, its attribute text without whitespace at the end, and whether it closes itself. */
  lemma {:induction false} StartTagReadAs(name: string, a: string, w: string, slash: bool, rest: string)
    requires IsTagName(name) && IsAlpha(name[0]) && Blank(w) && (a != [] ==> !IsSpace(a[|a| - 1]))
    requires EndsTagName(a + w + (if slash then "/>" else ">"))
    requires TagPass(a + w, None, 0) && (a + w != [] ==> (a + w)[|a + w| - 1] !in ['{', '/'])
    ensures StartsTag(StartTag(name, a, w, slash) + rest)
    ensures ReadHtmlTag(StartTag(name, a, w, slash) + rest)
         == Ok(ReadTag(HtmlStart(Lower(name), a, slash), |StartTag(name, a, w, slash)|))
  {
    hide *;
    var close := if slash then "/>" else ">";
    var tail := a + w + (close + rest);
    var s := StartTag(name, a, w, slash) + rest;
    StartTagPieces(name, a, w, slash, rest);
    SameTagEnd(a + w + close, tail);
    NotEmptyName(name);
    TagNameRead(name, tail);
    StartTagScanned(a, w, slash, rest);
    TrimEndOf(a, w);
    assert s[1] == s[1..][0] == name[0];
    ReadsStart(s, |name|, |a| + |w|, slash);
  }

  lemma {:induction false} NotEmptyName(name: string)
    requires IsTagName(name)
    ensures name != []
  {}

  lemma {:induction false} SameTagEnd(s: string, t: string)
    requires EndsTagName(s) && t != [] && t[0] == s[0]
    ensures EndsTagName(t)
  {}

  /** Elements whose body is kept verbatim. */
  predicate IsVerbatim(name: string) { name in ["script", "style", "pre", "textarea"] }

  lemma {:induction false} VerbatimIs(name: string)
    ensures IsVerbatim(name) <==> IsRawContent(name)
  {}

  lemma {:induction false} StartTagRead(name: string, a: string, w: string, slash: bool, rest: string)
    requires IsTagName(name) && IsAlpha(name[0]) && Blank(w) && (a != [] ==> !IsSpace(a[|a| - 1]))
    requires EndsTagName(a + w + (if slash then "/>" else ">"))
    requires TagPass(a + w, None, 0) && (a + w != [] ==> (a + w)[|a + w| - 1] !in ['{', '/'])
    requires slash || !IsVerbatim(Lower(name))
    ensures var src := StartTag(name, a, w, slash);
            Scan(src + rest) == Emit(Single(HtmlStart(Lower(name), a, slash)), |src|)
  {
    hide *;
    StartTagReadAs(name, a, w, slash, rest);
    VerbatimIs(Lower(name));
    NotVerbatim(Lower(name), a, slash);
    SingleTag(StartTag(name, a, w, slash) + rest, HtmlStart(Lower(name), a, slash), |StartTag(name, a, w, slash)|);
  }

  lemma {:induction false} NotVerbatim(name: string, a: string, slash: bool)
    requires slash || !IsRawContent(name)
    ensures !OpensRaw(HtmlStart(name, a, slash))
  {
    hide IsRawContent;
  }

  /** The start of an end tag of the name, in any case, with the character behind the name. */
  predicate EndTagStarts(s: string, name: string) {
    && |s| > 2 + |name| && s[0] == '<' && s[1] == '/'
    && Lower(s[2..2 + |name|]) == Lower(name)
    && s[2 + |name|] in ['>', ' ', '\t', '\n', '\r', '\U{C}']
  }

  lemma {:induction false} EndTagStartsIs(s: string, name: string)
    ensures EndTagStarts(s, name) <==> |s| >= 2 + |name| && RawCloseHere(s, Lower(name))
  {
    LowerTwice(name);
    hide Lower;
    if |s| > 2 + |name| {
      assert "</" <= s <==> s[0] == '<' && s[1] == '/';
      assert IsAsciiSpace(s[2 + |name|]) <==> s[2 + |name|] in [' ', '\t', '\n', '\r', '\U{C}'];
    }
  }

  lemma {:induction false} EndTagStartsLocal(s: string, name: string, rest: string)
    requires |s| > 2 + |name|
    ensures EndTagStarts(s + rest, name) == EndTagStarts(s, name)
  {
    hide Lower;
    assert (s + rest)[2..2 + |name|] == s[2..2 + |name|];
  }

  function EndTagText(name: string, junk: string): string { "</" + name + junk + ">" }

  lemma {:induction false} EndTagTextStarts(name: string, spelled: string, junk: string)
    requires Lower(spelled) == Lower(name) && (junk + ">")[0] in ['>', ' ', '\t', '\n', '\r', '\U{C}']
    ensures |EndTagText(spelled, junk)| > 2 + |name| && EndTagStarts(EndTagText(spelled, junk), name)
  {
    hide Lower;
    var e := EndTagText(spelled, junk);
    assert |spelled| == |name|;
    assert e[2..2 + |name|] == spelled && e[2 + |name|] == (junk + ">")[0];
  }

  lemma {:induction false} FirstEndTag(body: string, name: string, e: string, rest: string)
    requires |e| > 2 + |name| && EndTagStarts(e, name)
    requires forall j | 0 <= j < |body| :: !EndTagStarts((body + e)[j..], name)
    ensures FindRawClose(body + (e + rest), Lower(name)) == Some(|body|)
  {
    hide EndTagStarts, RawCloseHere, FindRawClose, Lower;
    var s, t := body + e, body + (e + rest);
    assert t == s + rest;
    forall j | 0 <= j <= |body|
      ensures |t[j..]| >= 2 + |name| && (RawCloseHere(t[j..], Lower(name)) <==> EndTagStarts(s[j..], name))
    {
      assert t[j..] == s[j..] + rest;
      EndTagStartsLocal(s[j..], name, rest);
      EndTagStartsIs(t[j..], name);
    }
    assert s[|body|..] == e;
    assert forall j | 0 <= j < |body| :: s[j..] == (body + e)[j..];
    NotFoundBefore(t, Lower(name), |body|);
  }

  lemma {:induction false} RawScanned(s: string, name: string, a: string, n: nat, k: nat, m: nat)
    requires StartsTag(s) && ReadHtmlTag(s) == Ok(ReadTag(HtmlStart(name, a, false), n)) && IsRawContent(name)
    requires n + k + m + 1 <= |s| && FindRawClose(s[n..], name) == Some(k) && Find(s[n + k..], ">") == Some(m)
    ensures Scan(s) == Emit(Raw(name, a, s[n..n + k]), n + k + m + 1)
  {
    ScansTag(s);
    RawTagScanned(s, name, a, n, k, m);
    hide *;
  }

  lemma {:induction false} RawTagScanned(s: string, name: string, a: string, n: nat, k: nat, m: nat)
    requires StartsTag(s) && ReadHtmlTag(s) == Ok(ReadTag(HtmlStart(name, a, false), n)) && IsRawContent(name)
    requires n + k + m + 1 <= |s| && FindRawClose(s[n..], name) == Some(k) && Find(s[n + k..], ">") == Some(m)
    ensures ScanTag(s) == Emit(Raw(name, a, s[n..n + k]), n + k + m + 1)
  {
    hide ReadHtmlTag, FindRawClose, Find, IsRawContent, StartsTag, IsTagStartChar;
    assert OpensRaw(HtmlStart(name, a, false));
  }

  /** The body of an element that is kept verbatim ends where the first end tag of its name starts, in any case. */
  lemma {:induction false} RawElementRead(name: string, a: string, w: string, body: string, spelled: string, junk: string, rest: string)
    requires IsTagName(name) && IsAlpha(name[0]) && Blank(w) && (a != [] ==> !IsSpace(a[|a| - 1]))
    requires EndsTagName(a + w + ">")
    requires TagPass(a + w, None, 0) && (a + w != [] ==> (a + w)[|a + w| - 1] !in ['{', '/'])
    requires IsVerbatim(Lower(name)) && IsTagName(spelled) && Lower(spelled) == Lower(name)
    requires (junk + ">")[0] in ['>', ' ', '\t', '\n', '\r', '\U{C}'] && '>' !in junk
    requires forall j | 0 <= j < |body| :: !EndTagStarts((body + EndTagText(spelled, junk))[j..], name)
    ensures var src := StartTag(name, a, w, false) + (body + EndTagText(spelled, junk));
            Scan(src + rest) == Emit(Raw(Lower(name), a, body), |src|)
  {
    hide *;
    var open, e := StartTag(name, a, w, false), EndTagText(spelled, junk);
    var z := body + (e + rest);
    StartTagReadAs(name, a, w, false, z);
    EndTagTextStarts(name, spelled, junk);
    FirstEndTag(body, name, e, rest);
    VerbatimIs(Lower(name));
    EndTagParted(spelled, junk);
    GreaterFirst("</" + spelled + junk, rest);
    var s, n, k := open + z, |open|, |body|;
    assert s[n..] == z && s[n + k..] == e + rest && s[n..n + k] == body;
    RawScanned(s, Lower(name), a, n, k, |e| - 1);
    assert open + (body + e) + rest == s;
  }

  lemma {:induction false} EndTagParted(name: string, junk: string)
    requires IsTagName(name) && '>' !in junk
    ensures EndTagText(name, junk) == "</" + name + junk + ">" && '>' !in "</" + name + junk
  {
    hide IsTagNameChar;
    forall c | c in name ensures c != '>' { assert IsTagNameChar(c); NotGreater(c); }
  }

  lemma {:induction false} NotGreater(c: char)
    requires IsTagNameChar(c)
    ensures c != '>'
  {}

  // ----- what is never closed -----

  predicate Nowhere(s: string, closer: string) { forall j | 0 <= j <= |s| :: !(closer <= s[j..]) }

  predicate NowhereUnquoted(s: string, closer: string) { forall j | 0 <= j <= |s| :: !UnquotedAt(s, None, closer, j) }

  lemma {:induction false} NeverFound(s: string, closer: string)
    requires Nowhere(s, closer)
    ensures Find(s, closer).None?
  {
    hide Find;
    FindIsFirst(s, closer);
  }

  lemma {:induction false} NeverClosed(s: string, closer: string)
    requires NowhereUnquoted(s, closer) && (closer == "}}" || closer == "}}}")
    ensures FindClose(s, None, closer).None?
  {
    hide FindClose, UnquotedAt;
    FindCloseIsFirst(s, None, closer);
  }

  /** A comment or mustache without its closer is an error, not text. */
  lemma {:induction false} UnclosedFails(s: string)
    ensures "{{!--" <= s && Nowhere(s[5..], "--}}") ==> Scan(s).Fail?
    ensures "{{!" <= s && !("{{!--" <= s) && Nowhere(s[3..], "}}") ==> Scan(s).Fail?
    ensures "{{{" <= s && NowhereUnquoted(s[3..], "}}}") ==> Scan(s).Fail?
    ensures "{{" <= s && !("{{!" <= s) && !("{{{" <= s) && NowhereUnquoted(s[2..], "}}") ==> Scan(s).Fail?
    ensures "<!--" <= s && Nowhere(s[4..], "-->") ==> Scan(s).Fail?
  {
    if "{{!--" <= s && Nowhere(s[5..], "--}}") {
      NeverFound(s[5..], "--}}");
      UnclosedComment(s);
    } else if "{{!" <= s && !("{{!--" <= s) && Nowhere(s[3..], "}}") {
      NeverFound(s[3..], "}}");
      UnclosedComment(s);
    } else if "{{{" <= s && NowhereUnquoted(s[3..], "}}}") {
      NeverClosed(s[3..], "}}}");
      assert s[2] == '{';
      UnclosedMustache(s);
    } else if "{{" <= s && !("{{!" <= s) && !("{{{" <= s) && NowhereUnquoted(s[2..], "}}") {
      NeverClosed(s[2..], "}}");
      UnclosedMustache(s);
    } else if "<!--" <= s && Nowhere(s[4..], "-->") {
      NeverFound(s[4..], "-->");
      UnclosedHtmlComment(s);
    }
  }

  lemma {:induction false} UnclosedComment(s: string)
    requires "{{!" <= s && CommentEnd(s).None?
    ensures Scan(s).Fail?
  {
    hide CommentEnd, ScanTag, ScanMustache, ScanTriple;
  }

  lemma {:induction false} UnclosedMustache(s: string)
    requires "{{" <= s && !("{{!" <= s)
    requires if "{{{" <= s then FindClose(s[3..], None, "}}}").None? else FindClose(s[2..], None, "}}").None?
    ensures Scan(s).Fail?
  {
    hide FindClose, ScanTag, ScanComment, Classify;
  }

  lemma {:induction false} UnclosedHtmlComment(s: string)
    requires "<!--" <= s && Find(s[4..], "-->").None?
    ensures Scan(s).Fail?
  {
    hide Find, ScanTag, ScanComment, ScanMustache, ScanTriple;
    assert s[0] == '<';
  }

  /** So is a tag without its end, and an element kept verbatim without its end tag. */
  lemma {:induction false} UnclosedTagFails(name: string, tail: string)
    requires IsTagName(name) && (tail != [] ==> EndsTagName(tail))
    ensures Nowhere(tail, ">") ==> Scan("</" + name + tail).Fail?
    ensures IsAlpha(name[0]) && NoTagEnd(tail, None, 0, |tail| + 1) ==> Scan("<" + name + tail).Fail?
  {
    hide *;
    if Nowhere(tail, ">") {
      NeverFound(tail, ">");
      UnclosedEnd(name, tail);
    }
    NotEmptyName(name);
    if IsAlpha(name[0]) && NoTagEnd(tail, None, 0, |tail| + 1) {
      NeverEnds(tail);
      UnclosedStart(name, tail);
    }
  }

  /** A slash without a name behind it is no end tag. */
  lemma {:induction false} NamelessFails(tail: string)
    requires tail != [] ==> EndsTagName(tail)
    ensures Scan("</" + tail).Fail?
  {
    var s := "</" + tail;
    assert s[2..] == tail && NameLen(tail) == 0;
    hide NameLen, Find;
    ScansTag(s);
    hide Scan;
  }

  lemma {:induction false} NameThenTail(name: string, tail: string)
    requires IsTagName(name) && (tail != [] ==> EndsTagName(tail))
    ensures NameLen(name + tail) == |name|
  {
    if tail != [] {
      TagNameRead(name, tail);
    } else {
      TagNameRead(name, ">");
      assert name + tail == name;
      NameAlone(name, ">");
    }
  }

  lemma {:induction false} NameAlone(name: string, tail: string)
    requires NameLen(name + tail) == |name|
    ensures NameLen(name) == |name|
  {
    if name != [] {
      assert (name + tail)[1..] == name[1..] + tail;
      NameAlone(name[1..], tail);
    }
  }

  lemma {:induction false} UnclosedEnd(name: string, tail: string)
    requires IsTagName(name) && (tail != [] ==> EndsTagName(tail)) && Find(tail, ">").None?
    ensures Scan("</" + name + tail).Fail?
  {
    NameThenTail(name, tail);
    NotEmptyName(name);
    var s := "</" + name + tail;
    assert s[2..] == name + tail && s[2 + |name|..] == tail && s[0] == '<' && s[1] == '/';
    hide IsTagName, EndsTagName, NameLen, Find;
    ScansTag(s);
    hide Scan;
  }

  lemma {:induction false} UnclosedStart(name: string, tail: string)
    requires IsTagName(name) && (tail != [] ==> EndsTagName(tail)) && IsAlpha(name[0]) && TagScan(tail, None, 0).None?
    ensures Scan("<" + name + tail).Fail?
  {
    NameThenTail(name, tail);
    NotEmptyName(name);
    var s := "<" + name + tail;
    assert s[1..] == name + tail && s[1 + |name|..] == tail && s[0] == '<' && s[1] == name[0];
    hide IsTagName, EndsTagName, NameLen, TagScan;
    ScansTag(s);
    hide Scan;
  }

  lemma {:induction false} NeverEnds(tail: string)
    requires NoTagEnd(tail, None, 0, |tail| + 1)
    ensures TagScan(tail, None, 0).None?
  {
    TagScanIsFirst(tail, None, 0);
    hide TagScan, TagEndsAt;
  }

  lemma {:induction false} UnclosedElementFails(name: string, a: string, w: string, body: string)
    requires IsTagName(name) && IsAlpha(name[0]) && Blank(w) && (a != [] ==> !IsSpace(a[|a| - 1]))
    requires EndsTagName(a + w + ">")
    requires TagPass(a + w, None, 0) && (a + w != [] ==> (a + w)[|a + w| - 1] !in ['{', '/'])
    requires IsVerbatim(Lower(name)) && forall j | 0 <= j <= |body| :: !EndTagStarts(body[j..], name)
    ensures Scan(StartTag(name, a, w, false) + body).Fail?
  {
    hide *;
    StartTagReadAs(name, a, w, false, body);
    VerbatimIs(Lower(name));
    NoEndTag(body, name);
    var s := StartTag(name, a, w, false) + body;
    assert s[|StartTag(name, a, w, false)|..] == body;
    RawUnclosed(s, Lower(name), a, |StartTag(name, a, w, false)|);
  }

  lemma {:induction false} NoEndTag(body: string, name: string)
    requires forall j | 0 <= j <= |body| :: !EndTagStarts(body[j..], name)
    ensures FindRawClose(body, Lower(name)).None?
  {
    hide EndTagStarts, FindRawClose, RawCloseHere, Lower;
    RawCloseFound(body, Lower(name));
    var k := FindRawClose(body, Lower(name));
    if k.Some? { EndTagStartsIs(body[k.value..], name); }
  }

  lemma {:induction false} RawUnclosed(s: string, name: string, a: string, n: nat)
    requires StartsTag(s) && ReadHtmlTag(s) == Ok(ReadTag(HtmlStart(name, a, false), n)) && IsRawContent(name)
    requires n <= |s| && FindRawClose(s[n..], name).None?
    ensures Scan(s).Fail?
  {
    ScansTag(s);
    hide ReadHtmlTag, FindRawClose, Find, IsRawContent, StartsTag, IsTagStartChar, Scan;
    assert OpensRaw(HtmlStart(name, a, false));
  }
}
