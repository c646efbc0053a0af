/** What the tokenizer promises: its lexemes tile the source, and its scanners stop at the
    first place an independent reading of quotes and mustaches allows. */
module LexingProps {
  import opened Text
  import opened Tokens
  import opened Lexing
  import Layout

  lemma {:induction false} ShiftCloseTwice(c: Option<TagClose>, m: nat, n: nat)
    ensures ShiftClose(ShiftClose(c, m), n) == ShiftClose(c, m + n)
  {}

  lemma {:induction false} NoBlock(s: string)
    requires !("{{" <= s)
    ensures !("{{#" <= s) && !("{{^" <= s)
  {
    if |s| >= 3 { assert s[..2] == [s[0], s[1]] && s[..3] == [s[0], s[1], s[2]]; }
  }

  // ----- the quote automaton -----

  function QuoteStep(q: Option<char>, c: char): Option<char> {
    if q.Some? then if c == q.value then None else q
    else if IsQuote(c) then Some(c) else None
  }

  /** The open quote after reading `s`. */
  function QuoteAfter(s: string, q: Option<char>): Option<char> {
    if s == [] then q else QuoteAfter(s[1..], QuoteStep(q, s[0]))
  }

  /** `needle` stands at `j` and no quote is open there. */
  predicate UnquotedAt(s: string, q: Option<char>, needle: string, j: nat)
    requires j <= |s|
  {
    needle <= s[j..] && QuoteAfter(s[..j], q) == None
  }

  lemma {:induction false} UnquotedTurn(s: string, q: Option<char>, needle: string, j: nat)
    requires 1 <= j <= |s|
    ensures UnquotedAt(s, q, needle, j) <==> UnquotedAt(s[1..], QuoteStep(q, s[0]), needle, j - 1)
  {
    assert s[j..] == s[1..][j - 1..];
    assert s[..j][1..] == s[1..][..j - 1];
  }

  lemma {:induction false} UnquotedHere(s: string, q: Option<char>, needle: string)
    requires needle != [] && !IsQuote(needle[0])
    ensures UnquotedAt(s, q, needle, 0) <==> q.None? && needle <= s
    ensures FindClose(s, q, needle)
         == if |s| < |needle| then None
            else if UnquotedAt(s, q, needle, 0) then Some(0)
            else Shift(FindClose(s[1..], QuoteStep(q, s[0]), needle), 1)
  {
    assert s[..0] == [] && s[0..] == s;
    if needle <= s { assert s[0] == needle[0]; }
  }

  lemma {:induction false} TooShort(s: string, q: Option<char>, needle: string)
    requires |s| < |needle|
    ensures forall j | 0 <= j <= |s| :: !UnquotedAt(s, q, needle, j)
  {}

  /** `find_close` finds the first needle outside quotes, and fails only when there is none. */
  lemma {:induction false} FindCloseIsFirst(s: string, q: Option<char>, needle: string)
    requires needle != [] && !IsQuote(needle[0])
    ensures match FindClose(s, q, needle)
            case None => forall j | 0 <= j <= |s| :: !UnquotedAt(s, q, needle, j)
            case Some(k) => k <= |s| && UnquotedAt(s, q, needle, k) && forall j | 0 <= j < k :: !UnquotedAt(s, q, needle, j)
    decreases |s|
  {
    UnquotedHere(s, q, needle);
    if |s| < |needle| {
      TooShort(s, q, needle);
    } else if !UnquotedAt(s, q, needle, 0) {
      hide UnquotedAt, FindClose, QuoteStep;
      FindCloseIsFirst(s[1..], QuoteStep(q, s[0]), needle);
      forall j | 1 <= j <= |s| ensures UnquotedAt(s, q, needle, j) <==> UnquotedAt(s[1..], QuoteStep(q, s[0]), needle, j - 1) {
        UnquotedTurn(s, q, needle, j);
      }
    }
  }

  // ----- the tag automaton -----

  /** Where a reading of a tag stands: the open quote, the open mustaches, and whether the last
      character is a brace that may pair with the next one. */
  datatype TagMode = TagMode(q: Option<char>, h: nat, held: bool)

  /** The quotes and mustaches of a tag, character by character. */
  function TagStep(m: TagMode, c: char): TagMode {
    if m.q.Some? then TagMode(if c == m.q.value then None else m.q, m.h, false)
    else if m.h > 0 then if m.held && c == '}' then TagMode(None, m.h - 1, false) else TagMode(None, m.h, c == '}')
    else if IsQuote(c) then TagMode(Some(c), 0, false)
    else if m.held && c == '{' then TagMode(None, 1, false)
    else TagMode(None, 0, c == '{')
  }

  function TagAfter(s: string, m: TagMode): TagMode {
    if s == [] then m else TagAfter(s[1..], TagStep(m, s[0]))
  }

  predicate Outside(m: TagMode) { m.q.None? && m.h == 0 }

  /** A tag end stands at `k`, outside quotes and mustaches. */
  predicate TagEndsAt(s: string, q: Option<char>, h: nat, k: nat)
    requires k <= |s|
  {
    ("/>" <= s[k..] || ">" <= s[k..]) && Outside(TagAfter(s[..k], TagMode(q, h, false)))
  }

  datatype TagState = TagState(len: nat, q: Option<char>, h: nat)

  /** How far one turn of the scan moves, and the quote and mustache state it leaves. */
  function TagTurn(s: string, q: Option<char>, h: nat): TagState
    requires s != []
  {
    if q.Some? then TagState(1, if s[0] == q.value then None else q, h)
    else if h > 0 then if "}}" <= s then TagState(2, q, h - 1) else TagState(1, q, h)
    else if IsQuote(s[0]) then TagState(1, Some(s[0]), h)
    else if "{{" <= s then TagState(2, q, h + 1)
    else TagState(1, q, h)
  }

  predicate TagStops(s: string, q: Option<char>, h: nat)
    requires s != []
  {
    q.None? && h == 0 && !IsQuote(s[0]) && !("{{" <= s) && ("/>" <= s || s[0] == '>')
  }

  lemma TagScanTurn(s: string, q: Option<char>, h: nat)
    requires s != []
    ensures TagTurn(s, q, h).len <= |s|
    ensures TagStops(s, q, h) ==> TagScan(s, q, h) == Some(TagClose(0, "/>" <= s)) && TagEndsAt(s, q, h, 0)
    ensures !TagStops(s, q, h) ==>
              var t := TagTurn(s, q, h);
              TagScan(s, q, h) == ShiftClose(TagScan(s[t.len..], t.q, t.h), t.len)
  {
    if TagStops(s, q, h) { assert s[..0] == [] && s[0..] == s; }
  }

  /** A held brace makes no difference when the next character does not pair with it. */
  lemma {:induction false} HeldAlone(p: string, m: TagMode)
    requires m.q.None? && (p != [] ==> p[0] != (if m.h > 0 then '}' else '{'))
    ensures Outside(TagAfter(p, m)) == Outside(TagAfter(p, m.(held := false)))
  {
    hide Outside;
    if p != [] { assert TagStep(m, p[0]) == TagStep(m.(held := false), p[0]); } else { HeldOutside(m); }
  }

  lemma {:induction false} HeldOutside(m: TagMode)
    ensures Outside(m) == Outside(m.(held := false))
  {}

  /** Reading on from a turn of the scan is reading on from the state it leaves. */
  lemma {:induction false} TurnFolds(s: string, q: Option<char>, h: nat, k: nat)
    requires s != [] && TagTurn(s, q, h).len <= k <= |s|
    ensures var t := TagTurn(s, q, h);
            Outside(TagAfter(s[..k], TagMode(q, h, false))) == Outside(TagAfter(s[..k][t.len..], TagMode(t.q, t.h, false)))
  {
    var t, p, m := TagTurn(s, q, h), s[..k], TagMode(q, h, false);
    assert p[0] == s[0] && (k > 1 ==> p[1] == s[1] && p[1..][0] == s[1] && p[1..][1..] == p[2..]);
    AfterStep(p, m);
    if t.len == 2 {
      assert TagStep(TagStep(m, s[0]), s[1]) == TagMode(t.q, t.h, false);
      AfterStep(p[1..], TagStep(m, s[0]));
    } else {
      var m' := TagStep(m, s[0]);
      assert m' == TagMode(t.q, t.h, m'.held);
      if m'.held {
        if k > 1 { PairBegins(s); }
        HeldAlone(p[1..], m');
      }
    }
  }

  lemma {:induction false} PairBegins(s: string)
    requires |s| > 1
    ensures "{{" <= s <==> s[0] == '{' && s[1] == '{'
    ensures "}}" <= s <==> s[0] == '}' && s[1] == '}'
  {}

  lemma {:induction false} AfterStep(p: string, m: TagMode)
    ensures p != [] ==> TagAfter(p, m) == TagAfter(p[1..], TagStep(m, p[0]))
  {}

  lemma TagEndsAfterTurn(s: string, q: Option<char>, h: nat, k: nat)
    requires s != [] && !TagStops(s, q, h)
    requires TagTurn(s, q, h).len <= k <= |s|
    ensures var t := TagTurn(s, q, h);
            TagEndsAt(s, q, h, k) == TagEndsAt(s[t.len..], t.q, t.h, k - t.len)
  {
    hide TagAfter, TagTurn, TagStops, Outside;
    var t := TagTurn(s, q, h);
    assert s[..k][t.len..] == s[t.len..][..k - t.len];
    assert s[k..] == s[t.len..][k - t.len..];
    TurnFolds(s, q, h, k);
  }

  lemma NotBeforeTurn(s: string, q: Option<char>, h: nat, k: nat)
    requires s != [] && !TagStops(s, q, h) && k < TagTurn(s, q, h).len <= |s|
    ensures !TagEndsAt(s, q, h, k)
  {
    if k == 0 {
      assert s[..0] == [] && s[0..] == s;
    } else {
      assert s[1..][0] == s[1];
    }
  }

  predicate NoTagEnd(s: string, q: Option<char>, h: nat, n: nat)
    requires n <= |s| + 1
  {
    forall k | 0 <= k < n :: !TagEndsAt(s, q, h, k)
  }

  lemma {:induction false} NoTagEndTurn(s: string, q: Option<char>, h: nat, n: nat)
    requires s != [] && !TagStops(s, q, h)
    requires var t := TagTurn(s, q, h); t.len <= n <= |s| + 1 && NoTagEnd(s[t.len..], t.q, t.h, n - t.len)
    ensures NoTagEnd(s, q, h, n)
  {
    hide TagTurn, TagStops, TagEndsAt;
    TagTurnFits(s, q, h);
    var t := TagTurn(s, q, h);
    forall k | 0 <= k < n ensures !TagEndsAt(s, q, h, k) {
      if k < t.len {
        NotBeforeTurn(s, q, h, k);
      } else {
        TagEndsAfterTurn(s, q, h, k);
        assert !TagEndsAt(s[t.len..], t.q, t.h, k - t.len);
      }
    }
  }

  lemma {:induction false} TagTurnFits(s: string, q: Option<char>, h: nat)
    requires s != []
    ensures 1 <= TagTurn(s, q, h).len <= |s|
  {}

  /** The tag ends at `c`, and nowhere before. */
  predicate FirstTagEnd(s: string, q: Option<char>, h: nat, c: TagClose) {
    c.at <= |s| && TagEndsAt(s, q, h, c.at) && (c.selfClosed <==> "/>" <= s[c.at..]) && NoTagEnd(s, q, h, c.at)
  }

  lemma {:induction false} FirstTagEndTurn(s: string, q: Option<char>, h: nat, c: TagClose)
    requires s != [] && !TagStops(s, q, h)
    requires var t := TagTurn(s, q, h); t.len <= |s| && FirstTagEnd(s[t.len..], t.q, t.h, c)
    ensures FirstTagEnd(s, q, h, TagClose(c.at + TagTurn(s, q, h).len, c.selfClosed))
  {
    hide TagTurn, TagStops, TagEndsAt, NoTagEnd;
    var t := TagTurn(s, q, h);
    NoTagEndTurn(s, q, h, t.len + c.at);
    TagEndsAfterTurn(s, q, h, t.len + c.at);
    assert s[t.len..][c.at..] == s[t.len + c.at..];
  }

  lemma {:induction false} TagEndHere(s: string, q: Option<char>, h: nat)
    requires s != [] && TagStops(s, q, h)
    ensures TagScan(s, q, h) == Some(TagClose(0, "/>" <= s)) && FirstTagEnd(s, q, h, TagClose(0, "/>" <= s))
  {
    TagScanTurn(s, q, h);
    assert s[0..] == s;
  }

  /** The `>` that ends a start tag is the first one outside quotes and mustaches, as a reading of the
      tag character by character finds them, and the tag is self-closed exactly when it is written `/>`. */
  lemma {:induction false} TagScanIsFirst(s: string, q: Option<char>, h: nat)
    ensures match TagScan(s, q, h)
            case None => NoTagEnd(s, q, h, |s| + 1)
            case Some(c) => FirstTagEnd(s, q, h, c)
    decreases |s|
  {
    if s == [] {
    } else if TagStops(s, q, h) {
      TagEndHere(s, q, h);
    } else {
      hide *;
      TagScanTurn(s, q, h);
      TagTurnFits(s, q, h);
      var t := TagTurn(s, q, h);
      TagScanIsFirst(s[t.len..], t.q, t.h);
      match TagScan(s[t.len..], t.q, t.h)
      case None =>
        ClosesNowhere(t.len);
        NoTagEndTurn(s, q, h, |s| + 1);
      case Some(c) =>
        ClosesLater(c, t.len);
        FirstTagEndTurn(s, q, h, c);
    }
  }

  lemma {:induction false} ClosesNowhere(n: nat)
    ensures ShiftClose(None, n) == None
  {}

  lemma {:induction false} ClosesLater(c: TagClose, n: nat)
    ensures ShiftClose(Some(c), n) == Some(TagClose(c.at + n, c.selfClosed))
  {}

  // ----- lexemes tile the source -----

  /** `src` is a spelling of the token. */
  predicate TokenSpells(t: Token, src: string) {
    match t
    case HtmlStart(name, attrsRaw, selfClosed) =>
      var k, close := |name|, if selfClosed then 2 else 1;
      && 1 + k + close <= |src|
      && src[0] == '<' && Lower(src[1..1 + k]) == name
      && TrimEnd(src[1 + k..|src| - close]) == attrsRaw
      && src[|src| - close..] == (if selfClosed then "/>" else ">")
    case HtmlEnd(name) =>
      var k := |name|;
      && 3 + k <= |src|
      && "</" <= src && Lower(src[2..2 + k]) == name
      && '>' !in src[2 + k..|src| - 1] && src[|src| - 1] == '>'
    case Text(text) => text == src
    case RawText(text) => text == src
    case _ => t.raw == src
  }

  predicate RawSpells(name: string, attrsRaw: string, body: string, src: string, i: nat) {
    && i + |body| <= |src|
    && TokenSpells(HtmlStart(name, attrsRaw, false), src[..i])
    && src[i..i + |body|] == body
    && TokenSpells(HtmlEnd(name), src[i + |body|..])
  }

  ghost predicate Spells(item: Item, src: string) {
    match item
    case Single(t) => TokenSpells(t, src)
    case Raw(name, attrsRaw, body) => exists i :: RawSpells(name, attrsRaw, body, src, i)
  }

  /** What a lexeme may be: text and raw bodies never stand alone, raw elements are whole. */
  predicate ItemOk(item: Item) {
    match item
    case Single(t) => !t.Text? && !t.RawText? && !OpensRaw(t) && (IsMustache(t) ==> MustacheOk(t.raw))
    case Raw(name, _, _) => IsRawContent(name)
  }

  /** Long enough for every slice `normalize_mustache` takes, and closed by its own braces. */
  predicate MustacheOk(raw: string) {
    && |raw| >= 4 && "{{" <= raw && EndsWith(raw, "}}") && !("{{!" <= raw)
    && ("{{{" <= raw ==> |raw| >= 6 && EndsWith(raw, "}}}"))
  }

  lemma {:induction false} FindCloseHere(s: string, q: Option<char>, needle: string)
    requires needle != [] && FindClose(s, q, needle).Some?
    ensures var k := FindClose(s, q, needle).value; s[k..k + |needle|] == needle
    decreases |s|
  {
    if q.Some? {
      FindCloseHere(s[1..], if s[0] == q.value then None else q, needle);
    } else if IsQuote(s[0]) {
      FindCloseHere(s[1..], Some(s[0]), needle);
    } else if !(needle <= s) {
      FindCloseHere(s[1..], None, needle);
    }
  }

  lemma {:induction false} FindGreater(s: string)
    ensures match Find(s, ">")
            case None => '>' !in s
            case Some(p) => '>' !in s[..p] && s[p] == '>'
  {
    if s != [] && !(">" <= s) {
      assert s[..1] == [s[0]];
      FindGreater(s[1..]);
      var p := Find(s[1..], ">");
      if p.Some? { assert s[..p.value + 1] == [s[0]] + s[1..][..p.value]; }
    }
  }

  lemma {:induction false} EndTagParts(s: string) returns (n: nat, p: nat)
    requires StartsTag(s) && s[1] == '/' && ReadHtmlTag(s).Ok?
    ensures 2 + n <= |s| && Find(s[2 + n..], ">") == Some(p)
    ensures ReadHtmlTag(s).value == ReadTag(HtmlEnd(Lower(s[2..2 + n])), 2 + n + p + 1)
  {
    hide Find, Lower, NameLen, TagScan, IsTagStartChar;
    n := NameLen(s[2..]);
    p := Find(s[2 + n..], ">").value;
  }

  lemma {:induction false} StartTagParts(s: string) returns (n: nat, c: TagClose)
    requires StartsTag(s) && s[1] != '/' && ReadHtmlTag(s).Ok?
    ensures 1 + n <= |s| && TagScan(s[1 + n..], None, 0) == Some(c)
    ensures ReadHtmlTag(s).value
         == ReadTag(HtmlStart(Lower(s[1..1 + n]), TrimEnd(s[1 + n..1 + n + c.at]), c.selfClosed),
                    1 + n + c.at + (if c.selfClosed then 2 else 1))
  {
    hide Find, Lower, NameLen, TagScan, TrimEnd, IsTagStartChar;
    n := NameLen(s[1..]);
    c := TagScan(s[1 + n..], None, 0).value;
  }

  lemma {:induction false} EndSpelled(s: string, n: nat, p: nat)
    requires 2 + n <= |s| && s[0] == '<' && s[1] == '/' && Find(s[2 + n..], ">") == Some(p)
    ensures TokenSpells(HtmlEnd(Lower(s[2..2 + n])), s[..2 + n + p + 1])
  {
    FindGreater(s[2 + n..]);
    hide Find, Lower;
    var src := s[..2 + n + p + 1];
    assert src[2..2 + n] == s[2..2 + n];
    assert src[2 + n..|src| - 1] == s[2 + n..][..p];
    assert src[|src| - 1] == s[2 + n..][p];
  }

  lemma {:induction false} StartIsSpelled(src: string, nm: string, attrs: string, selfClosed: bool)
    requires var n, close := |nm|, if selfClosed then 2 else 1;
             && 1 + n + close <= |src| && src[0] == '<' && src[1..1 + n] == nm
             && src[1 + n..|src| - close] == attrs && src[|src| - close..] == (if selfClosed then "/>" else ">")
    ensures TokenSpells(HtmlStart(Lower(nm), TrimEnd(attrs), selfClosed), src)
  {
    hide Lower, TrimEnd;
  }

  lemma {:induction false} StartSpelled(s: string, n: nat, c: TagClose)
    requires 1 + n <= |s| && s[0] == '<' && TagScan(s[1 + n..], None, 0) == Some(c)
    ensures TokenSpells(HtmlStart(Lower(s[1..1 + n]), TrimEnd(s[1 + n..1 + n + c.at]), c.selfClosed),
                        s[..1 + n + c.at + (if c.selfClosed then 2 else 1)])
  {
    hide *;
    TagScanIsFirst(s[1 + n..], None, 0);
    ClosedBy(s[1 + n..], c);
    var close := if c.selfClosed then 2 else 1;
    StartSlices(s, n, c.at, close);
    StartIsSpelled(s[..1 + n + c.at + close], s[1..1 + n], s[1 + n..1 + n + c.at], c.selfClosed);
  }

  lemma {:induction false} StartSlices(s: string, n: nat, at: nat, close: nat)
    requires 1 + n + at + close <= |s|
    ensures var src := s[..1 + n + at + close];
            && src[1..1 + n] == s[1..1 + n]
            && src[1 + n..|src| - close] == s[1 + n..1 + n + at]
            && src[|src| - close..] == s[1 + n..][at..][..close]
            && src[0] == s[0]
  {}

  lemma {:induction false} ClosedBy(s: string, c: TagClose)
    requires FirstTagEnd(s, None, 0, c)
    ensures c.at <= |s| && if c.selfClosed then "/>" <= s[c.at..] else ">" <= s[c.at..]
  {
    hide TagAfter, NoTagEnd;
  }

  lemma {:induction false} StartsWithLess(s: string)
    requires StartsTag(s)
    ensures |s| >= 2 && s[0] == '<'
  {}

  lemma {:induction false} TagSpells(s: string)
    requires StartsTag(s) && ReadHtmlTag(s).Ok?
    ensures var t := ReadHtmlTag(s).value; TokenSpells(t.token, s[..t.len]) && t.token.name == Lower(t.token.name)
  {
    hide *;
    StartsWithLess(s);
    if s[1] == '/' {
      var n, p := EndTagParts(s);
      EndSpelled(s, n, p);
      LowerTwice(s[2..2 + n]);
    } else {
      var n, c := StartTagParts(s);
      StartSpelled(s, n, c);
      LowerTwice(s[1..1 + n]);
    }
  }

  /** No end tag stands at `j`, or too little is left for one. */
  predicate NoCloseAt(s: string, tag: string, j: nat)
    requires j <= |s|
  {
    |s| - j < 2 + |tag| || !RawCloseHere(s[j..], tag)
  }

  /** The end tag found is the first one; when none is found there is none. */
  lemma {:induction false} RawCloseFound(s: string, tag: string)
    ensures match FindRawClose(s, tag)
            case None => forall j | 0 <= j <= |s| :: NoCloseAt(s, tag, j)
            case Some(k) =>
              && k <= |s| && |s[k..]| >= 2 + |tag| && RawCloseHere(s[k..], tag)
              && forall j | 0 <= j < k :: |s| - j >= 2 + |tag| && !RawCloseHere(s[j..], tag)
  {
    hide RawCloseHere;
    assert s[0..] == s;
    if |s| >= 2 + |tag| && !RawCloseHere(s, tag) {
      RawCloseFound(s[1..], tag);
      forall j | 1 <= j <= |s| ensures s[1..][j - 1..] == s[j..] {}
      match FindRawClose(s[1..], tag)
      case None =>
        forall j | 0 <= j <= |s| ensures NoCloseAt(s, tag, j) {
          if j > 0 { assert NoCloseAt(s[1..], tag, j - 1); }
        }
      case Some(k) =>
        forall j | 1 <= j < k + 1 ensures !RawCloseHere(s[j..], tag) { assert s[1..][j - 1..] == s[j..]; }
    }
  }

  lemma {:induction false} LowerKeeps(s: string, c: char)
    requires LowerChar(c) == c && c in s
    ensures c in Lower(s)
  {
    if s[0] != c { LowerKeeps(s[1..], c); }
  }

  lemma RawTagPlain(tag: string)
    requires IsRawContent(tag)
    ensures '>' !in tag
  {
    var raw := RAW_CONTENT_TAGS;
    assert tag == raw[0] || tag == raw[1] || tag == raw[2] || tag == raw[3];
  }

  /** No `>` stands in the name of the end tag found. */
  lemma GreaterAfterName(s: string, name: string, p: nat)
    requires '>' !in name && Lower(name) == name && p < |s| && s[p] == '>'
    requires |s| >= 2 + |name| && RawCloseHere(s, name)
    ensures p >= 2 + |name|
  {
    assert s[0] == '<' && s[1] == '/';
    if p < 2 + |name| {
      assert s[2..2 + |name|][p - 2] == '>';
      LowerKeeps(s[2..2 + |name|], '>');
    }
  }

  lemma {:induction false} EndSpells(s: string, name: string)
    requires '>' !in name && Lower(name) == name
    requires |s| >= 2 + |name| && RawCloseHere(s, name) && Find(s, ">").Some?
    ensures TokenSpells(HtmlEnd(name), s[..Find(s, ">").value + 1])
  {
    FindGreater(s);
    var p := Find(s, ">").value;
    GreaterAfterName(s, name, p);
    hide Find, Lower, IsAsciiSpace;
    EndSlices(s, |name|, p);
    assert '>' !in s[..p][2 + |name|..];
  }

  lemma {:induction false} EndSlices(s: string, n: nat, p: nat)
    requires 2 + n <= p < |s|
    ensures var src := s[..p + 1];
            && src[2..2 + n] == s[2..2 + n] && src[..2] == s[..2]
            && src[2 + n..|src| - 1] == s[..p][2 + n..] && src[|src| - 1] == s[p]
  {}

  lemma {:induction false} TripleSpelled(s: string, k: nat)
    requires "{{{" <= s && FindClose(s[3..], None, "}}}") == Some(k)
    ensures k + 6 <= |s| && MustacheOk(s[..k + 6])
  {
    FindCloseHere(s[3..], None, "}}}");
    hide FindClose;
    var raw := s[..k + 6];
    assert raw[..3] == s[..3] && raw[2] == '{';
    assert raw[|raw| - 3..] == s[3..][k..k + 3];
    assert raw[|raw| - 2..] == raw[|raw| - 3..][1..];
  }

  lemma {:induction false} DoubleSpelled(s: string, k: nat)
    requires "{{" <= s && !("{{!" <= s) && !("{{{" <= s) && FindClose(s[2..], None, "}}") == Some(k)
    ensures k + 4 <= |s| && MustacheOk(s[..k + 4])
  {
    FindCloseHere(s[2..], None, "}}");
    hide FindClose;
    var raw := s[..k + 4];
    assert raw[..3] == s[..3];
    assert raw[|raw| - 2..] == s[2..][k..k + 2];
  }

  lemma {:induction false} ScanIsMustache(s: string)
    requires "{{" <= s && !("{{!" <= s)
    ensures s != [] && Scan(s) == if "{{{" <= s then ScanTriple(s) else ScanMustache(s)
  {
    hide ScanTriple, ScanMustache;
  }

  lemma {:induction false} MustacheSpells(s: string)
    requires "{{" <= s && !("{{!" <= s) && Scan(s).Emit?
    ensures Scan(s).item.Single? && IsMustache(Scan(s).item.token) && Scan(s).item.token.raw == s[..Scan(s).len]
    ensures MustacheOk(s[..Scan(s).len])
  {
    ScanIsMustache(s);
    hide Scan, FindClose, Classify, MustacheOk;
    if "{{{" <= s {
      TripleSpelled(s, FindClose(s[3..], None, "}}}").value);
    } else {
      DoubleSpelled(s, FindClose(s[2..], None, "}}").value);
    }
  }

  /** The parts of a raw element, from the offsets at which the tokenizer found them. */
  lemma RawParts(s: string) returns (i: nat)
    requires StartsTag(s) && ScanTag(s).Emit? && ScanTag(s).item.Raw?
    ensures ReadHtmlTag(s).Ok? && i == ReadHtmlTag(s).value.len
    ensures var Raw(name, attrsRaw, body) := ScanTag(s).item;
            && ReadHtmlTag(s).value.token == HtmlStart(name, attrsRaw, false) && IsRawContent(name)
            && FindRawClose(s[i..], name) == Some(|body|) && body == s[i..i + |body|]
            && Find(s[i + |body|..], ">").Some?
            && ScanTag(s).len == i + |body| + Find(s[i + |body|..], ">").value + 1
  {
    hide FindRawClose, Find, IsRawContent, ReadHtmlTag, IsTagStartChar;
    i := ReadHtmlTag(s).value.len;
  }

  lemma RawSplit(s: string, i: nat, name: string, attrsRaw: string, body: string, len: nat)
    requires i + |body| <= len <= |s|
    requires TokenSpells(HtmlStart(name, attrsRaw, false), s[..i])
    requires s[i..i + |body|] == body
    requires TokenSpells(HtmlEnd(name), s[i + |body|..][..len - i - |body|])
    ensures RawSpells(name, attrsRaw, body, s[..len], i)
  {
    hide TokenSpells;
    var src := s[..len];
    assert src[..i] == s[..i] && src[i..i + |body|] == body;
    assert src[i + |body|..] == s[i + |body|..][..len - i - |body|];
  }

  lemma {:induction false} RawElementSpells(s: string)
    requires StartsTag(s) && ScanTag(s).Emit? && ScanTag(s).item.Raw?
    ensures Spells(ScanTag(s).item, s[..ScanTag(s).len]) && IsRawContent(ScanTag(s).item.name)
  {
    hide *;
    var Raw(name, attrsRaw, body) := ScanTag(s).item;
    var i := RawParts(s);
    TagSpells(s);
    RawTagPlain(name);
    RawCloseFound(s[i..], name);
    assert s[i..][|body|..] == s[i + |body|..];
    EndSpells(s[i + |body|..], name);
    RawSplit(s, i, name, attrsRaw, body, ScanTag(s).len);
    RawIsSpelled(name, attrsRaw, body, s[..ScanTag(s).len], i);
  }

  lemma RawIsSpelled(name: string, attrsRaw: string, body: string, src: string, i: nat)
    requires RawSpells(name, attrsRaw, body, src, i)
    ensures Spells(Raw(name, attrsRaw, body), src)
  {
    hide RawSpells;
  }

  lemma SingleTagSpells(s: string)
    requires StartsTag(s) && ScanTag(s).Emit? && ScanTag(s).item.Single?
    ensures Spells(ScanTag(s).item, s[..ScanTag(s).len]) && ItemOk(ScanTag(s).item)
  {
    TagSpells(s);
    hide TokenSpells, ReadHtmlTag, StartsTag, FindRawClose, Find, IsRawContent, MustacheOk;
  }

  lemma CommentSpells(s: string)
    requires "{{!" <= s || "<!--" <= s
    requires s != [] && Scan(s).Emit?
    ensures Spells(Scan(s).item, s[..Scan(s).len]) && ItemOk(Scan(s).item)
  {
    hide Find, CommentEnd, IsRawContent, MustacheOk;
    if "{{!" <= s { assert Scan(s) == ScanComment(s); } else { assert Scan(s) == ScanHtmlComment(s); }
  }

  lemma ScanSpells(s: string)
    requires s != [] && Scan(s).Emit?
    ensures Spells(Scan(s).item, s[..Scan(s).len]) && ItemOk(Scan(s).item)
  {
    if "{{!" <= s || "<!--" <= s {
      CommentSpells(s);
    } else if "{{" <= s {
      MustacheSpells(s);
      hide MustacheOk, Scan, IsRawContent;
    } else {
      ScanIsTag(s);
      if Scan(s).item.Raw? { RawElementSpells(s); } else { SingleTagSpells(s); }
    }
  }

  lemma ScanIsTag(s: string)
    requires s != [] && Scan(s).Emit? && !("{{" <= s) && !("<!--" <= s)
    ensures StartsTag(s) && Scan(s) == ScanTag(s)
  {
    hide ScanTag, Find, IsTagStartChar;
  }

  // ----- the document -----

  lemma UnitsSourceHead(u: Unit, us: seq<Unit>)
    ensures UnitsSource([u] + us) == u.src + u.after + UnitsSource(us)
  {
    assert ([u] + us)[1..] == us;
  }

  ghost predicate UnitsSpell(us: seq<Unit>) {
    forall u <- us :: Spells(u.item, u.src) && ItemOk(u.item)
  }

  lemma UnitsSpellHead(u: Unit, us: seq<Unit>)
    requires Spells(u.item, u.src) && ItemOk(u.item) && UnitsSpell(us)
    ensures UnitsSpell([u] + us)
  {
    hide Spells, ItemOk;
  }

  /** The lexemes and the text between them are the whole source, in order, without gap or overlap. */
  lemma {:induction false} LexTiles(text: string, s: string, d: Doc)
    requires Lex(text, s) == Ok(d)
    ensures Source(d) == text + s
    ensures UnitsSpell(d.units)
    decreases |s|
  {
    if s == [] { NothingTiles(text); return; }
    LexTurn(text, s);
    hide *;
    var n := Scan(s).len;
    if Scan(s).Skip? {
      LexTiles(text + s[..n], s[n..], d);
      Rejoin(text, s, n);
    } else {
      var rest := Lex([], s[n..]).value;
      ScanSpells(s);
      LexTiles([], s[n..], rest);
      DocTiles(text, Unit(Scan(s).item, s[..n], rest.lead), rest);
      Rejoin(text, s, n);
    }
  }

  lemma Rejoin(text: string, s: string, n: nat)
    requires n <= |s|
    ensures text + s[..n] + s[n..] == text + s
    ensures text + (s[..n] + ([] + s[n..])) == text + s
  {}

  lemma LexTurn(text: string, s: string)
    requires s != [] && Lex(text, s).Ok?
    ensures !Scan(s).Fail?
    ensures var n := Scan(s).len;
            && (Scan(s).Skip? ==> Lex(text, s) == Lex(text + s[..n], s[n..]))
            && (Scan(s).Emit? ==>
                  && Lex([], s[n..]).Ok?
                  && var d := Lex([], s[n..]).value;
                     Lex(text, s) == Ok(Doc(text, [Unit(Scan(s).item, s[..n], d.lead)] + d.units)))
  {
    hide Scan;
  }

  lemma DocTiles(text: string, u: Unit, d: Doc)
    requires u.after == d.lead && UnitsSpell(d.units) && Spells(u.item, u.src) && ItemOk(u.item)
    ensures Source(Doc(text, [u] + d.units)) == text + (u.src + Source(d))
    ensures UnitsSpell([u] + d.units)
  {
    hide UnitsSpell, UnitsSource, Spells, ItemOk;
    UnitsSpellHead(u, d.units);
    UnitsSourceHead(u, d.units);
    assert u.src + d.lead + UnitsSource(d.units) == u.src + (d.lead + UnitsSource(d.units));
  }

  lemma NothingTiles(text: string)
    ensures Source(Doc(text, [])) == text && UnitsSpell([])
  {
    assert text + [] == text;
  }

  /** No two text tokens are adjacent. */
  predicate TextsApart(ts: seq<Token>) { forall k | 0 <= k < |ts| - 1 :: ts[k].Text? ==> !ts[k + 1].Text? }

  /** Every raw body sits between a raw start tag and its own end tag. */
  predicate RawsEnclosed(ts: seq<Token>) {
    forall k | 0 <= k < |ts| && ts[k].RawText? ::
      0 < k < |ts| - 1 && OpensRaw(ts[k - 1]) && ts[k + 1] == HtmlEnd(ts[k - 1].name)
  }

  predicate WellSpaced(ts: seq<Token>) { TextsApart(ts) && RawsEnclosed(ts) }

  lemma {:induction false} ApartJoin(a: seq<Token>, b: seq<Token>)
    requires TextsApart(a) && TextsApart(b) && (b != [] ==> !b[0].Text?)
    ensures TextsApart(a + b)
  {
    var ts, n := a + b, |a|;
    forall k | 0 <= k < |ts| - 1 && ts[k].Text? ensures !ts[k + 1].Text? {
      if k >= n { assert ts[k] == b[k - n] && ts[k + 1] == b[k - n + 1]; }
      else if k < n - 1 { assert ts[k] == a[k] && ts[k + 1] == a[k + 1]; }
    }
  }

  lemma {:induction false} EnclosedJoin(a: seq<Token>, b: seq<Token>)
    requires RawsEnclosed(a) && RawsEnclosed(b)
    ensures RawsEnclosed(a + b)
  {
    hide IsRawContent;
    var ts, n := a + b, |a|;
    forall k | 0 <= k < |ts| && ts[k].RawText?
      ensures 0 < k < |ts| - 1 && OpensRaw(ts[k - 1]) && ts[k + 1] == HtmlEnd(ts[k - 1].name)
    {
      if k >= n { assert ts[k] == b[k - n]; } else { assert ts[k] == a[k]; }
    }
  }

  lemma {:induction false} UnitSpaced(u: Unit)
    requires ItemOk(u.item)
    ensures var ts := ItemTokens(u.item) + TextTokens(u.after);
            WellSpaced(ts) && ts != [] && !ts[0].Text? && !ts[0].RawText?
  {
    hide IsRawContent, IsMustache, MustacheOk;
  }

  lemma {:induction false} UnitsWellSpaced(us: seq<Unit>)
    requires forall u <- us :: ItemOk(u.item)
    ensures WellSpaced(UnitsTokens(us))
    ensures UnitsTokens(us) != [] ==> !UnitsTokens(us)[0].Text? && !UnitsTokens(us)[0].RawText?
  {
    hide ItemOk, TextsApart, RawsEnclosed, ItemTokens, TextTokens;
    if us != [] {
      assert us[0] in us;
      forall u | u in us[1..] ensures u in us {}
      UnitsWellSpaced(us[1..]);
      UnitSpaced(us[0]);
      var head := ItemTokens(us[0].item) + TextTokens(us[0].after);
      ApartJoin(head, UnitsTokens(us[1..]));
      EnclosedJoin(head, UnitsTokens(us[1..]));
    } else {
      NothingSpaced();
    }
  }

  lemma {:induction false} NothingSpaced()
    ensures WellSpaced([])
  {}

  lemma {:induction false} UnitsTokenOrigin(us: seq<Unit>, t: Token)
    requires t in UnitsTokens(us) && !t.Text? && !t.RawText? && !t.HtmlStart? && !t.HtmlEnd?
    ensures exists u :: u in us && u.item == Single(t)
  {
    if t !in ItemTokens(us[0].item) {
      assert t in UnitsTokens(us[1..]);
      UnitsTokenOrigin(us[1..], t);
    } else {
      assert us[0] in us;
    }
  }

  lemma {:induction false} LeadSpaced(lead: string)
    ensures WellSpaced(TextTokens(lead))
  {}

  /** The token stream of any source: text tokens are apart, raw bodies are enclosed, and no
      mustache is too short for the slices the printer takes of it. */
  lemma {:induction false} TokensWellFormed(src: string)
    requires LexTokens([], src).Ok?
    ensures WellSpaced(LexTokens([], src).value)
    ensures forall t <- LexTokens([], src).value :: IsMustache(t) ==> MustacheOk(t.raw) && Layout.NormalizeMustache(t.raw).Ok?
  {
    hide Lex, Spells, MustacheOk;
    var d := Lex([], src).value;
    LexTiles([], src, d);
    UnitsWellSpaced(d.units);
    var ts := DocTokens(d);
    LeadSpaced(d.lead);
    assert WellSpaced(ts) by {
      hide TextsApart, RawsEnclosed, TextTokens, UnitsTokens;
      ApartJoin(TextTokens(d.lead), UnitsTokens(d.units));
      EnclosedJoin(TextTokens(d.lead), UnitsTokens(d.units));
    }
    forall t | t in ts && IsMustache(t) ensures MustacheOk(t.raw) && Layout.NormalizeMustache(t.raw).Ok? {
      UnitsTokenOrigin(d.units, t);
      assert ItemOk(Single(t));
      MustacheNormalizes(t.raw);
    }
  }

  lemma MustacheNormalizes(raw: string)
    requires MustacheOk(raw)
    ensures Layout.NormalizeMustache(raw).Ok?
  {}
}
