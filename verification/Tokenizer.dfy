/** The cursor loops of `src/fmt/tokenizer.rs`, each proved equal to its function in Lexing. */
module Tokenizer {
  import opened Text
  import opened Tokens
  import L = Lexing
  import P = LexingProps

  lemma {:induction false} FindCloseStep(src: string, i: nat, q: Option<char>, needle: string)
    requires i + |needle| <= |src| && needle != []
    ensures Shift(L.FindClose(src[i..], q, needle), i)
         == if q.Some? then Shift(L.FindClose(src[i + 1..], if src[i] == q.value then None else q, needle), i + 1)
            else if IsQuote(src[i]) then Shift(L.FindClose(src[i + 1..], Some(src[i]), needle), i + 1)
            else if src[i..i + |needle|] == needle then Some(i)
            else Shift(L.FindClose(src[i + 1..], None, needle), i + 1)
  {
    hide IsQuote;
    assert src[i..][1..] == src[i + 1..];
    assert src[i..][..|needle|] == src[i..i + |needle|];
  }

  lemma {:induction false} FindCloseShort(s: string, q: Option<char>, needle: string)
    requires |s| < |needle|
    ensures L.FindClose(s, q, needle).None?
  {}

  method FindClose(src: string, from: nat, needle: string) returns (r: Option<nat>)
    requires from <= |src| && needle != []
    ensures r == Shift(L.FindClose(src[from..], None, needle), from)
  {
    hide L.FindClose, IsQuote;
    var i := from;
    var quote: Option<char> := None;
    while i + |needle| <= |src|
      invariant from <= i <= |src|
      invariant Shift(L.FindClose(src[from..], None, needle), from) == Shift(L.FindClose(src[i..], quote, needle), i)
    {
      var b := src[i];
      FindCloseStep(src, i, quote, needle);
      if quote.Some? {
        if b == quote.value {
          quote := None;
        }
        i := i + 1;
        continue;
      }
      if IsQuote(b) {
        quote := Some(b);
        i := i + 1;
        continue;
      }
      if src[i..i + |needle|] == needle {
        return Some(i);
      }
      i := i + 1;
    }
    FindCloseShort(src[i..], quote, needle);
    return None;
  }

  method FlushText(src: string, start: nat, end: nat, out: seq<Token>) returns (r: seq<Token>)
    requires start <= end <= |src|
    ensures r == out + L.TextTokens(src[start..end])
  {
    r := out;
    if end > start {
      r := r + [Text(src[start..end])];
    }
  }

  predicate RawCloseAt(src: string, i: nat, tag: string)
    requires i + 2 + |tag| <= |src|
  {
    && src[i] == '<' && src[i + 1] == '/'
    && Lower(src[i + 2..i + 2 + |tag|]) == Lower(tag)
    && i + 2 + |tag| < |src|
    && (src[i + 2 + |tag|] == '>' || IsAsciiSpace(src[i + 2 + |tag|]))
  }

  lemma RawCloseSame(src: string, i: nat, tag: string)
    requires i + 2 + |tag| <= |src|
    ensures L.RawCloseHere(src[i..], tag) <==> RawCloseAt(src, i, tag)
  {
    hide Lower, IsAsciiSpace;
    assert src[i..][2..2 + |tag|] == src[i + 2..i + 2 + |tag|];
    if "</" <= src[i..] { assert src[i..][0] == '<' && src[i..][1] == '/'; }
  }

  lemma {:induction false} RawCloseStep(src: string, i: nat, tag: string)
    requires i + 2 + |tag| <= |src|
    ensures Shift(L.FindRawClose(src[i..], tag), i)
         == if RawCloseAt(src, i, tag) then Some(i) else Shift(L.FindRawClose(src[i + 1..], tag), i + 1)
  {
    RawCloseSame(src, i, tag);
    hide RawCloseAt, L.RawCloseHere;
    assert src[i..][1..] == src[i + 1..];
  }

  lemma {:induction false} RawCloseShort(s: string, tag: string)
    requires |s| < 2 + |tag|
    ensures L.FindRawClose(s, tag).None?
  {}

  method FindRawClose(src: string, from: nat, tag: string) returns (r: Option<nat>)
    requires from <= |src|
    ensures r == Shift(L.FindRawClose(src[from..], tag), from)
  {
    hide Lower, IsAsciiSpace, L.RawCloseHere, L.FindRawClose;
    var needleLen := 2 + |tag|;
    var i := from;
    while i + needleLen <= |src|
      invariant from <= i <= |src|
      invariant Shift(L.FindRawClose(src[from..], tag), from) == Shift(L.FindRawClose(src[i..], tag), i)
    {
      RawCloseStep(src, i, tag);
      if src[i] == '<' && src[i + 1] == '/' {
        var candidate := src[i + 2..i + 2 + |tag|];
        if Lower(candidate) == Lower(tag) {
          var after := i + 2 + |tag|;
          if after < |src| && (src[after] == '>' || IsAsciiSpace(src[after])) {
            return Some(i);
          }
        }
      }
      i := i + 1;
    }
    RawCloseShort(src[i..], tag);
    return None;
  }

  method NameEnd(src: string, nameStart: nat) returns (i: nat)
    requires nameStart <= |src|
    ensures i == nameStart + L.NameLen(src[nameStart..])
  {
    i := nameStart;
    while i < |src| && L.IsNameChar(src[i])
      invariant nameStart <= i <= |src|
      invariant L.NameLen(src[nameStart..]) == i - nameStart + L.NameLen(src[i..])
    {
      assert src[i..][1..] == src[i + 1..];
      i := i + 1;
    }
  }

  lemma {:induction false} FindGreaterStep(src: string, i: nat)
    requires i < |src|
    ensures Shift(Find(src[i..], ">"), i) == if src[i] == '>' then Some(i) else Shift(Find(src[i + 1..], ">"), i + 1)
  {
    assert src[i..][1..] == src[i + 1..];
    assert src[i..][..1] == [src[i]];
  }

  lemma {:induction false} FindGreaterShort()
    ensures Find([], ">").None?
  {}

  method FindGreater(src: string, from: nat) returns (i: nat)
    requires from <= |src|
    ensures match Find(src[from..], ">")
            case None => i == |src|
            case Some(p) => i == from + p
  {
    hide Find;
    i := from;
    while i < |src| && src[i] != '>'
      invariant from <= i <= |src|
      invariant Shift(Find(src[from..], ">"), from) == Shift(Find(src[i..], ">"), i)
    {
      FindGreaterStep(src, i);
      i := i + 1;
    }
    if i < |src| {
      FindGreaterStep(src, i);
    } else {
      FindGreaterShort();
      assert src[i..] == [];
    }
  }

  lemma {:induction false} TagScanCases(s: string, q: Option<char>, h: nat)
    requires s != []
    ensures L.TagScan(s, q, h)
         == if q.Some? then L.ShiftClose(L.TagScan(s[1..], if s[0] == q.value then None else q, h), 1)
            else if h > 0 then
              if "}}" <= s then L.ShiftClose(L.TagScan(s[2..], q, h - 1), 2) else L.ShiftClose(L.TagScan(s[1..], q, h), 1)
            else if IsQuote(s[0]) then L.ShiftClose(L.TagScan(s[1..], Some(s[0]), h), 1)
            else if "{{" <= s then L.ShiftClose(L.TagScan(s[2..], q, h + 1), 2)
            else if "/>" <= s then Some(L.TagClose(0, true))
            else if s[0] == '>' then Some(L.TagClose(0, false))
            else L.ShiftClose(L.TagScan(s[1..], q, h), 1)
  {
    hide IsQuote;
  }

  lemma {:induction false} Heads(src: string, i: nat)
    requires i < |src|
    ensures src[i..][0] == src[i] && src[i..][1..] == src[i + 1..]
    ensures i + 1 < |src| ==> src[i..][2..] == src[i + 2..]
    ensures "/>" <= src[i..] <==> src[i] == '/' && i + 1 < |src| && src[i + 1] == '>'
    ensures "{{" <= src[i..] || "}}" <= src[i..] ==> i + 1 < |src|
  {
    if i + 1 < |src| { assert src[i..][..2] == [src[i], src[i + 1]]; }
  }

  lemma {:induction false} QuotedStep(src: string, i: nat, q: char, h: nat)
    requires i < |src|
    ensures L.ShiftClose(L.TagScan(src[i..], Some(q), h), i)
         == L.ShiftClose(L.TagScan(src[i + 1..], if src[i] == q then None else Some(q), h), i + 1)
  {
    hide *;
    TagScanCases(src[i..], Some(q), h);
    Heads(src, i);
    P.ShiftCloseTwice(L.TagScan(src[i + 1..], if src[i] == q then None else Some(q), h), 1, i);
  }

  lemma {:induction false} MustacheStep(src: string, i: nat, h: nat)
    requires i < |src| && h > 0
    ensures L.ShiftClose(L.TagScan(src[i..], None, h), i)
         == if "}}" <= src[i..] then L.ShiftClose(L.TagScan(src[i + 2..], None, h - 1), i + 2)
            else L.ShiftClose(L.TagScan(src[i + 1..], None, h), i + 1)
  {
    hide *;
    TagScanCases(src[i..], None, h);
    Heads(src, i);
    P.ShiftCloseTwice(L.TagScan(src[i + 1..], None, h), 1, i);
    if "}}" <= src[i..] { P.ShiftCloseTwice(L.TagScan(src[i + 2..], None, h - 1), 2, i); }
  }

  lemma {:induction false} PlainStep(src: string, i: nat)
    requires i < |src|
    ensures L.ShiftClose(L.TagScan(src[i..], None, 0), i)
         == if IsQuote(src[i]) then L.ShiftClose(L.TagScan(src[i + 1..], Some(src[i]), 0), i + 1)
            else if "{{" <= src[i..] then L.ShiftClose(L.TagScan(src[i + 2..], None, 1), i + 2)
            else if src[i] == '/' && i + 1 < |src| && src[i + 1] == '>' then Some(L.TagClose(i, true))
            else if src[i] == '>' then Some(L.TagClose(i, false))
            else L.ShiftClose(L.TagScan(src[i + 1..], None, 0), i + 1)
  {
    TagScanCases(src[i..], None, 0);
    Heads(src, i);
    hide L.TagScan, IsQuote;
    if IsQuote(src[i]) {
      P.ShiftCloseTwice(L.TagScan(src[i + 1..], Some(src[i]), 0), 1, i);
    } else if "{{" <= src[i..] {
      P.ShiftCloseTwice(L.TagScan(src[i + 2..], None, 1), 2, i);
    } else {
      P.ShiftCloseTwice(L.TagScan(src[i + 1..], None, 0), 1, i);
    }
  }

  /** The attribute scan of `read_html_tag`. */
  method TagEnd(src: string, attrsStart: nat) returns (r: Option<L.TagClose>)
    requires attrsStart <= |src|
    ensures r == L.ShiftClose(L.TagScan(src[attrsStart..], None, 0), attrsStart)
  {
    hide L.TagScan, IsQuote;
    var i := attrsStart;
    var quote: Option<char> := None;
    var hbsDepth: nat := 0;
    while i < |src|
      invariant attrsStart <= i <= |src|
      invariant L.ShiftClose(L.TagScan(src[attrsStart..], None, 0), attrsStart)
             == L.ShiftClose(L.TagScan(src[i..], quote, hbsDepth), i)
    {
      var b := src[i];
      if quote.Some? {
        QuotedStep(src, i, quote.value, hbsDepth);
        if b == quote.value {
          quote := None;
        }
        i := i + 1;
        continue;
      }
      if hbsDepth > 0 {
        MustacheStep(src, i, hbsDepth);
        if "}}" <= src[i..] {
          hbsDepth := hbsDepth - 1;
          i := i + 2;
          continue;
        }
        i := i + 1;
        continue;
      }
      PlainStep(src, i);
      if IsQuote(b) {
        quote := Some(b);
        i := i + 1;
        continue;
      }
      if "{{" <= src[i..] {
        hbsDepth := hbsDepth + 1;
        i := i + 2;
        continue;
      }
      if b == '/' && i + 1 < |src| && src[i + 1] == '>' {
        return Some(L.TagClose(i, true));
      }
      if b == '>' {
        return Some(L.TagClose(i, false));
      }
      i := i + 1;
    }
    TagScanNothing(quote, hbsDepth);
    assert src[i..] == [];
    return None;
  }

  lemma {:induction false} TagScanNothing(q: Option<char>, h: nat)
    ensures L.TagScan([], q, h).None?
  {}

  method ReadHtmlTag(src: string, start: nat) returns (r: Outcome<(Token, nat)>)
    requires start < |src| && L.StartsTag(src[start..])
    ensures match L.ReadHtmlTag(src[start..])
            case Ok(t) => r == Ok((t.token, start + t.len))
            case Err(e) => r == Err(e)
            case Panic => false
  {
    hide L.NameLen, L.TagScan, Find, Lower, TrimEnd, L.IsTagStartChar;
    ghost var s := src[start..];
    var i := start + 1;
    var isEnd := src[i] == '/';
    if isEnd {
      i := i + 1;
    }
    var nameStart := i;
    assert s[nameStart - start..] == src[nameStart..];
    i := NameEnd(src, nameStart);
    if i == nameStart {
      return Err("expected tag name");
    }
    var name := Lower(src[nameStart..i]);
    assert s[nameStart - start..i - start] == src[nameStart..i];
    assert s[i - start..] == src[i..];

    if isEnd {
      var gt := FindGreater(src, i);
      if gt >= |src| {
        return Err("unterminated end tag");
      }
      return Ok((HtmlEnd(name), gt + 1));
    }

    var close := TagEnd(src, i);
    if close.None? {
      return Err("unterminated tag");
    }
    var c := close.value;
    assert i <= c.at <= |src|;
    assert s[i - start..c.at - start] == src[i..c.at];
    return Ok((HtmlStart(name, TrimEnd(src[i..c.at]), c.selfClosed), c.at + (if c.selfClosed then 2 else 1)));
  }

  /** `out` followed by the tokens still to be read. */
  ghost function Resume(out: seq<Token>, rest: Outcome<seq<Token>>): Outcome<seq<Token>> {
    match rest
    case Ok(ts) => Ok(out + ts)
    case e => e
  }

  /** `{{!-- … --}}` or `{{! … }}` */
  method CommentEnd(src: string, i: nat) returns (end: Option<nat>)
    requires i < |src| && "{{!" <= src[i..]
    ensures end.Some? ==> i < end.value <= |src|
    ensures L.ScanComment(src[i..]) == match end
                                       case None => L.Fail("unterminated handlebars comment")
                                       case Some(e) => L.Emit(L.Single(HbsComment(src[i..e])), e - i)
  {
    ghost var s := src[i..];
    if "{{!--" <= src[i..] {
      end := Shift(Find(src[i + 5..], "--}}"), i + 9);
      assert s[5..] == src[i + 5..];
    } else {
      end := Shift(Find(src[i + 3..], "}}"), i + 5);
      assert s[3..] == src[i + 3..];
    }
    if end.Some? { assert s[..end.value - i] == src[i..end.value]; }
  }

  /** The end of `{{{ … }}}` or `{{ … }}`. */
  method MustacheEnd(src: string, i: nat) returns (end: Option<nat>)
    requires i < |src| && "{{" <= src[i..] && !("{{!" <= src[i..])
    ensures end.Some? ==> i < end.value <= |src|
    ensures "{{{" <= src[i..] ==>
              L.ScanTriple(src[i..]) == match end
                                        case None => L.Fail("unterminated triple mustache")
                                        case Some(e) => L.Emit(L.Single(HbsExpr(src[i..e])), e - i)
    ensures !("{{{" <= src[i..]) ==>
              L.ScanMustache(src[i..]) == match end
                                          case None => L.Fail("unterminated mustache")
                                          case Some(e) => L.Emit(L.Single(L.Classify(src[i..e])), e - i)
  {
    hide L.FindClose, L.Classify;
    ghost var s := src[i..];
    if "{{{" <= src[i..] {
      assert s[3..] == src[i + 3..];
      end := FindClose(src, i + 3, "}}}");
      end := Shift(end, 3);
    } else {
      assert s[2..] == src[i + 2..];
      end := FindClose(src, i + 2, "}}");
      end := Shift(end, 2);
    }
    if end.Some? { assert s[..end.value - i] == src[i..end.value]; }
  }

  method HtmlCommentEnd(src: string, i: nat) returns (end: Option<nat>)
    requires i < |src| && "<!--" <= src[i..]
    ensures end.Some? ==> i < end.value <= |src|
    ensures L.ScanHtmlComment(src[i..]) == match end
                                           case None => L.Fail("unterminated html comment")
                                           case Some(e) => L.Emit(L.Single(HtmlComment(src[i..e])), e - i)
  {
    ghost var s := src[i..];
    assert s[4..] == src[i + 4..];
    end := Shift(Find(src[i + 4..], "-->"), i + 7);
    if end.Some? { assert s[..end.value - i] == src[i..end.value]; }
  }

  /** A start tag, an end tag, or a whole raw-content element; pushed onto `out`. */
  method PushTag(src: string, i: nat, out: seq<Token>) returns (r: Outcome<(seq<Token>, nat)>)
    requires i < |src| && L.StartsTag(src[i..])
    ensures match L.ScanTag(src[i..])
            case Emit(item, n) => r == Ok((out + L.ItemTokens(item), i + n))
            case Fail(e) => r == Err(e)
            case Skip(_) => false
  {
    hide L.FindRawClose, L.ReadHtmlTag, IsRawContent, Find, IsVoid;
    ghost var s := src[i..];
    var tag := ReadHtmlTag(src, i);
    if tag.IsFailure() {
      return tag.PropagateFailure();
    }
    var (tok, next) := tag.value;
    assert s[next - i..] == src[next..];

    if !OpensRaw(tok) {
      return Ok((out + [tok], next));
    }
    var span := RawSpan(src, i, tok, next);
    if span.IsFailure() {
      return span.PropagateFailure();
    }
    var (closePos, end) := span.value;
    var body := src[next..closePos];
    RawTokens(out, tok, body);
    if closePos > next {
      return Ok((out + [tok] + [RawText(body)] + [HtmlEnd(tok.name)], end));
    }
    return Ok((out + [tok] + [HtmlEnd(tok.name)], end));
  }

  lemma RawScan(src: string, i: nat, tok: Token, bodyStart: nat)
    requires i < bodyStart <= |src| && L.StartsTag(src[i..])
    requires L.ReadHtmlTag(src[i..]) == Ok(L.ReadTag(tok, bodyStart - i)) && OpensRaw(tok)
    ensures L.ScanTag(src[i..])
         == match L.FindRawClose(src[bodyStart..], tok.name)
            case None => L.Fail("unterminated raw element")
            case Some(c) =>
              match Find(src[bodyStart + c..], ">")
              case None => L.Fail("unterminated end tag")
              case Some(p) =>
                L.Emit(L.Raw(tok.name, tok.attrsRaw, src[bodyStart..bodyStart + c]), bodyStart + c + p + 1 - i)
  {
    hide L.FindRawClose, L.ReadHtmlTag, IsRawContent, Find, IsVoid;
    ghost var s := src[i..];
    assert s[bodyStart - i..] == src[bodyStart..];
    var close := L.FindRawClose(src[bodyStart..], tok.name);
    if close.Some? {
      assert s[bodyStart - i + close.value..] == src[bodyStart + close.value..];
      assert s[bodyStart - i..bodyStart - i + close.value] == src[bodyStart..bodyStart + close.value];
    }
  }

  lemma {:induction false} RawIsStart(tok: Token)
    requires OpensRaw(tok)
    ensures tok.HtmlStart?
  {}

  /** Where the body of a raw-content element ends, and where its end tag ends. */
  method RawSpan(src: string, i: nat, tok: Token, bodyStart: nat) returns (r: Outcome<(nat, nat)>)
    requires i < bodyStart <= |src| && L.StartsTag(src[i..])
    requires L.ReadHtmlTag(src[i..]) == Ok(L.ReadTag(tok, bodyStart - i)) && OpensRaw(tok)
    ensures r.Ok? ==>
              && bodyStart <= r.value.0 <= r.value.1 <= |src| && i < r.value.1
              && L.ScanTag(src[i..]) == L.Emit(L.Raw(tok.name, tok.attrsRaw, src[bodyStart..r.value.0]), r.value.1 - i)
    ensures r.Err? ==> L.ScanTag(src[i..]) == L.Fail(r.error)
    ensures !r.Panic?
  {
    hide L.FindRawClose, L.ReadHtmlTag, L.ScanTag, L.StartsTag, OpensRaw, Find;
    RawIsStart(tok);
    RawScan(src, i, tok, bodyStart);
    var close := FindRawClose(src, bodyStart, tok.name);
    if close.None? {
      return Err("unterminated raw element");
    }
    var p := Find(src[close.value..], ">");
    if p.None? {
      return Err("unterminated end tag");
    }
    r := Ok((close.value, close.value + p.value + 1));
  }

  lemma RawTokens(out: seq<Token>, tok: Token, body: string)
    requires OpensRaw(tok)
    ensures out + L.ItemTokens(L.Raw(tok.name, tok.attrsRaw, body))
         == (if body == [] then out + [tok] else out + [tok] + [RawText(body)]) + [HtmlEnd(tok.name)]
  {
  }

  lemma {:induction false} ScanSlice(s: string)
    requires s != []
    ensures "{{!" <= s ==> L.Scan(s) == L.ScanComment(s)
    ensures "{{" <= s && !("{{!" <= s) ==> L.Scan(s) == if "{{{" <= s then L.ScanTriple(s) else L.ScanMustache(s)
    ensures "<!--" <= s && !("{{" <= s) ==> L.Scan(s) == L.ScanHtmlComment(s)
  {
    hide L.ScanComment, L.ScanTriple, L.ScanMustache, L.ScanHtmlComment, L.ScanTag;
    Braces(s);
  }

  lemma {:induction false} ScanRest(s: string)
    requires s != [] && !("{{" <= s) && !("<!--" <= s)
    ensures L.Scan(s) == if ("<!" <= s || "<?" <= s) && Find(s, ">").Some? then L.Skip(Find(s, ">").value + 1)
                         else if L.StartsTag(s) then L.ScanTag(s)
                         else L.Skip(1)
  {
    hide L.ScanComment, L.ScanTriple, L.ScanMustache, L.ScanHtmlComment, L.ScanTag, L.StartsTag, Find;
    Braces(s);
  }

  lemma {:induction false} Braces(s: string)
    ensures "{{!" <= s || "{{{" <= s ==> "{{" <= s
  {
    if |s| >= 3 { assert s[..2] == [s[0], s[1]] && s[..3] == [s[0], s[1], s[2]]; }
  }

  /** A comment or a mustache at `i`: a slice of the source up to its closer. */
  method SliceToken(src: string, i: nat) returns (r: Outcome<Option<(Token, nat)>>)
    requires i < |src|
    ensures r.Err? ==> L.Scan(src[i..]) == L.Fail(r.error)
    ensures r.Ok? && r.value.Some? ==>
              i < r.value.value.1 <= |src|
              && L.Scan(src[i..]) == L.Emit(L.Single(r.value.value.0), r.value.value.1 - i)
    ensures r.Ok? && r.value.None? ==> !("{{" <= src[i..]) && !("<!--" <= src[i..])
    ensures !r.Panic?
  {
    ScanSlice(src[i..]);
    hide L.Scan, L.Classify, L.ScanComment, L.ScanTriple, L.ScanMustache, L.ScanHtmlComment;
    if "{{!" <= src[i..] {
      var end := CommentEnd(src, i);
      if end.None? {
        return Err("unterminated handlebars comment");
      }
      return Ok(Some((HbsComment(src[i..end.value]), end.value)));
    }
    if "{{{" <= src[i..] {
      Braces(src[i..]);
      var end := MustacheEnd(src, i);
      if end.None? {
        return Err("unterminated triple mustache");
      }
      return Ok(Some((HbsExpr(src[i..end.value]), end.value)));
    }
    if "{{" <= src[i..] {
      var end := MustacheEnd(src, i);
      if end.None? {
        return Err("unterminated mustache");
      }
      return Ok(Some((L.Classify(src[i..end.value]), end.value)));
    }
    if "<!--" <= src[i..] {
      var end := HtmlCommentEnd(src, i);
      if end.None? {
        return Err("unterminated html comment");
      }
      return Ok(Some((HtmlComment(src[i..end.value]), end.value)));
    }
    return Ok(None);
  }

  method Tokenize(src: string) returns (r: Outcome<seq<Token>>)
    ensures r == L.LexTokens([], src)
  {
    hide L.LexTokens, L.Scan, L.ScanTag, L.StartsTag, L.ItemTokens, L.TextTokens, Find;
    var out: seq<Token> := [];
    var i: nat := 0;
    var textStart: nat := 0;
    assert src[0..] == src && src[0..0] == [];
    ResumeNil(L.LexTokens([], src));
    while i < |src|
      invariant textStart <= i <= |src|
      invariant L.LexTokens([], src) == Resume(out, L.LexTokens(src[textStart..i], src[i..]))
    {
      ghost var text := src[textStart..i];
      ghost var out0 := out;

      var slice := SliceToken(src, i);
      if slice.IsFailure() {
        LexFail(text, src[i..], slice.error);
        return slice.PropagateFailure();
      }
      if slice.value.Some? {
        var (tok, end) := slice.value.value;
        out := FlushText(src, textStart, i, out);
        out := out + [tok];
        EmitSingle(src, i, text, out0, tok, end);
        i := end;
        textStart := i;
        continue;
      }
      ScanRest(src[i..]);

      // Doctype and processing instructions stay part of the surrounding text.
      if "<!" <= src[i..] || "<?" <= src[i..] {
        var p := Find(src[i..], ">");
        if p.Some? {
          SkipTo(src, i, textStart, i + p.value + 1);
          i := i + p.value + 1;
          continue;
        }
      }

      if L.StartsTag(src[i..]) {
        out := FlushText(src, textStart, i, out);
        var tag := PushTag(src, i, out);
        if tag.IsFailure() {
          LexFail(text, src[i..], tag.error);
          return Err(tag.error);
        }
        out := tag.value.0;
        ghost var item := L.ScanTag(src[i..]).item;
        EmitItem(src, i, text, out0, item, tag.value.1);
        assert out == out0 + (L.TextTokens(text) + L.ItemTokens(item));
        i := tag.value.1;
        textStart := i;
        continue;
      }

      SkipTo(src, i, textStart, i + 1);
      i := i + 1;
    }
    out := FlushText(src, textStart, i, out);
    LexNothing(src[textStart..i]);
    assert src[i..] == [];
    return Ok(out);
  }

  lemma LexNothing(text: string)
    ensures L.LexTokens(text, []) == Ok(L.TextTokens(text))
  {
    assert L.TextTokens(text) + [] == L.TextTokens(text);
  }

  lemma LexFail(text: string, s: string, e: string)
    requires s != [] && L.Scan(s) == L.Fail(e)
    ensures L.LexTokens(text, s) == Err(e)
  {
    hide L.Scan;
  }

  lemma SkipTo(src: string, i: nat, textStart: nat, next: nat)
    requires textStart <= i < next <= |src|
    requires L.Scan(src[i..]) == L.Skip(next - i)
    ensures L.LexTokens(src[textStart..i], src[i..]) == L.LexTokens(src[textStart..next], src[next..])
  {
    hide L.Scan;
    assert src[textStart..i] + src[i..][..next - i] == src[textStart..next];
    assert src[i..][next - i..] == src[next..];
  }

  lemma ResumeNil(rest: Outcome<seq<Token>>)
    ensures Resume([], rest) == rest
  {
    if rest.Ok? { assert [] + rest.value == rest.value; }
  }

  lemma ResumeResume(a: seq<Token>, b: seq<Token>, rest: Outcome<seq<Token>>)
    ensures Resume(a, Resume(b, rest)) == Resume(a + b, rest)
  {
    if rest.Ok? { assert a + (b + rest.value) == a + b + rest.value; }
  }

  lemma LexEmit(text: string, s: string, item: L.Item, n: nat)
    requires s != [] && L.Scan(s) == L.Emit(item, n)
    ensures L.LexTokens(text, s) == Resume(L.TextTokens(text) + L.ItemTokens(item), L.LexTokens([], s[n..]))
  {
    hide L.Scan, L.ItemTokens, L.TextTokens;
    var next := L.Lex([], s[n..]);
    if next.Ok? {
      var d := next.value;
      var us := [L.Unit(item, s[..n], d.lead)] + d.units;
      assert us[1..] == d.units;
      assert L.Lex(text, s) == Ok(L.Doc(text, us));
      assert L.TextTokens(text) + (L.ItemTokens(item) + L.TextTokens(d.lead) + L.UnitsTokens(d.units))
          == L.TextTokens(text) + L.ItemTokens(item) + (L.TextTokens(d.lead) + L.UnitsTokens(d.units));
    }
  }

  lemma EmitItem(src: string, i: nat, text: string, out: seq<Token>, item: L.Item, next: nat)
    requires i < next <= |src|
    requires L.Scan(src[i..]) == L.Emit(item, next - i)
    ensures Resume(out, L.LexTokens(text, src[i..]))
         == Resume(out + (L.TextTokens(text) + L.ItemTokens(item)), L.LexTokens(src[next..next], src[next..]))
  {
    assert src[next..next] == [];
    hide *;
    LexEmit(text, src[i..], item, next - i);
    assert src[i..][next - i..] == src[next..];
    ResumeResume(out, L.TextTokens(text) + L.ItemTokens(item), L.LexTokens([], src[next..]));
  }

  lemma EmitSingle(src: string, i: nat, text: string, out: seq<Token>, tok: Token, next: nat)
    requires i < next <= |src|
    requires L.Scan(src[i..]) == L.Emit(L.Single(tok), next - i)
    ensures Resume(out, L.LexTokens(text, src[i..]))
         == Resume(out + L.TextTokens(text) + [tok], L.LexTokens(src[next..next], src[next..]))
  {
    assert src[next..next] == [];
    EmitItem(src, i, text, out, L.Single(tok), next);
    assert out + (L.TextTokens(text) + [tok]) == out + L.TextTokens(text) + [tok];
  }
}
