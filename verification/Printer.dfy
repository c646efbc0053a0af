/** The mutating printer of `src/fmt/printer.rs`, each method proved equal to its function in Layout. */
module Printer {
  import opened Text
  import opened Tokens
  import L = Lexing
  import opened Layout
  import AttributeParser
  import Tokenizer

  /** The `out` and `at_line_start` that the emitting functions share. */
  class Sheet {
    var out: string
    var atLineStart: bool

    ghost function At(): Page
      reads this
    {
      Page(out, atLineStart)
    }

    constructor ()
      ensures At() == Page([], true)
    {
      out := [];
      atLineStart := true;
    }

    method EnsureLineIndent(depth: nat)
      modifies this
      ensures At() == EnsureIndent(old(At()), depth)
    {
      if !atLineStart {
        out := out + "\n";
        atLineStart := true;
      }
      if atLineStart {
        out := out + Indent(depth);
        atLineStart := false;
      }
    }

    method PushStr(s: string)
      modifies this
      ensures At() == Push(old(At()), s)
    {
      out := out + s;
    }

    method Newline()
      modifies this
      ensures At() == Layout.Newline(old(At()))
    {
      if !EndsWith(out, "\n") {
        out := out + "\n";
      }
      atLineStart := true;
    }

    method EmitText(s: string, depth: nat)
      modifies this
      ensures At() == PutText(old(At()), s, depth)
    {
      if Trim(s) == [] {
        if CountNewlines(s) >= 2 {
          if !EndsWith(out, "\n\n") && out != [] {
            if !EndsWith(out, "\n") {
              out := out + "\n";
            }
            out := out + "\n";
            atLineStart := true;
          }
        }
        return;
      }
      var lines := SplitLines(s);
      var idx := 0;
      while idx < |lines|
        invariant 0 <= idx <= |lines|
        invariant PutLines(old(At()), lines, true, EndsWith(s, "\n"), depth)
               == PutLines(At(), lines[idx..], idx == 0, EndsWith(s, "\n"), depth)
      {
        EmitLine(s, lines, idx, depth);
        assert lines[idx..][1..] == lines[idx + 1..];
        idx := idx + 1;
      }
      assert lines[idx..] == [];
    }

    /** One turn of the line loop of `emit_text`. */
    method EmitLine(s: string, lines: seq<string>, idx: nat, depth: nat)
      requires idx < |lines|
      modifies this
      ensures PutLines(old(At()), lines[idx..], idx == 0, EndsWith(s, "\n"), depth)
           == PutLines(At(), lines[idx + 1..], false, EndsWith(s, "\n"), depth)
    {
      assert lines[idx..][1..] == lines[idx + 1..];
      var trimmed := Trim(lines[idx]);
      if trimmed == [] {
        if idx > 0 && idx < |lines| - 1 {
          if !EndsWith(out, "\n\n") {
            if !atLineStart {
              out := out + "\n";
            }
            out := out + "\n";
            atLineStart := true;
          }
        }
        return;
      }
      if atLineStart {
        out := out + Indent(depth);
      }
      out := out + trimmed;
      if idx < |lines| - 1 {
        out := out + "\n";
        atLineStart := true;
      } else {
        if EndsWith(s, "\n") {
          out := out + "\n";
          atLineStart := true;
        } else {
          atLineStart := false;
        }
      }
    }

    method EmitRawText(s: string) returns (hug: bool)
      modifies this
      ensures Printed(At(), hug) == PutRaw(old(At()), s)
    {
      hide Trim, LastNewline, EndsWith;
      if Trim(s) == [] {
        return false;
      }
      var body := if "\n" <= s then s[1..] else s;
      var i := LastNewline(body);
      if i.Some? && Trim(body[i.value + 1..]) == [] {
        body := body[..i.value + 1];
      }
      if body == [] {
        return false;
      }
      out := out + body;
      atLineStart := EndsWith(body, "\n");
      return !EndsWith(body, "\n");
    }

    method EmitStartTag(name: string, attrsRaw: string, selfClosed: bool, depth: nat) returns (r: Outcome<()>)
      modifies this
      ensures match PrintStart(old(At()), name, attrsRaw, selfClosed, depth)
              case Ok(page) => r == Ok(()) && At() == page
              case Err(e) => r == Err(e)
              case Panic => r == Panic
    {
      hide L.ParseAttributes, RenderAttrs, TagText, EnsureIndent;
      var parsed := AttributeParser.ParseAttributes(attrsRaw);
      if parsed.IsFailure() {
        return parsed.PropagateFailure();
      }
      var rendered := RenderAttrs(parsed.value);
      if rendered.IsFailure() {
        return rendered.PropagateFailure();
      }
      EnsureLineIndent(depth);
      EmitTag(name, parsed.value, rendered.value, selfClosed, depth);
      Newline();
      return Ok(());
    }

    method EmitTag(name: string, attrs: seq<Attr>, rs: seq<string>, selfClosed: bool, depth: nat)
      modifies this
      ensures At() == Push(old(At()), TagText(name, attrs, rs, selfClosed, depth))
    {
      hide OneLine, IsVoid, Indent, Spaced, Stacked;
      ghost var start := out;
      out := out + "<";
      out := out + name;
      if OneLine(attrs) {
        EmitSpaced(rs);
        var close := if SlashClosed(name, selfClosed) then " />" else ">";
        out := out + close;
        assert out == start + ("<" + name + Spaced(rs) + close);
      } else {
        EmitStacked(rs, depth + 1);
        out := out + "\n";
        out := out + Indent(depth);
        var close := if SlashClosed(name, selfClosed) then "/>" else ">";
        out := out + close;
        assert out == start + ("<" + name + Stacked(rs, depth + 1) + "\n" + Indent(depth) + close);
      }
    }

    method EmitSpaced(rs: seq<string>)
      modifies this`out
      ensures out == old(out) + Spaced(rs)
    {
      var i := 0;
      while i < |rs|
        invariant 0 <= i <= |rs|
        invariant old(out) + Spaced(rs) == out + Spaced(rs[i..])
      {
        assert rs[i..][0] == rs[i] && rs[i..][1..] == rs[i + 1..];
        out := out + " ";
        out := out + rs[i];
        i := i + 1;
      }
      assert rs[i..] == [];
    }

    method EmitStacked(rs: seq<string>, depth: nat)
      modifies this`out
      ensures out == old(out) + Stacked(rs, depth)
    {
      hide Indent;
      var i := 0;
      while i < |rs|
        invariant 0 <= i <= |rs|
        invariant old(out) + Stacked(rs, depth) == out + Stacked(rs[i..], depth)
      {
        assert rs[i..][0] == rs[i] && rs[i..][1..] == rs[i + 1..];
        out := out + "\n";
        out := out + Indent(depth);
        out := out + rs[i];
        i := i + 1;
      }
      assert rs[i..] == [];
    }
  }

  // ----- inline runs -----

  method FindMatchingCloser(tokens: seq<Token>, at: nat, need: BlockKind) returns (r: Option<nat>)
    requires at < |tokens|
    ensures r == Shift(FindCloser(tokens[at + 1..], [need]), at + 1)
  {
    hide Awaits, Closes;
    var stack := [need];
    var j := at + 1;
    while j < |tokens|
      invariant at + 1 <= j <= |tokens| && stack != []
      invariant Shift(FindCloser(tokens[at + 1..], [need]), at + 1) == Shift(FindCloser(tokens[j..], stack), j)
    {
      assert tokens[j..][0] == tokens[j] && tokens[j..][1..] == tokens[j + 1..];
      var t := tokens[j];
      if Awaits(t).Some? {
        stack := stack + [Awaits(t).value];
      } else if Closes(t) == Some(stack[|stack| - 1]) {
        if |stack| == 1 {
          return Some(j);
        }
        stack := stack[..|stack| - 1];
      } else if t.HbsElse? && |stack| == 1 {
        return None;
      }
      j := j + 1;
    }
    return None;
  }

  method BodyIsSingleLogicalLine(body: seq<Token>) returns (r: bool)
    ensures r == SingleLineBody(body)
  {
    hide SingleLineToken;
    var i := 0;
    while i < |body|
      invariant 0 <= i <= |body|
      invariant forall k :: 0 <= k < i ==> SingleLineToken(body[k])
    {
      if !SingleLineToken(body[i]) {
        return false;
      }
      i := i + 1;
    }
    return true;
  }

  /** `buf` followed by the rest of the body. */
  ghost function ResumeBody(buf: string, rest: Outcome<string>): Outcome<string> {
    match rest
    case Ok(s) => Ok(buf + s)
    case e => e
  }

  lemma BodyStep(ts: seq<Token>, buf: string)
    requires ts != []
    ensures match InlineToken(ts[0])
            case Ok(s) => ResumeBody(buf, InlineBody(ts)) == ResumeBody(buf + s, InlineBody(ts[1..]))
            case Err(e) => InlineBody(ts) == Err(e)
            case Panic => InlineBody(ts) == Panic
  {
    hide InlineToken;
    var first, rest := InlineToken(ts[0]), InlineBody(ts[1..]);
    if first.Ok? && rest.Ok? {
      assert buf + (first.value + rest.value) == buf + first.value + rest.value;
    }
  }

  method RenderBody(body: seq<Token>) returns (r: Outcome<string>)
    ensures r == InlineBody(body)
  {
    hide InlineToken, InlineBody;
    var buf := [];
    var i := 0;
    EmptyBody(body);
    while i < |body|
      invariant 0 <= i <= |body|
      invariant InlineBody(body) == ResumeBody(buf, InlineBody(body[i..]))
    {
      assert body[i..][0] == body[i] && body[i..][1..] == body[i + 1..];
      BodyStep(body[i..], buf);
      var part := InlineToken(body[i]);
      if part.IsFailure() {
        return part.PropagateFailure();
      }
      buf := buf + part.value;
      i := i + 1;
    }
    assert buf + [] == buf;
    return Ok(buf);
  }

  lemma {:induction false} EmptyBody(body: seq<Token>)
    ensures InlineBody(body) == ResumeBody([], InlineBody(body[0..]))
    ensures InlineBody(body[|body|..]) == Ok([])
  {
    assert body[|body|..] == [];
    assert InlineBody([]) == Ok([]);
    hide InlineBody;
    assert body[0..] == body;
    if InlineBody(body).Ok? { assert [] + InlineBody(body).value == InlineBody(body).value; }
  }

  method TryRenderInline(tokens: seq<Token>, at: nat, depth: nat) returns (r: Outcome<Option<Run>>)
    requires at < |tokens|
    ensures r == TryInline(tokens[at..], depth)
  {
    hide FindCloser, SingleLineBody, InlineBody, CloserText, TrimEnd, RenderAttrs, OneLine, L.ParseAttributes;
    ghost var ts := tokens[at..];
    assert ts[0] == tokens[at] && ts[1..] == tokens[at + 1..];
    var opener := InlineOpener(tokens[at]);
    if opener.IsFailure() {
      return opener.PropagateFailure();
    }
    if opener.value.None? {
      return Ok(None);
    }
    var closer := FindMatchingCloser(tokens, at, ElementEnd(tokens[at].name));
    if closer.None? {
      return Ok(None);
    }
    var j := closer.value;
    assert ts[1..j - at] == tokens[at + 1..j] && ts[j - at] == tokens[j];
    var single := BodyIsSingleLogicalLine(tokens[at + 1..j]);
    if !single {
      return Ok(None);
    }
    var body := RenderBody(tokens[at + 1..j]);
    if body.IsFailure() {
      return body.PropagateFailure();
    }
    var end := CloserText(tokens[j]);
    if end.IsFailure() {
      return end.PropagateFailure();
    }
    var rendered := TrimEnd(opener.value.value + body.value + end.value);
    if '\n' in rendered || |rendered| + depth * 2 > LINE_LIMIT {
      return Ok(None);
    }
    return Ok(Some(Run(rendered, j - at + 1)));
  }

  // ----- the token loop -----

  lemma {:induction false} CapStep(s: string, i: nat, run: nat)
    requires i < |s|
    ensures CapNewlines(s[i..], run)
         == if s[i] == '\n' then (if run + 1 <= 2 then "\n" else []) + CapNewlines(s[i + 1..], run + 1)
            else [s[i]] + CapNewlines(s[i + 1..], 0)
  {
    assert s[i..][1..] == s[i + 1..];
  }

  lemma {:induction false} CapNothing(run: nat)
    ensures CapNewlines([], run) == []
  {}

  lemma {:induction false} StripStep(s: string)
    requires s != []
    ensures StripNewlines(s) == if s[|s| - 1] == '\n' then StripNewlines(s[..|s| - 1]) else s
    ensures StripNewlines([]) == []
  {}

  method PostProcess(s: string) returns (r: string)
    ensures r == Layout.PostProcess(s)
  {
    hide CapNewlines, StripNewlines, JoinLines, TrimEnds, SplitLines;
    var out := [];
    var newlineRun := 0;
    var i := 0;
    assert s[0..] == s;
    while i < |s|
      invariant 0 <= i <= |s| && 0 <= newlineRun
      invariant CapNewlines(s, 0) == out + CapNewlines(s[i..], newlineRun)
    {
      CapStep(s, i, newlineRun);
      if s[i] == '\n' {
        newlineRun := newlineRun + 1;
        if newlineRun <= 2 {
          out := out + "\n";
        }
      } else {
        newlineRun := 0;
        out := out + [s[i]];
      }
      i := i + 1;
    }
    assert s[i..] == [] && out + [] == out;
    CapNothing(newlineRun);
    while out != [] && out[|out| - 1] == '\n'
      invariant StripNewlines(out) == StripNewlines(CapNewlines(s, 0))
      decreases |out|
    {
      StripStep(out);
      out := out[..|out| - 1];
    }
    StripStep(if out == [] then "x" else out);
    return JoinLines(TrimEnds(SplitLines(out))) + "\n";
  }

  /** Print the token at `tokens[i]` outside an inline run. */
  method PrintOne(t: Token, sheet: Sheet, depth: nat, hug: bool) returns (r: Outcome<(nat, bool)>)
    modifies sheet
    ensures match PrintToken(t, State(old(sheet.At()), depth, hug))
            case Ok(st) => r == Ok((st.depth, st.hug)) && sheet.At() == st.page
            case Err(e) => r == Err(e)
            case Panic => r == Panic
  {
    hide PutText, PutRaw, EnsureIndent, Newline, PrintStart, NormalizeMustache, EndTag;
    match t
    case Text(s) =>
      sheet.EmitText(s, depth);
      return Ok((depth, hug));
    case RawText(s) =>
      var h := sheet.EmitRawText(s);
      return Ok((depth, h));
    case HtmlComment(raw) =>
      sheet.EnsureLineIndent(depth);
      sheet.PushStr(raw);
      sheet.Newline();
      return Ok((depth, hug));
    case HbsComment(raw) =>
      sheet.EnsureLineIndent(depth);
      sheet.PushStr(raw);
      sheet.Newline();
      return Ok((depth, hug));
    case HtmlStart(name, attrsRaw, selfClosed) =>
      var ok := sheet.EmitStartTag(name, attrsRaw, selfClosed, depth);
      if ok.IsFailure() {
        return ok.PropagateFailure();
      }
      return Ok((if !selfClosed && !IsVoid(name) then depth + 1 else depth, hug));
    case HtmlEnd(name) =>
      if hug {
        sheet.PushStr(EndTag(name));
      } else {
        sheet.EnsureLineIndent(Less(depth));
        sheet.PushStr(EndTag(name));
      }
      sheet.Newline();
      return Ok((Less(depth), false));
    case _ =>
      r := PrintMustache(t, sheet, depth, hug);
  }

  method PrintMustache(t: Token, sheet: Sheet, depth: nat, hug: bool) returns (r: Outcome<(nat, bool)>)
    requires IsMustache(t)
    modifies sheet
    ensures match PrintToken(t, State(old(sheet.At()), depth, hug))
            case Ok(st) => r == Ok((st.depth, st.hug)) && sheet.At() == st.page
            case Err(e) => r == Err(e)
            case Panic => r == Panic
  {
    hide PutText, PutRaw, EnsureIndent, Newline, PrintStart, NormalizeMustache, EndTag;
    var m := NormalizeMustache(t.raw);
    if m.IsFailure() {
      return m.PropagateFailure();
    }
    if OpensBlock(t) || t.HbsExpr? {
      sheet.EnsureLineIndent(depth);
    } else {
      sheet.EnsureLineIndent(Less(depth));
    }
    sheet.PushStr(m.value);
    if t.HbsExpr? {
      return Ok((depth, hug));
    }
    sheet.Newline();
    return Ok((if OpensBlock(t) then depth + 1 else if t.HbsElse? then depth else Less(depth), hug));
  }

  method Print(tokens: seq<Token>) returns (r: Outcome<string>)
    ensures r == Layout.Print(tokens)
  {
    hide TryInline, PrintToken, EnsureIndent, Layout.PostProcess;
    var sheet := new Sheet();
    var depth: nat := 0;
    var hug := false;
    var i: nat := 0;
    assert tokens[0..] == tokens;
    while i < |tokens|
      invariant i <= |tokens|
      invariant PrintFrom(tokens, BLANK_PAGE) == PrintFrom(tokens[i..], State(sheet.At(), depth, hug))
    {
      ghost var ts := tokens[i..];
      assert ts[0] == tokens[i] && ts[1..] == tokens[i + 1..];
      var run := TryRenderInline(tokens, i, depth);
      if run.IsFailure() {
        return run.PropagateFailure();
      }
      if run.value.Some? {
        var line := run.value.value;
        assert ts[line.len..] == tokens[i + line.len..];
        sheet.EnsureLineIndent(depth);
        ghost var start := sheet.out;
        sheet.PushStr(line.text + "\n");
        sheet.atLineStart := true;
        i := i + line.len;
        assert sheet.out == start + line.text + "\n";
        continue;
      }
      var one := PrintOne(tokens[i], sheet, depth, hug);
      if one.IsFailure() {
        return one.PropagateFailure();
      }
      depth, hug := one.value.0, one.value.1;
      i := i + 1;
    }
    assert tokens[i..] == [];
    var out := PostProcess(sheet.out);
    return Ok(out);
  }

  /** `format` of `src/fmt/format.rs` */
  method Format(src: string) returns (r: Outcome<string>)
    ensures r == Layout.Format(src)
  {
    hide L.LexTokens, Layout.Print;
    var tokens := Tokenizer.Tokenize(src);
    if tokens.IsFailure() {
      return tokens.PropagateFailure();
    }
    r := Print(tokens.value);
  }
}
