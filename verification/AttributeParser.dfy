/** The attribute sub-parser of `src/fmt/tokenizer.rs`, proved equal to Lexing.ParseAttributes. */
module AttributeParser {
  import opened Text
  import opened Tokens
  import L = Lexing
  import Tokenizer
  import LexingProps
  import AttributeProps

  lemma {:induction false} RegionStep(raw: string, i: nat, depth: int)
    requires i < |raw|
    ensures "{{" <= raw[i..] || "}}" <= raw[i..] ==> i + 1 < |raw|
    ensures L.RegionLen(raw[i..], depth)
         == if "{{" <= raw[i..] then 2 + L.RegionLen(raw[i + 2..], depth + 1)
            else if "}}" <= raw[i..] then if depth == 1 then 2 else 2 + L.RegionLen(raw[i + 2..], depth - 1)
            else 1 + L.RegionLen(raw[i + 1..], depth)
  {
    if "{{" <= raw[i..] || "}}" <= raw[i..] { assert raw[i..][2..] == raw[i + 2..]; }
    assert raw[i..][1..] == raw[i + 1..];
  }

  lemma {:induction false} RegionNothing(depth: int)
    ensures L.RegionLen([], depth) == 0
  {}

  /** Skip the balanced mustache region at `from`. */
  method SkipRegion(raw: string, from: nat) returns (i: nat)
    requires from <= |raw| && "{{" <= raw[from..]
    ensures i == from + L.RegionLen(raw[from..], 0)
  {
    hide L.RegionLen;
    var depth := 0;
    i := from;
    while i < |raw|
      invariant from <= i <= |raw|
      invariant L.RegionLen(raw[from..], 0) == i - from + L.RegionLen(raw[i..], depth)
    {
      RegionStep(raw, i, depth);
      if "{{" <= raw[i..] {
        depth := depth + 1;
        i := i + 2;
      } else if "}}" <= raw[i..] {
        if depth == 1 {
          return i + 2;
        }
        depth := depth - 1;
        i := i + 2;
      } else {
        i := i + 1;
      }
    }
    RegionNothing(depth);
    assert raw[i..] == [];
  }

  lemma {:induction false} ValueQuoteStep(raw: string, i: nat, q: char)
    requires i < |raw|
    ensures Shift(L.FindValueQuote(raw[i..], q), i)
         == if "{{" <= raw[i..] then
              var n := L.RegionLen(raw[i..], 0);
              Shift(L.FindValueQuote(raw[i + n..], q), i + n)
            else if raw[i] == q then Some(i)
            else Shift(L.FindValueQuote(raw[i + 1..], q), i + 1)
  {
    hide *;
    AttributeProps.QuoteTurn(raw[i..], q);
    var n := L.RegionLen(raw[i..], 0);
    assert raw[i..][n..] == raw[i + n..];
    assert raw[i..][1..] == raw[i + 1..] && raw[i..][0] == raw[i];
    ShiftTwice(L.FindValueQuote(raw[i + n..], q), n, i);
    ShiftTwice(L.FindValueQuote(raw[i + 1..], q), 1, i);
    ShiftIs(Some(0), i);
  }

  method FindAttrValueQuote(raw: string, from: nat, q: char) returns (r: Option<nat>)
    requires from <= |raw|
    ensures r == Shift(L.FindValueQuote(raw[from..], q), from)
  {
    hide L.FindValueQuote, L.RegionLen;
    var i := from;
    while i < |raw|
      invariant from <= i <= |raw|
      invariant Shift(L.FindValueQuote(raw[from..], q), from) == Shift(L.FindValueQuote(raw[i..], q), i)
    {
      ValueQuoteStep(raw, i, q);
      if "{{" <= raw[i..] {
        i := SkipRegion(raw, i);
        continue;
      }
      if raw[i] == q {
        return Some(i);
      }
      i := i + 1;
    }
    NothingLeft(raw, q);
    return None;
  }

  lemma NothingLeft(raw: string, q: char)
    ensures raw[|raw|..] == []
    ensures L.FindValueQuote(raw[|raw|..], q) == None
    ensures forall depth :: L.BlockEnd(raw[|raw|..], depth) == None
    ensures L.ParseAttributes(raw[|raw|..]) == Ok([])
  {
  }

  lemma {:induction false} BlockEndStep(raw: string, i: nat, depth: int)
    requires i < |raw|
    ensures Shift(L.BlockEnd(raw[i..], depth), i)
         == if "{{" <= raw[i..] then
              match Shift(L.FindClose(raw[i + 2..], None, "}}"), i + 4)
              case None => None
              case Some(next) =>
                if depth == 1 && L.BlockDelta(raw[i..]) == -1 then Some(next)
                else Shift(L.BlockEnd(raw[next..], depth + L.BlockDelta(raw[i..])), next)
            else Shift(L.BlockEnd(raw[i + 1..], depth), i + 1)
  {
    hide *;
    assert raw[i..][1..] == raw[i + 1..];
    if "{{" <= raw[i..] {
      MustacheEndStep(raw, i, depth);
      var c := L.FindClose(raw[i + 2..], None, "}}");
      if c.Some? { ShiftIs(Some(c.value), i + 4); } else { ShiftIs(None, i + 4); }
    } else {
      AttributeProps.BlockEndTurn(raw[i..], depth);
      ShiftTwice(L.BlockEnd(raw[i + 1..], depth), 1, i);
    }
  }

  lemma {:induction false} MustacheEndStep(raw: string, i: nat, depth: int)
    requires i < |raw| && "{{" <= raw[i..]
    ensures raw[i..][2..] == raw[i + 2..]
    ensures var c := L.FindClose(raw[i + 2..], None, "}}");
            && (c.None? ==> Shift(L.BlockEnd(raw[i..], depth), i) == None)
            && (c.Some? ==>
                  i + c.value + 4 <= |raw|
                  && Shift(L.BlockEnd(raw[i..], depth), i)
                     == if depth == 1 && L.BlockDelta(raw[i..]) == -1 then Some(i + c.value + 4)
                        else Shift(L.BlockEnd(raw[i + c.value + 4..], depth + L.BlockDelta(raw[i..])), i + c.value + 4))
  {
    hide *;
    AttributeProps.BlockEndTurn(raw[i..], depth);
    assert raw[i..][2..] == raw[i + 2..];
    var c := L.FindClose(raw[i + 2..], None, "}}");
    ShiftIs(None, i);
    if c.Some? {
      assert raw[i..][c.value + 4..] == raw[i + c.value + 4..];
      ShiftIs(Some(c.value + 4), i);
      ShiftTwice(L.BlockEnd(raw[i + c.value + 4..], depth + L.BlockDelta(raw[i..])), c.value + 4, i);
    }
  }

  method ConsumeHbsBlockAttr(raw: string, start: nat) returns (r: Option<nat>)
    requires start <= |raw|
    ensures r == Shift(L.BlockEnd(raw[start..], 0), start)
  {
    hide L.FindClose, L.BlockEnd;
    var i := start;
    var depth := 0;
    while i < |raw|
      invariant start <= i <= |raw|
      invariant Shift(L.BlockEnd(raw[start..], 0), start) == Shift(L.BlockEnd(raw[i..], depth), i)
    {
      BlockEndStep(raw, i, depth);
      if "{{" <= raw[i..] {
        var close := Tokenizer.FindClose(raw, i + 2, "}}");
        if close.None? {
          return None;
        }
        var next := close.value + 2;
        if "{{#" <= raw[i..] || "{{^" <= raw[i..] {
          depth := depth + 1;
        } else if "{{/" <= raw[i..] {
          if depth == 1 {
            return Some(next);
          }
          depth := depth - 1;
        }
        i := next;
        continue;
      }
      i := i + 1;
    }
    NothingLeft(raw, ' ');
    return None;
  }

  method SkipSpace(raw: string, from: nat) returns (i: nat)
    requires from <= |raw|
    ensures i == from + L.SpaceLen(raw[from..])
  {
    i := from;
    while i < |raw| && IsAsciiSpace(raw[i])
      invariant from <= i <= |raw|
      invariant L.SpaceLen(raw[from..]) == i - from + L.SpaceLen(raw[i..])
    {
      assert raw[i..][1..] == raw[i + 1..];
      i := i + 1;
    }
  }

  method SkipName(raw: string, from: nat) returns (i: nat)
    requires from <= |raw|
    ensures i == from + L.AttrNameLen(raw[from..])
  {
    i := from;
    while i < |raw| && L.IsAttrNameChar(raw[i])
      invariant from <= i <= |raw|
      invariant L.AttrNameLen(raw[from..]) == i - from + L.AttrNameLen(raw[i..])
    {
      assert raw[i..][1..] == raw[i + 1..];
      i := i + 1;
    }
  }

  method SkipWord(raw: string, from: nat) returns (i: nat)
    requires from <= |raw|
    ensures i == from + L.WordLen(raw[from..])
  {
    i := from;
    while i < |raw| && !IsAsciiSpace(raw[i])
      invariant from <= i <= |raw|
      invariant L.WordLen(raw[from..]) == i - from + L.WordLen(raw[i..])
    {
      assert raw[i..][1..] == raw[i + 1..];
      i := i + 1;
    }
  }

  /** One attribute at `start`; the result carries the index just past it. */
  method ParseOne(raw: string, start: nat) returns (r: Outcome<(Attr, nat)>)
    requires start < |raw|
    ensures match L.ParseOne(raw[start..])
            case Ok(one) => r == Ok((one.attr, start + one.len))
            case Err(e) => r == Err(e)
            case Panic => false
  {
    hide L.FindClose, L.BlockEnd, L.FindValueQuote, L.WordLen, L.AttrNameLen, Lower, Trim, L.IsAttrNameChar;
    ghost var s := raw[start..];
    var i := start;
    if "{{#" <= raw[i..] || "{{^" <= raw[i..] {
      var end := ConsumeHbsBlockAttr(raw, i);
      if end.None? {
        return Err("unterminated handlebars block in attribute list");
      }
      assert s[..end.value - start] == raw[i..end.value];
      return Ok((BlockAttr(Trim(raw[i..end.value])), end.value));
    }
    if "{{" <= raw[i..] {
      assert s[2..] == raw[i + 2..];
      var close := Tokenizer.FindClose(raw, i + 2, "}}");
      if close.None? {
        return Err("unterminated mustache in attribute list");
      }
      assert s[..close.value + 2 - start] == raw[i..close.value + 2];
      return Ok((ExprAttr(raw[i..close.value + 2]), close.value + 2));
    }
    r := ParsePlain(raw, start);
  }

  /** An attribute without a value. */
  lemma {:induction false} BareIs(s: string)
    requires !("{{" <= s)
    ensures var n := L.AttrNameLen(s);
            && (n == 0 ==> L.ParseOne(s) == Err("unrecognised attribute syntax"))
            && (n > 0 && (n == |s| || s[n] != '=') ==> L.ParseOne(s) == Ok(L.ReadAttr(Plain(Lower(s[..n]), None), n)))
  {
    LexingProps.NoBlock(s);
    hide L.FindClose, L.BlockEnd, L.FindValueQuote, L.WordLen, L.AttrNameLen, Lower, Trim, IsQuote;
  }

  lemma {:induction false} EndsAtEquals(s: string, n: nat)
    requires !("{{" <= s) && n == L.AttrNameLen(s) && 0 < n && n + 1 == |s| && s[n] == '='
    ensures L.ParseOne(s) == Err("trailing '='")
  {
    LexingProps.NoBlock(s);
    hide L.FindClose, L.BlockEnd, L.FindValueQuote, L.WordLen, L.AttrNameLen, Lower, Trim, IsQuote;
  }

  lemma {:induction false} QuotedIs(s: string, n: nat)
    requires !("{{" <= s) && n == L.AttrNameLen(s) && 0 < n && n + 1 < |s| && s[n] == '=' && IsQuote(s[n + 1])
    ensures L.ParseOne(s) == match L.FindValueQuote(s[n + 2..], s[n + 1])
                             case None => Err("unterminated attribute value")
                             case Some(c) => Ok(L.ReadAttr(Plain(Lower(s[..n]), Some(s[n + 2..n + 2 + c])), n + 3 + c))
  {
    LexingProps.NoBlock(s);
    hide L.FindClose, L.BlockEnd, L.FindValueQuote, L.WordLen, L.AttrNameLen, Lower, Trim, IsQuote;
  }

  lemma {:induction false} WordIs(s: string, n: nat)
    requires !("{{" <= s) && n == L.AttrNameLen(s) && 0 < n && n + 1 < |s| && s[n] == '=' && !IsQuote(s[n + 1])
    ensures var w := L.WordLen(s[n + 1..]);
            L.ParseOne(s) == Ok(L.ReadAttr(Plain(Lower(s[..n]), Some(s[n + 1..n + 1 + w])), n + 1 + w))
  {
    LexingProps.NoBlock(s);
    hide L.FindClose, L.BlockEnd, L.FindValueQuote, L.WordLen, L.AttrNameLen, Lower, Trim, IsQuote;
  }

  lemma {:induction false} Sliced(raw: string, start: nat, i: nat, j: nat)
    requires start <= i <= j <= |raw|
    ensures raw[start..][i - start..j - start] == raw[i..j] && raw[start..][i - start..] == raw[i..]
    ensures i < |raw| ==> raw[start..][i - start] == raw[i]
  {}

  lemma {:induction false} QuotedAt(raw: string, start: nat, at: nat)
    requires start < at && at + 1 < |raw| && !("{{" <= raw[start..])
    requires at == start + L.AttrNameLen(raw[start..]) && raw[at] == '=' && IsQuote(raw[at + 1])
    ensures L.ParseOne(raw[start..])
         == match L.FindValueQuote(raw[at + 2..], raw[at + 1])
            case None => Err("unterminated attribute value")
            case Some(c) => Ok(L.ReadAttr(Plain(Lower(raw[start..at]), Some(raw[at + 2..at + 2 + c])), at + 3 + c - start))
  {
    hide *;
    var s, n := raw[start..], at - start;
    Sliced(raw, start, at, at + 1);
    Sliced(raw, start, at + 1, at + 1);
    Sliced(raw, start, at + 2, at + 2);
    Sliced(raw, start, start, at);
    QuotedIs(s, n);
    var c := L.FindValueQuote(raw[at + 2..], raw[at + 1]);
    if c.Some? { Sliced(raw, start, at + 2, at + 2 + c.value); }
  }

  method ParseQuoted(raw: string, start: nat, at: nat) returns (r: Outcome<(Attr, nat)>)
    requires start < at && at + 1 < |raw| && !("{{" <= raw[start..])
    requires at == start + L.AttrNameLen(raw[start..]) && raw[at] == '=' && IsQuote(raw[at + 1])
    ensures match L.ParseOne(raw[start..])
            case Ok(one) => r == Ok((one.attr, start + one.len))
            case Err(e) => r == Err(e)
            case Panic => false
  {
    hide L.ParseOne, L.FindValueQuote, L.AttrNameLen, Lower, IsQuote;
    QuotedAt(raw, start, at);
    var close := FindAttrValueQuote(raw, at + 2, raw[at + 1]);
    if close.None? {
      return Err("unterminated attribute value");
    }
    return Ok((Plain(Lower(raw[start..at]), Some(raw[at + 2..close.value])), close.value + 1));
  }

  lemma {:induction false} WordAt(raw: string, start: nat, at: nat)
    requires start < at && at + 1 < |raw| && !("{{" <= raw[start..])
    requires at == start + L.AttrNameLen(raw[start..]) && raw[at] == '=' && !IsQuote(raw[at + 1])
    ensures var w := L.WordLen(raw[at + 1..]);
            L.ParseOne(raw[start..])
            == Ok(L.ReadAttr(Plain(Lower(raw[start..at]), Some(raw[at + 1..at + 1 + w])), at + 1 + w - start))
  {
    hide *;
    var s, n := raw[start..], at - start;
    var w := L.WordLen(raw[at + 1..]);
    Sliced(raw, start, at, at + 1);
    Sliced(raw, start, start, at);
    Sliced(raw, start, at + 1, at + 1 + w);
    WordIs(s, n);
  }

  method ParseWord(raw: string, start: nat, at: nat) returns (r: Outcome<(Attr, nat)>)
    requires start < at && at + 1 < |raw| && !("{{" <= raw[start..])
    requires at == start + L.AttrNameLen(raw[start..]) && raw[at] == '=' && !IsQuote(raw[at + 1])
    ensures match L.ParseOne(raw[start..])
            case Ok(one) => r == Ok((one.attr, start + one.len))
            case Err(e) => r == Err(e)
            case Panic => false
  {
    hide L.ParseOne, L.WordLen, L.AttrNameLen, Lower, IsQuote;
    WordAt(raw, start, at);
    var end := SkipWord(raw, at + 1);
    return Ok((Plain(Lower(raw[start..at]), Some(raw[at + 1..end])), end));
  }

  /** The value of the attribute at `start` whose name ends before the `=` at `at`. */
  method ParseValue(raw: string, start: nat, at: nat) returns (r: Outcome<(Attr, nat)>)
    requires start < at < |raw| && !("{{" <= raw[start..])
    requires at == start + L.AttrNameLen(raw[start..]) && raw[at] == '='
    ensures match L.ParseOne(raw[start..])
            case Ok(one) => r == Ok((one.attr, start + one.len))
            case Err(e) => r == Err(e)
            case Panic => false
  {
    hide L.ParseOne, L.AttrNameLen, IsQuote;
    if at + 1 >= |raw| {
      EndsAtEquals(raw[start..], at - start);
      return Err("trailing '='");
    }
    if IsQuote(raw[at + 1]) {
      r := ParseQuoted(raw, start, at);
    } else {
      r := ParseWord(raw, start, at);
    }
  }

  method ParsePlain(raw: string, start: nat) returns (r: Outcome<(Attr, nat)>)
    requires start < |raw| && !("{{" <= raw[start..])
    ensures match L.ParseOne(raw[start..])
            case Ok(one) => r == Ok((one.attr, start + one.len))
            case Err(e) => r == Err(e)
            case Panic => false
  {
    ghost var s := raw[start..];
    BareIs(s);
    hide L.ParseOne, L.AttrNameLen, Lower;
    var i := SkipName(raw, start);
    if i == start {
      return Err("unrecognised attribute syntax");
    }
    if i < |raw| && raw[i] == '=' {
      r := ParseValue(raw, start, i);
      return;
    }
    assert s[..i - start] == raw[start..i];
    return Ok((Plain(Lower(raw[start..i]), None), i));
  }

  /** `out` followed by the attributes still to be read. */
  ghost function Resume(out: seq<Attr>, rest: Outcome<seq<Attr>>): Outcome<seq<Attr>> {
    match rest
    case Ok(attrs) => Ok(out + attrs)
    case e => e
  }

  lemma ParseNext(raw: string, i: nat, out: seq<Attr>, attr: Attr, len: nat)
    requires i < |raw| && L.SpaceLen(raw[i..]) == 0
    requires L.ParseOne(raw[i..]) == Ok(L.ReadAttr(attr, len))
    ensures Resume(out, L.ParseAttributes(raw[i..])) == Resume(out + [attr], L.ParseAttributes(raw[i + len..]))
  {
    hide L.ParseOne, L.SpaceLen;
    assert raw[i..][len..] == raw[i + len..];
    var rest := L.ParseAttributes(raw[i + len..]);
    if rest.Ok? { assert out + ([attr] + rest.value) == out + [attr] + rest.value; }
  }

  lemma ParseSkipsSpace(s: string)
    ensures L.SpaceLen(s[L.SpaceLen(s)..]) == 0
    ensures L.ParseAttributes(s[L.SpaceLen(s)..]) == L.ParseAttributes(s)
  {
    if s != [] && IsAsciiSpace(s[0]) {
      ParseSkipsSpace(s[1..]);
      assert s[L.SpaceLen(s)..] == s[1..][L.SpaceLen(s[1..])..];
    }
  }

  lemma ParseFails(raw: string, i: nat, e: string)
    requires i < |raw| && L.SpaceLen(raw[i..]) == 0
    requires L.ParseOne(raw[i..]) == Err(e)
    ensures L.ParseAttributes(raw[i..]) == Err(e)
  {
    hide L.ParseOne, L.SpaceLen;
  }

  method ParseAttributes(raw: string) returns (r: Outcome<seq<Attr>>)
    ensures r == L.ParseAttributes(raw)
  {
    hide L.ParseAttributes, L.ParseOne, L.SpaceLen;
    var out: seq<Attr> := [];
    var i: nat := 0;
    assert raw[0..] == raw;
    ghost var all := L.ParseAttributes(raw);
    if all.Ok? { assert [] + all.value == all.value; }
    while i < |raw|
      invariant i <= |raw|
      invariant L.ParseAttributes(raw) == Resume(out, L.ParseAttributes(raw[i..]))
    {
      ParseSkipsSpace(raw[i..]);
      var next := SkipSpace(raw, i);
      assert raw[i..][next - i..] == raw[next..];
      i := next;
      if i >= |raw| {
        break;
      }
      var one := ParseOne(raw, i);
      if one.IsFailure() {
        ParseFails(raw, i, one.error);
        return Err(one.error);
      }
      var (attr, end) := one.value;
      ParseNext(raw, i, out, attr, end - i);
      out := out + [attr];
      i := end;
    }
    NothingLeft(raw, ' ');
    assert out + [] == out;
    return Ok(out);
  }
}
