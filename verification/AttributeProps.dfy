/** Parsing undoes printing of attributes. */
module AttributeProps {
  import opened Text
  import opened Tokens
  import opened Lexing
  import opened LexingProps
  import opened Layout

  // ----- attributes whose printed form reads back as the same attribute -----

  /** The mustache region being read, `depth` regions open, is closed within `s`. */
  predicate RegionCloses(s: string, depth: int)
    decreases |s|
  {
    if s == [] then false
    else if "{{" <= s then RegionCloses(s[2..], depth + 1)
    else if "}}" <= s then depth == 1 || RegionCloses(s[2..], depth - 1)
    else RegionCloses(s[1..], depth)
  }

  /** Every mustache opened in the value is closed in it. */
  predicate RegionsClose(v: string)
    decreases |v|
  {
    if v == [] then true
    else if "{{" <= v then RegionCloses(v, 0) && RegionsClose(v[RegionLen(v, 0)..])
    else RegionsClose(v[1..])
  }

  predicate CleanName(name: string) {
    name != [] && Lower(name) == name && '{' !in name
    && forall c <- name :: IsAttrNameChar(c) && !IsSpace(c)
  }

  predicate CleanValue(v: string) { !('"' in v && '\'' in v) && RegionsClose(v) }

  /** A bare mustache: not a comment, a block or a triple, closed by its first `}}`. */
  predicate CleanExpr(raw: string) {
    && |raw| >= 4 && "{{" <= raw
    && var b := Trim(raw[2..|raw| - 2]);
       && (b != [] ==> b[0] != '{' && b[0] != '!' && b[0] != '#' && b[0] != '^' && b[|b| - 1] != '}')
       && FindClose(b + "}}", None, "}}") == Some(|b|) && Find(b, "}}").None?
       && raw[2] != '{' && raw[2] != '!'
  }

  /** An embedded block that is already compact and that the tag scan passes over. */
  predicate CleanBlock(raw: string) {
    && ("{{#" <= raw || "{{^" <= raw) && BlockEnd(raw, 0) == Some(|raw|)
    && NormalizeMustache(raw) == Ok(raw) && TagPass(raw, None, 0)
    && EndsWith(raw, "}}") && Trimmed(raw)
  }

  predicate CleanAttr(a: Attr) {
    match a
    case Plain(name, value) => CleanName(name) && (value.Some? ==> CleanValue(value.value))
    case ExprAttr(raw) => CleanExpr(raw)
    case BlockAttr(raw) => CleanBlock(raw)
  }

  /** The attribute its printed form denotes: boolean attributes lose a value that says nothing. */
  function CanonAttr(a: Attr): Attr {
    match a
    case Plain(name, value) => if RenderPlain(name, value) == name then Plain(name, None) else a
    case ExprAttr(raw) => if NormalizeMustache(raw).Ok? then ExprAttr(NormalizeMustache(raw).value) else a
    case BlockAttr(_) => a
  }

  function CanonAttrs(attrs: seq<Attr>): seq<Attr> {
    if attrs == [] then [] else [CanonAttr(attrs[0])] + CanonAttrs(attrs[1..])
  }

  lemma {:induction false} NoMustache(v: string)
    requires Find(v, "{{").None?
    ensures RegionsClose(v)
  {
    if v != [] {
      if |v| >= 2 { NoMustache(v[1..]); } else { assert RegionsClose(v[1..]); }
    }
  }

  predicate IsSimpleNameChar(c: char) { 'a' <= c <= 'z' || IsDigit(c) || c == '-' || c == '_' || c == ':' }

  lemma {:induction false} SimpleLower(name: string)
    requires forall c <- name :: IsSimpleNameChar(c)
    ensures Lower(name) == name
  {
    if name != [] {
      assert name[0] in name;
      forall c | c in name[1..] ensures c in name {}
      SimpleLower(name[1..]);
    }
  }

  /** Attributes with lower-case names, and values without mustaches and with at most one kind of quote, are clean. */
  lemma {:induction false} SimpleIsClean(name: string, value: Option<string>)
    requires name != [] && forall c <- name :: IsSimpleNameChar(c)
    requires value.Some? ==> Find(value.value, "{{").None? && !('"' in value.value && '\'' in value.value)
    ensures CleanAttr(Plain(name, value))
  {
    SimpleLower(name);
    if value.Some? { NoMustache(value.value); }
    hide RegionsClose, Find, Lower;
  }

  // ----- reading values -----

  lemma {:induction false} RegionLocal(s: string, depth: int, rest: string)
    requires RegionCloses(s, depth)
    ensures RegionLen(s + rest, depth) == RegionLen(s, depth)
    decreases |s|
  {
    var t := s + rest;
    assert t[1..] == s[1..] + rest;
    if |s| >= 2 { assert t[2..] == s[2..] + rest; assert t[..2] == s[..2]; }
    if "{{" <= s {
      RegionLocal(s[2..], depth + 1, rest);
    } else if "}}" <= s {
      if depth != 1 { RegionLocal(s[2..], depth - 1, rest); }
    } else {
      RegionLocal(s[1..], depth, rest);
    }
  }

  lemma {:induction false} QuoteTurn(t: string, q: char)
    requires t != []
    ensures "{{" <= t ==> FindValueQuote(t, q) == Shift(FindValueQuote(t[RegionLen(t, 0)..], q), RegionLen(t, 0))
    ensures !("{{" <= t) && t[0] == q ==> FindValueQuote(t, q) == Some(0)
    ensures !("{{" <= t) && t[0] != q ==> FindValueQuote(t, q) == Shift(FindValueQuote(t[1..], q), 1)
  {
    hide RegionLen;
  }

  lemma {:induction false} CloseTurn(v: string)
    requires v != [] && RegionsClose(v)
    ensures if "{{" <= v then RegionCloses(v, 0) && RegionsClose(v[RegionLen(v, 0)..]) else RegionsClose(v[1..])
  {
    hide RegionLen, RegionCloses;
  }

  lemma {:induction false} StillApart(v: string, q: char, rest: string)
    requires v != [] && IsQuote(q)
    ensures var t := v + ([q] + rest); t[0] == v[0] && ("{{" <= t <==> "{{" <= v) && t[1..] == v[1..] + ([q] + rest)
  {
    var t := v + ([q] + rest);
    if |v| >= 2 { assert t[..2] == v[..2]; } else { assert t[1] == q; }
  }

  lemma {:induction false} QuoteHere(q: char, rest: string)
    requires IsQuote(q)
    ensures FindValueQuote([q] + rest, q) == Some(0)
  {
    QuoteTurn([q] + rest, q);
  }

  lemma {:induction false} ApartFrom(v: string, q: char, n: nat)
    requires q !in v && n <= |v|
    ensures q !in v[n..] && (v != [] ==> v[0] != q)
  {}

  lemma {:induction false} ValueEnds(v: string, q: char, rest: string)
    requires RegionsClose(v) && q !in v && IsQuote(q)
    ensures FindValueQuote(v + ([q] + rest), q) == Some(|v|)
    decreases |v|
  {
    hide *;
    var t := v + ([q] + rest);
    if v == [] {
      QuoteHere(q, rest);
      assert t == [q] + rest;
    } else {
      QuoteTurn(t, q);
      CloseTurn(v);
      StillApart(v, q, rest);
      var n := if "{{" <= v then RegionLen(v, 0) else 1;
      ApartFrom(v, q, n);
      ValueEnds(v[n..], q, rest);
      if "{{" <= v {
        RegionLocal(v, 0, [q] + rest);
        assert t[n..] == v[n..] + ([q] + rest);
      }
      ShiftIs(Some(|v| - n), n);
    }
  }

  lemma {:induction false} NameEnds(name: string, rest: string)
    requires forall c <- name :: IsAttrNameChar(c)
    requires rest != [] ==> !IsAttrNameChar(rest[0])
    ensures AttrNameLen(name + rest) == |name|
  {
    if name != [] {
      assert (name + rest)[1..] == name[1..] + rest;
      NameEnds(name[1..], rest);
    } else {
      assert name + rest == rest;
    }
  }

  /** What may follow an attribute: nothing, or whitespace. */
  predicate Delimited(rest: string) { rest != [] ==> IsAsciiSpace(rest[0]) }

  lemma ReadsBackBare(name: string, rest: string)
    requires CleanName(name) && Delimited(rest)
    ensures ParseOne(name + rest) == Ok(ReadAttr(Plain(name, None), |name|))
  {
    hide IsAsciiSpace, Lower;
    var s := name + rest;
    NotMustache(name, rest);
    NameEnds(name, rest);
    assert s[..|name|] == name;
    if rest != [] { assert s[|name|] == rest[0]; SpaceIsNotEquals(rest[0]); }
  }

  lemma SpaceIsNotEquals(c: char)
    requires IsAsciiSpace(c)
    ensures c != '=' && !IsAttrNameChar(c) && !IsQuote(c) && IsSpace(c)
  {}

  lemma NotMustache(name: string, rest: string)
    requires CleanName(name)
    ensures !("{{" <= name + rest) && !("{{#" <= name + rest) && !("{{^" <= name + rest)
  {
    assert (name + rest)[0] == name[0] && name[0] in name;
  }

  lemma {:induction false} ParseQuoted(s: string, n: nat, c: nat)
    requires AttrNameLen(s) == n > 0 && n + 2 + c < |s| && !("{{" <= s)
    requires s[n] == '=' && IsQuote(s[n + 1]) && FindValueQuote(s[n + 2..], s[n + 1]) == Some(c)
    ensures ParseOne(s) == Ok(ReadAttr(Plain(Lower(s[..n]), Some(s[n + 2..n + 2 + c])), n + 3 + c))
  {
    NoBlock(s);
    hide Lower, FindValueQuote, AttrNameLen, IsQuote, BlockEnd, FindClose, WordLen, Trim;
  }

  lemma {:induction false} QuotedSlices(name: string, v: string, q: char, rest: string)
    ensures var s := name + "=" + [q] + v + [q] + rest;
            var n := |name|;
            && s == name + ("=" + [q] + v + [q] + rest)
            && n + 2 + |v| < |s| && s[..n] == name && s[n] == '=' && s[n + 1] == q
            && s[n + 2..] == v + ([q] + rest) && s[n + 2..n + 2 + |v|] == v
  {}

  lemma {:induction false} CleanNameIs(name: string)
    requires CleanName(name)
    ensures name != [] && Lower(name) == name && forall c <- name :: IsAttrNameChar(c)
    ensures !IsAttrNameChar('=')
  {
    hide Lower;
  }

  lemma {:induction false} ReadsBackValue(name: string, v: string, q: char, rest: string)
    requires CleanName(name) && RegionsClose(v) && IsQuote(q) && q !in v
    ensures var r := name + "=" + [q] + v + [q];
            ParseOne(r + rest) == Ok(ReadAttr(Plain(name, Some(v)), |r|))
  {
    hide *;
    var tail := "=" + [q] + v + [q] + rest;
    var s := name + "=" + [q] + v + [q] + rest;
    QuotedSlices(name, v, q, rest);
    CleanNameIs(name);
    NotMustache(name, tail);
    NameEnds(name, tail);
    ValueEnds(v, q, rest);
    ParseQuoted(s, |name|, |v|);
  }

  lemma ReadsBackPlain(name: string, value: Option<string>, rest: string)
    requires CleanAttr(Plain(name, value)) && Delimited(rest)
    ensures var r := RenderPlain(name, value);
            ParseOne(r + rest) == Ok(ReadAttr(CanonAttr(Plain(name, value)), |r|))
  {
    hide CleanName, RegionsClose, ParseOne;
    var r := RenderPlain(name, value);
    if r == name {
      ReadsBackBare(name, rest);
    } else {
      var v := value.value;
      if '"' in v && '\'' !in v {
        assert r == name + "=" + ['\''] + v + ['\''];
        ReadsBackValue(name, v, '\'', rest);
      } else {
        assert r == name + "=" + ['"'] + v + ['"'];
        ReadsBackValue(name, v, '"', rest);
      }
    }
  }

  /** A closer is found at the same place whatever follows it. */
  lemma {:induction false} FindCloseExtends(s: string, q: Option<char>, needle: string, rest: string)
    requires needle != [] && FindClose(s, q, needle).Some?
    ensures FindClose(s + rest, q, needle) == FindClose(s, q, needle)
    decreases |s|
  {
    var t := s + rest;
    assert t[1..] == s[1..] + rest && t[0] == s[0];
    assert t[..|needle|] == s[..|needle|];
    if q.Some? {
      FindCloseExtends(s[1..], if s[0] == q.value then None else q, needle, rest);
    } else if IsQuote(s[0]) {
      FindCloseExtends(s[1..], Some(s[0]), needle, rest);
    } else if !(needle <= s) {
      FindCloseExtends(s[1..], None, needle, rest);
    }
  }

  lemma {:induction false} BlockEndTurn(s: string, depth: int)
    requires s != []
    ensures "{{" <= s ==>
              match FindClose(s[2..], None, "}}")
              case None => BlockEnd(s, depth).None?
              case Some(k) =>
                k + 4 <= |s| && BlockEnd(s, depth)
                == if depth == 1 && BlockDelta(s) == -1 then Some(k + 4)
                   else Shift(BlockEnd(s[k + 4..], depth + BlockDelta(s)), k + 4)
    ensures !("{{" <= s) ==> BlockEnd(s, depth) == Shift(BlockEnd(s[1..], depth), 1)
  {
    hide FindClose, BlockDelta;
  }

  lemma {:induction false} BlockEndSome(s: string, depth: int)
    requires BlockEnd(s, depth).Some?
    ensures s != [] && ("{{" <= s ==> FindClose(s[2..], None, "}}").Some?)
  {
    hide FindClose, BlockDelta;
  }

  lemma {:induction false} SameHead(s: string, rest: string)
    requires s != []
    ensures var t := s + rest; t[0] == s[0] && t[1..] == s[1..] + rest
    ensures "{{" <= s ==> (s + rest)[2..] == s[2..] + rest
    ensures "{{" <= s ==> |s| >= 3 ==> BlockDelta(s + rest) == BlockDelta(s)
    ensures |s| >= 2 ==> ("{{" <= s + rest <==> "{{" <= s)
  {
    var t := s + rest;
    if |s| >= 2 { assert t[..2] == s[..2]; }
    if |s| >= 3 { assert t[..3] == s[..3]; }
  }

  lemma {:induction false} BlockEndLocal(s: string, depth: int, rest: string)
    requires BlockEnd(s, depth).Some?
    ensures BlockEnd(s + rest, depth) == BlockEnd(s, depth)
    decreases |s|
  {
    hide *;
    var t := s + rest;
    BlockEndSome(s, depth);
    BlockEndTurn(s, depth);
    BlockEndTurn(t, depth);
    SameHead(s, rest);
    if "{{" <= s {
      var k := FindClose(s[2..], None, "}}").value;
      FindCloseExtends(s[2..], None, "}}", rest);
      assert t[k + 4..] == s[k + 4..] + rest;
      if !(depth == 1 && BlockDelta(s) == -1) {
        ShiftIs(BlockEnd(s[k + 4..], depth + BlockDelta(s)), k + 4);
        BlockEndLocal(s[k + 4..], depth + BlockDelta(s), rest);
      }
    } else {
      ShiftIs(BlockEnd(s[1..], depth), 1);
      BlockEndSize(s[1..], depth);
      BlockEndLocal(s[1..], depth, rest);
    }
  }

  // ----- where an embedded block ends -----

  /** A mustache of an attribute list: the offset past it, and what it does to the number of open blocks. */
  datatype Mark = Mark(end: nat, delta: int)

  function Moved(ms: seq<Mark>, n: nat): (r: seq<Mark>)
    ensures |r| == |ms|
  {
    if ms == [] then [] else [Mark(ms[0].end + n, ms[0].delta)] + Moved(ms[1..], n)
  }

  /** The mustaches one after the other, up to one that is not closed. */
  function Marks(s: string): seq<Mark>
    decreases |s|
  {
    if s == [] then []
    else if "{{" <= s then
      match FindClose(s[2..], None, "}}")
      case None => []
      case Some(k) => [Mark(k + 4, BlockDelta(s))] + Moved(Marks(s[k + 4..]), k + 4)
    else Moved(Marks(s[1..]), 1)
  }

  function Sum(ms: seq<Mark>): int { if ms == [] then 0 else ms[0].delta + Sum(ms[1..]) }

  /** The mark closes the last of the open blocks. */
  predicate Balances(ms: seq<Mark>, depth: int, i: nat)
    requires i < |ms|
  {
    ms[i].delta == -1 && depth + Sum(ms[..i]) == 1
  }

  predicate NoneBalances(ms: seq<Mark>, depth: int, n: nat)
    requires n <= |ms|
  {
    forall i :: 0 <= i < n ==> !Balances(ms, depth, i)
  }

  lemma {:induction false} MovedAt(ms: seq<Mark>, n: nat, i: nat)
    requires i < |ms|
    ensures Moved(ms, n)[i] == Mark(ms[i].end + n, ms[i].delta) && Sum(Moved(ms, n)[..i]) == Sum(ms[..i])
  {
    if i > 0 {
      MovedAt(ms[1..], n, i - 1);
      assert Moved(ms, n)[..i][1..] == Moved(ms[1..], n)[..i - 1];
      assert ms[..i][1..] == ms[1..][..i - 1];
    }
  }

  lemma {:induction false} MovedBalances(ms: seq<Mark>, n: nat, depth: int, i: nat)
    requires i < |ms|
    ensures Balances(Moved(ms, n), depth, i) == Balances(ms, depth, i)
  {
    MovedAt(ms, n, i);
  }

  lemma {:induction false} MovedNone(ms: seq<Mark>, n: nat, depth: int, k: nat)
    requires k <= |ms| && NoneBalances(ms, depth, k)
    ensures NoneBalances(Moved(ms, n), depth, k)
  {
    hide Balances;
    forall i | 0 <= i < k ensures !Balances(Moved(ms, n), depth, i) { MovedBalances(ms, n, depth, i); }
  }

  lemma {:induction false} HeadBalances(m: Mark, ms: seq<Mark>, depth: int, i: nat)
    requires i <= |ms|
    ensures Balances([m] + ms, depth, i) == if i == 0 then m.delta == -1 && depth == 1 else Balances(ms, depth + m.delta, i - 1)
  {
    var all := [m] + ms;
    if i > 0 { assert all[..i][1..] == ms[..i - 1]; } else { assert all[..0] == []; }
  }

  lemma {:induction false} HeadNone(m: Mark, ms: seq<Mark>, depth: int, k: nat)
    requires k <= |ms| && NoneBalances(ms, depth + m.delta, k) && !(m.delta == -1 && depth == 1)
    ensures NoneBalances([m] + ms, depth, k + 1)
  {
    hide Balances;
    forall i | 0 <= i < k + 1 ensures !Balances([m] + ms, depth, i) { HeadBalances(m, ms, depth, i); }
  }

  lemma {:induction false} NoMarks(depth: int)
    ensures BlockEnd([], depth).None? && Marks([]) == [] && NoneBalances([], depth, 0)
  {}

  lemma {:induction false} MarksTurn(s: string)
    requires s != []
    ensures "{{" <= s && FindClose(s[2..], None, "}}").None? ==> Marks(s) == []
    ensures "{{" <= s && FindClose(s[2..], None, "}}").Some? ==>
              var k := FindClose(s[2..], None, "}}").value;
              k + 4 <= |s| && Marks(s) == [Mark(k + 4, BlockDelta(s))] + Moved(Marks(s[k + 4..]), k + 4)
    ensures !("{{" <= s) ==> Marks(s) == Moved(Marks(s[1..]), 1)
  {
    hide FindClose, BlockDelta;
  }

  /** The block found ends at mark `i`, the first one at which opens and closes balance; none is
      found only when there is no such mark. */
  predicate EndsBalanced(s: string, depth: int, i: nat) {
    match BlockEnd(s, depth)
    case None => NoneBalances(Marks(s), depth, |Marks(s)|)
    case Some(e) =>
      i < |Marks(s)| && Balances(Marks(s), depth, i) && NoneBalances(Marks(s), depth, i) && e == Marks(s)[i].end
  }

  lemma {:induction false} EndsNowhere(s: string, depth: int)
    requires s != [] && "{{" <= s && FindClose(s[2..], None, "}}").None?
    ensures EndsBalanced(s, depth, 0)
  {
    BlockEndTurn(s, depth);
    MarksTurn(s);
    hide FindClose, BlockEnd, Marks, Balances;
  }

  lemma {:induction false} EndsHere(s: string, depth: int)
    requires s != [] && "{{" <= s && FindClose(s[2..], None, "}}").Some? && depth == 1 && BlockDelta(s) == -1
    ensures EndsBalanced(s, depth, 0)
  {
    BlockEndTurn(s, depth);
    MarksTurn(s);
    hide FindClose, BlockEnd, Marks, Balances, BlockDelta;
    var k := FindClose(s[2..], None, "}}").value;
    HeadBalances(Mark(k + 4, BlockDelta(s)), Moved(Marks(s[k + 4..]), k + 4), depth, 0);
  }

  lemma {:induction false} EndsPast(s: string, depth: int, k: nat)
    requires s != [] && !("{{" <= s) && EndsBalanced(s[1..], depth, k)
    ensures EndsBalanced(s, depth, k)
  {
    BlockEndTurn(s, depth);
    MarksTurn(s);
    hide FindClose, BlockEnd, Marks, Balances, NoneBalances;
    var ms := Marks(s[1..]);
    if BlockEnd(s[1..], depth).None? {
      MovedNone(ms, 1, depth, |ms|);
    } else {
      MovedNone(ms, 1, depth, k);
      MovedBalances(ms, 1, depth, k);
      MovedAt(ms, 1, k);
    }
  }

  lemma {:induction false} EndsAt(s: string, depth: int, i: nat)
    ensures BlockEnd(s, depth).None? ==> (EndsBalanced(s, depth, i) <==> NoneBalances(Marks(s), depth, |Marks(s)|))
    ensures BlockEnd(s, depth).Some? ==>
              (EndsBalanced(s, depth, i) <==>
                 && i < |Marks(s)| && Balances(Marks(s), depth, i) && NoneBalances(Marks(s), depth, i)
                 && BlockEnd(s, depth).value == Marks(s)[i].end)
  {
    hide BlockEnd, Marks, Balances, NoneBalances;
  }

  /** The marks behind the one at the head. */
  lemma {:induction false} MarksBehind(m: Mark, ms: seq<Mark>, n: nat, depth: int, k: nat)
    requires !(m.delta == -1 && depth == 1)
    ensures NoneBalances(ms, depth + m.delta, |ms|) ==> NoneBalances([m] + Moved(ms, n), depth, |ms| + 1)
    ensures k < |ms| && Balances(ms, depth + m.delta, k) && NoneBalances(ms, depth + m.delta, k) ==>
              var all := [m] + Moved(ms, n);
              Balances(all, depth, k + 1) && NoneBalances(all, depth, k + 1) && all[k + 1].end == ms[k].end + n
  {
    hide Balances, NoneBalances, Moved;
    var d := depth + m.delta;
    if NoneBalances(ms, d, |ms|) {
      MovedNone(ms, n, d, |ms|);
      HeadNone(m, Moved(ms, n), depth, |ms|);
    }
    if k < |ms| && Balances(ms, d, k) && NoneBalances(ms, d, k) {
      MovedNone(ms, n, d, k);
      MovedBalances(ms, n, d, k);
      MovedAt(ms, n, k);
      HeadNone(m, Moved(ms, n), depth, k);
      HeadBalances(m, Moved(ms, n), depth, k + 1);
    }
  }

  lemma {:induction false} EndsBehind(s: string, depth: int, c: nat, k: nat)
    requires s != [] && "{{" <= s && FindClose(s[2..], None, "}}") == Some(c) && c + 4 <= |s|
    requires !(depth == 1 && BlockDelta(s) == -1) && EndsBalanced(s[c + 4..], depth + BlockDelta(s), k)
    ensures EndsBalanced(s, depth, k + 1)
  {
    hide *;
    BlockEndTurn(s, depth);
    MarksTurn(s);
    var d := depth + BlockDelta(s);
    EndsAt(s[c + 4..], d, k);
    EndsAt(s, depth, k + 1);
    MarksBehind(Mark(c + 4, BlockDelta(s)), Marks(s[c + 4..]), c + 4, depth, k);
    var rest := BlockEnd(s[c + 4..], d);
    if rest.None? { ShiftIs(None, c + 4); } else { ShiftIs(Some(rest.value), c + 4); }
  }

  lemma {:induction false} CloseFits(s: string)
    requires "{{" <= s && FindClose(s[2..], None, "}}").Some?
    ensures FindClose(s[2..], None, "}}").value + 4 <= |s|
  {}

  /** `consume_hbs_block_attr` ends just past the first closing mustache at which opens and closes
      balance, `depth` blocks being open at the start, and fails only when there is none. */
  lemma {:induction false} BlockEndsBalanced(s: string, depth: int) returns (i: nat)
    ensures EndsBalanced(s, depth, i)
    decreases |s|
  {
    hide *;
    i := 0;
    if s == [] {
      EndsEmpty(depth);
    } else if !("{{" <= s) {
      i := BlockEndsBalanced(s[1..], depth);
      EndsPast(s, depth, i);
    } else {
      var c := FindClose(s[2..], None, "}}");
      if c.None? {
        EndsNowhere(s, depth);
      } else if depth == 1 && BlockDelta(s) == -1 {
        EndsHere(s, depth);
      } else {
        CloseFits(s);
        var k := BlockEndsBalanced(s[c.value + 4..], depth + BlockDelta(s));
        EndsBehind(s, depth, c.value, k);
        i := k + 1;
      }
    }
  }

  lemma {:induction false} EndsEmpty(depth: int)
    ensures EndsBalanced([], depth, 0)
  {
    NoMarks(depth);
  }

  lemma {:induction false} BlockEndSize(s: string, depth: int)
    requires BlockEnd(s, depth).Some?
    ensures |s| >= 4
  {
    hide FindClose, BlockDelta;
  }

  lemma ReadsBackBlock(raw: string, rest: string)
    requires CleanBlock(raw)
    ensures ParseOne(raw + rest) == Ok(ReadAttr(BlockAttr(raw), |raw|))
  {
    hide BlockEnd, TagPass, Trim;
    BlockEndLocal(raw, 0, rest);
    assert (raw + rest)[..3] == raw[..3];
    assert (raw + rest)[..|raw|] == raw;
    assert raw == [] + raw + [];
    TrimOf([], raw, []);
  }

  lemma NormalizedExpr(raw: string) returns (b: string)
    requires CleanExpr(raw)
    ensures b == Trim(raw[2..|raw| - 2]) && Trimmed(b)
    ensures NormalizeMustache(raw) == Ok("{{" + b + "}}")
  {
    b := Trim(raw[2..|raw| - 2]);
    var x, y := TrimSplit(raw[2..|raw| - 2]);
    assert raw[..2] == "{{";
  }

  lemma ReadsBackExpr(raw: string, rest: string)
    requires CleanExpr(raw)
    ensures var r := NormalizeMustache(raw).value;
            && NormalizeMustache(raw).Ok?
            && ParseOne(r + rest) == Ok(ReadAttr(ExprAttr(r), |r|))
            && NormalizeMustache(r) == Ok(r)
  {
    hide FindClose, Find, Trim;
    var b := NormalizedExpr(raw);
    var r := "{{" + b + "}}";
    FindCloseExtends(b + "}}", None, "}}", rest);
    var s := r + rest;
    assert s[2..] == b + "}}" + rest;
    assert s[2] == if b == [] then '}' else b[0];
    assert s[..|r|] == r;
    assert r[2..|r| - 2] == b && b == [] + b + [];
    assert r[2] == s[2];
    TrimOf([], b, []);
  }

  lemma ReadsBack(a: Attr, rest: string)
    requires CleanAttr(a) && Delimited(rest)
    ensures RenderAttr(a).Ok?
    ensures ParseOne(RenderAttr(a).value + rest) == Ok(ReadAttr(CanonAttr(a), |RenderAttr(a).value|))
    ensures RenderAttr(CanonAttr(a)) == RenderAttr(a)
    ensures a.BlockAttr? <==> CanonAttr(a).BlockAttr?
  {
    hide CleanName, CleanValue, CleanExpr, CleanBlock, ParseOne, NormalizeMustache;
    match a
    case Plain(name, value) => ReadsBackPlain(name, value, rest);
    case ExprAttr(raw) => ReadsBackExpr(raw, rest);
    case BlockAttr(raw) => ReadsBackBlock(raw, rest); BlockIsCompact(raw);
  }

  lemma BlockIsCompact(raw: string)
    requires CleanBlock(raw)
    ensures NormalizeMustache(raw) == Ok(raw)
  {}

  // ----- reading a laid-out list -----

  /** The renderings, each after its own whitespace. */
  function Laid(seps: seq<string>, rs: seq<string>): string
    requires |seps| == |rs|
  {
    if rs == [] then [] else seps[0] + rs[0] + Laid(seps[1..], rs[1..])
  }

  predicate Separators(seps: seq<string>) {
    forall w <- seps :: w != [] && forall c <- w :: IsAsciiSpace(c)
  }

  lemma {:induction false} CountsSpace(w: string, s: string)
    requires forall c <- w :: IsAsciiSpace(c)
    ensures SpaceLen(w + s) == |w| + SpaceLen(s)
  {
    if w == [] {
      assert w + s == s;
    } else {
      assert w[0] in w;
      assert (w + s)[1..] == w[1..] + s;
      CountsSpace(w[1..], s);
    }
  }

  lemma {:induction false} ParseSame(a: string, b: string)
    requires a[SpaceLen(a)..] == b[SpaceLen(b)..]
    ensures ParseAttributes(a) == ParseAttributes(b)
  {
    hide SpaceLen, ParseOne;
  }

  lemma {:induction false} SkipsSpace(w: string, s: string)
    requires AllAsciiSpace(w)
    ensures ParseAttributes(w + s) == ParseAttributes(s)
  {
    CountsSpace(w, s);
    hide *;
    assert (w + s)[|w| + SpaceLen(s)..] == s[SpaceLen(s)..];
    ParseSame(w + s, s);
  }

  /** What the attribute scan passes over as a whole: from open quote `q` and `h` open mustaches it meets no
      tag end outside them, and comes out with everything closed. */
  predicate TagPass(s: string, q: Option<char>, h: nat)
    decreases |s|
  {
    if s == [] then q.None? && h == 0
    else if q.Some? then TagPass(s[1..], if s[0] == q.value then None else q, h)
    else if h > 0 then if "}}" <= s then TagPass(s[2..], q, h - 1) else TagPass(s[1..], q, h)
    else if IsQuote(s[0]) then TagPass(s[1..], Some(s[0]), h)
    else if "{{" <= s then TagPass(s[2..], q, h + 1)
    else !("/>" <= s) && s[0] != '>' && TagPass(s[1..], q, h)
  }

  /** A rendering that starts and ends in something that cannot run into its surroundings. */
  predicate SolidRendering(r: string) {
    && r != [] && !IsSpace(r[0]) && !IsSpace(r[|r| - 1])
    && r[|r| - 1] != '{' && r[|r| - 1] != '/'
    && TagPass(r, None, 0)
  }

  lemma {:induction false} PlainIsSolid(name: string, value: Option<string>)
    requires CleanAttr(Plain(name, value))
    ensures SolidRendering(RenderPlain(name, value))
  {
    PlainPasses(name, value);
    assert name[0] in name && name[|name| - 1] in name;
    hide TagPass, RegionsClose, Lower;
  }

  lemma {:induction false} ExprIsSolid(raw: string)
    requires CleanExpr(raw)
    ensures NormalizeMustache(raw).Ok? && SolidRendering(NormalizeMustache(raw).value)
  {
    hide FindClose, Find, TagPass, Trim;
    var b := NormalizedExpr(raw);
    ExprPasses(b);
  }

  lemma {:induction false} BlockIsSolid(raw: string)
    requires CleanBlock(raw)
    ensures NormalizeMustache(raw) == Ok(raw) && SolidRendering(raw)
  {
    hide TagPass, Trim, BlockEnd, NormalizeMustache;
    assert raw[|raw| - 1] == raw[|raw| - 2..][1];
  }

  lemma {:induction false} RenderedIsSolid(a: Attr)
    requires CleanAttr(a)
    ensures RenderAttr(a).Ok?
    ensures var r := RenderAttr(a).value; r != [] && !IsSpace(r[0]) && !IsSpace(r[|r| - 1])
    ensures var r := RenderAttr(a).value; r[|r| - 1] != '{' && r[|r| - 1] != '/'
    ensures var r := RenderAttr(a).value; TagPass(r, None, 0)
  {
    hide TagPass, CleanExpr, CleanBlock, NormalizeMustache, CleanName, CleanValue;
    match a
    case Plain(name, value) => PlainIsSolid(name, value);
    case ExprAttr(raw) => ExprIsSolid(raw);
    case BlockAttr(raw) => BlockIsSolid(raw);
  }

  lemma {:induction false} NamePasses(name: string, rest: string, q: Option<char>)
    requires forall c <- name :: IsAttrNameChar(c) && c != '{'
    ensures TagPass(name + rest, None, 0) == TagPass(rest, None, 0)
  {
    if name == [] {
      assert name + rest == rest;
    } else {
      assert name[0] in name;
      assert (name + rest)[1..] == name[1..] + rest;
      NamePasses(name[1..], rest, q);
    }
  }

  lemma {:induction false} QuotedPasses(v: string, q: char, rest: string)
    requires q !in v
    ensures TagPass(v + [q] + rest, Some(q), 0) == TagPass(rest, None, 0)
  {
    var t := v + [q] + rest;
    if v == [] {
      assert t[1..] == rest;
    } else {
      assert v[0] in v;
      assert t[1..] == v[1..] + [q] + rest;
      QuotedPasses(v[1..], q, rest);
    }
  }

  lemma ValuePasses(name: string, v: string, q: char)
    requires CleanName(name) && IsQuote(q) && q !in v
    ensures TagPass(name + "=" + [q] + v + [q], None, 0)
  {
    var tail := "=" + [q] + v + [q];
    assert name + "=" + [q] + v + [q] == name + tail;
    NamePasses(name, tail, None);
    assert tail[1..] == [q] + v + [q];
    assert tail[1..][1..] == v + [q] + [];
    QuotedPasses(v, q, []);
  }

  lemma BareNamePasses(name: string)
    requires CleanName(name)
    ensures TagPass(name, None, 0)
  {
    NamePasses(name, [], None);
    assert name + [] == name;
  }

  lemma PlainPasses(name: string, value: Option<string>)
    requires CleanAttr(Plain(name, value))
    ensures TagPass(RenderPlain(name, value), None, 0)
  {
    hide TagPass, CleanName, RegionsClose, Lower;
    var r := RenderPlain(name, value);
    if r == name {
      BareNamePasses(name);
    } else {
      var v := value.value;
      if '"' in v && '\'' !in v {
        assert r == name + "=" + ['\''] + v + ['\''];
        ValuePasses(name, v, '\'');
      } else {
        assert r == name + "=" + ['"'] + v + ['"'];
        ValuePasses(name, v, '"');
      }
    }
  }

  lemma {:induction false} MustachePasses(b: string)
    requires Find(b, "}}").None? && (b != [] ==> b[|b| - 1] != '}')
    ensures TagPass(b + "}}", None, 1)
  {
    var t := b + "}}";
    if b == [] {
      assert t == "}}" && t[2..] == [];
    } else {
      assert t[1..] == b[1..] + "}}";
      if |b| >= 2 { assert t[..2] == b[..2]; }
      MustachePasses(b[1..]);
    }
  }

  lemma {:induction false} OpensMustache(t: string)
    requires "{{" <= t
    ensures TagPass(t, None, 0) == TagPass(t[2..], None, 1)
  {
    assert t[0] == '{';
  }

  lemma {:induction false} ExprPasses(b: string)
    requires Find(b, "}}").None? && (b != [] ==> b[|b| - 1] != '}')
    ensures TagPass("{{" + b + "}}", None, 0)
  {
    hide *;
    MustachePasses(b);
    var t := "{{" + b + "}}";
    assert t[2..] == b + "}}" && t[..2] == "{{";
    OpensMustache(t);
  }

  predicate CleanAttrs(attrs: seq<Attr>) { forall a <- attrs :: CleanAttr(a) }

  lemma {:induction false} CleanAttrsHead(attrs: seq<Attr>)
    requires CleanAttrs(attrs) && attrs != []
    ensures CleanAttr(attrs[0]) && CleanAttrs(attrs[1..])
  {
    hide CleanAttr;
    forall b | b in attrs[1..] ensures b in attrs {}
  }

  predicate AllAsciiSpace(w: string) { forall c <- w :: IsAsciiSpace(c) }

  lemma {:induction false} SeparatorHead(seps: seq<string>)
    requires Separators(seps) && seps != []
    ensures AllAsciiSpace(seps[0]) && Separators(seps[1..])
  {
    hide IsAsciiSpace;
    assert seps[0] in seps;
    forall w | w in seps[1..] ensures w in seps {}
  }

  lemma {:induction false} RenderedHead(attrs: seq<Attr>)
    requires attrs != [] && RenderAttr(attrs[0]).Ok? && RenderAttrs(attrs[1..]).Ok?
    ensures RenderAttrs(attrs) == Ok([RenderAttr(attrs[0]).value] + RenderAttrs(attrs[1..]).value)
  {
    hide RenderAttr;
  }

  lemma {:induction false} CanonHead(attrs: seq<Attr>)
    requires attrs != []
    ensures CanonAttrs(attrs) == [CanonAttr(attrs[0])] + CanonAttrs(attrs[1..])
  {
    hide CanonAttr;
  }

  lemma {:induction false} LaidHead(seps: seq<string>, r: string, rs: seq<string>, trail: string)
    requires |seps| == 1 + |rs|
    ensures Laid(seps, [r] + rs) + trail == seps[0] + (r + (Laid(seps[1..], rs) + trail))
  {
    assert ([r] + rs)[1..] == rs;
  }

  lemma {:induction false} ParseNothing(trail: string)
    requires AllAsciiSpace(trail)
    ensures ParseAttributes([] + trail) == Ok([])
  {
    SkipsSpace(trail, []);
    assert [] + trail == trail + [];
  }

  lemma {:induction false} NothingToRender(seps: seq<string>)
    requires seps == []
    ensures RenderAttrs([]) == Ok([]) && CanonAttrs([]) == [] && Laid(seps, []) == []
  {}

  /** Reading the printed attributes, under any whitespace layout, gives back the canonical list. */
  lemma {:induction false} ParseUndoesPrint(attrs: seq<Attr>, seps: seq<string>, trail: string)
    requires |seps| == |attrs| && Separators(seps)
    requires CleanAttrs(attrs) && AllAsciiSpace(trail)
    ensures RenderAttrs(attrs).Ok?
    ensures ParseAttributes(Laid(seps, RenderAttrs(attrs).value) + trail) == Ok(CanonAttrs(attrs))
    ensures RenderAttrs(CanonAttrs(attrs)) == RenderAttrs(attrs)
    ensures OneLine(CanonAttrs(attrs)) == OneLine(attrs) && |CanonAttrs(attrs)| == |attrs|
    decreases |attrs|
  {
    hide *;
    if attrs == [] {
      ParseNothing(trail);
      NothingToRender(seps);
    } else {
      CleanAttrsHead(attrs);
      SeparatorHead(seps);
      ParseUndoesPrint(attrs[1..], seps[1..], trail);
      ReadsBack(attrs[0], []) by { NothingDelimited(); }
      RenderedHead(attrs);
      CanonHead(attrs);
      RenderedHead(CanonAttrs(attrs)) by { assert CanonAttrs(attrs)[1..] == CanonAttrs(attrs[1..]); }
      var r, rs := RenderAttr(attrs[0]).value, RenderAttrs(attrs[1..]).value;
      var rest := Laid(seps[1..], rs) + trail;
      LaidStarts(seps[1..], rs, trail);
      ReadsBack(attrs[0], rest);
      RenderedIsSolid(attrs[0]);
      LaidHead(seps, r, rs, trail);
      SkipsSpace(seps[0], r + rest);
      ParseHead(attrs[0], r, rest);
      OneLineHead(CanonAttrs(attrs), attrs);
      assert CanonAttrs(attrs)[1..] == CanonAttrs(attrs[1..]);
    }
  }

  lemma {:induction false} NothingDelimited()
    ensures Delimited([])
  {}

  lemma LaidStarts(seps: seq<string>, rs: seq<string>, trail: string)
    requires |seps| == |rs| && Separators(seps) && AllAsciiSpace(trail)
    ensures Delimited(Laid(seps, rs) + trail)
  {
    hide IsAsciiSpace;
    var rest := Laid(seps, rs) + trail;
    if rs != [] {
      assert seps[0] in seps;
      assert rest[0] == seps[0][0] && seps[0][0] in seps[0];
    } else if trail != [] {
      assert rest[0] == trail[0] && trail[0] in trail;
    }
  }

  lemma OneLineHead(cs: seq<Attr>, attrs: seq<Attr>)
    requires |cs| == |attrs| > 0 && (cs[0].BlockAttr? <==> attrs[0].BlockAttr?)
    ensures OneLine(cs) == OneLine(attrs)
  {
    if |attrs| == 1 { assert cs == [cs[0]] && attrs == [attrs[0]]; }
  }

  lemma ParseHead(a: Attr, r: string, rest: string)
    requires r != [] && !IsSpace(r[0])
    requires ParseOne(r + rest) == Ok(ReadAttr(CanonAttr(a), |r|)) && ParseAttributes(rest).Ok?
    ensures ParseAttributes(r + rest) == Ok([CanonAttr(a)] + ParseAttributes(rest).value)
  {
    hide ParseOne, CanonAttr;
    var t := r + rest;
    assert t[0] == r[0];
    assert SpaceLen(t) == 0 && t[0..] == t;
    assert t[|r|..] == rest;
  }
}
