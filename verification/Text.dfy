/** String helpers the formatter takes from Rust's `str`, over ASCII characters. */
module Text {

  datatype Option<+T> = None | Some(value: T)

  /** What a Rust call can do: return, return an error, or panic (here: slice out of range,
      or reach `unreachable!()`). */
  datatype Outcome<+T> = Ok(value: T) | Err(error: string) | Panic {
    predicate IsFailure() { !Ok? }

    function PropagateFailure<U>(): Outcome<U>
      requires IsFailure()
    {
      if Err? then Outcome<U>.Err(error) else Outcome<U>.Panic
    }

    function Extract(): T
      requires Ok?
    {
      value
    }
  }

  /** A scan result moved `n` characters to the right. */
  function Shift(o: Option<nat>, n: nat): Option<nat> {
    match o
    case None => None
    case Some(k) => Some(k + n)
  }

  lemma {:induction false} ShiftIs(o: Option<nat>, n: nat)
    ensures o.Some? ==> Shift(o, n) == Some(o.value + n)
    ensures o.None? ==> Shift(o, n) == None
  {}

  lemma {:induction false} ShiftNone(o: Option<nat>)
    ensures Shift(o, 0) == o
  {}

  lemma {:induction false} ShiftTwice(o: Option<nat>, m: nat, n: nat)
    ensures Shift(Shift(o, m), n) == Shift(o, m + n)
  {}

  // ----- character classes -----

  /** `char::is_whitespace` on ASCII: tab, line feed, vertical tab, form feed, return, space. */
  predicate IsSpace(c: char) { c == ' ' || '\t' <= c <= '\r' }

  /** `u8::is_ascii_whitespace`: the same without the vertical tab. */
  predicate IsAsciiSpace(c: char) { IsSpace(c) && c != '\U{B}' }

  predicate IsAlpha(c: char) { 'a' <= c <= 'z' || 'A' <= c <= 'Z' }

  predicate IsDigit(c: char) { '0' <= c <= '9' }

  predicate IsQuote(c: char) { c == '"' || c == '\'' }

  function LowerChar(c: char): char {
    if 'A' <= c <= 'Z' then c - 'A' + 'a' else c
  }

  /** `to_ascii_lowercase` */
  function Lower(s: string): (r: string)
    ensures |r| == |s|
  {
    if s == [] then [] else [LowerChar(s[0])] + Lower(s[1..])
  }

  /** Capital letters become small ones, everything else stays. */
  lemma {:induction false} LowerAt(s: string, k: nat)
    requires k < |s|
    ensures 'A' <= s[k] <= 'Z' ==> 'a' <= Lower(s)[k] <= 'z' && Lower(s)[k] as int == s[k] as int + 32
    ensures !('A' <= s[k] <= 'Z') ==> Lower(s)[k] == s[k]
  {
    if k > 0 { LowerAt(s[1..], k - 1); }
  }

  lemma {:induction false} LowerTwice(s: string)
    ensures Lower(Lower(s)) == Lower(s)
  {
    if s != [] {
      LowerTwice(s[1..]);
      assert Lower(s)[1..] == Lower(s[1..]);
    }
  }

  // ----- trimming -----

  function TrimStart(s: string): string {
    if s != [] && IsSpace(s[0]) then TrimStart(s[1..]) else s
  }

  function TrimEnd(s: string): string {
    if s != [] && IsSpace(s[|s| - 1]) then TrimEnd(s[..|s| - 1]) else s
  }

  function Trim(s: string): string { TrimEnd(TrimStart(s)) }

  /** Only whitespace. */
  predicate Blank(s: string) { forall i :: 0 <= i < |s| ==> IsSpace(s[i]) }

  /** Neither starts nor ends with whitespace. */
  predicate Trimmed(s: string) { s != [] ==> !IsSpace(s[0]) && !IsSpace(s[|s| - 1]) }

  lemma {:induction false} TrimStartSplit(s: string) returns (a: string)
    ensures s == a + TrimStart(s) && Blank(a)
    ensures TrimStart(s) != [] ==> !IsSpace(TrimStart(s)[0])
  {
    if s != [] && IsSpace(s[0]) {
      var b := TrimStartSplit(s[1..]);
      a := [s[0]] + b;
    } else {
      a := [];
    }
  }

  lemma {:induction false} TrimEndSplit(s: string) returns (b: string)
    ensures s == TrimEnd(s) + b && Blank(b)
    ensures TrimEnd(s) != [] ==> !IsSpace(TrimEnd(s)[|TrimEnd(s)| - 1])
  {
    if s != [] && IsSpace(s[|s| - 1]) {
      var a := TrimEndSplit(s[..|s| - 1]);
      b := a + [s[|s| - 1]];
    } else {
      b := [];
    }
  }

  /** `trim` removes a blank prefix and a blank suffix and leaves nothing more to remove. */
  lemma TrimSplit(s: string) returns (a: string, b: string)
    ensures s == a + Trim(s) + b && Blank(a) && Blank(b) && Trimmed(Trim(s))
  {
    a := TrimStartSplit(s);
    b := TrimEndSplit(TrimStart(s));
    if Trim(s) != [] { assert Trim(s)[0] == TrimStart(s)[0]; }
  }

  lemma {:induction false} TrimStartOf(a: string, t: string)
    requires Blank(a) && (t != [] ==> !IsSpace(t[0]))
    ensures TrimStart(a + t) == t
  {
    if a == [] {
      assert a + t == t;
    } else {
      assert (a + t)[1..] == a[1..] + t;
      TrimStartOf(a[1..], t);
    }
  }

  lemma {:induction false} TrimEndOf(t: string, b: string)
    requires Blank(b) && (t != [] ==> !IsSpace(t[|t| - 1]))
    ensures TrimEnd(t + b) == t
  {
    if b == [] {
      assert t + b == t;
    } else {
      assert (t + b)[..|t + b| - 1] == t + b[..|b| - 1];
      TrimEndOf(t, b[..|b| - 1]);
    }
  }

  /** The converse of TrimSplit: a blank frame around a trimmed core trims to the core. */
  lemma TrimOf(a: string, t: string, b: string)
    requires Blank(a) && Blank(b) && Trimmed(t)
    ensures Trim(a + t + b) == t
  {
    if t == [] {
      TrimStartOf(a + b, []);
      assert a + t + b == a + b + [];
    } else {
      assert a + t + b == a + (t + b);
      TrimStartOf(a, t + b);
      TrimEndOf(t, b);
    }
  }

  lemma BlankTrims(s: string)
    ensures Blank(s) <==> Trim(s) == []
  {
    var a, b := TrimSplit(s);
    if Blank(s) { TrimOf(s, [], []); assert s + [] + [] == s; }
    if Trim(s) == [] { assert s == a + b; }
  }

  lemma {:induction false} NothingTrims()
    ensures Trim([]) == []
  {}

  // ----- searching -----

  /** `str::find`: the offset of the first occurrence. */
  function Find(s: string, needle: string): (r: Option<nat>)
    ensures r.Some? ==> r.value + |needle| <= |s|
  {
    if |s| < |needle| then None
    else if needle <= s then Some(0)
    else if s == [] then None
    else Shift(Find(s[1..], needle), 1)
  }

  lemma {:induction false} FindIsFirst(s: string, needle: string)
    ensures match Find(s, needle)
            case None => forall j :: 0 <= j <= |s| ==> !(needle <= s[j..])
            case Some(k) => needle <= s[k..] && forall j :: 0 <= j < k ==> !(needle <= s[j..])
  {
    if |s| >= |needle| && !(needle <= s) && s != [] {
      FindIsFirst(s[1..], needle);
      forall j | 1 <= j <= |s| ensures s[j..] == s[1..][j - 1..] {}
    }
  }

  /** A found occurrence is found again whatever follows it. */
  lemma {:induction false} FindExtends(s: string, needle: string, rest: string)
    requires Find(s, needle).Some?
    ensures Find(s + rest, needle) == Find(s, needle)
  {
    if needle <= s {
      assert needle <= s + rest;
    } else {
      assert (s + rest)[..|needle|] == s[..|needle|];
      assert (s + rest)[1..] == s[1..] + rest;
      FindExtends(s[1..], needle, rest);
    }
  }

  predicate EndsWith(s: string, suffix: string) {
    |suffix| <= |s| && s[|s| - |suffix|..] == suffix
  }

  // ----- lines -----

  /** `split('\n')` */
  function SplitLines(s: string): (r: seq<string>)
    ensures |r| >= 1
    ensures forall k :: 0 <= k < |r| ==> '\n' !in r[k]
  {
    if s == [] then [[]]
    else
      var r := SplitLines(s[1..]);
      if s[0] == '\n' then [[]] + r else [[s[0]] + r[0]] + r[1..]
  }

  /** `join("\n")` */
  function JoinLines(ls: seq<string>): string {
    if |ls| == 0 then []
    else if |ls| == 1 then ls[0]
    else ls[0] + "\n" + JoinLines(ls[1..])
  }

  /** A line without the return before its newline. */
  function Chomp(l: string): string {
    if l != [] && l[|l| - 1] == '\r' then l[..|l| - 1] else l
  }

  /** The lines of a text already split at its newlines; no line follows a final newline. */
  function PieceLines(ps: seq<string>): seq<string> {
    if ps == [] then []
    else if |ps| == 1 then if ps[0] == [] then [] else [ps[0]]
    else [Chomp(ps[0])] + PieceLines(ps[1..])
  }

  /** `str::lines` */
  function Lines(s: string): seq<string> { PieceLines(SplitLines(s)) }

  function CountNewlines(s: string): nat {
    if s == [] then 0 else (if s[0] == '\n' then 1 else 0) + CountNewlines(s[1..])
  }

  lemma {:induction false} SplitOne(l: string)
    requires '\n' !in l
    ensures SplitLines(l) == [l]
  {
    if l != [] {
      assert l[0] in l;
      SplitOne(l[1..]);
      assert [l[0]] + l[1..] == l;
    }
  }

  lemma {:induction false} SplitAt(l: string, rest: string)
    requires '\n' !in l
    ensures SplitLines(l + "\n" + rest) == [l] + SplitLines(rest)
  {
    var s := l + "\n" + rest;
    if l == [] {
      assert s[1..] == rest;
    } else {
      assert l[0] in l;
      assert s[1..] == l[1..] + "\n" + rest;
      SplitAt(l[1..], rest);
      var r := SplitLines(s[1..]);
      assert r[0] == l[1..] && r[1..] == SplitLines(rest);
      assert [l[0]] + l[1..] == l;
    }
  }

  lemma {:induction false} CountAppend(a: string, b: string)
    ensures CountNewlines(a + b) == CountNewlines(a) + CountNewlines(b)
  {
    if a == [] {
      assert a + b == b;
    } else {
      assert (a + b)[1..] == a[1..] + b;
      CountAppend(a[1..], b);
    }
  }

  lemma {:induction false} CountNone(s: string)
    requires '\n' !in s
    ensures CountNewlines(s) == 0
  {
    if s != [] { assert s[0] in s; CountNone(s[1..]); }
  }

  // ----- whitespace erasure -----

  /** The string with every whitespace character removed. */
  function Erase(s: string): string {
    if s == [] then [] else (if IsSpace(s[0]) then [] else [s[0]]) + Erase(s[1..])
  }

  lemma {:induction false} EraseAppend(a: string, b: string)
    ensures Erase(a + b) == Erase(a) + Erase(b)
  {
    if a == [] {
      assert a + b == b;
    } else {
      assert (a + b)[1..] == a[1..] + b;
      EraseAppend(a[1..], b);
    }
  }

  lemma {:induction false} EraseBlank(s: string)
    requires Blank(s)
    ensures Erase(s) == []
  {
    if s != [] { EraseBlank(s[1..]); }
  }

  lemma EraseTrim(s: string)
    ensures Erase(Trim(s)) == Erase(s)
  {
    var a, b := TrimSplit(s);
    EraseAppend(a + Trim(s), b);
    EraseAppend(a, Trim(s));
    EraseBlank(a);
    EraseBlank(b);
  }

  lemma EraseTrimEnd(s: string)
    ensures Erase(TrimEnd(s)) == Erase(s)
  {
    var b := TrimEndSplit(s);
    EraseAppend(TrimEnd(s), b);
    EraseBlank(b);
  }
}
