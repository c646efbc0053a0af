/** The two duration parsers: `parse_duration_string` and the trash command's `parse_older_than`. */
module Durations {
  import opened Text

  const U64_MAX: int := 0xFFFF_FFFF_FFFF_FFFF
  const I64_MAX: int := 0x7FFF_FFFF_FFFF_FFFF

  // ----- numbers -----

  predicate AllDigits(s: string) { forall i :: 0 <= i < |s| ==> IsDigit(s[i]) }

  function DecimalValue(s: string): (v: int)
    requires AllDigits(s)
    ensures v >= 0
  {
    if s == [] then 0 else 10 * DecimalValue(s[..|s| - 1]) + (s[|s| - 1] - '0') as int
  }

  /** The digits of an unsigned number, a leading plus sign dropped. */
  function Unsigned(s: string): string { if "+" <= s then s[1..] else s }

  predicate IsNumber(s: string) { s != [] && AllDigits(s) }

  /** `str::parse::<u64>` */
  function ParseU64(s: string): Option<int> {
    var u := Unsigned(s);
    if IsNumber(u) && DecimalValue(u) <= U64_MAX then Some(DecimalValue(u)) else None
  }

  /** `str::parse::<i64>` */
  function ParseI64(s: string): Option<int> {
    if "-" <= s then
      if IsNumber(s[1..]) && -DecimalValue(s[1..]) >= -I64_MAX - 1 then Some(-DecimalValue(s[1..])) else None
    else
      var u := Unsigned(s);
      if IsNumber(u) && DecimalValue(u) <= I64_MAX then Some(DecimalValue(u)) else None
  }

  function CheckedMul(n: Option<int>, factor: int, min: int, max: int): Option<int> {
    if n.Some? && min <= n.value * factor <= max then Some(n.value * factor) else None
  }

  // ----- the parsers -----

  function Init(t: string): string
    requires t != []
  {
    t[..|t| - 1]
  }

  function ParseDurationString(s: string): Option<int> {
    var t := Trim(s);
    if t == [] then None
    else if ParseU64(t).Some? then ParseU64(t)
    else
      var suffix := t[|t| - 1];
      var num := ParseU64(Init(t));
      if num.None? then None
      else if suffix == 's' then num
      else if suffix == 'm' then CheckedMul(num, 60, 0, U64_MAX)
      else if suffix == 'h' then CheckedMul(num, 3600, 0, U64_MAX)
      else if suffix == 'd' then CheckedMul(num, 86400, 0, U64_MAX)
      else None
  }

  function ParseOlderThan(s: string): Option<int> {
    var t := Trim(s);
    if t == "all" then None
    else if EndsWith(t, "d") then CheckedMul(ParseI64(Init(t)), 86400, -I64_MAX - 1, I64_MAX)
    else if EndsWith(t, "h") then CheckedMul(ParseI64(Init(t)), 3600, -I64_MAX - 1, I64_MAX)
    else if EndsWith(t, "m") then CheckedMul(ParseI64(Init(t)), 60, -I64_MAX - 1, I64_MAX)
    else ParseI64(t)
  }

  // ----- what a duration means -----

  function Factor(unit: char): Option<int> {
    if unit == 's' then Some(1) else if unit == 'm' then Some(60)
    else if unit == 'h' then Some(3600) else if unit == 'd' then Some(86400)
    else None
  }

  /** `t` writes `v` seconds: a plain number of seconds, or a number and a unit, the product being
      computed exactly. */
  predicate Writes(t: string, v: int) {
    || (IsNumber(Unsigned(t)) && v == DecimalValue(Unsigned(t)))
    || (t != [] && Factor(t[|t| - 1]).Some? && IsNumber(Unsigned(Init(t)))
        && v == DecimalValue(Unsigned(Init(t))) * Factor(t[|t| - 1]).value)
  }

  lemma {:induction false} UnitIsNoDigit(t: string)
    requires t != [] && Factor(t[|t| - 1]).Some?
    ensures !IsNumber(Unsigned(t)) && ParseU64(t).None? && ParseI64(t).None?
  {
    var u := Unsigned(t);
    if u != [] { assert u[|u| - 1] == t[|t| - 1]; }
    if "-" <= t { assert |t| > 1 ==> t[1..][|t| - 2] == t[|t| - 1]; }
  }

  /** A duration is accepted exactly when it writes a number of seconds that fits 64 bits, and the
      result is that number: nothing wraps. */
  lemma {:induction false} DurationMeans(s: string, v: int)
    ensures ParseDurationString(s) == Some(v) <==> Writes(Trim(s), v) && 0 <= v <= U64_MAX
  {
    var t := Trim(s);
    hide Trim, DecimalValue, AllDigits;
    if t != [] && Factor(t[|t| - 1]).Some? { UnitIsNoDigit(t); }
  }

  // ----- numbers written in decimal -----

  /** A number in decimal, with the given number of zeros in front. */
  function Written(v: nat, zeros: nat): string
    decreases zeros, v
  {
    if zeros > 0 then "0" + Written(v, zeros - 1)
    else if v < 10 then [('0' as int + v) as char]
    else Written(v / 10, 0) + [('0' as int + v % 10) as char]
  }

  lemma {:induction false} ZeroInFront(s: string)
    requires AllDigits(s)
    ensures AllDigits("0" + s) && DecimalValue("0" + s) == DecimalValue(s)
  {
    var t := "0" + s;
    if s == [] {
      assert t[..0] == [];
    } else {
      assert t[..|t| - 1] == "0" + s[..|s| - 1] && t[|t| - 1] == s[|s| - 1];
      ZeroInFront(s[..|s| - 1]);
    }
  }

  lemma {:induction false} WrittenValue(v: nat, zeros: nat)
    ensures Written(v, zeros) != [] && AllDigits(Written(v, zeros)) && DecimalValue(Written(v, zeros)) == v
    decreases zeros, v
  {
    var s := Written(v, zeros);
    if zeros > 0 {
      WrittenValue(v, zeros - 1);
      ZeroInFront(Written(v, zeros - 1));
    } else if v < 10 {
      assert s[..|s| - 1] == [];
    } else {
      WrittenValue(v / 10, 0);
      assert s[..|s| - 1] == Written(v / 10, 0);
    }
  }

  lemma {:induction false} DigitsTrimmed(s: string, unit: string)
    requires s != [] && AllDigits(s) && (unit == "" || unit == "s" || unit == "m" || unit == "h" || unit == "d")
    ensures Trim(s + unit) == s + unit && Unsigned(s) == s && IsNumber(s)
  {
    var t := s + unit;
    assert !IsSpace(t[0]) && !IsSpace(t[|t| - 1]);
    TrimOf([], t, []);
    assert [] + t + [] == t;
    hide Trim, AllDigits;
    assert IsDigit(s[0]);
  }

  /** A number of seconds, minutes, hours or days written in decimal is read as that many seconds, up to what
      64 bits hold: unsigned for a duration, signed for an age. */
  lemma {:induction false} DecimalRead(v: nat, zeros: nat)
    ensures ParseDurationString(Written(v, zeros)) == if v <= 18446744073709551615 then Some(v) else None
    ensures ParseDurationString(Written(v, zeros) + "s") == if v <= 18446744073709551615 then Some(v) else None
    ensures ParseDurationString(Written(v, zeros) + "m") == if v * 60 <= 18446744073709551615 then Some(v * 60) else None
    ensures ParseDurationString(Written(v, zeros) + "h") == if v * 3600 <= 18446744073709551615 then Some(v * 3600) else None
    ensures ParseDurationString(Written(v, zeros) + "d") == if v * 86400 <= 18446744073709551615 then Some(v * 86400) else None
    ensures ParseOlderThan(Written(v, zeros)) == if v <= 9223372036854775807 then Some(v) else None
    ensures ParseOlderThan(Written(v, zeros) + "m") == if v * 60 <= 9223372036854775807 then Some(v * 60) else None
    ensures ParseOlderThan(Written(v, zeros) + "h") == if v * 3600 <= 9223372036854775807 then Some(v * 3600) else None
    ensures ParseOlderThan(Written(v, zeros) + "d") == if v * 86400 <= 9223372036854775807 then Some(v * 86400) else None
  {
    hide *;
    var s := Written(v, zeros);
    WrittenValue(v, zeros);
    Factors();
    PlainRead(s, v);
    UnitRead(s, v, 's', 1);
    UnitRead(s, v, 'm', 60);
    UnitRead(s, v, 'h', 3600);
    UnitRead(s, v, 'd', 86400);
  }

  lemma {:induction false} PlainRead(s: string, v: nat)
    requires s != [] && AllDigits(s) && DecimalValue(s) == v
    ensures ParseDurationString(s) == if v <= 18446744073709551615 then Some(v) else None
    ensures ParseOlderThan(s) == if v <= 9223372036854775807 then Some(v) else None
  {
    DigitsTrimmed(s, "");
    assert s + "" == s;
    assert IsDigit(s[|s| - 1]) && IsDigit(s[0]);
    Ends(s, 'd');
    Ends(s, 'h');
    Ends(s, 'm');
    hide Trim, DecimalValue, AllDigits, EndsWith;
  }

  lemma {:induction false} Factors()
    ensures Factor('s') == Some(1) && Factor('m') == Some(60) && Factor('h') == Some(3600) && Factor('d') == Some(86400)
  {}

  lemma {:induction false} UnitParts(s: string, unit: char)
    requires s != [] && AllDigits(s) && Factor(unit).Some?
    ensures var t := s + [unit];
            && Trim(t) == t != [] && Init(t) == s && t[|t| - 1] == unit && t != "all" && !("-" <= s)
            && Unsigned(s) == s && IsNumber(s) && ParseU64(t).None?
            && (EndsWith(t, "d") <==> unit == 'd') && (EndsWith(t, "h") <==> unit == 'h') && (EndsWith(t, "m") <==> unit == 'm')
  {
    var t := s + [unit];
    DigitsTrimmed(s, [unit]);
    UnitIsNoDigit(t);
    Ends(t, 'd');
    Ends(t, 'h');
    Ends(t, 'm');
    assert IsDigit(s[0]) && t[0] == s[0];
    hide Trim, EndsWith, ParseU64, AllDigits, DecimalValue;
  }

  lemma {:induction false} UnitRead(s: string, v: nat, unit: char, factor: nat)
    requires s != [] && AllDigits(s) && DecimalValue(s) == v && Factor(unit) == Some(factor)
    ensures ParseDurationString(s + [unit]) == if v * factor <= 18446744073709551615 then Some(v * factor) else None
    ensures unit != 's' ==> ParseOlderThan(s + [unit]) == if v * factor <= 9223372036854775807 then Some(v * factor) else None
  {
    UnitParts(s, unit);
    hide Trim, EndsWith, DecimalValue, AllDigits, Init;
  }

  // ----- the two parsers compared -----

  /** A result that also fits a signed 64-bit number. */
  function Capped(r: Option<int>): Option<int> { if r.Some? && r.value > I64_MAX then None else r }

  /** Both parsers say the same, as far as signed numbers go. */
  predicate Agree(s: string) { ParseOlderThan(s) == Capped(ParseDurationString(s)) }

  /** The number part and the factor that `parse_older_than` reads. */
  function OlderFactor(t: string): int {
    if EndsWith(t, "d") then 86400 else if EndsWith(t, "h") then 3600 else if EndsWith(t, "m") then 60 else 1
  }

  function OlderNumber(t: string): string { if OlderFactor(t) == 1 then t else t[..|t| - 1] }

  /** A negative number, with or without a unit, whose product fits: only the trash command takes it. */
  predicate Negative(t: string) {
    && "-" <= OlderNumber(t) && IsNumber(OlderNumber(t)[1..])
    && DecimalValue(OlderNumber(t)[1..]) * OlderFactor(t) <= I64_MAX + 1
  }

  /** A number of seconds with the unit written out: only the configuration takes it. */
  predicate InSeconds(t: string) {
    && t != [] && t[|t| - 1] == 's' && IsNumber(Unsigned(Init(t)))
    && DecimalValue(Unsigned(Init(t))) <= I64_MAX
  }

  lemma {:induction false} Ends(t: string, c: char)
    ensures EndsWith(t, [c]) <==> t != [] && t[|t| - 1] == c
  {
    if t != [] { assert t[|t| - 1..] == [t[|t| - 1]]; }
  }

  lemma {:induction false} SignedIsCapped(t: string)
    requires !("-" <= t)
    ensures ParseI64(t) == Capped(ParseU64(t))
  {
    hide DecimalValue, AllDigits;
  }

  lemma {:induction false} MinusIsNoNumber(t: string)
    requires "-" <= t
    ensures ParseU64(t).None? && !IsNumber(Unsigned(t))
  {
    assert t[0] == '-';
  }

  lemma {:induction false} MinusValue(n: string)
    requires "-" <= n
    ensures ParseI64(n)
         == if IsNumber(n[1..]) && DecimalValue(n[1..]) <= I64_MAX + 1 then Some(-DecimalValue(n[1..])) else None
  {
    hide DecimalValue, AllDigits;
  }

  lemma {:induction false} Scaled(v: int, factor: int)
    requires v >= 0 && (factor == 60 || factor == 3600 || factor == 86400)
    ensures v <= I64_MAX + 1 && -I64_MAX - 1 <= -v * factor <= I64_MAX <==> v * factor <= I64_MAX + 1
    ensures 0 <= v <= U64_MAX ==> (v <= I64_MAX && -I64_MAX - 1 <= v * factor <= I64_MAX <==> 0 <= v * factor <= I64_MAX)
  {
    if factor == 60 {
    } else if factor == 3600 {
    } else {
    }
  }

  lemma {:induction false} UnitAgree(n: string, factor: int)
    requires factor == 60 || factor == 3600 || factor == 86400
    ensures var older := CheckedMul(ParseI64(n), factor, -I64_MAX - 1, I64_MAX);
            var duration := if ParseU64(n).None? then None else CheckedMul(ParseU64(n), factor, 0, U64_MAX);
            older == Capped(duration)
            <==> !("-" <= n && IsNumber(n[1..]) && DecimalValue(n[1..]) * factor <= I64_MAX + 1)
  {
    if "-" <= n {
      MinusIsNoNumber(n);
      MinusValue(n);
      hide DecimalValue, AllDigits, ParseU64, ParseI64;
      if IsNumber(n[1..]) { Scaled(DecimalValue(n[1..]), factor); }
    } else {
      SignedIsCapped(n);
      UnsignedIs(n);
      hide DecimalValue, AllDigits, ParseI64, ParseU64, IsNumber;
      if ParseU64(n).Some? { Scaled(ParseU64(n).value, factor); }
    }
  }

  lemma {:induction false} UnsignedIs(n: string)
    ensures ParseU64(n).Some? ==> 0 <= ParseU64(n).value <= U64_MAX
  {
    hide DecimalValue, AllDigits;
  }

  lemma {:induction false} SecondsAgree(s: string)
    requires Trim(s) != [] && Trim(s)[|Trim(s)| - 1] == 's'
    ensures Agree(s) <==> !InSeconds(Trim(s))
  {
    var t := Trim(s);
    Ends(t, 'd');
    Ends(t, 'h');
    Ends(t, 'm');
    UnitIsNoDigit(t);
    assert t != "all";
    hide DecimalValue, AllDigits, Trim, EndsWith;
  }

  lemma {:induction false} PlainAgree(s: string)
    requires var t := Trim(s); t == [] || Factor(t[|t| - 1]).None?
    ensures Agree(s) <==> !("-" <= Trim(s) && ParseI64(Trim(s)).Some?)
  {
    var t := Trim(s);
    Ends(t, 'd');
    Ends(t, 'h');
    Ends(t, 'm');
    if "-" <= t { MinusIsNoNumber(t); } else { SignedIsCapped(t); }
    if t == "all" { assert !IsDigit(t[0]); }
    hide DecimalValue, AllDigits, Trim, EndsWith;
  }

  lemma {:induction false} OlderPlain(t: string)
    requires t == [] || (t[|t| - 1] != 'd' && t[|t| - 1] != 'h' && t[|t| - 1] != 'm')
    ensures OlderFactor(t) == 1 && OlderNumber(t) == t
  {
    Ends(t, 'd');
    Ends(t, 'h');
    Ends(t, 'm');
    hide EndsWith;
  }

  lemma {:induction false} OlderUnit(t: string)
    requires t != [] && (t[|t| - 1] == 'd' || t[|t| - 1] == 'h' || t[|t| - 1] == 'm')
    ensures Factor(t[|t| - 1]).Some? && OlderFactor(t) == Factor(t[|t| - 1]).value && OlderNumber(t) == Init(t)
  {
    Ends(t, 'd');
    Ends(t, 'h');
    Ends(t, 'm');
    hide EndsWith;
  }

  lemma {:induction false} PlainNegative(t: string)
    requires t == [] || Factor(t[|t| - 1]).None?
    ensures Negative(t) <==> "-" <= t && ParseI64(t).Some?
    ensures !InSeconds(t)
  {
    OlderPlain(t);
    hide AllDigits, DecimalValue, OlderFactor, OlderNumber;
  }

  lemma {:induction false} UnitCase(s: string)
    requires var t := Trim(s); t != [] && (t[|t| - 1] == 'd' || t[|t| - 1] == 'h' || t[|t| - 1] == 'm')
    ensures Agree(s) <==> !Negative(Trim(s)) && !InSeconds(Trim(s))
  {
    var t := Trim(s);
    OlderUnit(t);
    UnitIsNoDigit(t);
    UnitAgree(Init(t), Factor(t[|t| - 1]).value);
    UnitResults(s);
    hide Trim, Agree, ParseOlderThan, ParseDurationString, CheckedMul, ParseI64, ParseU64, IsNumber, DecimalValue, OlderNumber, OlderFactor, Init;
  }

  /** What both parsers compute when a unit is written. */
  lemma {:induction false} UnitResults(s: string)
    requires var t := Trim(s); t != [] && (t[|t| - 1] == 'd' || t[|t| - 1] == 'h' || t[|t| - 1] == 'm')
    ensures var t := Trim(s);
            var f := Factor(t[|t| - 1]);
            && f.Some?
            && ParseOlderThan(s) == CheckedMul(ParseI64(Init(t)), f.value, -I64_MAX - 1, I64_MAX)
            && ParseDurationString(s) == if ParseU64(Init(t)).None? then None else CheckedMul(ParseU64(Init(t)), f.value, 0, U64_MAX)
  {
    var t := Trim(s);
    Ends(t, 'd');
    Ends(t, 'h');
    Ends(t, 'm');
    UnitIsNoDigit(t);
    assert t != "all";
    hide Trim, EndsWith, CheckedMul, ParseI64, ParseU64, Init;
  }

  lemma {:induction false} SecondsNegative(t: string)
    requires t != [] && t[|t| - 1] == 's'
    ensures !Negative(t)
  {
    OlderPlain(t);
    if "-" <= t { NotANumber(t); }
    hide AllDigits, DecimalValue, OlderFactor, OlderNumber, IsNumber;
  }

  /** The parsers agree exactly on the inputs that are neither negative nor seconds written out. */
  lemma {:induction false} AgreeIff(s: string)
    ensures Agree(s) <==> !Negative(Trim(s)) && !InSeconds(Trim(s))
  {
    var t := Trim(s);
    hide Trim, Agree, Negative, InSeconds, ParseI64;
    if t == [] || Factor(t[|t| - 1]).None? {
      PlainAgree(s);
      PlainNegative(t);
    } else if t[|t| - 1] == 's' {
      SecondsAgree(s);
      SecondsNegative(t);
    } else {
      UnitCase(s);
    }
  }

  lemma {:induction false} NotANumber(t: string)
    requires t != [] && t[|t| - 1] == 's' && "-" <= t
    ensures !IsNumber(t[1..])
  {
    if |t| > 1 { assert t[1..][|t| - 2] == 's'; }
  }

  /** In particular on every input without a minus sign that does not end in `s`. */
  lemma {:induction false} AgreeWithoutMinus(s: string, v: int)
    requires '-' !in s && (Trim(s) != [] ==> Trim(s)[|Trim(s)| - 1] != 's')
    ensures ParseOlderThan(s) == Some(v) <==> ParseDurationString(s) == Some(v) && v <= I64_MAX
  {
    AgreeIff(s);
    var a, b := TrimSplit(s);
    var t := Trim(s);
    hide Trim, ParseOlderThan, ParseDurationString;
    if t != [] { assert t[0] == s[|a|]; }
    var n := OlderNumber(t);
    assert n != [] ==> n[0] == t[0];
  }
}
