/** Environment-placeholder substitution in configuration strings and trees. */
module EnvSubst {
  import opened Text

  type Env = map<string, string>

  // ----- placeholders -----

  /** The offset of the first closing brace. */
  function CloseAt(s: string): (r: Option<nat>)
    ensures r.Some? ==> r.value < |s|
  {
    if s == [] then None
    else if s[0] == '}' then Some(0)
    else Shift(CloseAt(s[1..]), 1)
  }

  lemma {:induction false} CloseAtIsFirst(s: string)
    ensures match CloseAt(s)
            case None => '}' !in s
            case Some(k) => s[k] == '}' && '}' !in s[..k]
  {
    if s != [] && s[0] != '}' {
      CloseAtIsFirst(s[1..]);
      var k := CloseAt(s[1..]);
      if k.Some? { assert s[..k.value + 1] == [s[0]] + s[1..][..k.value]; }
    }
  }

  /** The length of the placeholder at the head of `s`: `${`, at least one character that is not a
      closing brace, `}`. */
  function HoleLen(s: string): (r: Option<nat>)
    ensures r.Some? ==> 4 <= r.value <= |s|
  {
    if !("${" <= s) then None
    else
      match CloseAt(s[2..])
      case None => None
      case Some(k) => if k == 0 then None else Some(k + 3)
  }

  datatype Match = Match(start: nat, end: nat)

  /** The leftmost placeholder at or after `at`. */
  function FindHole(s: string, at: nat): (r: Option<Match>)
    requires at <= |s|
    ensures r.Some? ==> at <= r.value.start && r.value.start + 4 <= r.value.end <= |s|
    decreases |s| - at
  {
    match HoleLen(s[at..])
    case Some(n) => Some(Match(at, at + n))
    case None => if at == |s| then None else FindHole(s, at + 1)
  }

  lemma {:induction false} FindHoleIsLeftmost(s: string, at: nat)
    requires at <= |s|
    ensures match FindHole(s, at)
            case None => forall i :: at <= i <= |s| ==> HoleLen(s[i..]).None?
            case Some(m) => HoleLen(s[m.start..]) == Some(m.end - m.start)
                            && forall i :: at <= i < m.start ==> HoleLen(s[i..]).None?
    decreases |s| - at
  {
    hide HoleLen;
    if HoleLen(s[at..]).None? && at < |s| { FindHoleIsLeftmost(s, at + 1); }
  }

  // ----- tiling -----

  datatype Part = Verbatim(text: string) | Hole(inner: string)

  /** The string from `at` as verbatim gaps and placeholders. */
  function Parts(s: string, at: nat): seq<Part>
    requires at <= |s|
    decreases |s| - at
  {
    match FindHole(s, at)
    case None => [Verbatim(s[at..])]
    case Some(m) => [Verbatim(s[at..m.start]), Hole(s[m.start + 2..m.end - 1])] + Parts(s, m.end)
  }

  function PartSource(p: Part): string {
    match p
    case Verbatim(text) => text
    case Hole(inner) => "${" + inner + "}"
  }

  function PartsSource(ps: seq<Part>): string {
    if ps == [] then [] else PartSource(ps[0]) + PartsSource(ps[1..])
  }

  lemma {:induction false} HoleSource(s: string)
    requires HoleLen(s).Some?
    ensures var n := HoleLen(s).value;
            var inner := s[2..n - 1];
            s[..n] == "${" + inner + "}" && '}' !in inner && inner != []
  {
    CloseAtIsFirst(s[2..]);
    hide CloseAt;
    var k := CloseAt(s[2..]).value;
    assert s[2..][..k] == s[2..k + 2];
    assert s[2..][k] == s[k + 2];
    assert s[..2] == "${";
    assert s[..k + 3] == s[..2] + s[2..k + 2] + [s[k + 2]];
  }

  lemma {:induction false} PartsTwo(a: Part, b: Part, ps: seq<Part>)
    ensures PartsSource([a, b] + ps) == PartSource(a) + PartSource(b) + PartsSource(ps)
  {
    assert ([a, b] + ps)[1..] == [b] + ps;
    assert ([b] + ps)[1..] == ps;
  }

  lemma {:induction false} Pieces(s: string, at: nat, start: nat, end: nat)
    requires at <= start && start + 4 <= end <= |s|
    ensures s[start..][..end - start] == s[start..end]
    ensures s[start..][2..end - start - 1] == s[start + 2..end - 1]
    ensures s[at..] == s[at..start] + s[start..end] + s[end..]
  {}

  lemma {:induction false} OneTile(s: string, at: nat, m: Match)
    requires at <= |s| && FindHole(s, at) == Some(m)
    ensures var inner := s[m.start + 2..m.end - 1];
            && inner != [] && '}' !in inner
            && s[at..] == s[at..m.start] + ("${" + inner + "}") + s[m.end..]
  {
    hide *;
    FoundHole(s, at, m);
    HoleSource(s[m.start..]);
    Pieces(s, at, m.start, m.end);
  }

  lemma {:induction false} FoundHole(s: string, at: nat, m: Match)
    requires at <= |s| && FindHole(s, at) == Some(m)
    ensures at <= m.start && m.start + 4 <= m.end <= |s| && HoleLen(s[m.start..]) == Some(m.end - m.start)
  {
    FindHoleIsLeftmost(s, at);
  }

  predicate HolesOk(ps: seq<Part>) { forall p <- ps :: p.Hole? ==> p.inner != [] && '}' !in p.inner }

  /** The parts tile the string, and no placeholder is empty or holds a closing brace. */
  lemma {:induction false} PartsTile(s: string, at: nat)
    requires at <= |s|
    ensures PartsSource(Parts(s, at)) == s[at..] && HolesOk(Parts(s, at))
    decreases |s| - at
  {
    hide FindHole;
    match FindHole(s, at)
    case None =>
      assert Parts(s, at)[1..] == [];
      assert s[at..] + [] == s[at..];
    case Some(m) =>
      OneTile(s, at, m);
      PartsTile(s, m.end);
      var a, b, ps := Verbatim(s[at..m.start]), Hole(s[m.start + 2..m.end - 1]), Parts(s, m.end);
      assert Parts(s, at) == [a, b] + ps;
      hide *;
      PartsTwo(a, b, ps);
      PartIs(a);
      PartIs(b);
      HolesTwo(a, b, ps);
  }

  lemma {:induction false} PartIs(p: Part)
    ensures PartSource(p) == if p.Verbatim? then p.text else "${" + p.inner + "}"
  {}

  lemma {:induction false} HolesTwo(a: Part, b: Part, ps: seq<Part>)
    requires a.Verbatim? && HolesOk(ps) && (b.Hole? ==> b.inner != [] && '}' !in b.inner)
    ensures HolesOk([a, b] + ps)
  {}

  // ----- values -----

  /** `${NAME:-default}` falls back when the variable is unset or empty; `${NAME}` fails when unset. */
  function HoleValue(inner: string, env: Env): Outcome<string> {
    match Find(inner, ":-")
    case Some(k) =>
      var name := inner[..k];
      if name in env && env[name] != [] then Ok(env[name]) else Ok(inner[k + 2..])
    case None => if inner in env then Ok(env[inner]) else Err(inner)
  }

  function PartValue(p: Part, env: Env): Outcome<string> {
    match p
    case Verbatim(text) => Ok(text)
    case Hole(inner) => HoleValue(inner, env)
  }

  /** The parts' values in order, or the first failure. */
  function PartsValue(ps: seq<Part>, env: Env): Outcome<string> {
    if ps == [] then Ok([])
    else
      var first :- PartValue(ps[0], env);
      var rest :- PartsValue(ps[1..], env);
      Ok(first + rest)
  }

  /** The meaning of a configuration string: values are put in, never read again. */
  function Substituted(s: string, env: Env): Outcome<string> { PartsValue(Parts(s, 0), env) }

  /** A placeholder that fails: no fallback, and the variable is not set. */
  predicate Unset(p: Part, env: Env) { p.Hole? && Find(p.inner, ":-").None? && p.inner !in env }

  lemma {:induction false} PartsFail(ps: seq<Part>, env: Env)
    ensures PartsValue(ps, env).Ok? <==> forall p <- ps :: !Unset(p, env)
    ensures !PartsValue(ps, env).Panic?
  {
    if ps != [] {
      PartsFail(ps[1..], env);
      assert ps[0] in ps;
      if forall p <- ps[1..] :: !Unset(p, env) {
        forall p | p in ps ensures p == ps[0] || p in ps[1..] {}
      }
    }
  }

  /** Substitution fails exactly when some placeholder without a fallback names an unset variable. */
  lemma {:induction false} FailsIff(s: string, env: Env)
    ensures Substituted(s, env).Err? <==> exists p :: p in Parts(s, 0) && Unset(p, env)
  {
    PartsFail(Parts(s, 0), env);
  }

  // ----- what a string means -----

  /** A placeholder stands at `i` and its closing brace at `j`: `${`, something without a closing
      brace, `}`. */
  predicate HoleAt(s: string, i: int, j: int) {
    0 <= i && i + 2 < j < |s| && s[i] == '$' && s[i + 1] == '{' && s[j] == '}' && '}' !in s[i + 2..j]
  }

  /** No placeholder stands before `n`. */
  ghost predicate NoHoleBefore(s: string, n: int) { forall i, j | 0 <= i < n :: !HoleAt(s, i, j) }

  lemma {:induction false} CloseHere(s: string, k: nat)
    requires k < |s| && s[k] == '}' && '}' !in s[..k]
    ensures CloseAt(s) == Some(k)
  {
    if k > 0 {
      assert s[0] == s[..k][0];
      assert s[1..][..k - 1] == s[..k][1..];
      CloseHere(s[1..], k - 1);
    }
  }

  lemma {:induction false} HoleLenIff(s: string, n: nat)
    ensures HoleLen(s) == Some(n) <==> n > 0 && HoleAt(s, 0, n - 1)
  {
    if HoleLen(s) == Some(n) {
      CloseAtIsFirst(s[2..]);
      var k := CloseAt(s[2..]).value;
      assert s[..2] == "${" && s[2..][k] == s[k + 2] && s[2..][..k] == s[2..k + 2];
    }
    if n > 0 && HoleAt(s, 0, n - 1) {
      assert s[..2] == "${";
      var t, k := s[2..], n - 3;
      assert t[k] == s[n - 1] && t[..k] == s[2..n - 1];
      CloseHere(t, k);
    }
  }

  lemma {:induction false} HoleMoves(s: string, at: nat, i: nat, j: nat)
    requires at <= i <= j && at <= |s|
    ensures HoleAt(s[at..], i - at, j - at) <==> HoleAt(s, i, j)
  {
    if j < |s| && i + 2 < j { assert s[at..][i - at + 2..j - at] == s[i + 2..j]; }
  }

  /** The first placeholder at or after `at` is the one found. */
  lemma {:induction false} FindsFirst(s: string, at: nat, i: nat, j: nat)
    requires at <= i && HoleAt(s, i, j) && NoHoleBefore(s, i)
    ensures FindHole(s, at) == Some(Match(i, j + 1))
    decreases i - at
  {
    hide HoleLen, HoleAt;
    HoleFits(s, i, j);
    HoleLenIff(s[i..], j - i + 1);
    HoleMoves(s, i, i, j);
    if at < i {
      NoHoleAt(s, at);
      FindsFirst(s, at + 1, i, j);
    }
  }

  lemma {:induction false} HoleFits(s: string, i: nat, j: nat)
    requires HoleAt(s, i, j)
    ensures i + 2 < j < |s|
  {}

  lemma {:induction false} NoHoleAt(s: string, at: nat)
    requires at <= |s| && forall j :: !HoleAt(s, at, j)
    ensures HoleLen(s[at..]).None?
  {
    hide HoleLen, HoleAt;
    if HoleLen(s[at..]).Some? {
      var n := HoleLen(s[at..]).value;
      HoleLenIff(s[at..], n);
      HoleMoves(s, at, at, at + (n - 1));
    }
  }

  lemma {:induction false} NothingAtEnd(s: string, j: int)
    ensures !HoleAt(s, |s|, j)
  {}

  lemma {:induction false} FindsNone(s: string, at: nat)
    requires at <= |s| && NoHoleBefore(s, |s|)
    ensures FindHole(s, at).None?
    decreases |s| - at
  {
    hide HoleLen, HoleAt;
    forall j ensures !HoleAt(s, at, j) { if at == |s| { NothingAtEnd(s, j); } }
    NoHoleAt(s, at);
    if at < |s| { FindsNone(s, at + 1); }
  }

  lemma {:induction false} FindMoves(s: string, at: nat, i: nat)
    requires at <= i <= |s|
    ensures var r, r' := FindHole(s, i), FindHole(s[at..], i - at);
            && (r.None? <==> r'.None?)
            && (r.Some? ==> at <= r.value.start && r' == Some(Match(r.value.start - at, r.value.end - at)))
    decreases |s| - i
  {
    hide HoleLen;
    assert s[at..][i - at..] == s[i..];
    if HoleLen(s[i..]).None? && i < |s| { FindMoves(s, at, i + 1); }
  }

  lemma {:induction false} PartsTurn(s: string, at: nat)
    requires at <= |s|
    ensures FindHole(s, at).None? ==> Parts(s, at) == [Verbatim(s[at..])]
    ensures FindHole(s, at).Some? ==>
              var m := FindHole(s, at).value;
              Parts(s, at) == [Verbatim(s[at..m.start]), Hole(s[m.start + 2..m.end - 1])] + Parts(s, m.end)
  {
    hide FindHole;
  }

  lemma {:induction false} SliceMoves(s: string, at: nat, i: nat, j: nat)
    requires at <= i <= j <= |s|
    ensures s[at..][i - at..j - at] == s[i..j] && s[at..][i - at..] == s[i..]
  {}

  lemma {:induction false} FoundFits(s: string, at: nat)
    requires at <= |s| && FindHole(s, at).Some?
    ensures at <= FindHole(s, at).value.start && FindHole(s, at).value.start + 4 <= FindHole(s, at).value.end <= |s|
  {
    hide FindHole;
  }

  /** What follows a placeholder is read as a string of its own. */
  lemma {:induction false} PartsMove(s: string, at: nat, i: nat)
    requires at <= i <= |s|
    ensures Parts(s, i) == Parts(s[at..], i - at)
    decreases |s| - i
  {
    hide *;
    FindMoves(s, at, i);
    PartsTurn(s, i);
    PartsTurn(s[at..], i - at);
    SliceMoves(s, at, i, |s|);
    if FindHole(s, i).Some? {
      FoundFits(s, i);
      var m := FindHole(s, i).value;
      PartsMove(s, at, m.end);
      SliceMoves(s, at, i, m.start);
      SliceMoves(s, at, m.start + 2, m.end - 1);
    }
  }

  /** The value `v` of a first placeholder, between the text before it and what the rest means. */
  function PutIn(before: string, v: Outcome<string>, rest: Outcome<string>): Outcome<string> {
    match v
    case Ok(x) => (match rest
                   case Ok(y) => Ok(before + x + y)
                   case e => e)
    case e => e
  }

  lemma {:induction false} TwoParts(before: string, inner: string, ps: seq<Part>, env: Env)
    ensures PartsValue([Verbatim(before), Hole(inner)] + ps, env) == PutIn(before, HoleValue(inner, env), PartsValue(ps, env))
  {
    hide HoleValue;
    var all := [Verbatim(before), Hole(inner)] + ps;
    assert all[1..] == [Hole(inner)] + ps && all[1..][1..] == ps;
    var v, rest := HoleValue(inner, env), PartsValue(ps, env);
    if v.Ok? && rest.Ok? { assert before + (v.value + rest.value) == before + v.value + rest.value; }
  }

  lemma {:induction false} SubstitutedIs(s: string, env: Env)
    ensures Substituted(s, env) == PartsValue(Parts(s, 0), env)
  {}

  lemma {:induction false} FirstPart(s: string, i: nat, j: nat, env: Env)
    requires HoleAt(s, i, j) && NoHoleBefore(s, i)
    ensures i + 2 < j < |s|
    ensures Substituted(s, env) == PutIn(s[..i], HoleValue(s[i + 2..j], env), Substituted(s[j + 1..], env))
  {
    hide *;
    HoleFits(s, i, j);
    FindsFirst(s, 0, i, j);
    PartsTurn(s, 0);
    PartsMove(s, j + 1, j + 1);
    SubstitutedIs(s, env);
    SubstitutedIs(s[j + 1..], env);
    TwoParts(s[..i], s[i + 2..j], Parts(s, j + 1), env);
    assert s[0..i] == s[..i];
  }

  /** A string without placeholders means itself. */
  lemma {:induction false} NothingToSubstitute(s: string, env: Env)
    requires NoHoleBefore(s, |s|)
    ensures Substituted(s, env) == Ok(s)
  {
    hide HoleAt, FindHole;
    FindsNone(s, 0);
    LastGap(s, 0, env);
  }

  /** `inner` is `name`, the first `:-` in it, and a fallback. */
  predicate SplitOnce(inner: string, name: string, fallback: string) {
    inner == name + ":-" + fallback && forall k | 0 <= k < |name| :: !(":-" <= inner[k..])
  }

  lemma {:induction false} SplitFound(inner: string, name: string, fallback: string)
    requires SplitOnce(inner, name, fallback)
    ensures Find(inner, ":-") == Some(|name|) && inner[..|name|] == name && inner[|name| + 2..] == fallback
  {
    FindIsFirst(inner, ":-");
    hide Find;
    assert inner[|name|..] == ":-" + fallback;
    assert ":-" <= inner[|name|..];
  }

  /** No `:-` anywhere. */
  predicate NoSplit(inner: string) { forall k | 0 <= k <= |inner| :: !(":-" <= inner[k..]) }

  lemma {:induction false} NotFound(inner: string)
    requires NoSplit(inner)
    ensures Find(inner, ":-").None?
  {
    FindIsFirst(inner, ":-");
  }

  /** The first placeholder of a string, when it has a fallback, becomes the variable if that is set
      and not empty, and the fallback otherwise; the text before it is kept, the value is not read
      again, and the rest is substituted by itself. */
  lemma {:induction false} FallbackMeans(s: string, i: nat, j: nat, name: string, fallback: string, env: Env)
    requires HoleAt(s, i, j) && NoHoleBefore(s, i)
    requires SplitOnce(s[i + 2..j], name, fallback)
    ensures Substituted(s, env)
         == PutIn(s[..i], Ok(if name in env && env[name] != "" then env[name] else fallback), Substituted(s[j + 1..], env))
  {
    FirstPart(s, i, j, env);
    SplitFound(s[i + 2..j], name, fallback);
    hide Find, Substituted, HoleAt, PutIn, SplitOnce;
  }

  /** Without a fallback it becomes the variable, empty or not, or fails by its name. */
  lemma {:induction false} NameMeans(s: string, i: nat, j: nat, env: Env)
    requires HoleAt(s, i, j) && NoHoleBefore(s, i)
    requires NoSplit(s[i + 2..j])
    ensures var name := s[i + 2..j];
            Substituted(s, env) == PutIn(s[..i], if name in env then Ok(env[name]) else Err(name), Substituted(s[j + 1..], env))
  {
    FirstPart(s, i, j, env);
    NotFound(s[i + 2..j]);
    hide Find, Substituted, HoleAt, PutIn;
  }

  lemma {:induction false} OneHoleString(inner: string)
    requires inner != [] && '}' !in inner
    ensures var s := "${" + inner + "}";
            HoleAt(s, 0, |inner| + 2) && NoHoleBefore(s, 0)
            && s[2..|inner| + 2] == inner && s[..0] == "" && s[|inner| + 3..] == ""
  {
    var s := "${" + inner + "}";
    assert s[2..|inner| + 2] == inner;
  }

  lemma {:induction false} NoHoleInNothing(env: Env)
    ensures Substituted("", env) == Ok("")
  {
    NothingToSubstitute("", env);
  }

  /** `${name:-fallback}` alone. */
  lemma {:induction false} FallbackAlone(name: string, fallback: string, env: Env)
    requires SplitOnce(name + ":-" + fallback, name, fallback) && '}' !in name && '}' !in fallback
    ensures Substituted("${" + name + ":-" + fallback + "}", env)
         == Ok(if name in env && env[name] != "" then env[name] else fallback)
  {
    var inner := name + ":-" + fallback;
    var s := "${" + inner + "}";
    assert s == "${" + name + ":-" + fallback + "}";
    OneHoleString(inner);
    NoHoleInNothing(env);
    hide Substituted, HoleAt, SplitOnce;
    FallbackMeans(s, 0, |inner| + 2, name, fallback, env);
    var v := if name in env && env[name] != "" then env[name] else fallback;
    assert "" + v + "" == v;
  }

  /** `${name}` alone. */
  lemma {:induction false} NameAlone(name: string, env: Env)
    requires name != [] && '}' !in name && NoSplit(name)
    ensures Substituted("${" + name + "}", env) == if name in env then Ok(env[name]) else Err(name)
  {
    var s := "${" + name + "}";
    OneHoleString(name);
    NoHoleInNothing(env);
    hide Substituted, HoleAt;
    NameMeans(s, 0, |name| + 2, env);
    if name in env { assert "" + env[name] + "" == env[name]; }
  }

  // ----- the substitution loop -----

  /** `done` followed by the value of the rest. */
  ghost function Resume(done: string, rest: Outcome<string>): Outcome<string> {
    match rest
    case Ok(s) => Ok(done + s)
    case e => e
  }

  lemma {:induction false} OneHole(s: string, at: nat, m: Match, env: Env, done: string)
    requires at <= |s| && FindHole(s, at) == Some(m)
    ensures var rest := Resume(done, PartsValue(Parts(s, at), env));
            match HoleValue(s[m.start + 2..m.end - 1], env)
            case Ok(v) => rest == Resume(done + s[at..m.start] + v, PartsValue(Parts(s, m.end), env))
            case Err(e) => rest == Err(e)
            case Panic => rest == Panic
  {
    hide FindHole, HoleValue;
    var ps := Parts(s, at);
    var v := HoleValue(s[m.start + 2..m.end - 1], env);
    assert ps[1..] == [ps[1]] + Parts(s, m.end) && ps[1..][1..] == Parts(s, m.end);
    var rest := PartsValue(Parts(s, m.end), env);
    if v.Ok? && rest.Ok? {
      assert done + (s[at..m.start] + (v.value + rest.value)) == done + s[at..m.start] + v.value + rest.value;
    }
  }

  method SubstituteEnvVars(input: string, env: Env) returns (r: Outcome<string>)
    ensures r == Substituted(input, env)
  {
    hide FindHole, HoleValue, PartsValue, Parts;
    var result := [];
    var lastEnd := 0;
    var next := FindHole(input, 0);
    assert Resume([], Substituted(input, env)) == Substituted(input, env) by { NothingDone(Substituted(input, env)); }
    while next.Some?
      invariant 0 <= lastEnd <= |input| && next == FindHole(input, lastEnd)
      invariant Substituted(input, env) == Resume(result, PartsValue(Parts(input, lastEnd), env))
      decreases |input| - lastEnd
    {
      var m := next.value;
      OneHole(input, lastEnd, m, env, result);
      result := result + input[lastEnd..m.start];
      var val := HoleValue(input[m.start + 2..m.end - 1], env);
      if val.IsFailure() {
        return val.PropagateFailure();
      }
      result := result + val.value;
      lastEnd := m.end;
      next := FindHole(input, lastEnd);
    }
    LastGap(input, lastEnd, env);
    return Ok(result + input[lastEnd..]);
  }

  lemma {:induction false} NothingDone(r: Outcome<string>)
    ensures Resume([], r) == r
  {
    if r.Ok? { assert [] + r.value == r.value; }
  }

  lemma {:induction false} LastGap(s: string, at: nat, env: Env)
    requires at <= |s| && FindHole(s, at).None?
    ensures PartsValue(Parts(s, at), env) == Ok(s[at..])
  {
    var ps := Parts(s, at);
    assert ps[1..] == [] && s[at..] + [] == s[at..];
  }

  // ----- configuration trees -----

  datatype Value =
    | Str(text: string)
    | Array(items: seq<Value>)
    | Table(keys: seq<string>, items: seq<Value>)
    | Other(repr: string)

  function ValueSubstituted(v: Value, env: Env): Outcome<Value>
    decreases v
  {
    match v
    case Str(text) =>
      var s :- Substituted(text, env);
      Ok(Str(s))
    case Array(items) =>
      var vs :- ItemsSubstituted(items, env);
      Ok(Array(vs))
    case Table(keys, items) =>
      var vs :- ItemsSubstituted(items, env);
      Ok(Table(keys, vs))
    case Other(_) => Ok(v)
  }

  function ItemsSubstituted(vs: seq<Value>, env: Env): (r: Outcome<seq<Value>>)
    ensures r.Ok? ==> |r.value| == |vs|
    decreases vs
  {
    if vs == [] then Ok([])
    else
      var first :- ValueSubstituted(vs[0], env);
      var rest :- ItemsSubstituted(vs[1..], env);
      Ok([first] + rest)
  }

  /** `done` followed by the rest of the items. */
  ghost function ResumeItems(done: seq<Value>, rest: Outcome<seq<Value>>): Outcome<seq<Value>> {
    match rest
    case Ok(vs) => Ok(done + vs)
    case e => e
  }

  lemma {:induction false} OneItem(vs: seq<Value>, env: Env, done: seq<Value>)
    requires vs != []
    ensures match ValueSubstituted(vs[0], env)
            case Ok(v) => ResumeItems(done, ItemsSubstituted(vs, env)) == ResumeItems(done + [v], ItemsSubstituted(vs[1..], env))
            case Err(e) => ItemsSubstituted(vs, env) == Err(e)
            case Panic => ItemsSubstituted(vs, env) == Panic
  {
    hide ValueSubstituted;
    var first, rest := ValueSubstituted(vs[0], env), ItemsSubstituted(vs[1..], env);
    if first.Ok? && rest.Ok? {
      assert done + ([first.value] + rest.value) == done + [first.value] + rest.value;
    }
  }

  method SubstituteInValue(value: Value, env: Env) returns (r: Outcome<Value>)
    ensures r == ValueSubstituted(value, env)
    decreases value, 1
  {
    match value
    case Str(text) =>
      var s := SubstituteEnvVars(text, env);
      if s.IsFailure() {
        return s.PropagateFailure();
      }
      return Ok(Str(s.value));
    case Array(items) =>
      var vs := SubstituteItems(value, env);
      if vs.IsFailure() {
        return vs.PropagateFailure();
      }
      return Ok(Array(vs.value));
    case Table(keys, items) =>
      var vs := SubstituteItems(value, env);
      if vs.IsFailure() {
        return vs.PropagateFailure();
      }
      return Ok(Table(keys, vs.value));
    case Other(_) => return Ok(value);
  }

  method SubstituteItems(value: Value, env: Env) returns (r: Outcome<seq<Value>>)
    requires value.Array? || value.Table?
    ensures r == ItemsSubstituted(value.items, env)
    decreases value, 0
  {
    hide ValueSubstituted, ItemsSubstituted;
    var items := value.items;
    var done := [];
    var i := 0;
    StartItems(items, env);
    while i < |items|
      invariant 0 <= i <= |items|
      invariant ItemsSubstituted(items, env) == ResumeItems(done, ItemsSubstituted(items[i..], env))
    {
      assert items[i..][0] == items[i] && items[i..][1..] == items[i + 1..];
      OneItem(items[i..], env, done);
      var v := SubstituteInValue(items[i], env);
      if v.IsFailure() {
        return v.PropagateFailure();
      }
      done := done + [v.value];
      i := i + 1;
    }
    assert items[i..] == [];
    EndItems(env);
    assert done + [] == done;
    return Ok(done);
  }

  lemma {:induction false} StartItems(items: seq<Value>, env: Env)
    ensures ItemsSubstituted(items, env) == ResumeItems([], ItemsSubstituted(items[0..], env))
  {
    assert items[0..] == items;
    var r := ItemsSubstituted(items, env);
    if r.Ok? { assert [] + r.value == r.value; }
  }

  lemma {:induction false} EndItems(env: Env)
    ensures ItemsSubstituted([], env) == Ok([])
  {}

  // ----- what happens to the tree -----

  /** The node at a path of item positions. */
  function At(v: Value, path: seq<nat>): Option<Value>
    decreases |path|
  {
    if path == [] then Some(v)
    else if (v.Array? || v.Table?) && path[0] < |v.items| then At(v.items[path[0]], path[1..])
    else None
  }

  /** What a node becomes: strings are substituted, keys, sizes and other leaves stay. */
  predicate BecomesNode(before: Value, after: Value, env: Env) {
    match before
    case Str(text) => after.Str? && Substituted(text, env) == Ok(after.text)
    case Array(items) => after.Array? && |after.items| == |items|
    case Table(keys, items) => after.Table? && after.keys == keys && |after.items| == |items|
    case Other(_) => after == before
  }

  lemma {:induction false} ItemsAt(vs: seq<Value>, env: Env, i: nat)
    requires ItemsSubstituted(vs, env).Ok? && i < |vs|
    ensures ValueSubstituted(vs[i], env) == Ok(ItemsSubstituted(vs, env).value[i])
  {
    hide ValueSubstituted;
    if i > 0 { ItemsAt(vs[1..], env, i - 1); }
  }

  /** A substituted tree has the same paths, and at each of them the node the original one becomes. */
  lemma {:induction false} TreeKept(v: Value, env: Env, path: seq<nat>)
    requires ValueSubstituted(v, env).Ok?
    ensures var w := ValueSubstituted(v, env).value;
            && At(v, path).Some? == At(w, path).Some?
            && (At(v, path).Some? ==> BecomesNode(At(v, path).value, At(w, path).value, env))
    decreases |path|
  {
    hide Substituted;
    if path != [] && (v.Array? || v.Table?) && path[0] < |v.items| {
      ItemsAt(v.items, env, path[0]);
      TreeKept(v.items[path[0]], env, path[1..]);
    }
  }

  /** Every path to a string is a string that substitutes, exactly when the tree substitutes. */
  lemma {:induction false} TreeFailsIff(v: Value, env: Env)
    ensures ValueSubstituted(v, env).Ok? <==>
              forall path: seq<nat> | At(v, path).Some? && At(v, path).value.Str? :: Substituted(At(v, path).value.text, env).Ok?
    decreases v, 0
  {
    hide Substituted;
    if ValueSubstituted(v, env).Ok? {
      forall path: seq<nat> | At(v, path).Some? && At(v, path).value.Str? ensures Substituted(At(v, path).value.text, env).Ok? {
        TreeKept(v, env, path);
      }
    } else {
      var path := FailingPath(v, env);
    }
  }

  lemma {:induction false} FailingPath(v: Value, env: Env) returns (path: seq<nat>)
    requires !ValueSubstituted(v, env).Ok?
    ensures At(v, path).Some? && At(v, path).value.Str? && !Substituted(At(v, path).value.text, env).Ok?
    decreases v, 0
  {
    hide Substituted;
    if v.Str? {
      path := [];
    } else {
      var i := FailingItem(v.items, env);
      var rest := FailingPath(v.items[i], env);
      path := [i] + rest;
      assert path[1..] == rest;
    }
  }

  lemma {:induction false} FailingItem(vs: seq<Value>, env: Env) returns (i: nat)
    requires !ItemsSubstituted(vs, env).Ok?
    ensures i < |vs| && !ValueSubstituted(vs[i], env).Ok?
  {
    hide ValueSubstituted;
    if vs != [] {
      if !ValueSubstituted(vs[0], env).Ok? {
        i := 0;
      } else {
        var k := FailingItem(vs[1..], env);
        i := k + 1;
      }
    }
  }
}
