/** The final clean-up pass: its fixed points, and how many passes it takes to reach one. */
module Cleanup {
  import opened Text
  import opened Layout

  /** Never more than two newlines in a row, `run` newlines having come before. */
  predicate Capped(s: string, run: nat) {
    if s == [] then true
    else if s[0] == '\n' then run < 2 && Capped(s[1..], run + 1)
    else Capped(s[1..], 0)
  }

  /** No whitespace at the end of a line. */
  predicate NoTrail(s: string) {
    forall i :: 0 <= i < |s| && IsSpace(s[i]) && s[i] != '\n' ==> i + 1 < |s| && s[i + 1] != '\n'
  }

  /** One newline at the end, and nothing for the pass to remove. */
  predicate Settled(s: string) {
    EndsWith(s, "\n") && (s == "\n" || !EndsWith(s, "\n\n")) && Capped(s, 0) && NoTrail(s)
  }

  // ----- lines -----

  lemma {:induction false} JoinSplit(s: string)
    ensures JoinLines(SplitLines(s)) == s
  {
    if s != [] {
      var r := SplitLines(s[1..]);
      JoinSplit(s[1..]);
      if s[0] == '\n' {
        assert ([[]] + r)[1..] == r;
      } else {
        assert ([[s[0]] + r[0]] + r[1..])[1..] == r[1..];
      }
    }
  }

  lemma NoTrailTail(s: string)
    requires s != [] && NoTrail(s)
    ensures NoTrail(s[1..])
  {
    forall i | 0 <= i < |s[1..]| && IsSpace(s[1..][i]) && s[1..][i] != '\n'
      ensures i + 1 < |s[1..]| && s[1..][i + 1] != '\n'
    {
      assert s[i + 1] == s[1..][i];
    }
  }

  lemma {:induction false} FirstLineOf(s: string)
    ensures SplitLines(s)[0] <= s
    ensures SplitLines(s)[0] == s || (|SplitLines(s)[0]| < |s| && s[|SplitLines(s)[0]|] == '\n')
  {
    if s != [] && s[0] != '\n' {
      FirstLineOf(s[1..]);
      assert s == [s[0]] + s[1..];
    }
  }

  lemma {:induction false} TrimEndsNothing(s: string)
    requires NoTrail(s)
    ensures TrimEnds(SplitLines(s)) == SplitLines(s)
  {
    if s != [] {
      NoTrailTail(s);
      TrimEndsNothing(s[1..]);
      var r := SplitLines(s[1..]);
      FirstLineOf(s);
      var first := SplitLines(s)[0];
      if first != [] {
        assert first[|first| - 1] in first && s[|first| - 1] == first[|first| - 1];
      }
      assert SplitLines(s)[1..] == if s[0] == '\n' then r else r[1..];
      assert TrimEnds(r)[1..] == TrimEnds(r[1..]);
    }
  }

  lemma {:induction false} TrimEndsShorter(ls: seq<string>)
    ensures |JoinLines(TrimEnds(ls))| <= |JoinLines(ls)|
    ensures |JoinLines(TrimEnds(ls))| == |JoinLines(ls)| ==> TrimEnds(ls) == ls
  {
    if ls != [] {
      var b := TrimEndSplit(ls[0]);
      TrimEndsShorter(ls[1..]);
      assert TrimEnds(ls)[1..] == TrimEnds(ls[1..]);
      if |ls| == 1 { assert ls[1..] == []; }
      assert |TrimEnds(ls)| == 1 <==> |ls| == 1 by { TrimEndsLength(ls); }
      assert b == [] ==> ls[0] == TrimEnd(ls[0]);
      assert ls == [ls[0]] + ls[1..];
    }
  }

  lemma {:induction false} TrimEndsLength(ls: seq<string>)
    ensures |TrimEnds(ls)| == |ls|
    ensures forall k :: 0 <= k < |ls| ==> TrimEnds(ls)[k] == TrimEnd(ls[k])
  {
    if ls != [] { TrimEndsLength(ls[1..]); }
  }

  // ----- newline runs -----

  lemma {:induction false} CapShorter(s: string, run: nat)
    ensures |CapNewlines(s, run)| <= |s|
    ensures |CapNewlines(s, run)| == |s| ==> Capped(s, run)
  {
    if s != [] {
      CapShorter(s[1..], if s[0] == '\n' then run + 1 else 0);
    }
  }

  lemma {:induction false} CapNothing(s: string, run: nat)
    requires Capped(s, run)
    ensures CapNewlines(s, run) == s
  {
    if s != [] { CapNothing(s[1..], if s[0] == '\n' then run + 1 else 0); }
  }

  lemma {:induction false} CapCaps(s: string, run: nat, run': nat)
    requires run' == if run < 2 then run else 2
    ensures Capped(CapNewlines(s, run), run')
  {
    if s != [] {
      var rest := CapNewlines(s[1..], if s[0] == '\n' then run + 1 else 0);
      if s[0] == '\n' {
        if run + 1 <= 2 {
          CapCaps(s[1..], run + 1, run' + 1);
          assert ("\n" + rest)[1..] == rest;
        } else {
          CapCaps(s[1..], run + 1, run');
          assert [] + rest == rest;
        }
      } else {
        CapCaps(s[1..], 0, 0);
        assert ([s[0]] + rest)[1..] == rest;
      }
    }
  }

  lemma {:induction false} CappedPrefix(s: string, run: nat, n: nat)
    requires Capped(s, run) && n <= |s|
    ensures Capped(s[..n], run)
  {
    if n > 0 {
      assert s[..n][1..] == s[1..][..n - 1];
      CappedPrefix(s[1..], if s[0] == '\n' then run + 1 else 0, n - 1);
    }
  }

  lemma {:induction false} StripSplit(s: string)
    ensures StripNewlines(s) <= s
    ensures StripNewlines(s) != [] ==> !EndsWith(StripNewlines(s), "\n")
    ensures forall i :: |StripNewlines(s)| <= i < |s| ==> s[i] == '\n'
  {
    if s != [] && s[|s| - 1] == '\n' {
      StripSplit(s[..|s| - 1]);
    } else if s != [] {
      assert s[|s| - 1..] == [s[|s| - 1]];
    }
  }

  lemma EndsInNewline(s: string)
    ensures EndsWith(s, "\n") <==> s != [] && s[|s| - 1] == '\n'
  {
    if s != [] { assert s[|s| - 1..] == [s[|s| - 1]]; }
  }

  lemma EndsInTwo(s: string)
    ensures EndsWith(s, "\n\n") <==> |s| >= 2 && s[|s| - 1] == '\n' && s[|s| - 2] == '\n'
  {
    if |s| >= 2 { assert s[|s| - 2..] == [s[|s| - 2], s[|s| - 1]]; }
  }

  /** Adding one newline after a text that does not end in one. */
  lemma {:induction false} CappedAppend(s: string, run: nat)
    requires Capped(s, run) && (if s == [] then run < 2 else s[|s| - 1] != '\n')
    ensures Capped(s + "\n", run)
  {
    if s == [] {
      assert s + "\n" == "\n";
      assert "\n"[1..] == [];
    } else {
      assert (s + "\n")[1..] == s[1..] + "\n";
      var run' := if s[0] == '\n' then run + 1 else 0;
      CappedAppend(s[1..], run');
    }
  }

  // ----- fixed points -----

  /** On a text with no trailing whitespace and no long newline run, the pass only replaces the
      final newlines by exactly one. */
  lemma OnlyStrips(s: string)
    requires NoTrail(s) && Capped(s, 0)
    ensures PostProcess(s) == StripNewlines(s) + "\n"
  {
    CapNothing(s, 0);
    StripSplit(s);
    hide *;
    var t := StripNewlines(s);
    PostProcessOf(s, t);
    assert t == s[..|t|];
    NoTrailPrefix(s, |t|);
    TrimEndsNothing(t);
    JoinSplit(t);
  }

  lemma PostProcessOf(s: string, t: string)
    requires t == StripNewlines(CapNewlines(s, 0))
    ensures PostProcess(s) == JoinLines(TrimEnds(SplitLines(t))) + "\n"
  {}

  /** Cutting where only newlines follow. */
  lemma NoTrailPrefix(s: string, n: nat)
    requires NoTrail(s) && n <= |s| && forall i :: n <= i < |s| ==> s[i] == '\n'
    ensures NoTrail(s[..n])
  {
    var t := s[..n];
    forall i | 0 <= i < |t| && IsSpace(t[i]) && t[i] != '\n' ensures i + 1 < |t| && t[i + 1] != '\n' {
      assert s[i] == t[i];
      assert i + 1 < |s|;
      assert s[i + 1] == if i + 1 < n then t[i + 1] else '\n';
    }
  }

  lemma SettledIsFixed(s: string)
    requires Settled(s)
    ensures PostProcess(s) == s
  {
    OnlyStrips(s);
    EndsInNewline(s);
    EndsInTwo(s);
    var t := s[..|s| - 1];
    assert StripNewlines(s) == StripNewlines(t);
    if s == "\n" {
      assert t == [];
    } else {
      assert StripNewlines(t) == t;
    }
    assert s == t + "\n";
  }

  lemma {:induction false} JoinTrimmedNoTrail(ls: seq<string>)
    requires forall k :: 0 <= k < |ls| ==> '\n' !in ls[k] && (ls[k] != [] ==> !IsSpace(ls[k][|ls[k]| - 1]))
    ensures NoTrail(JoinLines(ls))
  {
    if |ls| > 1 {
      var rest := JoinLines(ls[1..]);
      JoinTrimmedNoTrail(ls[1..]);
      var s := ls[0] + "\n" + rest;
      var n := |ls[0]|;
      forall i | 0 <= i < |s| && IsSpace(s[i]) && s[i] != '\n' ensures i + 1 < |s| && s[i + 1] != '\n' {
        if i < n {
          assert s[i] == ls[0][i];
          if i + 1 < n { assert s[i + 1] == ls[0][i + 1]; }
        } else {
          assert s[i] == rest[i - n - 1];
          assert s[i + 1] == rest[i + 1 - n - 1];
        }
      }
    } else if |ls| == 1 {
      forall i | 0 <= i < |ls[0]| && IsSpace(ls[0][i]) && ls[0][i] != '\n' ensures i + 1 < |ls[0]| && ls[0][i + 1] != '\n' {}
    }
  }

  lemma NoTrailNewline(t: string)
    requires NoTrail(t)
    ensures NoTrail(t + "\n")
  {
    var s := t + "\n";
    forall i | 0 <= i < |s| && IsSpace(s[i]) && s[i] != '\n' ensures i + 1 < |s| && s[i + 1] != '\n' {
      assert s[i] == t[i];
      assert s[i + 1] == t[i + 1];
    }
  }

  /** The output never has whitespace at the end of a line, and always ends in a newline. */
  lemma OutputHasNoTrail(s: string)
    ensures NoTrail(PostProcess(s)) && EndsWith(PostProcess(s), "\n")
  {
    var ls := SplitLines(StripNewlines(CapNewlines(s, 0)));
    var ts := TrimEnds(ls);
    TrimEndsLength(ls);
    forall k | 0 <= k < |ts| ensures '\n' !in ts[k] && (ts[k] != [] ==> !IsSpace(ts[k][|ts[k]| - 1])) {
      var b := TrimEndSplit(ls[k]);
    }
    JoinTrimmedNoTrail(ts);
    NoTrailNewline(JoinLines(ts));
    EndsInNewline(PostProcess(s));
  }

  /** The output is shorter than the input unless there is nothing to remove. */
  lemma {:induction false} OutputParts(s: string)
    requires s != [] && s[|s| - 1] == '\n'
    ensures var c := CapNewlines(s, 0);
            var t := StripNewlines(c);
            && |c| <= |s| && |t| < |c| && |PostProcess(s)| <= |t| + 1
            && (|c| == |s| ==> c == s)
            && (|c| == |s| ==> Capped(s, 0))
  {
    var c := CapNewlines(s, 0);
    var t := StripNewlines(c);
    CapShorter(s, 0);
    CapEnds(s, 0);
    if Capped(s, 0) { CapNothing(s, 0); }
    StripSplit(c);
    EndsInNewline(t);
    PostProcessOf(s, t);
    hide PostProcess, CapNewlines, StripNewlines, SplitLines, JoinLines, TrimEnds, Capped, EndsWith;
    TrimEndsShorter(SplitLines(t));
    JoinSplit(t);
    assert t <= c && t != c;
  }

  lemma {:induction false} OutputLength(s: string)
    requires s != [] && s[|s| - 1] == '\n'
    ensures |PostProcess(s)| <= |s|
    ensures |PostProcess(s)| == |s| ==> Capped(s, 0) && |StripNewlines(s)| == |s| - 1
  {
    hide *;
    OutputParts(s);
  }

  lemma FixedIsSettled(s: string)
    requires PostProcess(s) == s
    ensures Settled(s)
  {
    hide PostProcess, NoTrail;
    OutputHasNoTrail(s);
    EndsInNewline(s);
    OutputLength(s);
    EndsInTwo(s);
    StripSplit(s);
    var t := StripNewlines(s);
    EndsInNewline(t);
    assert t == s[..|s| - 1];
  }

  /** Clean-up leaves a text alone exactly when it has one final newline, no trailing whitespace
      and no run of three newlines. */
  lemma FixedIffSettled(s: string)
    ensures PostProcess(s) == s <==> Settled(s)
  {
    if Settled(s) { SettledIsFixed(s); }
    if PostProcess(s) == s { FixedIsSettled(s); }
  }

  lemma {:induction false} CapTurn(s: string, run: nat)
    requires s != []
    ensures CapNewlines(s, run)
         == if s[0] == '\n' then (if run + 1 <= 2 then "\n" else []) + CapNewlines(s[1..], run + 1)
            else [s[0]] + CapNewlines(s[1..], 0)
    ensures CapNewlines([], run) == []
  {}

  lemma {:induction false} CapEnds(s: string, run: nat)
    requires s != [] && s[|s| - 1] == '\n'
    ensures var c := CapNewlines(s, run); c == [] || c[|c| - 1] == '\n'
    ensures run < 2 ==> CapNewlines(s, run) != []
  {
    hide CapNewlines;
    CapTurn(s, run);
    var run' := if s[0] == '\n' then run + 1 else 0;
    if |s| > 1 {
      CapEnds(s[1..], run');
    } else {
      assert s[1..] == [];
      CapTurn(s, run');
    }
  }

  // ----- stabilisation -----

  lemma {:induction false} CapNoTrail(s: string, run: nat)
    requires NoTrail(s)
    ensures NoTrail(CapNewlines(s, run))
    ensures s != [] && s[0] != '\n' ==> CapNewlines(s, run) != [] && CapNewlines(s, run)[0] == s[0]
  {
    if s != [] {
      NoTrailTail(s);
      var run' := if s[0] == '\n' then run + 1 else 0;
      CapNoTrail(s[1..], run');
      var rest := CapNewlines(s[1..], run');
      var c := CapNewlines(s, run);
      if s[0] == '\n' && run + 1 > 2 {
        assert c == rest;
      } else {
        assert c == [s[0]] + rest;
        forall i | 0 <= i < |c| && IsSpace(c[i]) && c[i] != '\n' ensures i + 1 < |c| && c[i + 1] != '\n' {
          if i == 0 {
            assert s[1..][0] == s[1];
          } else {
            assert c[i] == rest[i - 1];
            assert c[i + 1] == rest[i];
          }
        }
      }
    }
  }

  /** Two passes settle every text. */
  lemma TwoPassesSettle(s: string)
    ensures Settled(PostProcess(PostProcess(s)))
  {
    var o := PostProcess(s);
    OutputHasNoTrail(s);
    SettledAfterCap(o);
  }

  lemma SettledAfterCap(o: string)
    requires NoTrail(o)
    ensures Settled(PostProcess(o))
  {
    var c := CapNewlines(o, 0);
    CapNoTrail(o, 0);
    CapCaps(o, 0, 0);
    CapNothing(c, 0);
    OnlyStrips(c);
    assert PostProcess(o) == PostProcess(c);
    var t := StripNewlines(c);
    StripSplit(c);
    CappedPrefix(c, 0, |t|);
    assert c[..|t|] == t;
    if t != [] { EndsInNewline(t); }
    CappedAppend(t, 0);
    OutputHasNoTrail(o);
    EndsInTwo(t + "\n");
    if t == [] { assert t + "\n" == "\n"; }
  }

  /** A third pass never changes anything. */
  lemma ThirdPassIdle(s: string)
    ensures PostProcess(PostProcess(PostProcess(s))) == PostProcess(PostProcess(s))
  {
    TwoPassesSettle(s);
    SettledIsFixed(PostProcess(PostProcess(s)));
  }

  // ----- one pass -----

  /** No blank last line and no two blank lines in a row, the first line set aside. */
  predicate Calm(ls: seq<string>) {
    && (|ls| > 1 ==> !Blank(ls[|ls| - 1]))
    && forall i :: 1 <= i < |ls| - 1 ==> !(Blank(ls[i]) && Blank(ls[i + 1]))
  }

  /** Newlines before each line, counted: `run` before the first. */
  predicate CalmFrom(ls: seq<string>, run: nat) {
    if ls == [] then true
    else if ls[0] == [] then run < 2 && CalmFrom(ls[1..], run + 1)
    else CalmFrom(ls[1..], 1)
  }

  lemma {:induction false} CappedLine(l: string, rest: string, run: nat)
    requires '\n' !in l
    ensures Capped(l + "\n" + rest, run) == if l == [] then run < 2 && Capped(rest, run + 1) else Capped(rest, 1)
  {
    var s := l + "\n" + rest;
    if l == [] {
      assert s[1..] == rest;
    } else {
      assert l[0] in l;
      assert s[1..] == l[1..] + "\n" + rest;
      CappedLine(l[1..], rest, 0);
    }
  }

  lemma {:induction false} CappedJoin(ls: seq<string>, run: nat)
    requires ls != [] && forall k :: 0 <= k < |ls| ==> '\n' !in ls[k]
    ensures Capped(JoinLines(ls) + "\n", run) == CalmFrom(ls, run)
  {
    if |ls| == 1 {
      assert ls[0] + "\n" == ls[0] + "\n" + [];
      CappedLine(ls[0], [], run);
      assert ls[1..] == [];
    } else {
      var rest := JoinLines(ls[1..]);
      assert JoinLines(ls) + "\n" == ls[0] + "\n" + (rest + "\n");
      CappedLine(ls[0], rest + "\n", run);
      CappedJoin(ls[1..], if ls[0] == [] then run + 1 else 1);
    }
  }

  predicate NoPair(ls: seq<string>) {
    forall i :: 0 <= i < |ls| - 1 ==> !(ls[i] == [] && ls[i + 1] == [])
  }

  lemma {:induction false} CalmFromMeans(ls: seq<string>, run: nat)
    requires 1 <= run <= 2
    ensures CalmFrom(ls, run) <==> (NoPair(ls) && (run == 2 && ls != [] ==> ls[0] != []))
  {
    if ls != [] {
      CalmFromMeans(ls[1..], if ls[0] == [] then if run < 2 then run + 1 else 2 else 1);
      assert NoPair(ls) <==> NoPair(ls[1..]) && (|ls| > 1 ==> !(ls[0] == [] && ls[1] == [])) by {
        if NoPair(ls) {
          forall i | 0 <= i < |ls[1..]| - 1 ensures !(ls[1..][i] == [] && ls[1..][i + 1] == []) {
            assert !(ls[i + 1] == [] && ls[i + 1 + 1] == []);
          }
        }
        if NoPair(ls[1..]) && (|ls| > 1 ==> !(ls[0] == [] && ls[1] == [])) {
          forall i | 1 <= i < |ls| - 1 ensures !(ls[i] == [] && ls[i + 1] == []) {
            assert ls[i] == ls[1..][i - 1] && ls[i + 1] == ls[1..][i];
          }
        }
      }
    }
  }

  lemma {:induction false} JoinLast(ls: seq<string>)
    requires ls != [] && forall k :: 0 <= k < |ls| ==> '\n' !in ls[k]
    ensures var s := JoinLines(ls) + "\n";
            (s == "\n" || !EndsWith(s, "\n\n")) <==> (|ls| > 1 ==> ls[|ls| - 1] != [])
  {
    var t := JoinLines(ls);
    EndsInTwo(t + "\n");
    if |ls| == 1 {
      if t != [] { assert t[|t| - 1] in ls[0]; }
    } else {
      JoinLast(ls[1..]);
      var rest := JoinLines(ls[1..]);
      EndsInTwo(rest + "\n");
      assert t == ls[0] + "\n" + rest;
      assert ls[1..][|ls| - 2] == ls[|ls| - 1];
      if rest == [] {
        assert ls[1..] == [[]] by { JoinEmpty(ls[1..]); }
      } else {
        assert t[|t| - 1] == rest[|rest| - 1];
        if |ls| == 2 { assert rest == ls[1]; assert rest[|rest| - 1] in ls[1]; }
      }
    }
  }

  lemma JoinEmpty(ls: seq<string>)
    requires ls != [] && JoinLines(ls) == []
    ensures ls == [[]]
  {}

  lemma BlankLineTrims(l: string)
    ensures TrimEnd(l) == [] <==> Blank(l)
  {
    var b := TrimEndSplit(l);
    if Blank(l) { TrimEndOf([], l); assert [] + l == l; }
    if TrimEnd(l) == [] { assert l == b; }
  }

  /** One pass suffices exactly when, once newline runs are capped and the final newlines dropped,
      the last line is not blank and no two blank lines follow the first line in a row. */
  lemma OnePassIff(s: string)
    ensures PostProcess(PostProcess(s)) == PostProcess(s)
       <==> Calm(SplitLines(StripNewlines(CapNewlines(s, 0))))
  {
    var t := StripNewlines(CapNewlines(s, 0));
    var ls := SplitLines(t);
    var ts := TrimEnds(ls);
    PostProcessOf(s, t);
    OutputHasNoTrail(s);
    FixedIffSettled(PostProcess(s));
    TrimEndsLength(ls);
    hide SplitLines, TrimEnds, PostProcess, NoTrail, TrimEnd, Blank, CapNewlines, StripNewlines, JoinLines;
    forall k | 0 <= k < |ts| ensures '\n' !in ts[k] && (ts[k] == [] <==> Blank(ls[k])) {
      var b := TrimEndSplit(ls[k]);
      BlankLineTrims(ls[k]);
    }
    CappedJoin(ts, 0);
    JoinLast(ts);
    CalmFromMeans(ts[1..], 1);
    CalmTail(ts, ls);
  }

  lemma CalmTail(ts: seq<string>, ls: seq<string>)
    requires |ts| == |ls| > 0 && forall k :: 0 <= k < |ts| ==> (ts[k] == [] <==> Blank(ls[k]))
    ensures Calm(ls) <==> (NoPair(ts[1..]) && (|ts| > 1 ==> ts[|ts| - 1] != []))
  {
    hide Blank;
    forall i | 1 <= i < |ts| - 1 ensures ts[1..][i - 1] == ts[i] && ts[1..][i] == ts[i + 1] {}
    if NoPair(ts[1..]) {
      forall i | 1 <= i < |ls| - 1 ensures !(Blank(ls[i]) && Blank(ls[i + 1])) {
        assert !(ts[1..][i - 1] == [] && ts[1..][i - 1 + 1] == []);
      }
    }
    if Calm(ls) {
      forall i | 0 <= i < |ts[1..]| - 1 ensures !(ts[1..][i] == [] && ts[1..][i + 1] == []) {
        assert !(Blank(ls[i + 1]) && Blank(ls[i + 1 + 1]));
      }
    }
  }

  // ----- texts without blank but non-empty lines -----

  predicate LineOk(l: string) { Blank(l) ==> l == [] }

  /** No line is non-empty but all whitespace. */
  predicate NoBlankLine(s: string) { forall l <- SplitLines(s) :: LineOk(l) }

  lemma {:induction false} SplitTurn(s: string)
    requires s != []
    ensures var r := SplitLines(s[1..]);
            SplitLines(s) == if s[0] == '\n' then [[]] + r else [[s[0]] + r[0]] + r[1..]
    ensures SplitLines([]) == [[]]
  {}

  lemma {:induction false} NothingIsOk()
    ensures LineOk([])
  {}

  lemma {:induction false} LinesHead(s: string)
    ensures NoBlankLine(s) <==> LineOk(SplitLines(s)[0]) && forall l <- SplitLines(s)[1..] :: LineOk(l)
  {
    hide SplitLines, LineOk;
    var r := SplitLines(s);
    forall l ensures l in r <==> l == r[0] || l in r[1..] {}
  }

  /** Capping keeps the first line and makes no line blank; `c` is a line's tail with its head cut off. */
  lemma {:induction false} CapFirstLine(s: string, run: nat)
    requires run < 2
    ensures SplitLines(CapNewlines(s, run))[0] == SplitLines(s)[0]
  {
    hide SplitLines;
    if s != [] {
      CapTurnOf(s, run);
      SplitTurn(s);
      SplitTurn(CapNewlines(s, run));
      var rest := CapNewlines(s[1..], if s[0] == '\n' then run + 1 else 0);
      assert CapNewlines(s, run)[1..] == rest && CapNewlines(s, run)[0] == s[0];
      if s[0] != '\n' { CapFirstLine(s[1..], 0); }
    }
  }

  lemma {:induction false} CapTurnOf(s: string, run: nat)
    requires s != []
    ensures CapNewlines(s, run)
         == (if s[0] == '\n' && run + 1 > 2 then [] else [s[0]]) + CapNewlines(s[1..], if s[0] == '\n' then run + 1 else 0)
  {
    CapTurn(s, run);
  }

  /** Every line after the first is acceptable. */
  predicate TailOk(s: string) { forall l <- SplitLines(s)[1..] :: LineOk(l) }

  lemma {:induction false} TailTurn(s: string)
    requires s != []
    ensures TailOk(s) <==> TailOk(s[1..]) && (s[0] == '\n' ==> LineOk(SplitLines(s[1..])[0]))
  {
    SplitTurn(s);
    LinesHead(s[1..]);
    hide SplitLines, LineOk;
    var r := SplitLines(s[1..]);
    if s[0] == '\n' { assert ([[]] + r)[1..] == r; } else { assert ([[s[0]] + r[0]] + r[1..])[1..] == r[1..]; }
  }

  lemma {:induction false} CapTail(s: string, run: nat)
    requires TailOk(s)
    ensures TailOk(CapNewlines(s, run))
    ensures run >= 2 && LineOk(SplitLines(s)[0]) ==> LineOk(SplitLines(CapNewlines(s, run))[0])
  {
    hide SplitLines, LineOk, TailOk;
    if s != [] {
      TailTurn(s);
      SplitTurn(s);
      CapTurnOf(s, run);
      var run' := if s[0] == '\n' then run + 1 else 0;
      var rest := CapNewlines(s[1..], run');
      var c := CapNewlines(s, run);
      CapTail(s[1..], run');
      if run' < 2 { CapFirstLine(s[1..], run'); }
      if s[0] == '\n' && run + 1 > 2 {
        assert c == rest;
      } else {
        assert c == [s[0]] + rest && c[1..] == rest && c[0] == s[0];
        TailTurn(c);
        SplitTurn(c);
        NothingIsOk();
      }
    }
  }

  lemma {:induction false} BeforeBreak(s: string)
    ensures SplitLines(s + "\n") == SplitLines(s) + [[]]
  {
    hide SplitLines;
    SplitTurn(s + "\n");
    if s == [] {
      assert s + "\n" == "\n" && "\n"[1..] == [];
      SplitTurn("\n");
    } else {
      assert (s + "\n")[1..] == s[1..] + "\n";
      SplitTurn(s);
      BeforeBreak(s[1..]);
      var r := SplitLines(s[1..]);
      assert (r + [[]])[0] == r[0] && (r + [[]])[1..] == r[1..] + [[]];
    }
  }

  lemma {:induction false} StripLines(s: string)
    requires NoBlankLine(s)
    ensures NoBlankLine(StripNewlines(s))
  {
    if s != [] && s[|s| - 1] == '\n' {
      var t := s[..|s| - 1];
      assert s == t + "\n";
      BeforeBreak(t);
      hide SplitLines, LineOk;
      forall l | l in SplitLines(t) ensures LineOk(l) { assert l in SplitLines(s); }
      StripLines(t);
    }
  }

  lemma {:induction false} CappedText(s: string)
    ensures var t := StripNewlines(CapNewlines(s, 0));
            Capped(t + "\n", 0) && (t == [] || t[|t| - 1] != '\n')
  {
    var c := CapNewlines(s, 0);
    CapCaps(s, 0, 0);
    StripSplit(c);
    var t := StripNewlines(c);
    EndsInNewline(t);
    CappedPrefix(c, 0, |t|);
    assert c[..|t|] == t;
    CappedAppend(t, 0);
  }

  lemma {:induction false} CleanedLines(s: string)
    requires NoBlankLine(s)
    ensures NoBlankLine(StripNewlines(CapNewlines(s, 0)))
  {
    LinesHead(s);
    CapTail(s, 0);
    CapFirstLine(s, 0);
    LinesHead(CapNewlines(s, 0));
    hide SplitLines, LineOk, StripNewlines;
    StripLines(CapNewlines(s, 0));
  }

  lemma {:induction false} CalmText(t: string)
    requires NoBlankLine(t) && Capped(t + "\n", 0) && (t == [] || t[|t| - 1] != '\n')
    ensures Calm(SplitLines(t))
  {
    var ls := SplitLines(t);
    JoinSplit(t);
    EndsInTwo(t + "\n");
    hide SplitLines, JoinLines, Calm, NoPair;
    CappedJoin(ls, 0);
    JoinLast(ls);
    CalmFromMeans(ls[1..], 1);
    assert t == [] ==> t + "\n" == "\n";
    assert CalmFrom(ls[1..], 1);
    forall k | 0 <= k < |ls| ensures ls[k] == [] <==> Blank(ls[k]) { assert ls[k] in ls; assert LineOk(ls[k]); }
    CalmTail(ls, ls);
  }

  /** One pass suffices on every text in which no line is non-empty but all whitespace. */
  lemma {:induction false} OnePassEnough(s: string)
    requires NoBlankLine(s)
    ensures PostProcess(PostProcess(s)) == PostProcess(s)
  {
    hide *;
    CappedText(s);
    CleanedLines(s);
    CalmText(StripNewlines(CapNewlines(s, 0)));
    OnePassIff(s);
  }
}
