/** Text with nothing for the clean-up to change, and the clean-up of one piece of a page. */
module Neatness {
  import opened Text
  import opened Layout
  import opened Cleanup

  // ----- no space before a line break, no three line breaks -----

  predicate NoSpaceAtBreak(s: string) {
    forall i :: 0 <= i < |s| - 1 && IsSpace(s[i]) && s[i] != '\n' ==> s[i + 1] != '\n'
  }

  predicate NoTriple(s: string) {
    forall i :: 0 <= i < |s| - 2 && s[i] == '\n' && s[i + 1] == '\n' ==> s[i + 2] != '\n'
  }

  predicate Neat(s: string) { NoSpaceAtBreak(s) && NoTriple(s) }

  predicate Firm(s: string) { s != [] && !IsSpace(s[0]) && !IsSpace(s[|s| - 1]) }

  lemma {:induction false} NeatJoin(a: string, b: string)
    requires Neat(a) && Neat(b)
    requires a == [] || b == [] || !IsSpace(a[|a| - 1]) || !IsSpace(b[0])
    ensures Neat(a + b)
  {
    var s, n := a + b, |a|;
    if a == [] || b == [] { assert s == a || s == b; return; }
    forall i | 0 <= i < |s| - 1 && IsSpace(s[i]) && s[i] != '\n' ensures s[i + 1] != '\n' {
      if i + 1 < n {
        assert a[i] == s[i] && a[i + 1] == s[i + 1];
      } else if i >= n {
        assert b[i - n] == s[i] && b[i - n + 1] == s[i + 1];
      }
    }
    forall i | 0 <= i < |s| - 2 && s[i] == '\n' && s[i + 1] == '\n' ensures s[i + 2] != '\n' {
      if i + 2 < n {
        assert a[i] == s[i] && a[i + 1] == s[i + 1] && a[i + 2] == s[i + 2];
      } else if i >= n {
        assert b[i - n] == s[i] && b[i - n + 1] == s[i + 1] && b[i - n + 2] == s[i + 2];
      } else {
        assert s[n - 1] == a[n - 1] && s[n] == b[0];
      }
    }
  }

  lemma {:induction false} NeatOneLine(s: string)
    requires '\n' !in s
    ensures Neat(s)
  {}

  lemma {:induction false} NeatBreak(w: string)
    requires forall c <- w :: c == ' '
    ensures Neat("\n" + w)
  {
    var s := "\n" + w;
    forall i | 1 <= i < |s| ensures s[i] == ' ' { assert s[i] == w[i - 1] && w[i - 1] in w; }
  }

  /** A neat text with one final line break is left alone by the clean-up. */
  lemma {:induction false} NeatSettled(t: string)
    requires Neat(t + "\n") && (t != [] ==> t[|t| - 1] != '\n')
    ensures Settled(t + "\n")
  {
    var s := t + "\n";
    EndsInNewline(s);
    EndsInTwo(s);
    NeatCapped(s, 0);
    forall i | 0 <= i < |s| && IsSpace(s[i]) && s[i] != '\n' ensures i + 1 < |s| && s[i + 1] != '\n' {}
  }

  lemma {:induction false} NeatCapped(s: string, run: nat)
    requires NoTriple(s) && run <= 2
    requires run == 2 ==> s == [] || s[0] != '\n'
    requires run == 1 ==> |s| < 2 || s[0] != '\n' || s[1] != '\n'
    ensures Capped(s, run)
  {
    if s != [] {
      forall i | 0 <= i < |s[1..]| - 2 && s[1..][i] == '\n' && s[1..][i + 1] == '\n' ensures s[1..][i + 2] != '\n' {
        assert s[i + 1] == '\n' && s[i + 1 + 1] == '\n';
      }
      if |s| >= 3 && run == 0 && s[0] == '\n' && s[1] == '\n' { assert s[0 + 2] != '\n'; }
      NeatCapped(s[1..], if s[0] == '\n' then run + 1 else 0);
    }
  }

  // ----- the clean-up only sees the final newlines -----

  lemma {:induction false} StripAppend(x: string, a: string, b: string)
    requires StripNewlines(a) == StripNewlines(b)
    ensures StripNewlines(x + a) == StripNewlines(x + b)
  {
    StripBoth(x, a);
    StripBoth(x, b);
  }

  lemma {:induction false} StripBoth(x: string, a: string)
    ensures StripNewlines(x + a) == if StripNewlines(a) == [] then StripNewlines(x) else x + StripNewlines(a)
    decreases |a|
  {
    if a == [] {
      assert x + a == x;
    } else if a[|a| - 1] == '\n' {
      assert (x + a)[..|x + a| - 1] == x + a[..|a| - 1];
      StripBoth(x, a[..|a| - 1]);
    }
  }

  lemma {:induction false} CapDropsLast(s: string, run: nat)
    ensures StripNewlines(CapNewlines(s + "\n", run)) == StripNewlines(CapNewlines(s, run))
  {
    if s == [] {
      assert s + "\n" == "\n" && "\n"[1..] == [];
    } else {
      assert (s + "\n")[1..] == s[1..] + "\n";
      var run' := if s[0] == '\n' then run + 1 else 0;
      CapDropsLast(s[1..], run');
      var x := if s[0] == '\n' then (if run + 1 <= 2 then "\n" else []) else [s[0]];
      StripAppend(x, CapNewlines(s[1..] + "\n", run'), CapNewlines(s[1..], run'));
    }
  }

  lemma {:induction false} PostDropsLast(s: string)
    ensures PostProcess(s + "\n") == PostProcess(s)
  {
    hide CapNewlines, StripNewlines, SplitLines, TrimEnds, JoinLines;
    CapDropsLast(s, 0);
  }

  lemma {:induction false} PostStripped(s: string)
    ensures PostProcess(s) == PostProcess(StripNewlines(s))
  {
    if s != [] && s[|s| - 1] == '\n' {
      hide PostProcess;
      var t := s[..|s| - 1];
      assert s == t + "\n";
      PostDropsLast(t);
      PostStripped(t);
    }
  }

  // ----- dropping whitespace before line breaks -----

  /** Only whitespace up to a line break. */
  predicate ToBreak(s: string) { s != [] && (s[0] == '\n' || (IsSpace(s[0]) && ToBreak(s[1..]))) }

  function DropTrailing(s: string): string {
    if s == [] then [] else (if s[0] != '\n' && ToBreak(s) then [] else [s[0]]) + DropTrailing(s[1..])
  }

  lemma {:induction false} DropTurn(s: string)
    requires s != []
    ensures DropTrailing(s) == (if s[0] != '\n' && ToBreak(s) then [] else [s[0]]) + DropTrailing(s[1..])
    ensures DropTrailing([]) == []
  {}

  /** The pieces do not meet in whitespace. */
  predicate Joint(a: string, b: string) { a == [] || b == [] || !IsSpace(a[|a| - 1]) || !IsSpace(b[0]) }

  lemma {:induction false} ToBreakJoin(a: string, b: string)
    requires a != [] && Joint(a, b)
    ensures ToBreak(a + b) == ToBreak(a)
  {
    var s := a + b;
    assert s[0] == a[0] && s[1..] == a[1..] + b;
    if |a| > 1 {
      ToBreakJoin(a[1..], b);
    } else {
      assert a[1..] == [] && s[1..] == b;
    }
  }

  lemma {:induction false} JointTail(a: string, b: string)
    requires a != [] && Joint(a, b)
    ensures Joint(a[1..], b) && (a + b)[1..] == a[1..] + b && (a + b)[0] == a[0]
  {}

  lemma {:induction false} DropJoin(a: string, b: string)
    requires Joint(a, b)
    ensures DropTrailing(a + b) == DropTrailing(a) + DropTrailing(b)
  {
    if a == [] {
      assert a + b == b;
    } else {
      hide *;
      ToBreakJoin(a, b);
      DropTurn(a);
      DropTurn(a + b);
      JointTail(a, b);
      DropJoin(a[1..], b);
      var x := if a[0] != '\n' && ToBreak(a) then [] else [a[0]];
      assert x + (DropTrailing(a[1..]) + DropTrailing(b)) == x + DropTrailing(a[1..]) + DropTrailing(b);
    }
  }

  lemma {:induction false} ToBreakIsBlank(s: string)
    ensures ToBreak(s + "\n") <==> Blank(SplitLines(s)[0])
  {
    hide SplitLines;
    SplitTurn(if s == [] then "x" else s);
    if s == [] {
      assert s + "\n" == "\n";
    } else {
      assert (s + "\n")[0] == s[0] && (s + "\n")[1..] == s[1..] + "\n";
      ToBreakIsBlank(s[1..]);
      var r0 := SplitLines(s[1..])[0];
      if s[0] != '\n' {
        assert Blank([s[0]] + r0) <==> IsSpace(s[0]) && Blank(r0) by {
          if Blank([s[0]] + r0) {
            forall i | 0 <= i < |r0| ensures IsSpace(r0[i]) { assert ([s[0]] + r0)[i + 1] == r0[i]; }
            assert ([s[0]] + r0)[0] == s[0];
          }
        }
      }
    }
  }

  lemma {:induction false} TrimEndHead(c: char, l: string)
    ensures TrimEnd([c] + l) == if IsSpace(c) && Blank(l) then [] else [c] + TrimEnd(l)
  {
    var b := TrimEndSplit(l);
    var t := TrimEnd(l);
    BlankLineTrims(l);
    if t == [] {
      if IsSpace(c) {
        BlankLineTrims([c] + l);
      } else {
        TrimEndOf([c], l);
      }
    } else {
      assert [c] + l == ([c] + t) + b;
      TrimEndOf([c] + t, b);
    }
  }

  lemma {:induction false} JoinHead(l: string, ls: seq<string>)
    ensures JoinLines([l] + ls) == if ls == [] then l else l + "\n" + JoinLines(ls)
  {
    assert ([l] + ls)[1..] == ls;
  }

  lemma {:induction false} TrimEndsHead(l: string, ls: seq<string>)
    ensures TrimEnds([l] + ls) == [TrimEnd(l)] + TrimEnds(ls) && (TrimEnds(ls) == [] <==> ls == [])
  {
    assert ([l] + ls)[1..] == ls;
  }

  /** Trimming every line on the right is dropping the whitespace before its line break. */
  lemma {:induction false} TrimmedLines(s: string)
    ensures JoinLines(TrimEnds(SplitLines(s))) + "\n" == DropTrailing(s + "\n")
  {
    ToBreakIsBlank(s);
    hide SplitLines, JoinLines, TrimEnds, ToBreak, TrimEnd, Blank, DropTrailing;
    DropTurn(s + "\n");
    SplitTurn(if s == [] then "x" else s);
    if s == [] {
      var one: seq<string> := [[]];
      assert s + "\n" == "\n" && "\n"[1..] == [] && SplitLines(s) == one && one + [] == one;
      TrimEndsHead([], []);
      NothingTrimsEnd();
      JoinHead([], []);
      NoLines();
    } else {
      assert (s + "\n")[0] == s[0] && (s + "\n")[1..] == s[1..] + "\n";
      TrimmedLines(s[1..]);
      var r := SplitLines(s[1..]);
      assert r == [r[0]] + r[1..];
      TrimEndsHead(r[0], r[1..]);
      JoinHead(TrimEnd(r[0]), TrimEnds(r[1..]));
      if s[0] == '\n' {
        TrimEndsHead([], r);
        NothingTrimsEnd();
        JoinHead([], TrimEnds(r));
      } else {
        TrimEndsHead([s[0]] + r[0], r[1..]);
        TrimEndHead(s[0], r[0]);
        JoinHead(TrimEnd([s[0]] + r[0]), TrimEnds(r[1..]));
        BlankHead(s[0], r[0]);
        SplitTurn(s);
        BlankLineTrims(r[0]);
      }
    }
  }

  lemma {:induction false} BlankHead(c: char, l: string)
    ensures Blank([c] + l) <==> IsSpace(c) && Blank(l)
  {
    if Blank([c] + l) {
      forall i | 0 <= i < |l| ensures IsSpace(l[i]) { assert ([c] + l)[i + 1] == l[i]; }
      assert ([c] + l)[0] == c;
    }
  }

  lemma {:induction false} NothingTrimsEnd()
    ensures TrimEnd([]) == []
  {}

  lemma {:induction false} NoLines()
    ensures TrimEnds([]) == [] && JoinLines([]) == []
  {}

  // ----- capping newlines piece by piece -----

  lemma {:induction false} CapFresh(b: string, run: nat)
    requires b == [] || b[0] != '\n'
    ensures CapNewlines(b, run) == CapNewlines(b, 0)
  {}

  lemma {:induction false} CapJoin(a: string, b: string, run: nat)
    requires b == [] || b[0] != '\n' || (a != [] && a[|a| - 1] != '\n')
    ensures CapNewlines(a + b, run) == CapNewlines(a, run) + CapNewlines(b, 0)
  {
    if a == [] {
      assert a + b == b;
      CapFresh(b, run);
    } else {
      hide CapNewlines;
      assert (a + b)[1..] == a[1..] + b && (a + b)[0] == a[0];
      CapTurnOf(a, run);
      CapTurnOf(a + b, run);
      var run' := if a[0] == '\n' then run + 1 else 0;
      if |a| > 1 || b == [] || b[0] != '\n' {
        CapJoin(a[1..], b, run');
      } else {
        assert a[1..] == [] && a[1..] + b == b;
        CapNothingAt(run');
      }
    }
  }

  lemma {:induction false} CapNothingAt(run: nat)
    ensures CapNewlines([], run) == []
  {}

  lemma {:induction false} CapKeepsEnds(c: string, run: nat)
    requires c != []
    ensures c[0] != '\n' ==> CapNewlines(c, run) != [] && CapNewlines(c, run)[0] == c[0]
    ensures c[|c| - 1] != '\n' ==> CapNewlines(c, run) != [] && CapNewlines(c, run)[|CapNewlines(c, run)| - 1] == c[|c| - 1]
  {
    hide CapNewlines;
    CapTurnOf(c, run);
    var run' := if c[0] == '\n' then run + 1 else 0;
    if |c| > 1 { CapKeepsEnds(c[1..], run'); } else { assert c[1..] == []; CapNothingAt(run'); }
  }

  // ----- the clean-up of a piece -----

  /** What the clean-up leaves of a piece of the page that does not meet its surroundings in whitespace. */
  function Polished(s: string): string { DropTrailing(CapNewlines(s, 0)) }

  lemma {:induction false} PostProcessIs(s: string)
    ensures PostProcess(s) == DropTrailing(StripNewlines(CapNewlines(s, 0)) + "\n")
  {
    var t := StripNewlines(CapNewlines(s, 0));
    PostProcessOf(s, t);
    TrimmedLines(t);
  }

  lemma {:induction false} StripBehind(x: string, y: string)
    requires x != [] && x[|x| - 1] != '\n'
    ensures StripNewlines(x + y) == x + StripNewlines(y)
  {
    StripBoth(x, y);
    if StripNewlines(y) == [] { assert x + [] == x; }
  }

  lemma {:induction false} CapFirm(c: string)
    requires Firm(c)
    ensures Firm(CapNewlines(c, 0))
  {
    CapKeepsEnds(c, 0);
  }

  lemma {:induction false} FirmParts(c: string)
    requires Firm(c)
    ensures c != [] && c[0] != '\n' && c[|c| - 1] != '\n'
    ensures forall x :: Joint(x, c) && Joint(c, x)
  {}

  lemma {:induction false} CapThree(a: string, c: string, b: string)
    requires Firm(c)
    ensures CapNewlines(a + c + b, 0) == CapNewlines(a, 0) + CapNewlines(c, 0) + CapNewlines(b, 0)
  {
    FirmParts(c);
    hide Firm, CapNewlines;
    assert (a + c)[|a + c| - 1] == c[|c| - 1];
    CapJoin(a + c, b, 0);
    CapJoin(a, c, 0);
  }

  lemma {:induction false} DropThree(x: string, y: string, t: string)
    requires Firm(y)
    ensures DropTrailing(x + y + t) == DropTrailing(x) + DropTrailing(y) + DropTrailing(t)
  {
    hide *;
    FirmParts(y);
    DropJoin(y, t);
    JointHead(x, y, t);
    DropJoin(x, y + t);
    assert x + (y + t) == x + y + t;
    assert DropTrailing(x) + (DropTrailing(y) + DropTrailing(t)) == DropTrailing(x) + DropTrailing(y) + DropTrailing(t);
  }

  lemma {:induction false} EndsFirm(x: string, y: string)
    requires Firm(y)
    ensures x + y != [] && (x + y)[|x + y| - 1] != '\n'
  {}

  lemma {:induction false} PolishedIs(s: string)
    ensures Polished(s) == DropTrailing(CapNewlines(s, 0))
  {}

  /** Clean-up acts on a piece that starts and ends in non-space characters by itself: what stands
      before and after makes no difference to it. */
  lemma {:induction false} CleanupIsLocal(a: string, c: string, b: string)
    requires Firm(c)
    ensures PostProcess(a + c + b) == Polished(a) + Polished(c) + PostProcess(b)
  {
    hide *;
    var x, y, z := CapNewlines(a, 0), CapNewlines(c, 0), CapNewlines(b, 0);
    CapFirm(c);
    CapThree(a, c, b);
    EndsFirm(x, y);
    StripBehind(x + y, z);
    PostProcessIs(a + c + b);
    PostProcessIs(b);
    PolishedIs(a);
    PolishedIs(c);
    assert x + y + StripNewlines(z) + "\n" == x + y + (StripNewlines(z) + "\n");
    DropThree(x, y, StripNewlines(z) + "\n");
  }

  lemma {:induction false} JointHead(x: string, y: string, t: string)
    requires Joint(x, y) && y != []
    ensures Joint(x, y + t)
  {}

  lemma {:induction false} PolishedJoin(a: string, b: string)
    requires Joint(a, b)
    ensures Polished(a + b) == Polished(a) + Polished(b)
  {
    if a == [] || b == [] {
      assert a == [] ==> a + b == b;
      assert b == [] ==> a + b == a;
      PolishedNothing();
      assert [] + Polished(b) == Polished(b) && Polished(a) + [] == Polished(a);
    } else {
      CapKeepsEnds(a, 0);
      CapKeepsEnds(b, 0);
      CapJoin(a, b, 0);
      var x, y := CapNewlines(a, 0), CapNewlines(b, 0);
      hide CapNewlines, DropTrailing;
      DropJoin(x, y);
    }
  }

  lemma {:induction false} PolishedNothing()
    ensures Polished([]) == []
  {}

  // ----- what is left alone -----

  lemma {:induction false} DropShorter(s: string)
    ensures |DropTrailing(s)| <= |s|
    ensures |DropTrailing(s)| == |s| ==> DropTrailing(s) == s
  {
    if s != [] {
      DropShorter(s[1..]);
      assert s == [s[0]] + s[1..];
    }
  }

  lemma {:induction false} BreakAhead(s: string) returns (i: nat)
    requires ToBreak(s) && s[0] != '\n'
    ensures i + 1 < |s| && IsSpace(s[i]) && s[i] != '\n' && s[i + 1] == '\n'
  {
    if s[1] == '\n' {
      i := 0;
    } else {
      var k := BreakAhead(s[1..]);
      i := k + 1;
    }
  }

  lemma {:induction false} NoSpaceTail(s: string)
    requires s != []
    ensures NoSpaceAtBreak(s) <==> NoSpaceAtBreak(s[1..]) && !(|s| > 1 && IsSpace(s[0]) && s[0] != '\n' && s[1] == '\n')
  {
    var t := s[1..];
    if NoSpaceAtBreak(s) {
      forall i | 0 <= i < |t| - 1 && IsSpace(t[i]) && t[i] != '\n' ensures t[i + 1] != '\n' {
        assert s[i + 1] == t[i] && s[i + 1 + 1] == t[i + 1];
      }
      if |s| > 1 && IsSpace(s[0]) && s[0] != '\n' { assert s[0 + 1] != '\n'; }
    }
    if NoSpaceAtBreak(t) && !(|s| > 1 && IsSpace(s[0]) && s[0] != '\n' && s[1] == '\n') {
      forall i | 0 <= i < |s| - 1 && IsSpace(s[i]) && s[i] != '\n' ensures s[i + 1] != '\n' {
        if i > 0 { assert t[i - 1] == s[i] && t[i - 1 + 1] == s[i + 1]; }
      }
    }
  }

  lemma {:induction false} BreakHere(s: string)
    requires |s| > 1 && IsSpace(s[0]) && s[1] == '\n'
    ensures ToBreak(s)
  {
    assert s[1..][0] == '\n';
  }

  lemma {:induction false} DropNothingIff(s: string)
    ensures DropTrailing(s) == s <==> NoSpaceAtBreak(s)
  {
    if s != [] {
      DropNothingIff(s[1..]);
      DropTurn(s);
      DropShorter(s[1..]);
      NoSpaceTail(s);
      if |s| > 1 && IsSpace(s[0]) && s[1] == '\n' { BreakHere(s); }
      if s[0] != '\n' && ToBreak(s) { var i := BreakAhead(s); }
      hide DropTrailing, NoSpaceAtBreak, ToBreak;
      if DropTrailing(s) == s { assert s[1..] == DropTrailing(s)[1..]; }
    }
  }

  lemma {:induction false} CappedIsNoTriple(s: string)
    ensures Capped(s, 0) <==> NoTriple(s)
  {
    if NoTriple(s) { NeatCapped(s, 0); }
    if Capped(s, 0) {
      forall i | 0 <= i < |s| - 2 && s[i] == '\n' && s[i + 1] == '\n' ensures s[i + 2] != '\n' {
        CappedAt(s, 0, i);
      }
    }
  }

  lemma {:induction false} CappedAt(s: string, run: nat, i: nat)
    requires Capped(s, run) && i + 2 < |s| && s[i] == '\n' && s[i + 1] == '\n'
    ensures s[i + 2] != '\n'
  {
    if i > 0 {
      CappedAt(s[1..], if s[0] == '\n' then run + 1 else 0, i - 1);
    } else {
      var t := s[1..];
      assert t[0] == s[1] && t[1..][0] == s[2];
      assert Capped(t, run + 1) && Capped(t[1..], run + 2);
    }
  }

  lemma {:induction false} PolishedShorter(s: string)
    ensures |Polished(s)| <= |s| && (|Polished(s)| == |s| ==> Polished(s) == s)
  {
    CapShorter(s, 0);
    DropShorter(CapNewlines(s, 0));
    if Capped(s, 0) { CapNothing(s, 0); }
    hide DropTrailing, CapNewlines;
  }

  /** The clean-up leaves a piece alone exactly when it has no whitespace before a line break and no
      three line breaks in a row. */
  lemma {:induction false} PolishedIff(s: string)
    ensures Polished(s) == s <==> Neat(s)
  {
    CappedIsNoTriple(s);
    CapShorter(s, 0);
    var c := CapNewlines(s, 0);
    DropShorter(c);
    if Capped(s, 0) { CapNothing(s, 0); }
    DropNothingIff(s);
    hide DropTrailing, CapNewlines, NoTriple, NoSpaceAtBreak, Capped;
  }

  lemma {:induction false} DropKeepsEnds(c: string)
    requires c != []
    ensures !IsSpace(c[0]) || c[0] == '\n' ==> DropTrailing(c) != [] && DropTrailing(c)[0] == c[0]
    ensures !IsSpace(c[|c| - 1]) ==> DropTrailing(c) != [] && DropTrailing(c)[|DropTrailing(c)| - 1] == c[|c| - 1]
  {
    DropTurn(c);
    if |c| > 1 { DropKeepsEnds(c[1..]); } else { assert c[1..] == []; }
  }

  lemma {:induction false} PolishedFirm(c: string)
    requires Firm(c)
    ensures Firm(Polished(c))
  {
    CapFirm(c);
    DropKeepsEnds(CapNewlines(c, 0));
  }

  // ----- polishing twice -----

  lemma {:induction false} PostNothing()
    ensures PostProcess([]) == "\n"
  {
    PostProcessIs([]);
    assert CapNewlines([], 0) == [] && StripNewlines([]) == [] && [] + "\n" == "\n";
    assert ToBreak("\n") && "\n"[1..] == [] && DropTrailing("\n") == "\n";
  }

  /** The clean-up of a firm text is its polished form with a final newline. */
  lemma {:induction false} PostFirm(c: string)
    requires Firm(c)
    ensures PostProcess(c) == Polished(c) + "\n" && PostProcess(Polished(c) + "\n") == Polished(Polished(c)) + "\n"
  {
    PolishedFirm(c);
    hide *;
    PostNothing();
    PolishedNothing();
    CleanupIsLocal([], c, []);
    var p := Polished(c);
    CleanupIsLocal([], p, []);
    PostDropsLast(p);
    assert [] + c + [] == c && [] + p + [] == p;
    assert [] + p + "\n" == p + "\n" && [] + Polished(p) + "\n" == Polished(p) + "\n";
  }

  /** One clean-up settles the text: no two blank lines follow the first line in a row, once newline
      runs are capped, and the last line is not blank. */
  predicate SettlesAtOnce(c: string) { Calm(SplitLines(CapNewlines(c, 0))) }

  lemma {:induction false} SameBehind(a: string, b: string)
    requires a + "\n" == b + "\n"
    ensures a == b
  {
    assert a == (a + "\n")[..|a|] && b == (b + "\n")[..|b|];
  }

  lemma {:induction false} FirmStrips(c: string)
    requires Firm(c)
    ensures StripNewlines(c) == c
  {}

  /** Polishing a firm text twice is polishing it once exactly when it settles at once. */
  lemma {:induction false} PolishedTwiceIff(c: string)
    requires Firm(c)
    ensures Polished(Polished(c)) == Polished(c) <==> SettlesAtOnce(c)
  {
    CapFirm(c);
    FirmStrips(CapNewlines(c, 0));
    hide Firm, PostProcess, CapNewlines, StripNewlines, Polished, Calm, SplitLines;
    PostFirm(c);
    OnePassIff(c);
    if Polished(Polished(c)) + "\n" == Polished(c) + "\n" { SameBehind(Polished(Polished(c)), Polished(c)); }
  }

  /** A third time changes nothing. */
  lemma {:induction false} PolishedThrice(c: string)
    requires Firm(c)
    ensures Polished(Polished(Polished(c))) == Polished(Polished(c))
  {
    PolishedFirm(c);
    hide *;
    ThirdPassIdle(c);
    PostFirm(c);
    PostFirm(Polished(c));
    SameBehind(Polished(Polished(Polished(c))), Polished(Polished(c)));
  }

  // ----- what polishing keeps -----

  lemma {:induction false} CapChars(s: string, run: nat)
    ensures forall c <- CapNewlines(s, run) :: c in s
    ensures forall c <- s :: c != '\n' || run <= 1 ==> c in CapNewlines(s, run)
  {
    if s != [] {
      CapChars(s[1..], if s[0] == '\n' then run + 1 else 0);
      CapTurnOf(s, run);
      hide CapNewlines;
      assert s == [s[0]] + s[1..];
    }
  }

  lemma {:induction false} DropChars(s: string)
    ensures forall c <- DropTrailing(s) :: c in s
    ensures forall c <- s :: c == '\n' || !IsSpace(c) ==> c in DropTrailing(s)
  {
    if s != [] {
      DropChars(s[1..]);
      DropTurn(s);
      hide DropTrailing;
      assert s == [s[0]] + s[1..];
      assert ToBreak(s) ==> IsSpace(s[0]);
    }
  }

  /** Polishing keeps every character that is not whitespace, and whether there are line breaks. */
  lemma {:induction false} PolishedChars(s: string)
    ensures forall c <- Polished(s) :: c in s
    ensures forall c <- s :: c == '\n' || !IsSpace(c) ==> c in Polished(s)
  {
    CapChars(s, 0);
    DropChars(CapNewlines(s, 0));
    hide CapNewlines, DropTrailing;
  }

  lemma {:induction false} PolishedBlank(s: string)
    ensures Blank(Polished(s)) <==> Blank(s)
  {
    PolishedChars(s);
    hide Polished;
    if Blank(s) { forall i | 0 <= i < |Polished(s)| ensures IsSpace(Polished(s)[i]) { assert Polished(s)[i] in s; } }
    if !Blank(s) {
      var i :| 0 <= i < |s| && !IsSpace(s[i]);
      assert s[i] in Polished(s);
      var j :| 0 <= j < |Polished(s)| && Polished(s)[j] == s[i];
      assert !IsSpace(Polished(s)[j]);
    }
  }

  lemma {:induction false} PolishedOneLine(s: string)
    requires '\n' !in s
    ensures Polished(s) == s
  {
    NeatOneLine(s);
    PolishedIff(s);
  }
}
