/** The clean-up makes no comment closer and no end tag: words without whitespace occur in a cleaned
    text only where they occur in the text. */
module Needles {
  import opened Text
  import opened Lexing
  import opened LexingProps
  import opened Lexemes
  import opened Layout
  import opened Cleanup
  import opened Neatness
  import opened Relex
  import opened Retag

  /** `w` stands somewhere in `s`. */
  predicate Occurs(s: string, w: string) { w <= s || (s != [] && Occurs(s[1..], w)) }

  lemma {:induction false} OccursTurn(s: string, w: string)
    ensures s != [] ==> (Occurs(s, w) <==> w <= s || Occurs(s[1..], w))
    ensures s == [] ==> (Occurs(s, w) <==> w == [])
  {}

  lemma {:induction false} OccursFits(s: string, w: string)
    requires Occurs(s, w)
    ensures |w| <= |s|
  {
    if !(w <= s) { OccursFits(s[1..], w); }
  }

  lemma {:induction false} Prefix1(w: string, c: char, t: string)
    requires w != []
    ensures w <= [c] + t <==> w[0] == c && w[1..] <= t
  {
    var s := [c] + t;
    assert s[1..] == t;
    if w[0] == c && w[1..] <= t {
      assert w == [c] + w[1..];
      assert s[..|w|] == [c] + t[..|w| - 1];
    }
    if w <= s { assert s[..|w|][1..] == t[..|w| - 1]; }
  }

  lemma {:induction false} PrefixOf(w: string, s: string)
    requires w != [] && s != []
    ensures w <= s <==> w[0] == s[0] && w[1..] <= s[1..]
  {
    assert s == [s[0]] + s[1..];
    Prefix1(w, s[0], s[1..]);
  }

  lemma {:induction false} NoSpacesTail(w: string)
    requires w != [] && NoSpaces(w)
    ensures !IsSpace(w[0]) && NoSpaces(w[1..])
  {}

  // ----- capping newlines -----

  lemma {:induction false} CapHead(w: string, s: string)
    requires w != [] && NoSpaces(w) && s != [] && w <= CapNewlines(s, 0)
    ensures s[0] != '\n' && CapNewlines(s, 0) == [s[0]] + CapNewlines(s[1..], 0)
  {
    hide CapNewlines;
    CapTurnOf(s, 0);
    NoSpacesTail(w);
    var x := CapNewlines(s, 0);
    PrefixOf(w, x);
    assert [s[0]][0] == s[0];
  }

  lemma {:induction false} PrefixCap(w: string, s: string)
    requires NoSpaces(w) && w <= CapNewlines(s, 0)
    ensures w <= s && CapNewlines(s, 0)[|w|..] == CapNewlines(s[|w|..], 0)
    decreases |w|
  {
    hide *;
    if s == [] {
      CapNothingAt(0);
    } else if w == [] {
      assert s[0..] == s;
    } else {
      CapHead(w, s);
      NoSpacesTail(w);
      var x, t := CapNewlines(s, 0), CapNewlines(s[1..], 0);
      Prefix1(w, s[0], t);
      PrefixCap(w[1..], s[1..]);
      PrefixOf(w, s);
      assert x[|w|..] == t[|w| - 1..] && s[1..][|w| - 1..] == s[|w|..];
    }
  }

  lemma {:induction false} OccursCap(w: string, s: string, run: nat)
    requires w != [] && NoSpaces(w) && Occurs(CapNewlines(s, run), w)
    ensures Occurs(s, w)
  {
    hide CapNewlines, Occurs;
    if s == [] {
      CapNothingAt(run);
    } else {
      CapTurnOf(s, run);
      OccursTurn(s, w);
      var run' := if s[0] == '\n' then run + 1 else 0;
      var x, t := CapNewlines(s, run), CapNewlines(s[1..], run');
      if s[0] == '\n' && run + 1 > 2 {
        assert x == t;
        OccursCap(w, s[1..], run');
      } else {
        assert x == [s[0]] + t && x[1..] == t;
        OccursTurn(x, w);
        if w <= x {
          NoSpacesTail(w);
          Prefix1(w, s[0], t);
          PrefixCap(w[1..], s[1..]);
          PrefixOf(w, s);
        } else {
          OccursCap(w, s[1..], run');
        }
      }
    }
  }

  // ----- dropping whitespace before line breaks -----

  lemma {:induction false} DroppedBreaks(s: string)
    requires ToBreak(s)
    ensures DropTrailing(s) != [] && DropTrailing(s)[0] == '\n'
  {
    DropTurn(s);
    if s[0] != '\n' { DroppedBreaks(s[1..]); }
  }

  lemma {:induction false} DropHead(w: string, s: string)
    requires w != [] && NoSpaces(w) && s != [] && w <= DropTrailing(s)
    ensures DropTrailing(s) == [s[0]] + DropTrailing(s[1..])
  {
    hide DropTrailing;
    DropTurn(s);
    if ToBreak(s) { DroppedBreaks(s); }
  }

  lemma {:induction false} PrefixDrop(w: string, s: string)
    requires NoSpaces(w) && w <= DropTrailing(s)
    ensures w <= s && DropTrailing(s)[|w|..] == DropTrailing(s[|w|..])
    decreases |w|
  {
    hide *;
    if s == [] {
      DropTurn("x");
    } else if w == [] {
      assert s[0..] == s;
    } else {
      DropHead(w, s);
      NoSpacesTail(w);
      var x, t := DropTrailing(s), DropTrailing(s[1..]);
      Prefix1(w, s[0], t);
      PrefixDrop(w[1..], s[1..]);
      PrefixOf(w, s);
      assert x[|w|..] == t[|w| - 1..] && s[1..][|w| - 1..] == s[|w|..];
    }
  }

  lemma {:induction false} OccursDrop(w: string, s: string)
    requires w != [] && NoSpaces(w) && Occurs(DropTrailing(s), w)
    ensures Occurs(s, w)
  {
    hide DropTrailing, Occurs, ToBreak;
    DropTurn(if s == [] then "x" else s);
    if s != [] {
      OccursTurn(s, w);
      var x, t := DropTrailing(s), DropTrailing(s[1..]);
      if s[0] != '\n' && ToBreak(s) {
        assert x == t;
        OccursDrop(w, s[1..]);
      } else {
        assert x == [s[0]] + t && x[1..] == t;
        OccursTurn(x, w);
        if w <= x {
          PrefixDrop(w, s);
        } else {
          OccursDrop(w, s[1..]);
        }
      }
    }
  }

  lemma {:induction false} OccursPolished(w: string, s: string)
    requires w != [] && NoSpaces(w) && Occurs(Polished(s), w)
    ensures Occurs(s, w)
  {
    hide Occurs, CapNewlines, DropTrailing, NoSpaces;
    OccursDrop(w, CapNewlines(s, 0));
    OccursCap(w, s, 0);
  }

  lemma {:induction false} PrefixPolished(w: string, s: string)
    requires NoSpaces(w) && w <= Polished(s)
    ensures w <= s
  {
    hide CapNewlines, DropTrailing, NoSpaces;
    PrefixDrop(w, CapNewlines(s, 0));
    PrefixCap(w, s);
  }

  // ----- found at the very end -----

  /** A word is first found at the very end of a text when the text ends in it and it does not occur
      without the last character. */
  lemma {:induction false} FoundLast(z: string, w: string)
    requires w != [] && |z| >= |w|
    ensures Find(z, w) == Some(|z| - |w|) <==> z[|z| - |w|..] == w && !Occurs(z[..|z| - 1], w)
  {
    hide Occurs;
    var y := z[..|z| - 1];
    OccursTurn(y, w);
    if |z| == |w| {
      assert z[0..] == z;
      if Occurs(y, w) { OccursFits(y, w); }
    } else {
      assert w <= y <==> w <= z;
      if !(w <= z) {
        FoundLast(z[1..], w);
        assert z[1..][..|z| - 2] == y[1..] && z[1..][|z| - 1 - |w|..] == z[|z| - |w|..];
        ShiftIs(Find(z[1..], w), 1);
      }
    }
  }

  lemma {:induction false} PolishedBefore(y: string, w: string)
    requires NoSpaces(w)
    ensures Polished(y + w) == Polished(y) + w
  {
    PolishedOneLine(w);
    hide Polished;
    if w != [] { NoSpacesTail(w); }
    PolishedJoin(y, w);
  }

  lemma {:induction false} PolishedBehind(w: string, y: string)
    requires NoSpaces(w)
    ensures Polished(w + y) == w + Polished(y)
  {
    PolishedOneLine(w);
    hide Polished;
    PolishedJoin(w, y);
  }

  lemma {:induction false} NoSpacesPart(w: string, n: nat)
    requires NoSpaces(w) && n <= |w|
    ensures NoSpaces(w[..n])
  {}

  lemma {:induction false} FoundPolished(z: string, w: string)
    requires w != [] && NoSpaces(w) && |z| >= |w| && Find(z, w) == Some(|z| - |w|)
    ensures |Polished(z)| >= |w| && Find(Polished(z), w) == Some(|Polished(z)| - |w|)
  {
    hide *;
    FoundLast(z, w);
    var y, n := z[..|z| - |w|], |w| - 1;
    assert z == y + w && z[..|z| - 1] == y + w[..n];
    PolishedBefore(y, w);
    NoSpacesPart(w, n);
    PolishedBefore(y, w[..n]);
    var p := Polished(z);
    assert p[|p| - |w|..] == w && p[..|p| - 1] == Polished(y) + w[..n];
    if Occurs(Polished(y + w[..n]), w) { OccursPolished(w, y + w[..n]); }
    FoundLast(p, w);
  }

  // ----- comments -----

  /** A polished comment is still one comment. */
  lemma {:induction false} HtmlCommentPolished(raw: string)
    requires HtmlCommentLexed(raw)
    ensures HtmlCommentLexed(Polished(raw))
  {
    var z := raw[4..];
    assert raw == "<!--" + z;
    hide Find, Polished;
    PolishedBehind("<!--", z);
    FoundPolished(z, "-->");
    assert Polished(raw)[4..] == Polished(z);
  }

  lemma {:induction false} LongCommentPolished(raw: string)
    requires "{{!--" <= raw && Find(raw[5..], "--}}") == Some(|raw| - 9) && |raw| >= 9
    ensures "{{!--" <= Polished(raw) && |Polished(raw)| >= 9
    ensures Find(Polished(raw)[5..], "--}}") == Some(|Polished(raw)| - 9)
  {
    var z := raw[5..];
    assert raw == "{{!--" + z;
    hide Find, Polished;
    PolishedBehind("{{!--", z);
    FoundPolished(z, "--}}");
    assert Polished(raw)[5..] == Polished(z);
  }

  lemma {:induction false} ShortCommentPolished(raw: string)
    requires "{{!" <= raw && Find(raw[3..], "}}") == Some(|raw| - 5) && |raw| >= 5
    ensures "{{!" <= Polished(raw) && |Polished(raw)| >= 5
    ensures Find(Polished(raw)[3..], "}}") == Some(|Polished(raw)| - 5)
  {
    var z := raw[3..];
    assert raw == "{{!" + z;
    hide Find, Polished;
    PolishedBehind("{{!", z);
    FoundPolished(z, "}}");
    assert Polished(raw)[3..] == Polished(z);
  }

  lemma {:induction false} CommentEnds(raw: string)
    requires "{{!" <= raw
    ensures "{{!--" <= raw ==>
              (CommentEnd(raw) == Some(|raw|) <==> |raw| >= 9 && Find(raw[5..], "--}}") == Some(|raw| - 9))
    ensures !("{{!--" <= raw) ==>
              (CommentEnd(raw) == Some(|raw|) <==> |raw| >= 5 && Find(raw[3..], "}}") == Some(|raw| - 5))
  {
    hide Find;
  }

  lemma {:induction false} HbsCommentPolished(raw: string)
    requires HbsCommentLexed(raw)
    ensures HbsCommentLexed(Polished(raw))
  {
    CommentEnds(raw);
    hide CommentEnd, Find, Polished;
    if "{{!--" <= raw {
      LongCommentPolished(raw);
      assert "{{!" <= "{{!--";
    } else {
      ShortCommentPolished(raw);
      if "{{!--" <= Polished(raw) { PrefixPolished("{{!--", raw); }
    }
    CommentEnds(Polished(raw));
  }

  // ----- raw elements -----

  lemma {:induction false} LowerPlain(s: string, name: string)
    requires |s| == |name| && Lower(s) == Lower(name) && NoSpaces(name)
    ensures NoSpaces(s)
  {
    if s != [] {
      NoSpacesTail(name);
      assert Lower(s)[0] == LowerChar(s[0]) && Lower(name)[0] == LowerChar(name[0]);
      assert Lower(s)[1..] == Lower(s[1..]) && Lower(name)[1..] == Lower(name[1..]);
      LowerPlain(s[1..], name[1..]);
      assert s == [s[0]] + s[1..];
    }
  }

  lemma {:induction false} NamePlain(name: string)
    requires NameLen(name) == |name|
    ensures NoSpaces(name)
  {
    if name != [] {
      NamePlain(name[1..]);
      assert name == [name[0]] + name[1..];
    }
  }

  /** The characters of an end tag up to its name hold no whitespace. */
  lemma {:induction false} ClosePlain(s: string, name: string)
    requires NoSpaces(name) && |s| >= 2 + |name| && RawCloseHere(s, name)
    ensures |s| > 2 + |name| && NoSpaces(s[..2 + |name|])
    ensures s[2 + |name|] == '>' || IsAsciiSpace(s[2 + |name|])
  {
    LowerPlain(s[2..2 + |name|], name);
    var w := s[..2 + |name|];
    forall i | 0 <= i < |w| ensures !IsSpace(w[i]) {
      if i >= 2 { assert w[i] == s[2..2 + |name|][i - 2]; }
    }
  }

  lemma {:induction false} CloseBy(s: string, s': string, name: string)
    requires |s| >= 2 + |name| && RawCloseHere(s, name) && |s'| > 2 + |name| && s'[..2 + |name|] == s[..2 + |name|]
    requires s'[2 + |name|] == '>' || IsAsciiSpace(s'[2 + |name|])
    ensures RawCloseHere(s', name)
  {
    assert s'[2..2 + |name|] == s'[..2 + |name|][2..] && s[2..2 + |name|] == s[..2 + |name|][2..];
    assert s'[..2] == s'[..2 + |name|][..2] && s[..2] == s[..2 + |name|][..2];
  }

  lemma {:induction false} CapFirst(t: string)
    ensures CapNewlines(t, 0) != [] ==> t != [] && CapNewlines(t, 0)[0] == t[0]
  {}

  lemma {:induction false} CloseCapped(s: string, name: string)
    requires NoSpaces(name) && |CapNewlines(s, 0)| >= 2 + |name| && RawCloseHere(CapNewlines(s, 0), name)
    ensures |s| >= 2 + |name| && RawCloseHere(s, name)
  {
    hide CapNewlines, RawCloseHere, IsAsciiSpace;
    var x, n := CapNewlines(s, 0), 2 + |name|;
    ClosePlain(x, name);
    PrefixCap(x[..n], s);
    CapFirst(s[n..]);
    assert x[n..][0] == x[n] && s[n..][0] == s[n];
    CloseBy(x, s, name);
  }

  lemma {:induction false} DropFirst(t: string)
    requires '\U{B}' !in t
    ensures DropTrailing(t) != [] ==> t != [] && (DropTrailing(t)[0] == t[0] || IsAsciiSpace(t[0]))
  {
    if t != [] { DropTurn(t); assert t[0] in t; }
  }

  lemma {:induction false} CloseDropped(s: string, name: string)
    requires '\U{B}' !in s
    requires NoSpaces(name) && |DropTrailing(s)| >= 2 + |name| && RawCloseHere(DropTrailing(s), name)
    ensures |s| >= 2 + |name| && RawCloseHere(s, name)
  {
    hide DropTrailing, RawCloseHere, IsAsciiSpace;
    var x, n := DropTrailing(s), 2 + |name|;
    ClosePlain(x, name);
    PrefixDrop(x[..n], s);
    DropFirst(s[n..]);
    assert x[n..][0] == x[n] && s[n..][0] == s[n];
    CloseBy(x, s, name);
  }

  lemma {:induction false} EndTagPlain(name: string)
    requires NoSpaces(name)
    ensures NoSpaces(EndTag(name)) && EndTag(name) != []
  {
    var e := EndTag(name);
    forall i | 0 <= i < |e| ensures !IsSpace(e[i]) {
      if 2 <= i < |e| - 1 { assert e[i] == name[i - 2]; }
    }
  }

  lemma {:induction false} CapBefore(y: string, w: string, run: nat)
    requires NoSpaces(w) && w != []
    ensures CapNewlines(y + w, run) == CapNewlines(y, run) + w
  {
    NoSpacesTail(w);
    CapJoin(y, w, run);
    NeatOneLine(w);
    NeatCapped(w, 0);
    CapNothing(w, 0);
  }

  lemma {:induction false} DropBefore(y: string, w: string)
    requires NoSpaces(w) && w != []
    ensures DropTrailing(y + w) == DropTrailing(y) + w
  {
    NoSpacesTail(w);
    NeatOneLine(w);
    DropNothingIff(w);
    hide DropTrailing;
    DropJoin(y, w);
  }

  lemma {:induction false} SealedCap(x: string, run: nat, name: string)
    requires NoSpaces(name) && Sealed(x, name)
    ensures Sealed(CapNewlines(x, run), name)
  {
    hide *;
    if x == [] {
      CapNothingAt(run);
    } else {
      var run' := if x[0] == '\n' then run + 1 else 0;
      CapTurnOf(x, run);
      assert x == [x[0]] + x[1..];
      SealedTurn(x, name);
      var t := CapNewlines(x[1..], run');
      SealedCap(x[1..], run', name);
      if x[0] == '<' {
        EndTagPlain(name);
        EndTagLen(name);
        CapBefore(x, EndTag(name), 0);
        CapTurnOf(x, 0);
        assert [x[0]] + t + EndTag(name) == [x[0]] + (t + EndTag(name));
        NotCapped(x + EndTag(name), [x[0]] + (t + EndTag(name)), name);
        SealedBack([x[0]], t, name);
      } else {
        SealedSkip(x[0], t, name);
        assert [] + t == t;
      }
    }
  }

  lemma {:induction false} NotCapped(s: string, x: string, name: string)
    requires NoSpaces(name) && x == CapNewlines(s, 0) && |x| >= 2 + |name| && |s| >= 2 + |name|
    requires !RawCloseHere(s, name)
    ensures !RawCloseHere(x, name)
  {
    hide RawCloseHere, CapNewlines, NoSpaces;
    if RawCloseHere(x, name) { CloseCapped(s, name); }
  }

  lemma {:induction false} NotDropped(s: string, x: string, name: string)
    requires NoSpaces(name) && x == DropTrailing(s) && |x| >= 2 + |name| && |s| >= 2 + |name| && '\U{B}' !in s
    requires !RawCloseHere(s, name)
    ensures !RawCloseHere(x, name)
  {
    hide RawCloseHere, DropTrailing, NoSpaces;
    if RawCloseHere(x, name) { CloseDropped(s, name); }
  }

  /** The first character of sealed text: no end tag starts there, and the rest is sealed. */
  lemma {:induction false} SealedTurn(x: string, name: string)
    requires x != [] && Sealed(x, name)
    ensures |x + EndTag(name)| >= 2 + |name| && !RawCloseHere(x + EndTag(name), name) && Sealed(x[1..], name)
  {
    hide Sealed, RawCloseHere;
    assert x + [] == x && x[1..] + [] == x[1..] && x + ([] + EndTag(name)) == x + EndTag(name);
    SealedStep(x, [], name);
  }

  lemma {:induction false} SealedBack(c: string, t: string, name: string)
    requires |c| == 1 && Sealed(t, name) && |c + (t + EndTag(name))| >= 2 + |name| && !RawCloseHere(c + (t + EndTag(name)), name)
    ensures Sealed(c + t, name)
  {
    hide Sealed, RawCloseHere;
    assert c[1..] + t == t;
    SealedJoin(c, t, name);
  }

  lemma {:induction false} SealedDrop(x: string, name: string)
    requires NoSpaces(name) && Sealed(x, name) && '\U{B}' !in x
    ensures Sealed(DropTrailing(x), name)
  {
    hide *;
    if x == [] {
      DropTurn("x");
    } else {
      DropTurn(x);
      assert x == [x[0]] + x[1..];
      SealedTurn(x, name);
      var t := DropTrailing(x[1..]);
      SealedDrop(x[1..], name);
      if x[0] == '<' {
        EndTagPlain(name);
        EndTagLen(name);
        DropBefore(x, EndTag(name));
        AngleStays(x);
        assert [x[0]] + t + EndTag(name) == [x[0]] + (t + EndTag(name));
        NoTabAfter(x, EndTag(name));
        NotDropped(x + EndTag(name), [x[0]] + (t + EndTag(name)), name);
        SealedBack([x[0]], t, name);
      } else {
        SealedSkip(x[0], t, name);
        assert [] + t == t;
      }
    }
  }

  lemma {:induction false} AngleStays(x: string)
    requires x != [] && x[0] == '<'
    ensures !ToBreak(x)
  {}

  lemma {:induction false} NoTabAfter(x: string, w: string)
    requires '\U{B}' !in x && NoSpaces(w)
    ensures '\U{B}' !in x + w
  {}

  /** No end tag appears in a polished raw body without vertical tabs. */
  lemma {:induction false} SealedPolished(x: string, name: string)
    requires NameLen(name) == |name| && Sealed(x, name) && '\U{B}' !in x
    ensures Sealed(Polished(x), name)
  {
    NamePlain(name);
    CapChars(x, 0);
    hide CapNewlines, DropTrailing, Sealed, NoSpaces, NameLen;
    SealedCap(x, 0, name);
    SealedDrop(CapNewlines(x, 0), name);
  }
}
