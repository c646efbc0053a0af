/** `crap-cms logs`: the last lines of a file, read backwards in chunks. */
module LogTail {
  import opened Text
  import opened Cleanup

  function Last(ls: seq<string>, n: nat): seq<string> { if |ls| <= n then ls else ls[|ls| - n..] }

  /** What the command promises: the last `n` lines of the whole content. */
  function Tail(content: string, n: nat): string {
    if content == [] then [] else JoinLines(Last(Lines(content), n)) + "\n"
  }

  // ----- what a line is -----

  datatype Ended = Ended(line: string, withReturn: bool)

  /** Lines, each one ended by a line feed or by a return and a line feed. */
  function EndedText(es: seq<Ended>): string {
    if es == [] then [] else es[0].line + (if es[0].withReturn then "\r\n" else "\n") + EndedText(es[1..])
  }

  function EndedLines(es: seq<Ended>): seq<string> { if es == [] then [] else [es[0].line] + EndedLines(es[1..]) }

  predicate IsLine(l: string) { '\n' !in l && (l != [] ==> l[|l| - 1] != '\r') }

  lemma {:induction false} LinesTurn(piece: string, rest: string)
    requires '\n' !in piece
    ensures Lines(piece + "\n" + rest) == [Chomp(piece)] + Lines(rest)
  {
    hide SplitLines, Chomp;
    SplitAt(piece, rest);
    assert ([piece] + SplitLines(rest))[1..] == SplitLines(rest);
  }

  lemma {:induction false} LastLine(last: string)
    requires '\n' !in last
    ensures Lines(last) == if last == [] then [] else [last]
  {
    SplitOne(last);
    assert [last][1..] == [];
  }

  /** The lines of a text are its pieces without their line ends, and what is left behind the last line end. */
  lemma {:induction false} LinesMean(es: seq<Ended>, last: string)
    requires (forall e <- es :: IsLine(e.line)) && '\n' !in last
    ensures Lines(EndedText(es) + last) == EndedLines(es) + (if last == [] then [] else [last])
  {
    hide Lines, IsLine;
    if es == [] {
      LastLine(last);
      assert EndedText(es) + last == last;
    } else {
      var l, rest := es[0].line, EndedText(es[1..]) + last;
      assert es[0] in es;
      forall e | e in es[1..] ensures e in es {}
      LinesMean(es[1..], last);
      var piece := if es[0].withReturn then l + "\r" else l;
      EndedPiece(l, es[0].withReturn);
      assert EndedText(es) + last == piece + "\n" + rest;
      LinesTurn(piece, rest);
    }
  }

  lemma {:induction false} EndedPiece(l: string, withReturn: bool)
    requires IsLine(l)
    ensures var piece := if withReturn then l + "\r" else l; '\n' !in piece && Chomp(piece) == l
  {
    if withReturn { assert (l + "\r")[..|l|] == l; }
  }

  // ----- a suffix with enough newlines has the same last lines -----

  lemma {:induction false} PieceCount(s: string)
    ensures |SplitLines(s)| == CountNewlines(s) + 1
  {
    if s != [] { PieceCount(s[1..]); }
  }

  /** Cutting a text in two only cuts one piece. */
  lemma {:induction false} SplitTurn(s: string)
    requires s != []
    ensures var r := SplitLines(s[1..]);
            SplitLines(s) == if s[0] == '\n' then [[]] + r else [[s[0]] + r[0]] + r[1..]
  {}

  lemma {:induction false} SplitAppend(a: string, u: string)
    ensures var p, q, r := SplitLines(a), SplitLines(u), SplitLines(a + u);
            |r| == |p| + |q| - 1 && r[|p|..] == q[1..]
  {
    if a == [] {
      assert a + u == u;
    } else {
      hide SplitLines;
      assert (a + u)[1..] == a[1..] + u && (a + u)[0] == a[0];
      SplitAppend(a[1..], u);
      SplitTurn(a);
      SplitTurn(a + u);
      var p, r := SplitLines(a[1..]), SplitLines(a[1..] + u);
      if a[0] == '\n' {
        assert ([[]] + r)[|p| + 1..] == r[|p|..];
      } else {
        assert ([[a[0]] + r[0]] + r[1..])[|p|..] == r[|p|..];
      }
    }
  }

  lemma {:induction false} PieceLinesCount(ps: seq<string>)
    ensures |ps| - 1 <= |PieceLines(ps)| <= |ps|
  {
    if |ps| > 1 { PieceLinesCount(ps[1..]); }
  }

  lemma {:induction false} PieceLinesHead(ps: seq<string>)
    requires |ps| > 1
    ensures PieceLines(ps) == [Chomp(ps[0])] + PieceLines(ps[1..])
  {}

  lemma {:induction false} LastBehind(l: string, ls: seq<string>, n: nat)
    requires n <= |ls|
    ensures Last([l] + ls, n) == Last(ls, n)
  {
    assert ([l] + ls)[1 + |ls| - n..] == ls[|ls| - n..];
  }

  lemma {:induction false} LastOfMore(ps: seq<string>, k: nat, n: nat)
    requires k < |ps| && |ps| - k > n
    ensures Last(PieceLines(ps), n) == Last(PieceLines(ps[k..]), n)
    decreases k
  {
    hide *;
    if k == 0 {
      assert ps[0..] == ps;
    } else {
      assert ps[1..][k - 1..] == ps[k..];
      LastOfMore(ps[1..], k - 1, n);
      PieceLinesCount(ps[1..]);
      PieceLinesHead(ps);
      LastBehind(Chomp(ps[0]), PieceLines(ps[1..]), n);
    }
  }

  /** Once a suffix holds more than `n` newlines, nothing before it matters. */
  lemma {:induction false} SuffixSuffices(a: string, u: string, n: nat)
    requires CountNewlines(u) > n
    ensures Last(Lines(a + u), n) == Last(Lines(u), n)
  {
    var p, q, r := SplitLines(a), SplitLines(u), SplitLines(a + u);
    PieceCount(u);
    SplitAppend(a, u);
    LastOfMore(r, |p|, n);
    LastOfMore(q, 1, n);
  }

  // ----- the last lines are the end of the file -----

  lemma {:induction false} JoinAppend(a: seq<string>, b: seq<string>)
    requires a != [] && b != []
    ensures JoinLines(a + b) == JoinLines(a) + "\n" + JoinLines(b)
  {
    if |a| == 1 {
      assert (a + b)[1..] == b;
    } else {
      assert (a + b)[1..] == a[1..] + b;
      JoinAppend(a[1..], b);
      assert a[0] + "\n" + (JoinLines(a[1..]) + "\n" + JoinLines(b)) == a[0] + "\n" + JoinLines(a[1..]) + "\n" + JoinLines(b);
    }
  }

  lemma {:induction false} JoinCount(ls: seq<string>)
    requires ls != [] && forall k :: 0 <= k < |ls| ==> '\n' !in ls[k]
    ensures CountNewlines(JoinLines(ls)) == |ls| - 1
  {
    CountNone(ls[0]);
    if |ls| > 1 {
      JoinCount(ls[1..]);
      var nl := "\n";
      assert nl[1..] == [];
      CountAppend(ls[0] + nl, JoinLines(ls[1..]));
      CountAppend(ls[0], nl);
    }
  }

  lemma {:induction false} NoReturns(s: string)
    requires '\r' !in s
    ensures forall l <- SplitLines(s) :: '\r' !in l
  {
    if s != [] {
      NoReturns(s[1..]);
      var r := SplitLines(s[1..]);
      assert r[0] in r;
      forall l | l in SplitLines(s) ensures '\r' !in l { assert l == [] || l == [s[0]] + r[0] || l in r; }
    }
  }

  lemma {:induction false} PlainLines(ps: seq<string>)
    requires |ps| > 0 && ps[|ps| - 1] == [] && forall l <- ps :: '\r' !in l
    ensures PieceLines(ps) == ps[..|ps| - 1]
  {
    if |ps| > 1 {
      assert ps[0] in ps;
      forall l | l in ps[1..] ensures l in ps {}
      PlainLines(ps[1..]);
      if ps[0] != [] { assert ps[0][|ps[0]| - 1] in ps[0]; }
      assert ps[..|ps| - 1] == [ps[0]] + ps[1..][..|ps| - 2];
    }
  }

  lemma {:induction false} LastPiece(s: string)
    requires s != [] && s[|s| - 1] == '\n'
    ensures var ps := SplitLines(s); |ps| > 1 && ps[|ps| - 1] == []
  {
    if |s| > 1 { LastPiece(s[1..]); } else { assert s[1..] == []; }
  }

  /** For a file of newline-ended lines the result is the end of the file, from the start of a line,
      with exactly `n` lines or all of them. */
  lemma {:induction false} TailIsEnd(content: string, n: nat) returns (k: nat)
    requires content != [] && content[|content| - 1] == '\n' && '\r' !in content && n > 0
    ensures k <= |content| && Tail(content, n) == content[k..] && (k > 0 ==> content[k - 1] == '\n')
    ensures CountNewlines(content[k..]) == if CountNewlines(content) <= n then CountNewlines(content) else n
  {
    var ps := SplitLines(content);
    LastPiece(content);
    NoReturns(content);
    PlainLines(ps);
    PieceCount(content);
    JoinSplit(content);
    hide SplitLines, JoinLines, PieceLines;
    var lines := ps[..|ps| - 1];
    var m := if |lines| <= n then 0 else |lines| - n;
    assert lines[0..] == lines && lines[|lines| - 0..] == [];
    assert Last(lines, n) == lines[m..];
    assert ps[m..] == lines[m..] + [[]];
    EndsEmpty(lines[m..]);
    var tail := JoinLines(ps[m..]);
    assert Tail(content, n) == tail;
    assert forall i :: 0 <= i < |ps[m..]| ==> ps[m..][i] == ps[m + i];
    JoinCount(ps[m..]);
    if m == 0 {
      assert ps[0..] == ps;
      k := 0;
    } else {
      assert ps == ps[..m] + ps[m..];
      JoinAppend(ps[..m], ps[m..]);
      k := |JoinLines(ps[..m])| + 1;
    }
  }

  lemma {:induction false} EndsEmpty(ls: seq<string>)
    requires ls != []
    ensures JoinLines(ls + [[]]) == JoinLines(ls) + "\n"
  {
    var one: seq<string> := [[]];
    JoinAppend(ls, one);
    assert JoinLines(one) == [];
  }

  // ----- the backward reader -----

  /** The chunks in the order they were read, put back in file order. */
  function Assembled(chunks: seq<string>): string {
    if chunks == [] then [] else Assembled(chunks[1..]) + chunks[0]
  }

  lemma {:induction false} OneMoreChunk(chunks: seq<string>, buf: string)
    ensures Assembled(chunks + [buf]) == buf + Assembled(chunks)
  {
    if chunks == [] {
      assert [] + [buf] == [buf] && [buf][1..] == [];
    } else {
      assert (chunks + [buf])[1..] == chunks[1..] + [buf];
      OneMoreChunk(chunks[1..], buf);
    }
  }

  method CollectTail(content: string, n: nat, chunkSize: nat) returns (chunks: seq<string>)
    requires content != [] && chunkSize > 0
    ensures var u := Assembled(chunks);
            |u| <= |content| && content[|content| - |u|..] == u && (|u| == |content| || CountNewlines(u) > n)
  {
    chunks := [];
    var newlineCount := 0;
    var pos := |content|;
    while true
      invariant 0 < pos <= |content|
      invariant Assembled(chunks) == content[pos..]
      invariant newlineCount == CountNewlines(content[pos..])
      decreases pos
    {
      var readStart := if pos < chunkSize then 0 else pos - chunkSize;
      var buf := content[readStart..pos];
      assert content[readStart..] == buf + content[pos..];
      CountAppend(buf, content[pos..]);
      OneMoreChunk(chunks, buf);
      newlineCount := newlineCount + CountNewlines(buf);
      chunks := chunks + [buf];
      pos := readStart;
      if newlineCount > n || pos == 0 {
        break;
      }
    }
  }

  /** Whatever the chunk size, the result is the last `n` lines of the whole content. */
  method TailLines(content: string, n: nat, chunkSize: nat) returns (r: string)
    requires chunkSize > 0
    ensures r == Tail(content, n)
  {
    if content == [] {
      return [];
    }
    var chunks := CollectTail(content, n, chunkSize);
    var text := Assembled(chunks);
    ghost var before := content[..|content| - |text|];
    assert content == before + text;
    if |text| < |content| { SuffixSuffices(before, text, n); } else { assert text == content; }
    var allLines := Lines(text);
    if |allLines| <= n {
      return JoinLines(allLines) + "\n";
    }
    var start := |allLines| - n;
    return JoinLines(allLines[start..]) + "\n";
  }
}
