/** Source-version headers of extracted overlay files. */
module SourceHeader {
  import opened Text

  const MARKER := "crap-cms:source "

  datatype Comment = Comment(open: string, close: string)

  /** The comment syntax of a file extension. */
  function CommentFor(ext: Option<string>): Option<Comment> {
    if ext == Some("hbs") then Some(Comment("{{!--", "--}}"))
    else if ext == Some("js") || ext == Some("ts") then Some(Comment("//", ""))
    else if ext == Some("css") then Some(Comment("/*", "*/"))
    else if ext == Some("lua") then Some(Comment("--", ""))
    else None
  }

  function SourceHeaderFor(ext: Option<string>, version: string): Option<string> {
    match CommentFor(ext)
    case None => None
    case Some(c) =>
      Some(if c.close == "" then c.open + " " + MARKER + version + "\n"
           else c.open + " " + MARKER + version + " " + c.close + "\n")
  }

  /** The text of a header, given the comment syntax of the file type. */
  lemma {:induction false} HeaderIs(ext: Option<string>, open: string, close: string, v: string)
    requires CommentFor(ext) == Some(Comment(open, close))
    ensures close == "" ==> SourceHeaderFor(ext, v) == Some(open + " crap-cms:source " + v + "\n")
    ensures close != "" ==> SourceHeaderFor(ext, v) == Some(open + " crap-cms:source " + v + " " + close + "\n")
  {
    hide CommentFor;
    assert open + " " + MARKER == open + " crap-cms:source ";
  }

  /** The header of each file type, as it stands in the file. */
  lemma {:induction false} HeaderText(v: string)
    ensures SourceHeaderFor(Some("hbs"), v) == Some("{{!--" + " crap-cms:source " + v + " " + "--}}" + "\n")
    ensures SourceHeaderFor(Some("js"), v) == SourceHeaderFor(Some("ts"), v) == Some("//" + " crap-cms:source " + v + "\n")
    ensures SourceHeaderFor(Some("css"), v) == Some("/*" + " crap-cms:source " + v + " " + "*/" + "\n")
    ensures SourceHeaderFor(Some("lua"), v) == Some("--" + " crap-cms:source " + v + "\n")
  {
    HeaderIs(Some("hbs"), "{{!--", "--}}", v);
    HeaderIs(Some("js"), "//", "", v);
    HeaderIs(Some("ts"), "//", "", v);
    HeaderIs(Some("css"), "/*", "*/", v);
    HeaderIs(Some("lua"), "--", "", v);
  }

  method PrependSourceHeader(ext: Option<string>, version: string, content: string) returns (out: string)
    ensures out == Prepended(ext, version, content)
  {
    var header := SourceHeaderFor(ext, version);
    if header.None? {
      return content;
    }
    out := [];
    out := out + header.value;
    out := out + content;
  }

  function Prepended(ext: Option<string>, version: string, content: string): string {
    match SourceHeaderFor(ext, version)
    case None => content
    case Some(header) => header + content
  }

  /** `trim_end_matches` of a fixed string */
  function TrimEndMatches(s: string, t: string): string
    requires t != []
  {
    if EndsWith(s, t) then TrimEndMatches(s[..|s| - |t|], t) else s
  }

  /** What a marker line says, the text after the marker being `after`. */
  function VersionOf(after: string): string { Trim(TrimEndMatches(TrimEndMatches(Trim(after), "--}}"), "*/")) }

  /** The version on a line, if it has a marker and something after it. */
  function LineVersion(line: string): Option<string> {
    match Find(line, MARKER)
    case None => None
    case Some(k) =>
      var v := VersionOf(line[k + |MARKER|..]);
      if v == [] then None else Some(v)
  }

  /** The first version on the first `n` lines. */
  function FirstVersion(lines: seq<string>, n: nat): Option<string>
    decreases n
  {
    if n == 0 || lines == [] then None
    else if LineVersion(lines[0]).Some? then LineVersion(lines[0])
    else FirstVersion(lines[1..], n - 1)
  }

  method ParseSourceVersion(content: string) returns (r: Option<string>)
    ensures r == FirstVersion(Lines(content), 5)
  {
    hide LineVersion;
    var lines := Lines(content);
    var i := 0;
    assert lines[0..] == lines;
    while i < |lines| && i < 5
      invariant 0 <= i <= |lines| && i <= 5
      invariant FirstVersion(lines, 5) == FirstVersion(lines[i..], 5 - i)
    {
      assert lines[i..][0] == lines[i] && lines[i..][1..] == lines[i + 1..];
      var v := LineVersion(lines[i]);
      if v.Some? {
        return v;
      }
      i := i + 1;
    }
    return None;
  }

  /** The version read is the one on the first of the first five lines that has one. */
  lemma {:induction false} ParsedIff(content: string, v: string)
    ensures FirstVersion(Lines(content), 5) == Some(v)
       <==> exists i | 0 <= i < 5 && i < |Lines(content)| :: VersionAt(Lines(content), v, i)
  {
    FirstVersionIff(Lines(content), 5, v);
    hide Lines, LineVersion, FirstVersion;
  }

  predicate VersionAt(lines: seq<string>, v: string, i: nat)
    requires i < |lines|
  {
    LineVersion(lines[i]) == Some(v) && forall j | 0 <= j < i :: LineVersion(lines[j]).None?
  }

  lemma {:induction false} VersionAtTail(lines: seq<string>, v: string, i: nat)
    requires i < |lines| && i > 0 && LineVersion(lines[0]).None?
    ensures VersionAt(lines, v, i) == VersionAt(lines[1..], v, i - 1)
  {
    hide LineVersion;
    if VersionAt(lines, v, i) { forall j | 0 <= j < i - 1 ensures LineVersion(lines[1..][j]).None? { assert lines[1..][j] == lines[j + 1]; } }
    if VersionAt(lines[1..], v, i - 1) {
      forall j | 0 <= j < i ensures LineVersion(lines[j]).None? { if j > 0 { assert lines[1..][j - 1] == lines[j]; } }
    }
  }

  lemma {:induction false} FirstHides(lines: seq<string>, v: string, i: nat)
    requires 0 < i < |lines| && LineVersion(lines[0]).Some?
    ensures !VersionAt(lines, v, i)
  {
    hide LineVersion;
  }

  lemma {:induction false} FirstVersionIff(lines: seq<string>, n: nat, v: string)
    ensures FirstVersion(lines, n) == Some(v) <==> exists i | 0 <= i < n && i < |lines| :: VersionAt(lines, v, i)
    decreases n
  {
    hide LineVersion;
    if n > 0 && lines != [] && LineVersion(lines[0]).None? {
      FirstVersionIff(lines[1..], n - 1, v);
      forall i: nat | 0 < i < |lines| ensures VersionAt(lines, v, i) == VersionAt(lines[1..], v, i - 1) { VersionAtTail(lines, v, i); }
      if i: nat :| 0 <= i < n - 1 && i < |lines[1..]| && VersionAt(lines[1..], v, i) { assert VersionAt(lines, v, i + 1); }
      if i: nat :| 0 <= i < n && i < |lines| && VersionAt(lines, v, i) { assert i > 0; assert VersionAt(lines[1..], v, i - 1); }
    } else if n > 0 && lines != [] {
      assert VersionAt(lines, v, 0) <==> LineVersion(lines[0]) == Some(v);
      forall i: nat | 0 < i < |lines| ensures !VersionAt(lines, v, i) { FirstHides(lines, v, i); }
    }
  }

  // ----- the header is the first line -----

  lemma {:induction false} FirstLine(l: string, rest: string)
    requires '\n' !in l && l != [] && l[|l| - 1] != '\r'
    ensures Lines(l + "\n" + rest) != [] && Lines(l + "\n" + rest)[0] == l
  {
    hide SplitLines;
    SplitAt(l, rest);
  }

  /** The marker of a header is the first one on its line. */
  lemma {:induction false} MarkerFound(open: string, after: string)
    requires 'c' !in open
    ensures Find(open + MARKER + after, MARKER) == Some(|open|)
  {
    var s := open + MARKER + after;
    if open == [] {
      assert s == MARKER + after;
    } else {
      assert s[0] == open[0] && open[0] in open && MARKER[0] == 'c';
      assert s[1..] == open[1..] + MARKER + after;
      MarkerFound(open[1..], after);
    }
  }

  // ----- reading a header back -----

  /** A version as the tool writes it: something on one line without surrounding whitespace. */
  predicate Plain(version: string) { version != [] && '\n' !in version && Trimmed(version) }

  predicate EndsInCloser(version: string) { EndsWith(version, "--}}") || EndsWith(version, "*/") }

  lemma {:induction false} PlainTrims(v: string, a: string, b: string)
    requires Trimmed(v) && Blank(a) && Blank(b)
    ensures Trim(a + v + b) == v && Trim(v) == v && Trim(v + b) == v
  {
    TrimOf(a, v, b);
    TrimOf([], v, []);
    TrimOf([], v, b);
    assert [] + v + [] == v && [] + v + b == v + b;
  }

  lemma {:induction false} NotMatched(s: string, t: string)
    requires t != [] && !EndsWith(s, t)
    ensures TrimEndMatches(s, t) == s
  {}

  lemma {:induction false} MatchedShortens(s: string, t: string)
    requires t != []
    ensures |TrimEndMatches(s, t)| <= |s|
    ensures EndsWith(s, t) ==> |TrimEndMatches(s, t)| < |s|
    decreases |s|
  {
    if EndsWith(s, t) { MatchedShortens(s[..|s| - |t|], t); }
  }

  lemma {:induction false} TrimShortens(s: string)
    ensures |Trim(s)| <= |s|
  {
    var a, b := TrimSplit(s);
  }

  /** Without a comment closer on the line, a version reads back unless it ends in one. */
  lemma {:induction false} BareVersion(v: string)
    requires Plain(v)
    ensures VersionOf(v) == v <==> !EndsInCloser(v)
  {
    hide Trim;
    PlainTrims(v, [], []);
    var a := TrimEndMatches(v, "--}}");
    var b := TrimEndMatches(a, "*/");
    TrimShortens(b);
    MatchedShortens(v, "--}}");
    MatchedShortens(a, "*/");
    if !EndsWith(v, "--}}") { NotMatched(v, "--}}"); }
    if !EndsWith(a, "*/") { NotMatched(a, "*/"); }
  }

  /** Behind a version, the closer of the header is removed and nothing else is. */
  lemma {:induction false} ClosedVersion(v: string, close: string)
    requires Plain(v) && (close == "--}}" || close == "*/")
    ensures VersionOf(v + " " + close) == v
  {
    hide Trim;
    var w := v + " ";
    var s := w + close;
    assert Trimmed(s) by { assert s[0] == v[0] && s[|s| - 1] == close[|close| - 1]; }
    PlainTrims(s, [], []);
    PlainTrims(v, [], " ");
    assert s[|s| - |close|..] == close && s[..|s| - |close|] == w;
    SpaceEnd(w, "--}}");
    SpaceEnd(w, "*/");
    NotMatched(w, "--}}");
    NotMatched(w, "*/");
    if close == "*/" {
      SlashEnd(s);
      NotMatched(s, "--}}");
    }
  }

  lemma {:induction false} SpaceEnd(w: string, t: string)
    requires w != [] && w[|w| - 1] == ' ' && t != [] && t[|t| - 1] != ' '
    ensures !EndsWith(w, t)
  {
    if |w| >= |t| { assert w[|w| - |t|..][|t| - 1] == w[|w| - 1]; }
  }

  lemma {:induction false} SlashEnd(s: string)
    requires s != [] && s[|s| - 1] == '/'
    ensures !EndsWith(s, "--}}")
  {
    if |s| >= 4 { assert s[|s| - 4..][3] == s[|s| - 1]; }
  }

  lemma {:induction false} NoCloserEnd(v: string, w: string)
    requires v != [] && Blank(w) && (w != [] || !EndsInCloser(v))
    ensures !EndsInCloser(v + w)
  {
    if w == [] {
      assert v + w == v;
    } else {
      var s := v + w;
      assert s[|s| - 1] == w[|w| - 1] && IsSpace(w[|w| - 1]);
      if |s| >= 4 { assert s[|s| - 4..][3] == s[|s| - 1]; }
      if |s| >= 2 { assert s[|s| - 2..][1] == s[|s| - 1]; }
    }
  }

  /** What follows a marker is a version, with any whitespace and a comment closer around it. */
  lemma {:induction false} VersionRead(v: string, w1: string, w2: string, close: string, w3: string)
    requires Plain(v) && Blank(w1) && Blank(w2) && Blank(w3)
    requires (close == "" || close == "--}}" || close == "*/") && (w2 != [] || !EndsInCloser(v)) && (close == "" ==> !EndsInCloser(v))
    ensures VersionOf(w1 + (v + w2 + close) + w3) == v
  {
    hide Trim;
    NoCloserEnd(v, w2);
    PlainTrims(v, [], w2);
    if close == "" {
      assert w1 + (v + w2 + close) + w3 == w1 + v + (w2 + w3);
      PlainTrims(v, w1, w2 + w3);
      BareVersion(v);
      PlainTrims(v, [], []);
    } else {
      var s := v + w2 + close;
      assert s[0] == v[0] && s[|s| - 1] == close[|close| - 1];
      PlainTrims(s, w1, w3);
      assert s[|s| - |close|..] == close && s[..|s| - |close|] == v + w2;
      NotMatched(v + w2, "--}}");
      NotMatched(v + w2, "*/");
      if close == "*/" {
        SlashEnd(s);
        NotMatched(s, "--}}");
      }
    }
  }

  /** The marker of a line is its first one, and its version is what stands behind it. */
  lemma {:induction false} LineMeans(pre: string, v: string, w1: string, w2: string, close: string, w3: string)
    requires forall j | 0 <= j < |pre| :: !("crap-cms:source " <= (pre + "crap-cms:source ")[j..])
    requires Plain(v) && Blank(w1) && Blank(w2) && Blank(w3)
    requires (close == "" || close == "--}}" || close == "*/") && (w2 != [] || !EndsInCloser(v)) && (close == "" ==> !EndsInCloser(v))
    ensures LineVersion(pre + "crap-cms:source " + (w1 + (v + w2 + close) + w3)) == Some(v)
  {
    VersionRead(v, w1, w2, close, w3);
    hide VersionOf, Plain, EndsInCloser, Find;
    var s := pre + "crap-cms:source ";
    FindIsFirst(s, MARKER);
    assert s[|pre|..] == MARKER;
    FindExtends(s, MARKER, w1 + (v + w2 + close) + w3);
    assert (s + (w1 + (v + w2 + close) + w3))[|pre| + |MARKER|..] == w1 + (v + w2 + close) + w3;
  }

  predicate ReadsBackIn(ext: Option<string>, version: string, content: string) {
    FirstVersion(Lines(Prepended(ext, version, content)), 5) == Some(version)
  }

  lemma {:induction false} LineRead(open: string, after: string)
    requires 'c' !in open
    ensures LineVersion(open + MARKER + after) == if VersionOf(after) == [] then None else Some(VersionOf(after))
  {
    MarkerFound(open, after);
    hide VersionOf, Find;
    assert (open + MARKER + after)[|open| + |MARKER|..] == after;
  }

  /** What follows the marker in a header. */
  function AfterMarker(c: Comment, v: string): string { if c.close == "" then v else v + " " + c.close }

  lemma {:induction false} HeaderParts(ext: Option<string>, v: string, content: string)
    requires CommentFor(ext).Some?
    ensures var c := CommentFor(ext).value;
            Prepended(ext, v, content) == c.open + " " + MARKER + AfterMarker(c, v) + "\n" + content
  {
    var c := CommentFor(ext).value;
    hide CommentFor;
    var head := c.open + " " + MARKER;
    assert head + (v + " " + c.close) + "\n" == head + v + " " + c.close + "\n";
  }

  lemma {:induction false} OpenIsPlain(ext: Option<string>)
    requires CommentFor(ext).Some?
    ensures var c := CommentFor(ext).value;
            && 'c' !in c.open + " " && '\n' !in c.open + " "
            && '\n' !in c.close && (c.close != "" ==> c.close[|c.close| - 1] != '\r')
  {}

  lemma {:induction false} AfterIsPlain(c: Comment, v: string)
    requires Plain(v) && '\n' !in c.close && (c.close != "" ==> c.close[|c.close| - 1] != '\r')
    ensures var a := AfterMarker(c, v); a != [] && '\n' !in a && a[|a| - 1] != '\r'
  {}

  lemma {:induction false} JoinedIsPlain(open: string, after: string)
    requires '\n' !in open && after != [] && '\n' !in after && after[|after| - 1] != '\r'
    ensures var line := open + MARKER + after; line != [] && '\n' !in line && line[|line| - 1] != '\r'
  {}

  /** The header's line and what its marker says. */
  lemma {:induction false} HeaderLine(ext: Option<string>, v: string, content: string) returns (line: string)
    requires Plain(v) && CommentFor(ext).Some?
    ensures var after := AfterMarker(CommentFor(ext).value, v);
            && '\n' !in line
            && Prepended(ext, v, content) == line + "\n" + content
            && Lines(line + "\n" + content) != [] && Lines(line + "\n" + content)[0] == line
            && LineVersion(line) == if VersionOf(after) == [] then None else Some(VersionOf(after))
  {
    hide *;
    var c := CommentFor(ext).value;
    var open, after := c.open + " ", AfterMarker(c, v);
    line := open + MARKER + after;
    HeaderParts(ext, v, content);
    OpenIsPlain(ext);
    AfterIsPlain(c, v);
    JoinedIsPlain(open, after);
    LineRead(open, after);
    FirstLine(line, content);
  }

  /** A prepended version reads back whatever the content, exactly when the file type closes its
      comments or the version does not end in a comment closer. */
  lemma {:induction false} RoundTripIff(ext: Option<string>, version: string)
    requires Plain(version) && CommentFor(ext).Some?
    ensures (forall content :: ReadsBackIn(ext, version, content))
       <==> (CommentFor(ext).value.close != "" || !EndsInCloser(version))
  {
    var c := CommentFor(ext).value;
    if c.close != "" { ClosedVersion(version, c.close); } else { BareVersion(version); }
    hide VersionOf, Lines, CommentFor, LineVersion, EndsInCloser, Plain;
    forall content | c.close != "" || !EndsInCloser(version) ensures ReadsBackIn(ext, version, content) {
      var line := HeaderLine(ext, version, content);
    }
    if c.close == "" && EndsInCloser(version) {
      NotReadBack(ext, version);
    }
  }

  lemma {:induction false} NotReadBack(ext: Option<string>, version: string)
    requires Plain(version) && CommentFor(ext).Some? && CommentFor(ext).value.close == "" && EndsInCloser(version)
    ensures !ReadsBackIn(ext, version, [])
  {
    BareVersion(version);
    hide VersionOf, CommentFor, EndsInCloser, Plain, LineVersion;
    var line := HeaderLine(ext, version, []);
    assert Lines(line + "\n" + []) == [line] by { OneLine(line); }
    assert [line][1..] == [];
  }

  lemma {:induction false} OneLine(line: string)
    requires Lines(line + "\n" + []) != [] && Lines(line + "\n" + [])[0] == line && '\n' !in line
    ensures Lines(line + "\n" + []) == [line]
  {
    SplitAt(line, []);
    var none: seq<string> := [[]];
    assert SplitLines([]) == none;
    var ps := [line] + none;
    assert ps[1..] == none && PieceLines(none) == [];
    assert PieceLines(ps) == [Chomp(line)];
  }

  /** A newly prepended header shadows the one already there. */
  lemma {:induction false} NewHeaderWins(ext: Option<string>, version: string, older: string, content: string)
    requires Plain(version) && CommentFor(ext).Some? && (CommentFor(ext).value.close != "" || !EndsInCloser(version))
    ensures ReadsBackIn(ext, version, Prepended(ext, older, content))
  {
    RoundTripIff(ext, version);
    hide ReadsBackIn, Prepended, CommentFor;
  }

  /** Files of other types are left alone. */
  lemma {:induction false} OtherTypesKept(ext: Option<string>, version: string, content: string)
    ensures Prepended(ext, version, content) == content
       <==> ext !in {Some("hbs"), Some("js"), Some("ts"), Some("css"), Some("lua")}
  {
    if CommentFor(ext).Some? {
      var h := SourceHeaderFor(ext, version).value;
      assert |h + content| > |content|;
    }
  }
}
