/** What tags, attributes and words are printed as, with the names and widths written out. */
module Renderings {
  import opened Text
  import opened Tokens
  import opened Lexing
  import opened Layout
  import opened GapFix
  import opened Boundaries

  // ----- tags and attributes -----

  /** A start tag ends in a slash exactly when it closes itself or its element has no end tag. */
  lemma {:induction false} TagPrinted(name: string, selfClosed: bool)
    ensures TokenText(HtmlStart(name, [], selfClosed))
         == Ok("<" + name + (if selfClosed || name in ["area", "base", "br", "col", "embed", "hr", "img", "input", "link",
                                                       "meta", "source", "track", "wbr"] then " />" else ">"))
  {
    NoAttributes();
    hide ParseAttributes, RenderAttrs, Spaced;
    assert "<" + name + [] == "<" + name;
  }

  /** The value of an attribute is dropped exactly when the attribute is boolean and the value is empty or repeats the name. */
  lemma {:induction false} ValueDroppedIff(name: string, value: string)
    ensures RenderPlain(name, Some(value)) == name
       <==> name in ["checked", "disabled", "hidden", "multiple", "readonly", "required", "selected", "autofocus",
                     "novalidate", "open", "default", "reversed", "ismap", "loop", "muted", "controls", "autoplay",
                     "playsinline", "async", "defer", "formnovalidate"]
            && (value == [] || Lower(value) == Lower(name))
    ensures RenderPlain(name, None) == name
  {
    hide Lower;
    var r := RenderPlain(name, Some(value));
    assert |name + "='" + value + "'"| > |name| && |name + "=\"" + value + "\""| > |name|;
  }

  // ----- words on one line -----

  function Spaces(n: nat): string { seq(n, i => ' ') }

  /** The first word, then every further one behind its run of spaces. */
  function Sentence(first: string, gaps: seq<nat>, words: seq<string>): string
    requires |gaps| == |words|
    decreases |words|
  {
    if words == [] then first else first + (Spaces(gaps[0]) + Sentence(words[0], gaps[1..], words[1..]))
  }

  /** Half of each width, rounded up. */
  function Halves(gaps: seq<nat>): (r: seq<nat>)
    ensures |r| == |gaps|
  {
    if gaps == [] then [] else [(gaps[0] + 1) / 2] + Halves(gaps[1..])
  }

  predicate IsWordText(w: string) { w != [] && forall c <- w :: c !in [' ', '\t', '\n', '\r', '\U{B}', '\U{C}'] }

  predicate AreWords(words: seq<string>) { forall w <- words :: IsWordText(w) }

  predicate SpacesAndBreaks(a: string) { forall c <- a :: c == ' ' || c == '\n' }

  lemma {:induction false} WordHalved(w: string, y: string)
    requires ' ' !in w
    ensures HalveSpaces(w + y) == w + HalveSpaces(y)
  {
    hide HalveSpaces;
    if w == [] {
      assert w + y == y;
    } else {
      assert w[0] in w && (w + y)[0] == w[0] && (w + y)[1..] == w[1..] + y;
      HalveTurn(w + y);
      TwoSpaces(w + y);
      WordHalved(w[1..], y);
    }
  }

  lemma {:induction false} SpacesHalf(n: nat)
    ensures HalveSpaces(Spaces(n)) == Spaces((n + 1) / 2)
    decreases n
  {
    hide HalveSpaces;
    var s := Spaces(n);
    if n == 0 {
      HalveNothingAt();
    } else {
      HalveTurn(s);
      TwoSpaces(s);
      if n == 1 {
        HalveNothingAt();
        assert s[1..] == [] && [s[0]] + [] == Spaces(1);
      } else {
        assert s[2..] == Spaces(n - 2);
        SpacesHalf(n - 2);
        assert " " + Spaces((n - 1) / 2) == Spaces((n + 1) / 2);
      }
    }
  }

  lemma {:induction false} WordsHead(words: seq<string>)
    requires AreWords(words) && words != []
    ensures IsWordText(words[0]) && AreWords(words[1..])
  {
    hide IsWordText;
    forall w | w in words[1..] ensures w in words {}
  }

  lemma {:induction false} SentenceStarts(first: string, gaps: seq<nat>, words: seq<string>)
    requires |gaps| == |words| && IsWordText(first)
    ensures Sentence(first, gaps, words) != [] && Sentence(first, gaps, words)[0] == first[0] && !IsSpace(first[0])
  {
    assert first[0] in first;
  }

  lemma {:induction false} SentenceHalved(first: string, gaps: seq<nat>, words: seq<string>)
    requires |gaps| == |words| && IsWordText(first) && AreWords(words)
    ensures HalveSpaces(Sentence(first, gaps, words)) == Sentence(first, Halves(gaps), words)
    decreases |words|
  {
    hide HalveSpaces;
    assert ' ' !in first;
    if words == [] {
      WordHalved(first, []);
      HalveNothingAt();
      assert first + [] == first;
    } else {
      WordsHead(words);
      var rest := Sentence(words[0], gaps[1..], words[1..]);
      SentenceStarts(words[0], gaps[1..], words[1..]);
      SentenceHalved(words[0], gaps[1..], words[1..]);
      WordHalved(first, Spaces(gaps[0]) + rest);
      HalveSplit(Spaces(gaps[0]), rest);
      SpacesHalf(gaps[0]);
      assert Halves(gaps)[1..] == Halves(gaps[1..]);
    }
  }

  lemma {:induction false} SentenceChars(first: string, gaps: seq<nat>, words: seq<string>)
    requires |gaps| == |words| && IsWordText(first) && AreWords(words)
    ensures var s := Sentence(first, gaps, words);
            (forall c <- s :: IsSpace(c) ==> c == ' ') && s != [] && !IsSpace(s[|s| - 1])
    decreases |words|
  {
    if words == [] {
      assert first[|first| - 1] in first;
    } else {
      WordsHead(words);
      SentenceChars(words[0], gaps[1..], words[1..]);
      hide AreWords, Sentence;
      var rest := Sentence(words[0], gaps[1..], words[1..]);
      SentenceTurn(first, gaps, words);
      forall c | c in first ensures !IsSpace(c) {}
    }
  }

  lemma {:induction false} SentenceTurn(first: string, gaps: seq<nat>, words: seq<string>)
    requires |gaps| == |words| && words != []
    ensures Sentence(first, gaps, words) == first + (Spaces(gaps[0]) + Sentence(words[0], gaps[1..], words[1..]))
  {}

  lemma {:induction false} GapIsBlank(a: string)
    requires SpacesAndBreaks(a)
    ensures Blank(a)
  {
    forall i | 0 <= i < |a| ensures IsSpace(a[i]) { assert a[i] in a; }
  }

  /** On one line, the text around words is dropped and every run of spaces between them is halved, rounding up. */
  lemma {:induction false} WordsInline(a: string, first: string, gaps: seq<nat>, words: seq<string>, b: string)
    requires |gaps| == |words| && IsWordText(first) && AreWords(words) && SpacesAndBreaks(a) && SpacesAndBreaks(b)
    ensures var x := a + Sentence(first, gaps, words) + b;
            SingleLineToken(Text(x)) && InlineToken(Text(x)) == Ok(Sentence(first, Halves(gaps), words))
  {
    hide HalveSpaces, Sentence, Trim, CollapseInline;
    var t := Sentence(first, gaps, words);
    var x := a + t + b;
    SentenceChars(first, gaps, words);
    SentenceStarts(first, gaps, words);
    GapIsBlank(a);
    GapIsBlank(b);
    TrimOf(a, t, b);
    assert PlainBlanks(x);
    CollapseIs(x);
    SentenceHalved(first, gaps, words);
  }
}
