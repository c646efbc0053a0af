/** Blocks embedded in an attribute list, as trees: where one ends, whatever blocks are nested in it. */
module Blocks {
  import opened Text
  import opened Tokens
  import opened Lexing
  import opened AttributeProps
  import opened Boundaries

  datatype Piece =
    | Chars(text: string)
    | Mustache(body: string)
    | Nested(block: Block)

  datatype Block = Block(sigil: char, head: string, pieces: seq<Piece>, tail: string)

  /** The content of a mustache without quotes and braces. */
  predicate IsContent(b: string) { forall c <- b :: c != '"' && c != '\'' && c != '{' && c != '}' }

  predicate PieceOk(p: Piece) {
    match p
    case Chars(text) => '{' !in text
    case Mustache(body) => IsContent(body) && (body != [] ==> body[0] !in ['#', '^', '/'])
    case Nested(b) => BlockOk(b)
  }

  predicate BlockOk(b: Block) {
    b.sigil in ['#', '^'] && IsContent(b.head) && IsContent(b.tail) && PiecesOk(b.pieces)
  }

  predicate PiecesOk(ps: seq<Piece>) { ps == [] || (PieceOk(ps[0]) && PiecesOk(ps[1..])) }

  function PieceText(p: Piece): string {
    match p
    case Chars(text) => text
    case Mustache(body) => "{{" + body + "}}"
    case Nested(b) => BlockText(b)
  }

  function BlockText(b: Block): string {
    "{{" + ([b.sigil] + b.head) + "}}" + (PiecesText(b.pieces) + ("{{" + ("/" + b.tail) + "}}"))
  }

  function PiecesText(ps: seq<Piece>): string { if ps == [] then [] else PieceText(ps[0]) + PiecesText(ps[1..]) }

  // ----- one mustache at a time -----

  lemma {:induction false} ContentCloses(b: string, rest: string)
    requires IsContent(b)
    ensures FindClose(b + "}}" + rest, None, "}}") == Some(|b|)
  {
    hide FindClose;
    assert Quiet(b);
    QuietCloses(b, rest);
  }

  /** What a mustache does to the number of open blocks. */
  function Delta(b: string): int { if b != [] && b[0] in ['#', '^'] then 1 else if b != [] && b[0] == '/' then -1 else 0 }

  lemma {:induction false} DeltaIs(b: string, rest: string)
    ensures BlockDelta("{{" + b + "}}" + rest) == Delta(b)
  {
    var s := "{{" + b + "}}" + rest;
    assert s[2] == if b == [] then '}' else b[0];
    assert s[..3] == ['{', '{', s[2]];
  }

  lemma {:induction false} MustacheTurn(b: string, rest: string, depth: int)
    requires IsContent(b)
    ensures var s := "{{" + b + "}}" + rest;
            BlockEnd(s, depth) == if depth == 1 && Delta(b) == -1 then Some(|b| + 4)
                                  else Shift(BlockEnd(rest, depth + Delta(b)), |b| + 4)
  {
    hide *;
    var s := "{{" + b + "}}" + rest;
    ContentCloses(b, rest);
    DeltaIs(b, rest);
    assert s[2..] == b + "}}" + rest && s[..2] == "{{" && s[|b| + 4..] == rest;
    BlockEndTurn(s, depth);
  }

  lemma {:induction false} CharsTurn(text: string, rest: string, depth: int)
    requires '{' !in text
    ensures BlockEnd(text + rest, depth) == Shift(BlockEnd(rest, depth), |text|)
  {
    hide BlockEnd;
    if text == [] {
      assert text + rest == rest;
      ShiftNone(BlockEnd(rest, depth));
    } else {
      var s := text + rest;
      assert text[0] in text && s[0] == text[0] && s[1..] == text[1..] + rest;
      BlockEndTurn(s, depth);
      CharsTurn(text[1..], rest, depth);
      ShiftTwice(BlockEnd(rest, depth), |text| - 1, 1);
    }
  }

  // ----- a block is passed over -----

  lemma {:induction false} OpensOne(b: Block)
    requires BlockOk(b)
    ensures IsContent([b.sigil] + b.head) && Delta([b.sigil] + b.head) == 1
    ensures IsContent("/" + b.tail) && Delta("/" + b.tail) == -1
    ensures PiecesOk(b.pieces)
  {
    hide PiecesOk;
  }

  lemma {:induction false} BlockTextIs(b: Block, rest: string)
    ensures BlockText(b) + rest
         == "{{" + ([b.sigil] + b.head) + "}}" + (PiecesText(b.pieces) + ("{{" + ("/" + b.tail) + "}}" + rest))
    ensures |BlockText(b)| == |b.head| + 5 + |PiecesText(b.pieces)| + |b.tail| + 5
  {
    hide PiecesText;
  }

  /** Inside a block, whole blocks leave the number of open ones as it is. */
  lemma {:induction false} BlockPasses(b: Block, rest: string, depth: int)
    requires BlockOk(b) && depth >= 1
    ensures BlockEnd(BlockText(b) + rest, depth) == Shift(BlockEnd(rest, depth), |BlockText(b)|)
    decreases b, 0
  {
    hide *;
    var tail := "{{" + ("/" + b.tail) + "}}" + rest;
    var end := BlockEnd(rest, depth);
    OpensOne(b);
    BlockTextIs(b, rest);
    MustacheTurn([b.sigil] + b.head, PiecesText(b.pieces) + tail, depth);
    PiecesPass(b.pieces, tail, depth + 1);
    MustacheTurn("/" + b.tail, rest, depth + 1);
    ShiftTwice(end, |b.tail| + 5, |PiecesText(b.pieces)|);
    ShiftTwice(end, |b.tail| + 5 + |PiecesText(b.pieces)|, |b.head| + 5);
  }

  lemma {:induction false} PiecesPass(ps: seq<Piece>, rest: string, depth: int)
    requires PiecesOk(ps) && depth >= 1
    ensures BlockEnd(PiecesText(ps) + rest, depth) == Shift(BlockEnd(rest, depth), |PiecesText(ps)|)
    decreases ps, 0
  {
    hide *;
    if ps == [] {
      NoPieces();
      assert PiecesText(ps) + rest == rest;
      ShiftNone(BlockEnd(rest, depth));
    } else {
      PiecesHead(ps);
      var tail := PiecesText(ps[1..]) + rest;
      PiecePasses(ps[0], tail, depth);
      PiecesPass(ps[1..], rest, depth);
      assert PiecesText(ps) + rest == PieceText(ps[0]) + tail;
      ShiftTwice(BlockEnd(rest, depth), |PiecesText(ps[1..])|, |PieceText(ps[0])|);
    }
  }

  lemma {:induction false} NoPieces()
    ensures PiecesText([]) == []
  {}

  lemma {:induction false} PiecesHead(ps: seq<Piece>)
    requires ps != [] && PiecesOk(ps)
    ensures PieceOk(ps[0]) && PiecesOk(ps[1..]) && PiecesText(ps) == PieceText(ps[0]) + PiecesText(ps[1..])
  {
    hide PieceOk, PieceText;
  }

  lemma {:induction false} PieceIs(p: Piece)
    requires PieceOk(p)
    ensures p.Chars? ==> '{' !in p.text && PieceText(p) == p.text
    ensures p.Mustache? ==> IsContent(p.body) && Delta(p.body) == 0 && PieceText(p) == "{{" + p.body + "}}"
    ensures p.Nested? ==> BlockOk(p.block) && PieceText(p) == BlockText(p.block)
  {
    hide BlockOk, BlockText, IsContent;
  }

  lemma {:induction false} PiecePasses(p: Piece, rest: string, depth: int)
    requires PieceOk(p) && depth >= 1
    ensures BlockEnd(PieceText(p) + rest, depth) == Shift(BlockEnd(rest, depth), |PieceText(p)|)
    decreases p, 0
  {
    hide *;
    PieceIs(p);
    match p
    case Chars(text) => CharsTurn(text, rest, depth);
    case Mustache(body) => MustacheTurn(body, rest, depth);
    case Nested(b) => BlockPasses(b, rest, depth);
  }

  /** A block is one attribute, up to its own closing mustache. */
  lemma {:induction false} BlockRead(b: Block, rest: string)
    requires BlockOk(b)
    ensures ParseOne(BlockText(b) + rest) == Ok(ReadAttr(BlockAttr(BlockText(b)), |BlockText(b)|))
  {
    hide *;
    var tail := "{{" + ("/" + b.tail) + "}}" + rest;
    OpensOne(b);
    BlockTextIs(b, rest);
    MustacheTurn([b.sigil] + b.head, PiecesText(b.pieces) + tail, 0);
    PiecesPass(b.pieces, tail, 1);
    MustacheTurn("/" + b.tail, rest, 1);
    ShiftIs(Some(|b.tail| + 5), |PiecesText(b.pieces)|);
    ShiftIs(Some(|b.tail| + 5 + |PiecesText(b.pieces)|), |b.head| + 5);
    BlockTextTrimmed(b);
    BlockFirst(b, rest);
    BlockAttrRead(BlockText(b) + rest, |BlockText(b)|);
  }

  lemma {:induction false} BlockTextTrimmed(b: Block)
    ensures Trim(BlockText(b)) == BlockText(b)
  {
    hide PiecesText, Trim;
    var t := BlockText(b);
    assert t[0] == '{' && t[|t| - 1] == '}';
    TrimOf([], t, []);
    assert [] + t + [] == t;
  }

  lemma {:induction false} BlockFirst(b: Block, rest: string)
    requires BlockOk(b)
    ensures var s := BlockText(b) + rest;
            ("{{#" <= s || "{{^" <= s) && s[..|BlockText(b)|] == BlockText(b)
  {
    hide PiecesText, PiecesOk, IsContent;
    var s := BlockText(b) + rest;
    assert s[..3] == ['{', '{', b.sigil];
  }

  lemma {:induction false} BlockAttrRead(s: string, n: nat)
    requires ("{{#" <= s || "{{^" <= s) && BlockEnd(s, 0) == Some(n) && n <= |s|
    ensures ParseOne(s) == Ok(ReadAttr(BlockAttr(Trim(s[..n])), n))
  {
    hide BlockEnd, Trim, FindClose, AttrNameLen, FindValueQuote, WordLen, Lower;
  }
}
