/** The token stream of `src/fmt/tokenizer.rs`. */
module Tokens {
  import opened Text

  datatype Token =
    | HtmlStart(name: string, attrsRaw: string, selfClosed: bool)
    | HtmlEnd(name: string)
    | HtmlComment(raw: string)
    | HbsBlockOpen(raw: string)
    | HbsBlockClose(raw: string)
    | HbsElse(raw: string)
    | HbsPartialOpen(raw: string)
    | HbsPartialClose(raw: string)
    | HbsExpr(raw: string)
    | HbsComment(raw: string)
    | Text(text: string)
    | RawText(text: string)

  datatype Attr =
    | Plain(name: string, value: Option<string>)
    | BlockAttr(raw: string)
    | ExprAttr(raw: string)

  const VOID_TAGS: seq<string> :=
    ["area", "base", "br", "col", "embed", "hr", "img", "input", "link", "meta", "source", "track", "wbr"]

  const RAW_CONTENT_TAGS: seq<string> := ["script", "style", "pre", "textarea"]

  predicate IsVoid(tag: string) { tag in VOID_TAGS }

  predicate IsRawContent(tag: string) { tag in RAW_CONTENT_TAGS }

  /** A start tag that has a matching end tag: it opens an indent level. */
  predicate OpensElement(t: Token) { t.HtmlStart? && !t.selfClosed && !IsVoid(t.name) }

  /** A start tag after which the tokenizer captures the body verbatim. */
  predicate OpensRaw(t: Token) { t.HtmlStart? && !t.selfClosed && IsRawContent(t.name) }

  predicate OpensBlock(t: Token) { t.HbsBlockOpen? || t.HbsPartialOpen? }

  predicate IsMustache(t: Token) {
    t.HbsBlockOpen? || t.HbsBlockClose? || t.HbsElse? || t.HbsPartialOpen? || t.HbsPartialClose? || t.HbsExpr?
  }

  predicate IsComment(t: Token) { t.HtmlComment? || t.HbsComment? }

  lemma RawIsNotVoid(tag: string)
    requires IsRawContent(tag)
    ensures !IsVoid(tag)
  {
    var raw := RAW_CONTENT_TAGS;
    assert tag == raw[0] || tag == raw[1] || tag == raw[2] || tag == raw[3];
  }
}
