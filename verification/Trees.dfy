/** Well-nested token streams are trees, and the flat printer with its depth counter is a
    pretty-printer of the tree. */
module Trees {
  import opened Text
  import opened Tokens
  import L = Lexing
  import opened Layout

  datatype Node = Leaf(token: Token) | Branch(open: Token, kids: seq<Node>, close: Token)

  /** Openers and closers pair up by kind. */
  predicate NodesOk(ns: seq<Node>) {
    if ns == [] then true
    else NodeOk(ns[0]) && NodesOk(ns[1..])
  }

  predicate NodeOk(n: Node) {
    match n
    case Leaf(t) => Awaits(t).None? && Closes(t).None?
    case Branch(open, kids, close) => Awaits(open).Some? && Closes(close) == Awaits(open) && NodesOk(kids)
  }

  /** What opens a level, and what closes it: an element its own end tag, a block or partial one of its kind. */
  lemma {:induction false} PairIff(t: Token, u: Token)
    ensures Awaits(t).Some? <==> (t.HtmlStart? && !t.selfClosed && !IsVoid(t.name)) || t.HbsBlockOpen? || t.HbsPartialOpen?
    ensures Closes(u).Some? <==> u.HtmlEnd? || u.HbsBlockClose? || u.HbsPartialClose?
    ensures Awaits(t).Some? ==>
              (Closes(u) == Awaits(t)
               <==> (t.HtmlStart? && u == HtmlEnd(t.name)) || (t.HbsBlockOpen? && u.HbsBlockClose?)
                    || (t.HbsPartialOpen? && u.HbsPartialClose?))
  {
    hide IsVoid;
  }

  function Flatten(ns: seq<Node>): seq<Token> {
    if ns == [] then [] else FlattenNode(ns[0]) + Flatten(ns[1..])
  }

  function FlattenNode(n: Node): seq<Token> {
    match n
    case Leaf(t) => [t]
    case Branch(open, kids, close) => [open] + (Flatten(kids) + [close])
  }

  // ----- printing a tree -----

  function Line(page: Page, level: nat, s: string): Page { Newline(Push(EnsureIndent(page, level), s)) }

  /** A leaf of a level; `{{else}}` stands at the level of the branch around it. */
  function PrintLeaf(t: Token, p: Printed, level: nat, around: nat): Outcome<Printed> {
    match t
    case Text(s) => Ok(Printed(PutText(p.page, s, level), p.hug))
    case RawText(s) => Ok(PutRaw(p.page, s))
    case HtmlComment(raw) => Ok(Printed(Line(p.page, level, raw), p.hug))
    case HbsComment(raw) => Ok(Printed(Line(p.page, level, raw), p.hug))
    case HtmlStart(name, attrsRaw, selfClosed) =>
      var page :- PrintStart(p.page, name, attrsRaw, selfClosed, level);
      Ok(Printed(page, p.hug))
    case HbsExpr(raw) =>
      var m :- NormalizeMustache(raw);
      Ok(Printed(Push(EnsureIndent(p.page, level), m), p.hug))
    case HbsElse(raw) =>
      var m :- NormalizeMustache(raw);
      Ok(Printed(Line(p.page, around, m), p.hug))
    case _ => Panic
  }

  function PrintOpening(t: Token, p: Printed, level: nat): Outcome<Printed> {
    if t.HtmlStart? then
      var page :- PrintStart(p.page, t.name, t.attrsRaw, t.selfClosed, level);
      Ok(Printed(page, p.hug))
    else if IsMustache(t) then
      var m :- NormalizeMustache(t.raw);
      Ok(Printed(Line(p.page, level, m), p.hug))
    else Panic
  }

  function PrintClosing(t: Token, p: Printed, level: nat): Outcome<Printed> {
    if t.HtmlEnd? then
      Ok(Printed(if p.hug then Newline(Push(p.page, EndTag(t.name))) else Line(p.page, level, EndTag(t.name)), false))
    else if IsMustache(t) then
      var m :- NormalizeMustache(t.raw);
      Ok(Printed(Line(p.page, level, m), p.hug))
    else Panic
  }

  /** Only leaves, none of them an `{{else}}` or a text that spans lines. */
  predicate OneLineKids(kids: seq<Node>) {
    forall n <- kids :: n.Leaf? && !n.token.HbsElse? && SingleLineToken(n.token)
  }

  /** A branch on one line, when it is an element that fits. */
  function BranchLine(n: Node, level: nat): Outcome<Option<string>>
    requires n.Branch?
  {
    var opener :- InlineOpener(n.open);
    if opener.None? || !n.open.HtmlStart? || !OneLineKids(n.kids) then Ok(None)
    else
      var body :- InlineBody(Flatten(n.kids));
      var text := TrimEnd(opener.value + body + EndTag(n.open.name));
      if '\n' in text || |text| + 2 * level > LINE_LIMIT then Ok(None) else Ok(Some(text))
  }

  function PrintNode(n: Node, p: Printed, level: nat, around: nat): Outcome<Printed>
    decreases n, 1
  {
    match n
    case Leaf(t) => PrintLeaf(t, p, level, around)
    case Branch(open, kids, close) =>
      var line :- BranchLine(n, level);
      if line.Some? then Ok(Printed(Page(EnsureIndent(p.page, level).out + line.value + "\n", true), p.hug))
      else
        var p1 :- PrintOpening(open, p, level);
        var p2 :- PrintNodes(kids, p1, level + 1, level);
        PrintClosing(close, p2, level)
  }

  /** Children are printed one level deeper than their branch; no level is ever subtracted. */
  function PrintNodes(ns: seq<Node>, p: Printed, level: nat, around: nat): Outcome<Printed>
    decreases ns, 0
  {
    if ns == [] then Ok(p)
    else
      var p1 :- PrintNode(ns[0], p, level, around);
      PrintNodes(ns[1..], p1, level, around)
  }

  // ----- the closer is the structural partner -----

  lemma {:induction false} FlattenHead(ns: seq<Node>, rest: seq<Token>)
    requires ns != []
    ensures Flatten(ns) + rest == FlattenNode(ns[0]) + (Flatten(ns[1..]) + rest)
  {}

  lemma {:induction false} BranchTokens(n: Node, rest: seq<Token>)
    requires n.Branch?
    ensures FlattenNode(n) + rest == [n.open] + (Flatten(n.kids) + ([n.close] + rest))
  {}

  predicate HasElse(ns: seq<Node>) { exists n :: n in ns && n.Leaf? && n.token.HbsElse? }

  lemma {:induction false} AwaitsOrCloses(t: Token)
    ensures Awaits(t).Some? ==> Closes(t).None?
    ensures t.HbsElse? ==> Awaits(t).None? && Closes(t).None?
  {}

  lemma {:induction false} CloserStep(t: Token, ts: seq<Token>, stack: seq<BlockKind>)
    requires stack != []
    ensures Awaits(t).Some? ==>
              FindCloser([t] + ts, stack) == Shift(FindCloser(ts, stack + [Awaits(t).value]), 1)
    ensures Awaits(t).None? && Closes(t).None? && (t.HbsElse? ==> |stack| > 1) ==>
              FindCloser([t] + ts, stack) == Shift(FindCloser(ts, stack), 1)
    ensures t.HbsElse? && |stack| == 1 ==> FindCloser([t] + ts, stack) == None
    ensures Closes(t) == Some(stack[|stack| - 1]) ==>
              FindCloser([t] + ts, stack) == if |stack| == 1 then Some(0) else Shift(FindCloser(ts, stack[..|stack| - 1]), 1)
  {
    AwaitsOrCloses(t);
    hide Awaits, Closes;
    assert ([t] + ts)[1..] == ts;
  }

  lemma {:induction false} HasElseHead(ns: seq<Node>)
    requires ns != []
    ensures HasElse(ns) <==> (ns[0].Leaf? && ns[0].token.HbsElse?) || HasElse(ns[1..])
  {
    if HasElse(ns[1..]) {
      var n :| n in ns[1..] && n.Leaf? && n.token.HbsElse?;
      assert n in ns;
    }
  }

  /** The scan for a closer passes over whole trees, unless it meets an `{{else}}` at its own level. */
  lemma {:induction false} CloserPassesNodes(ns: seq<Node>, rest: seq<Token>, stack: seq<BlockKind>)
    requires NodesOk(ns) && stack != []
    ensures FindCloser(Flatten(ns) + rest, stack)
         == if |stack| == 1 && HasElse(ns) then None else Shift(FindCloser(rest, stack), |Flatten(ns)|)
    decreases ns, 0
  {
    if ns == [] {
      assert Flatten(ns) + rest == rest;
    } else {
      FlattenHead(ns, rest);
      HasElseHead(ns);
      hide FindCloser, HasElse;
      var tail := Flatten(ns[1..]) + rest;
      CloserPassesNode(ns[0], tail, stack);
      CloserPassesNodes(ns[1..], rest, stack);
      ShiftTwice(FindCloser(rest, stack), |Flatten(ns[1..])|, |FlattenNode(ns[0])|);
    }
  }

  lemma {:induction false} CloserPassesNode(n: Node, rest: seq<Token>, stack: seq<BlockKind>)
    requires NodeOk(n) && stack != []
    ensures FindCloser(FlattenNode(n) + rest, stack)
         == if |stack| == 1 && n.Leaf? && n.token.HbsElse? then None
            else Shift(FindCloser(rest, stack), |FlattenNode(n)|)
    decreases n, 1
  {
    hide FindCloser, Awaits, Closes, HasElse;
    match n
    case Leaf(t) => CloserStep(t, rest, stack);
    case Branch(open, kids, close) =>
      var need := Awaits(open).value;
      var stack' := stack + [need];
      var tail := [close] + rest;
      BranchTokens(n, rest);
      CloserStep(open, Flatten(kids) + tail, stack);
      CloserPassesNodes(kids, tail, stack');
      CloserStep(close, rest, stack');
      assert stack'[..|stack'| - 1] == stack;
      ShiftTwice(FindCloser(rest, stack), 1, |Flatten(kids)|);
      ShiftTwice(FindCloser(rest, stack), 1 + |Flatten(kids)|, 1);
  }

  /** In a well-nested stream the look-ahead finds the structural partner of the opener, or gives up
      because an `{{else}}` stands at its level. */
  lemma {:induction false} CloserIsPartner(n: Node, rest: seq<Token>)
    requires n.Branch? && NodeOk(n)
    ensures FindCloser(Flatten(n.kids) + ([n.close] + rest), [Awaits(n.open).value])
         == if HasElse(n.kids) then None else Some(|Flatten(n.kids)|)
  {
    hide FindCloser, Awaits, Closes, HasElse;
    var need := Awaits(n.open).value;
    CloserPassesNodes(n.kids, [n.close] + rest, [need]);
    CloserStep(n.close, rest, [need]);
  }

  // ----- inline runs are whole branches -----

  lemma {:induction false} SingleLineKids(kids: seq<Node>)
    requires NodesOk(kids)
    ensures !HasElse(kids) ==> (SingleLineBody(Flatten(kids)) <==> OneLineKids(kids))
    ensures OneLineKids(kids) ==> !HasElse(kids)
    decreases |kids|
  {
    hide SingleLineToken;
    if kids == [] { return; }
    HasElseHead(kids);
    SingleLineKids(kids[1..]);
    var n := kids[0];
    var ts := FlattenNode(n);
    assert Flatten(kids) == ts + Flatten(kids[1..]);
    assert SingleLineBody(Flatten(kids)) <==> SingleLineBody(ts) && SingleLineBody(Flatten(kids[1..])) by {
      forall t | t in ts || t in Flatten(kids[1..]) ensures t in Flatten(kids) {}
    }
    assert OneLineKids(kids) <==> OneLineKids([n]) && OneLineKids(kids[1..]) by {
      assert n in kids && n in [n];
      forall k | k in kids[1..] ensures k in kids {}
    }
    assert OneLineKids([n]) <==> n.Leaf? && !n.token.HbsElse? && SingleLineToken(n.token) by { assert n in [n]; }
    match n
    case Leaf(t) => assert t in ts;
    case Branch(open, _, _) => assert open in ts; OpenerNotSingle(open);
  }

  lemma {:induction false} OpenerNotSingle(t: Token)
    requires Awaits(t).Some?
    ensures !SingleLineToken(t)
  {}

  lemma {:induction false} InlineOpenerKind(t: Token)
    requires InlineOpener(t).Ok? && InlineOpener(t).value.Some?
    ensures t.HtmlStart? && Awaits(t) == Some(ElementEnd(t.name))
  {}

  lemma {:induction false} CloserIs(t: Token, name: string)
    requires Closes(t) == Some(ElementEnd(name))
    ensures t == HtmlEnd(name) && CloserText(t) == Ok(EndTag(name))
  {}

  /** What `try_render_inline` decides, its closer known. */
  lemma {:induction false} TryParts(t: Token, ts: seq<Token>, d: nat)
    requires InlineOpener(t).Ok? && InlineOpener(t).value.Some? && t.HtmlStart?
    requires var k := FindCloser(ts, [ElementEnd(t.name)]); k.Some? ==> ts[k.value] == HtmlEnd(t.name)
    ensures var k := FindCloser(ts, [ElementEnd(t.name)]);
            TryInline([t] + ts, d)
            == if k.None? || !SingleLineBody(ts[..k.value]) then Ok(None)
               else if !InlineBody(ts[..k.value]).Ok? then
                 (if InlineBody(ts[..k.value]).Err? then Err(InlineBody(ts[..k.value]).error) else Panic)
               else
                 var text := TrimEnd(InlineOpener(t).value.value + InlineBody(ts[..k.value]).value + EndTag(t.name));
                 if '\n' in text || |text| + 2 * d > LINE_LIMIT then Ok(None) else Ok(Some(Run(text, k.value + 2)))
  {
    CloserIs(HtmlEnd(t.name), t.name);
    hide InlineOpener, FindCloser, SingleLineBody, InlineBody, CloserText, TrimEnd, EndTag;
    var all := [t] + ts;
    var k := FindCloser(ts, [ElementEnd(t.name)]);
    assert all[0] == t && all[1..] == ts;
    if k.Some? { assert all[1..1 + k.value] == ts[..k.value] && all[1 + k.value] == ts[k.value]; }
  }

  /** The look-ahead at a branch decides on the branch alone, and a run it accepts is the whole branch. */
  lemma {:induction false} BranchRun(n: Node, rest: seq<Token>, d: nat)
    requires n.Branch? && NodeOk(n)
    ensures var ts := FlattenNode(n) + rest;
            ts != [] && TryInline(ts, d)
            == match BranchLine(n, d)
               case Err(e) => Err(e)
               case Panic => Panic
               case Ok(None) => Ok(None)
               case Ok(Some(text)) => Ok(Some(Run(text, |FlattenNode(n)|)))
  {
    var tail := Flatten(n.kids) + ([n.close] + rest);
    BranchTokens(n, rest);
    var ts := [n.open] + tail;
    assert ts[0] == n.open;
    var o := InlineOpener(n.open);
    if !o.Ok? || o.value.None? {
      hide InlineOpener;
    } else {
      InlineOpenerKind(n.open);
      CloserIs(n.close, n.open.name);
      hide *;
      BranchDecides(n, rest, d);
    }
  }

  lemma {:induction false} BranchDecides(n: Node, rest: seq<Token>, d: nat)
    requires n.Branch? && NodeOk(n) && n.open.HtmlStart? && n.close == HtmlEnd(n.open.name)
    requires InlineOpener(n.open).Ok? && InlineOpener(n.open).value.Some?
    requires Awaits(n.open) == Some(ElementEnd(n.open.name))
    ensures var ts := FlattenNode(n) + rest;
            ts != [] && TryInline(ts, d)
            == match BranchLine(n, d)
               case Err(e) => Err(e)
               case Panic => Panic
               case Ok(None) => Ok(None)
               case Ok(Some(text)) => Ok(Some(Run(text, |FlattenNode(n)|)))
  {
    var body := Flatten(n.kids);
    var tail := body + ([n.close] + rest);
    BranchTokens(n, rest);
    CloserIsPartner(n, rest);
    hide FindCloser, InlineOpener, TryInline, SingleLineBody, OneLineKids, InlineBody, TrimEnd, HasElse, Awaits, Closes;
    SingleLineKids(n.kids);
    assert tail[|body|] == n.close && tail[..|body|] == body;
    TryParts(n.open, tail, d);
  }

  // ----- the flat printer prints the tree -----

  /** The printer goes on after the part printed so far, or fails as that part did. */
  function GoOn(r: Outcome<Printed>, rest: seq<Token>, d: nat): Outcome<State> {
    match r
    case Ok(p) => PrintFrom(rest, State(p.page, d, p.hug))
    case Err(e) => Err(e)
    case Panic => Panic
  }

  lemma {:induction false} LeafPrinted(t: Token, p: Printed, d: nat, around: nat)
    requires Awaits(t).None? && Closes(t).None? && around == Less(d)
    ensures PrintToken(t, State(p.page, d, p.hug))
         == match PrintLeaf(t, p, d, around)
            case Ok(p') => Ok(State(p'.page, d, p'.hug))
            case Err(e) => Err(e)
            case Panic => Panic
  {
    hide PutText, PutRaw, PrintStart, NormalizeMustache, EnsureIndent, Newline;
  }

  lemma {:induction false} OpeningPrinted(t: Token, p: Printed, d: nat)
    requires Awaits(t).Some?
    ensures PrintToken(t, State(p.page, d, p.hug))
         == match PrintOpening(t, p, d)
            case Ok(p') => Ok(State(p'.page, d + 1, p'.hug))
            case Err(e) => Err(e)
            case Panic => Panic
  {
    hide PutText, PutRaw, PrintStart, NormalizeMustache, EnsureIndent, Newline;
  }

  lemma {:induction false} ClosingPrinted(t: Token, p: Printed, d: nat)
    requires Closes(t).Some?
    ensures PrintToken(t, State(p.page, d + 1, p.hug))
         == match PrintClosing(t, p, d)
            case Ok(p') => Ok(State(p'.page, d, p'.hug))
            case Err(e) => Err(e)
            case Panic => Panic
  {
    hide PutText, PutRaw, PrintStart, NormalizeMustache, EnsureIndent, Newline;
  }

  lemma {:induction false} NoRunHere(t: Token, rest: seq<Token>, st: State)
    requires TryInline([t] + rest, st.depth) == Ok(None)
    ensures PrintFrom([t] + rest, st)
         == match PrintToken(t, st)
            case Ok(st') => PrintFrom(rest, st')
            case Err(e) => Err(e)
            case Panic => Panic
  {
    hide TryInline, PrintToken;
    assert ([t] + rest)[1..] == rest;
  }

  lemma {:induction false} NotAnOpener(t: Token, rest: seq<Token>, d: nat)
    requires Awaits(t).None?
    ensures TryInline([t] + rest, d) == Ok(None)
  {
    hide FindCloser, SingleLineBody, InlineBody;
    assert ([t] + rest)[0] == t;
  }

  lemma {:induction false} StepOver(t: Token, p: Printed, rest: seq<Token>, d: nat, r: Outcome<Printed>, d': nat)
    requires TryInline([t] + rest, d) == Ok(None)
    requires PrintToken(t, State(p.page, d, p.hug))
          == match r
             case Ok(p') => Ok(State(p'.page, d', p'.hug))
             case Err(e) => Err(e)
             case Panic => Panic
    ensures PrintFrom([t] + rest, State(p.page, d, p.hug)) == GoOn(r, rest, d')
  {
    hide TryInline, PrintToken, PrintFrom;
    NoRunHere(t, rest, State(p.page, d, p.hug));
  }

  lemma {:induction false} RunHere(ts: seq<Token>, rest: seq<Token>, st: State, text: string)
    requires ts != [] && TryInline(ts + rest, st.depth) == Ok(Some(Run(text, |ts|)))
    ensures PrintFrom(ts + rest, st) == PrintFrom(rest, PrintRun(Run(text, |ts|), st))
  {
    hide TryInline;
    assert (ts + rest)[|ts|..] == rest;
  }

  lemma {:induction false} RunFails(ts: seq<Token>, st: State)
    requires ts != [] && !TryInline(ts, st.depth).Ok?
    ensures TryInline(ts, st.depth).Err? ==> PrintFrom(ts, st) == Err(TryInline(ts, st.depth).error)
    ensures TryInline(ts, st.depth).Panic? ==> PrintFrom(ts, st) == Panic
  {
    hide TryInline;
  }

  /** Printing a forest leaves the depth as it was and the page as the tree printer makes it. */
  lemma {:induction false} PrintsForest(ns: seq<Node>, rest: seq<Token>, p: Printed, d: nat)
    requires NodesOk(ns)
    ensures PrintFrom(Flatten(ns) + rest, State(p.page, d, p.hug)) == GoOn(PrintNodes(ns, p, d, Less(d)), rest, d)
    decreases ns, 0
  {
    if ns == [] {
      assert Flatten(ns) + rest == rest;
    } else {
      FlattenHead(ns, rest);
      hide PrintFrom, PrintNode, Less;
      var tail := Flatten(ns[1..]) + rest;
      PrintsNode(ns[0], tail, p, d);
      var r := PrintNode(ns[0], p, d, Less(d));
      if r.Ok? { PrintsForest(ns[1..], rest, r.value, d); }
    }
  }

  lemma {:induction false} PrintsNode(n: Node, rest: seq<Token>, p: Printed, d: nat)
    requires NodeOk(n)
    ensures PrintFrom(FlattenNode(n) + rest, State(p.page, d, p.hug)) == GoOn(PrintNode(n, p, d, Less(d)), rest, d)
    decreases n, 1
  {
    match n
    case Leaf(t) =>
      LeafPrinted(t, p, d, Less(d));
      NotAnOpener(t, rest, d);
      hide *;
      StepOver(t, p, rest, d, PrintLeaf(t, p, d, Less(d)), d);
      LeafIs(n, p, d, Less(d));
    case Branch(open, kids, close) =>
      BranchRun(n, rest, d);
      hide *;
      PrintsBranch(n, rest, p, d);
  }

  lemma {:induction false} LeafIs(n: Node, p: Printed, d: nat, around: nat)
    requires n.Leaf?
    ensures PrintNode(n, p, d, around) == PrintLeaf(n.token, p, d, around) && FlattenNode(n) == [n.token]
  {
    hide PrintLeaf;
  }

  lemma {:induction false} PrintsBranch(n: Node, rest: seq<Token>, p: Printed, d: nat)
    requires n.Branch? && NodeOk(n)
    requires FlattenNode(n) + rest != []
    requires TryInline(FlattenNode(n) + rest, d)
          == match BranchLine(n, d)
             case Err(e) => Err(e)
             case Panic => Panic
             case Ok(None) => Ok(None)
             case Ok(Some(text)) => Ok(Some(Run(text, |FlattenNode(n)|)))
    ensures PrintFrom(FlattenNode(n) + rest, State(p.page, d, p.hug)) == GoOn(PrintNode(n, p, d, Less(d)), rest, d)
    decreases n, 0
  {
    var line := BranchLine(n, d);
    var st := State(p.page, d, p.hug);
    if !line.Ok? {
      hide BranchLine, TryInline, PrintFrom, FlattenNode, NodeOk;
      RunFails(FlattenNode(n) + rest, st);
    } else if line.value.Some? {
      hide BranchLine, TryInline, PrintFrom, EnsureIndent;
      RunHere(FlattenNode(n), rest, st, line.value.value);
    } else {
      NodeOkParts(n);
      BranchTokens(n, rest);
      hide *;
      var tail := [n.close] + rest;
      OpeningPrinted(n.open, p, d);
      StepOver(n.open, p, Flatten(n.kids) + tail, d, PrintOpening(n.open, p, d), d + 1);
      var r := PrintOpening(n.open, p, d);
      if r.Ok? {
        PrintsForest(n.kids, tail, r.value, d + 1);
        LessMore(d);
        var r2 := PrintNodes(n.kids, r.value, d + 1, d);
        if r2.Ok? {
          ClosingPrinted(n.close, r2.value, d);
          NotAnOpener(n.close, rest, d + 1);
          StepOver(n.close, r2.value, rest, d + 1, PrintClosing(n.close, r2.value, d), d);
        }
        GoesOn(r2, tail, d + 1);
      }
      GoesOn(r, Flatten(n.kids) + tail, d + 1);
      BranchParts(n, p, d);
      GoesOn(PrintNode(n, p, d, Less(d)), rest, d);
    }
  }

  lemma {:induction false} NodeOkParts(n: Node)
    requires n.Branch? && NodeOk(n)
    ensures Awaits(n.open).Some? && Closes(n.close).Some? && Awaits(n.close).None? && NodesOk(n.kids)
  {
    AwaitsOrCloses(n.close);
    hide Awaits, Closes;
  }

  lemma {:induction false} LessMore(d: nat)
    ensures Less(d + 1) == d
  {}

  lemma {:induction false} GoesOn(r: Outcome<Printed>, rest: seq<Token>, d: nat)
    ensures r.Ok? ==> GoOn(r, rest, d) == PrintFrom(rest, State(r.value.page, d, r.value.hug))
    ensures r.Err? ==> GoOn(r, rest, d) == Err(r.error)
    ensures r.Panic? ==> GoOn(r, rest, d) == Panic
  {
    hide PrintFrom;
  }

  lemma {:induction false} BranchParts(n: Node, p: Printed, d: nat)
    requires n.Branch? && BranchLine(n, d) == Ok(None)
    ensures var r := PrintOpening(n.open, p, d);
            var whole := PrintNode(n, p, d, Less(d));
            && (r.Err? ==> whole == Err(r.error)) && (r.Panic? ==> whole == Panic)
            && (r.Ok? ==>
                  var r2 := PrintNodes(n.kids, r.value, d + 1, d);
                  && (r2.Err? ==> whole == Err(r2.error)) && (r2.Panic? ==> whole == Panic)
                  && (r2.Ok? ==> whole == PrintClosing(n.close, r2.value, d)))
  {
    hide BranchLine, PrintOpening, PrintClosing, PrintNodes;
  }

  // ----- well-nested streams are exactly the flattened trees -----

  /** Every closer closes the innermost open level, and every level is closed. */
  predicate WellNested(ts: seq<Token>, stack: seq<BlockKind>)
    decreases |ts|
  {
    if ts == [] then stack == []
    else if Awaits(ts[0]).Some? then WellNested(ts[1..], stack + [Awaits(ts[0]).value])
    else if Closes(ts[0]).Some? then
      stack != [] && Closes(ts[0]) == Some(stack[|stack| - 1]) && WellNested(ts[1..], stack[..|stack| - 1])
    else WellNested(ts[1..], stack)
  }

  lemma {:induction false} NestedNodes(ns: seq<Node>, rest: seq<Token>, stack: seq<BlockKind>)
    requires NodesOk(ns)
    ensures WellNested(Flatten(ns) + rest, stack) == WellNested(rest, stack)
    decreases ns, 0
  {
    if ns == [] {
      assert Flatten(ns) + rest == rest;
    } else {
      FlattenHead(ns, rest);
      hide WellNested;
      NestedNode(ns[0], Flatten(ns[1..]) + rest, stack);
      NestedNodes(ns[1..], rest, stack);
    }
  }

  lemma {:induction false} NestedStep(t: Token, ts: seq<Token>, stack: seq<BlockKind>)
    ensures WellNested([t] + ts, stack)
         == if Awaits(t).Some? then WellNested(ts, stack + [Awaits(t).value])
            else if Closes(t).Some? then
              stack != [] && Closes(t) == Some(stack[|stack| - 1]) && WellNested(ts, stack[..|stack| - 1])
            else WellNested(ts, stack)
  {
    hide Awaits, Closes;
    assert ([t] + ts)[1..] == ts;
  }

  lemma {:induction false} NestedNode(n: Node, rest: seq<Token>, stack: seq<BlockKind>)
    requires NodeOk(n)
    ensures WellNested(FlattenNode(n) + rest, stack) == WellNested(rest, stack)
    decreases n, 1
  {
    match n
    case Leaf(t) =>
      hide WellNested, Awaits, Closes;
      NestedStep(t, rest, stack);
    case Branch(open, kids, close) =>
      NodeOkParts(n);
      BranchTokens(n, rest);
      hide WellNested, Awaits, Closes, Flatten, FlattenNode;
      var tail := [close] + rest;
      var stack' := stack + [Awaits(open).value];
      NestedStep(open, Flatten(kids) + tail, stack);
      NestedNodes(kids, tail, stack');
      NestedStep(close, rest, stack');
      assert stack'[..|stack'| - 1] == stack;
  }

  /** An open branch: its opener and the nodes before it. */
  datatype Frame = Frame(before: seq<Node>, open: Token)

  /** The tree of a stream, `frames` being open and `done` the finished nodes of the innermost level. */
  function Build(ts: seq<Token>, frames: seq<Frame>, done: seq<Node>): seq<Node>
    decreases |ts|
  {
    if ts == [] then done
    else if Awaits(ts[0]).Some? then Build(ts[1..], frames + [Frame(done, ts[0])], [])
    else if Closes(ts[0]).Some? && frames != [] then
      var f := frames[|frames| - 1];
      Build(ts[1..], frames[..|frames| - 1], f.before + [Branch(f.open, done, ts[0])])
    else Build(ts[1..], frames, done + [Leaf(ts[0])])
  }

  function Opened(frames: seq<Frame>): seq<Token> {
    if frames == [] then []
    else
      var f := frames[|frames| - 1];
      Opened(frames[..|frames| - 1]) + (Flatten(f.before) + [f.open])
  }

  predicate FramesOk(frames: seq<Frame>, stack: seq<BlockKind>) {
    && |frames| == |stack|
    && forall k :: 0 <= k < |frames| ==> Awaits(frames[k].open) == Some(stack[k]) && NodesOk(frames[k].before)
  }

  lemma {:induction false} FlattenAppend(a: seq<Node>, b: seq<Node>)
    ensures Flatten(a + b) == Flatten(a) + Flatten(b)
    ensures NodesOk(a + b) <==> NodesOk(a) && NodesOk(b)
    decreases |a|
  {
    hide NodeOk;
    if a == [] {
      assert a + b == b;
    } else {
      assert (a + b)[1..] == a[1..] + b;
      FlattenAppend(a[1..], b);
    }
  }

  lemma {:induction false} FlattenOne(n: Node)
    ensures Flatten([n]) == FlattenNode(n) && (NodesOk([n]) <==> NodeOk(n))
  {
    assert [n][1..] == [];
  }

  /** A well-nested stream is the flattening of the tree built from it. */
  lemma {:induction false} BuildFlattens(ts: seq<Token>, frames: seq<Frame>, done: seq<Node>, stack: seq<BlockKind>)
    requires WellNested(ts, stack) && FramesOk(frames, stack) && NodesOk(done)
    ensures NodesOk(Build(ts, frames, done))
    ensures Flatten(Build(ts, frames, done)) == Opened(frames) + Flatten(done) + ts
    decreases |ts|
  {
    if ts == [] {
      assert Opened(frames) + Flatten(done) + ts == Flatten(done);
      return;
    }
    var t := ts[0];
    AwaitsOrCloses(t);
    assert ts == [t] + ts[1..];
    hide Awaits, Closes;
    if Awaits(t).Some? {
      BuildOpen(ts, frames, done, stack);
    } else if Closes(t).Some? {
      BuildClose(ts, frames, done, stack);
    } else {
      FlattenOne(Leaf(t));
      FlattenAppend(done, [Leaf(t)]);
      BuildFlattens(ts[1..], frames, done + [Leaf(t)], stack);
      assert Opened(frames) + (Flatten(done) + [t]) + ts[1..] == Opened(frames) + Flatten(done) + ([t] + ts[1..]);
    }
  }

  lemma {:induction false} BuildOpen(ts: seq<Token>, frames: seq<Frame>, done: seq<Node>, stack: seq<BlockKind>)
    requires ts != [] && WellNested(ts, stack) && FramesOk(frames, stack) && NodesOk(done) && Awaits(ts[0]).Some?
    ensures NodesOk(Build(ts, frames, done))
    ensures Flatten(Build(ts, frames, done)) == Opened(frames) + Flatten(done) + ts
    decreases |ts|, 0
  {
    hide Awaits, Closes;
    var t := ts[0];
    var frames' := frames + [Frame(done, t)];
    assert frames'[..|frames|] == frames;
    BuildFlattens(ts[1..], frames', [], stack + [Awaits(t).value]);
    Reassociate(Opened(frames), Flatten(done), t, ts[1..]);
    assert ts == [t] + ts[1..];
  }

  lemma {:induction false} Reassociate(a: seq<Token>, b: seq<Token>, t: Token, c: seq<Token>)
    ensures a + (b + [t]) + [] + c == a + b + ([t] + c)
  {}

  lemma {:induction false} BuildClose(ts: seq<Token>, frames: seq<Frame>, done: seq<Node>, stack: seq<BlockKind>)
    requires ts != [] && WellNested(ts, stack) && FramesOk(frames, stack) && NodesOk(done)
    requires Awaits(ts[0]).None? && Closes(ts[0]).Some?
    ensures NodesOk(Build(ts, frames, done))
    ensures Flatten(Build(ts, frames, done)) == Opened(frames) + Flatten(done) + ts
    decreases |ts|, 0
  {
    hide Awaits, Closes;
    var t := ts[0];
    var n := |frames| - 1;
    var f := frames[n];
    var b := Branch(f.open, done, t);
    var done' := f.before + [b];
    FlattenOne(b);
    FlattenAppend(f.before, [b]);
    assert NodeOk(b);
    BuildFlattens(ts[1..], frames[..n], done', stack[..n]);
    CloseConcat(Opened(frames[..n]), Flatten(f.before), f.open, Flatten(done), t, ts[1..]);
    assert ts == [t] + ts[1..];
  }

  lemma {:induction false} CloseConcat(a: seq<Token>, b: seq<Token>, o: Token, k: seq<Token>, t: Token, c: seq<Token>)
    ensures a + (b + ([o] + (k + [t]))) + c == a + (b + [o]) + k + ([t] + c)
  {}

  function Tree(ts: seq<Token>): seq<Node> { Build(ts, [], []) }

  /** A stream is well nested exactly when it is the flattening of a tree. */
  lemma {:induction false} WellNestedIff(ts: seq<Token>)
    ensures WellNested(ts, []) <==> NodesOk(Tree(ts)) && Flatten(Tree(ts)) == ts
    ensures WellNested(ts, []) <==> exists ns :: NodesOk(ns) && Flatten(ns) == ts
  {
    hide WellNested, Build;
    if WellNested(ts, []) {
      BuildFlattens(ts, [], [], []);
      assert [] + [] + ts == ts;
    }
    if ns :| NodesOk(ns) && Flatten(ns) == ts {
      NestedNodes(ns, [], []);
      assert Flatten(ns) + [] == ts;
      NothingNested();
    }
  }

  lemma {:induction false} NothingNested()
    ensures WellNested([], [])
  {}

  /** For every well-nested stream the flat printer prints what the tree printer prints, and comes
      back to depth 0. */
  lemma {:induction false} WellNestedPrints(ts: seq<Token>)
    requires WellNested(ts, [])
    ensures PrintFrom(ts, BLANK_PAGE)
         == match PrintNodes(Tree(ts), Printed(Page([], true), false), 0, 0)
            case Ok(p) => Ok(State(p.page, 0, p.hug))
            case Err(e) => Err(e)
            case Panic => Panic
  {
    WellNestedIff(ts);
    var p := Printed(Page([], true), false);
    PrintsForest(Tree(ts), [], p, 0);
    assert Flatten(Tree(ts)) + [] == ts;
    hide PrintNodes, WellNested, Build;
  }
}
