/** The HTML tag-balance check of cmd/lint-templates, started from an error-free
    token stream. Tokens other than start and end tags are `Other`. */
module TagBalance {
  datatype Token = Start(tag: string) | End(tag: string) | Other

  datatype Problem =
    | VoidClosed(tag: string)
    | Unmatched(tag: string)
    | Unclosed(tag: string, closedBy: string)
    | UnclosedAtEnd(tag: string)

  predicate IsVoid(tag: string) {
    tag in {"area", "base", "br", "col", "embed", "hr", "img", "input",
            "link", "meta", "param", "source", "track", "wbr"}
  }

  /** Tags that may stay open because they span template boundaries. */
  predicate IsIgnored(tag: string) {
    tag in {"html", "head", "body"}
  }

  // ----- The grammar of balanced templates

  /** A sequence of complete pieces: lone tokens and properly closed elements. */
  datatype Content = Empty | More(init: Content, last: Piece)
  datatype Piece = Lone(token: Token) | Element(tag: string, body: Content)

  /** Content with elements left open around its end. */
  datatype Template = Complete(content: Content) | Open(before: Template, tag: string, inside: Content)

  function YieldContent(c: Content): seq<Token> {
    match c
    case Empty => []
    case More(init, last) => YieldContent(init) + YieldPiece(last)
  }

  function YieldPiece(p: Piece): seq<Token> {
    match p
    case Lone(token) => [token]
    case Element(tag, body) => [Start(tag)] + YieldContent(body) + [End(tag)]
  }

  function Yield(t: Template): seq<Token> {
    match t
    case Complete(content) => YieldContent(content)
    case Open(before, tag, inside) => Yield(before) + [Start(tag)] + YieldContent(inside)
  }

  /** Only void start tags and non-tags stand alone; only non-void elements are closed. */
  predicate WellFormed(c: Content) {
    match c
    case Empty => true
    case More(init, last) => WellFormed(init) && WellFormedPiece(last)
  }

  predicate WellFormedPiece(p: Piece) {
    match p
    case Lone(token) => token == Other || (token.Start? && IsVoid(token.tag))
    case Element(tag, body) => !IsVoid(tag) && WellFormed(body)
  }

  predicate WellNested(t: Template) {
    match t
    case Complete(content) => WellFormed(content)
    case Open(before, tag, inside) => WellNested(before) && !IsVoid(tag) && WellFormed(inside)
  }

  /** The tags left open, outermost first. */
  function LeftOpen(t: Template): seq<string> {
    match t
    case Complete(_) => []
    case Open(before, tag, _) => LeftOpen(before) + [tag]
  }

  ghost predicate Balanced(tokens: seq<Token>) {
    exists t: Template ::
      WellNested(t) && Yield(t) == tokens && forall tag | tag in LeftOpen(t) :: IsIgnored(tag)
  }

  // ----- What the checker reports

  datatype State = State(stack: seq<string>, problems: seq<Problem>)

  /** Position of the innermost open element with the given tag, or -1. */
  function FindOpen(stack: seq<string>, tag: string): (found: int)
    ensures -1 <= found < |stack|
    ensures found >= 0 ==> stack[found] == tag
    ensures forall i | found < i < |stack| :: stack[i] != tag
  {
    if stack == [] then -1
    else if stack[|stack| - 1] == tag then |stack| - 1
    else FindOpen(stack[..|stack| - 1], tag)
  }

  /** One report for every element above position `found`, innermost first. */
  function UnclosedAbove(stack: seq<string>, found: int, tag: string): seq<Problem>
    requires -1 <= found < |stack|
  {
    seq(|stack| - 1 - found, i requires 0 <= i < |stack| - 1 - found => Unclosed(stack[|stack| - 1 - i], tag))
  }

  function Step(s: State, t: Token): State {
    match t
    case Other => s
    case Start(tag) => if IsVoid(tag) then s else s.(stack := s.stack + [tag])
    case End(tag) =>
      if IsVoid(tag) then s.(problems := s.problems + [VoidClosed(tag)])
      else
        var found := FindOpen(s.stack, tag);
        if found == -1 then s.(problems := s.problems + [Unmatched(tag)])
        else State(s.stack[..found], s.problems + UnclosedAbove(s.stack, found, tag))
  }

  function Scan(tokens: seq<Token>): State {
    if tokens == [] then State([], []) else Step(Scan(tokens[..|tokens| - 1]), tokens[|tokens| - 1])
  }

  function AtEnd(stack: seq<string>): seq<Problem> {
    if stack == [] then []
    else AtEnd(stack[..|stack| - 1]) + if IsIgnored(stack[|stack| - 1]) then [] else [UnclosedAtEnd(stack[|stack| - 1])]
  }

  function Problems(tokens: seq<Token>): seq<Problem> {
    var s := Scan(tokens);
    s.problems + AtEnd(s.stack)
  }

  // ----- The checker accepts exactly the grammar

  lemma ScanSnoc(tokens: seq<Token>, t: Token)
    ensures Scan(tokens + [t]) == Step(Scan(tokens), t)
  {
    assert (tokens + [t])[..|tokens|] == tokens;
  }

  /** Complete content leaves the checker where it was. */
  lemma {:induction false} ScanContent(before: seq<Token>, c: Content)
    requires WellFormed(c)
    ensures Scan(before + YieldContent(c)) == Scan(before)
    decreases c
  {
    hide IsVoid, Scan;
    match c
    case Empty =>
      assert before + [] == before;
    case More(init, last) =>
      ScanContent(before, init);
      ScanPiece(before + YieldContent(init), last);
      assert before + YieldContent(c) == before + YieldContent(init) + YieldPiece(last);
  }

  lemma {:induction false} ScanPiece(before: seq<Token>, p: Piece)
    requires WellFormedPiece(p)
    ensures Scan(before + YieldPiece(p)) == Scan(before)
    decreases p
  {
    hide IsVoid, Scan;
    match p
    case Lone(token) =>
      ScanSnoc(before, token);
    case Element(tag, body) =>
      hide Step;
      var outer := before + [Start(tag)];
      ScanSnoc(before, Start(tag));
      ScanContent(outer, body);
      ScanSnoc(outer + YieldContent(body), End(tag));
      assert before + YieldPiece(p) == outer + YieldContent(body) + [End(tag)];
      ClosingTop(Scan(before), tag);
  }

  /** Opening and closing an element is invisible. */
  lemma ClosingTop(s: State, tag: string)
    requires !IsVoid(tag)
    ensures Step(Step(s, Start(tag)), End(tag)) == s
  {
    hide IsVoid;
    assert (s.stack + [tag])[..|s.stack|] == s.stack;
    assert s.problems + [] == s.problems;
  }

  lemma {:induction false} ScanTemplate(t: Template)
    requires WellNested(t)
    ensures Scan(Yield(t)) == State(LeftOpen(t), [])
    decreases t
  {
    hide IsVoid;
    match t
    case Complete(content) =>
      ScanContent([], content);
      assert [] + YieldContent(content) == YieldContent(content);
    case Open(before, tag, inside) =>
      ScanTemplate(before);
      ScanSnoc(Yield(before), Start(tag));
      ScanContent(Yield(before) + [Start(tag)], inside);
  }

  /** Content appended to the innermost open element of a template. */
  function Append(t: Template, p: Piece): (r: Template)
    requires WellNested(t) && WellFormedPiece(p)
    ensures WellNested(r) && Yield(r) == Yield(t) + YieldPiece(p) && LeftOpen(r) == LeftOpen(t)
  {
    match t
    case Complete(content) => Complete(More(content, p))
    case Open(before, tag, inside) =>
      assert Yield(Open(before, tag, More(inside, p))) == Yield(t) + YieldPiece(p);
      Open(before, tag, More(inside, p))
  }

  /** A step that leaves no problem had none before, and an end tag then closed the top of the stack. */
  lemma CleanStep(s: State, token: Token)
    requires Step(s, token).problems == []
    ensures s.problems == []
    ensures token.End? ==> !IsVoid(token.tag) && s.stack != [] && s.stack[|s.stack| - 1] == token.tag
    ensures token.End? ==> Step(s, token).stack == s.stack[..|s.stack| - 1]
  {
    hide IsVoid;
    if token.End? && !IsVoid(token.tag) {
      var found := FindOpen(s.stack, token.tag);
      if found != -1 {
        assert |UnclosedAbove(s.stack, found, token.tag)| == |s.stack| - 1 - found;
      }
    }
  }

  /** Reading one more token without a problem extends the template read so far. */
  lemma ExtendTemplate(u: Template, token: Token) returns (t: Template)
    requires WellNested(u) && Step(State(LeftOpen(u), []), token).problems == []
    ensures WellNested(t) && Yield(t) == Yield(u) + [token]
    ensures LeftOpen(t) == Step(State(LeftOpen(u), []), token).stack
  {
    hide IsVoid, FindOpen;
    CleanStep(State(LeftOpen(u), []), token);
    match token
    case Other =>
      t := Append(u, Lone(token));
    case Start(tag) =>
      t := if IsVoid(tag) then Append(u, Lone(token)) else Open(u, tag, Empty);
    case End(tag) =>
      t := CloseInnermost(u);
  }

  /** Closing the innermost open element turns it into content of the one around it. */
  lemma CloseInnermost(u: Template) returns (t: Template)
    requires WellNested(u) && u.Open?
    ensures WellNested(t) && Yield(t) == Yield(u) + [End(u.tag)] && LeftOpen(t) == LeftOpen(u.before)
  {
    hide IsVoid;
    t := Append(u.before, Element(u.tag, u.inside));
    var outside, inside := Yield(u.before), YieldContent(u.inside);
    assert outside + ([Start(u.tag)] + inside + [End(u.tag)]) == (outside + [Start(u.tag)] + inside) + [End(u.tag)];
  }

  /** A scan without problems has read a template whose open elements are the stack. */
  lemma {:induction false} CleanScanIsTemplate(tokens: seq<Token>) returns (t: Template)
    requires Scan(tokens).problems == []
    ensures WellNested(t) && Yield(t) == tokens && LeftOpen(t) == Scan(tokens).stack
  {
    if tokens == [] {
      t := Complete(Empty);
    } else {
      var n := |tokens| - 1;
      assert tokens == tokens[..n] + [tokens[n]];
      CleanStep(Scan(tokens[..n]), tokens[n]);
      hide Step, WellNested, Yield, LeftOpen;
      var u := CleanScanIsTemplate(tokens[..n]);
      t := ExtendTemplate(u, tokens[n]);
    }
  }

  lemma {:induction false} NothingAtEnd(stack: seq<string>)
    ensures AtEnd(stack) == [] <==> forall tag | tag in stack :: IsIgnored(tag)
  {
    hide IsIgnored;
    if stack != [] {
      var init, last := stack[..|stack| - 1], stack[|stack| - 1];
      NothingAtEnd(init);
      assert stack == init + [last];
    }
  }

  /** The checker is silent exactly on balanced templates. */
  lemma NoProblemsIffBalanced(tokens: seq<Token>)
    ensures Problems(tokens) == [] <==> Balanced(tokens)
  {
    hide IsVoid, IsIgnored;
    NothingAtEnd(Scan(tokens).stack);
    if Problems(tokens) == [] {
      var t := CleanScanIsTemplate(tokens);
    }
    if Balanced(tokens) {
      var t :| WellNested(t) && Yield(t) == tokens && forall tag | tag in LeftOpen(t) :: IsIgnored(tag);
      ScanTemplate(t);
    }
  }

  /** The elements of HTML that have no end tag, and those whose tags templates may leave open. */
  const VOID := {"area", "base", "br", "col", "embed", "hr", "img", "input", "link", "meta", "param", "source",
                 "track", "wbr"}

  const SPANNING := {"html", "head", "body"}

  /** A lone start tag is reported unless its element needs no end tag or may span templates; a lone end tag
      is always reported, as closing a void element or as closing nothing. */
  lemma LoneTags(tag: string)
    ensures Problems([Start(tag)]) == if tag in VOID || tag in SPANNING then [] else [UnclosedAtEnd(tag)]
    ensures Problems([End(tag)]) == [if tag in VOID then VoidClosed(tag) else Unmatched(tag)]
    ensures Problems([Start(tag), End(tag)]) == if tag in VOID then [VoidClosed(tag)] else []
  {
    VoidAndSpanning(tag);
    hide IsVoid, IsIgnored;
    ScanSnoc([], Start(tag));
    ScanSnoc([], End(tag));
    ScanSnoc([Start(tag)], End(tag));
    assert [] + [Start(tag)] == [Start(tag)] && [] + [End(tag)] == [End(tag)];
    assert [Start(tag)] + [End(tag)] == [Start(tag), End(tag)];
    assert AtEnd([tag]) == (if IsIgnored(tag) then [] else [UnclosedAtEnd(tag)]) by {
      assert [tag][..0] == [];
    }
    if !IsVoid(tag) {
      ClosingTop(State([], []), tag);
    }
  }

  lemma VoidAndSpanning(tag: string)
    ensures IsVoid(tag) <==> tag in VOID
    ensures IsIgnored(tag) <==> tag in SPANNING
    ensures tag in VOID ==> tag !in SPANNING
  {
  }

  /** checkTagBalance: the reports for a token stream, in order. */
  method CheckTagBalance(tokens: seq<Token>) returns (problems: seq<Problem>)
    ensures problems == Problems(tokens)
    ensures problems == [] <==> Balanced(tokens)
  {
    hide IsVoid, IsIgnored, Balanced;
    problems := [];
    var stack: seq<string> := [];
    for k := 0 to |tokens|
      invariant Scan(tokens[..k]) == State(stack, problems)
    {
      ScanSnoc(tokens[..k], tokens[k]);
      assert tokens[..k + 1] == tokens[..k] + [tokens[k]];
      match tokens[k]
      case Other =>
      case Start(tag) =>
        if !IsVoid(tag) {
          stack := stack + [tag];
        }
      case End(tag) =>
        if IsVoid(tag) {
          problems := problems + [VoidClosed(tag)];
          continue;
        }
        var found := FindOpenFromTop(stack, tag);
        if found == -1 {
          problems := problems + [Unmatched(tag)];
        } else {
          problems := ReportUnclosed(stack, found, tag, problems);
          stack := stack[..found];
        }
    }
    assert tokens[..|tokens|] == tokens;
    ghost var scanned := problems;
    for k := 0 to |stack|
      invariant problems == scanned + AtEnd(stack[..k])
    {
      assert stack[..k + 1][..k] == stack[..k];
      if !IsIgnored(stack[k]) {
        problems := problems + [UnclosedAtEnd(stack[k])];
      }
    }
    assert stack[..|stack|] == stack;
    NoProblemsIffBalanced(tokens);
  }

  /** The search from the top of the stack for a matching open tag. */
  method FindOpenFromTop(stack: seq<string>, tag: string) returns (found: int)
    ensures found == FindOpen(stack, tag)
  {
    found := -1;
    var i := |stack| - 1;
    while i >= 0
      invariant -1 <= i < |stack|
      invariant FindOpen(stack, tag) == FindOpen(stack[..i + 1], tag)
      invariant found == -1
    {
      assert stack[..i + 1][..i] == stack[..i];
      if stack[i] == tag {
        found := i;
        break;
      }
      i := i - 1;
    }
  }

  /** The reports for the open tags above the match, from the top down. */
  method ReportUnclosed(stack: seq<string>, found: nat, tag: string, problems0: seq<Problem>)
    returns (problems: seq<Problem>)
    requires found < |stack|
    ensures problems == problems0 + UnclosedAbove(stack, found, tag)
  {
    problems := problems0;
    var i := |stack| - 1;
    while i > found
      invariant found <= i < |stack|
      invariant problems == problems0 + UnclosedAbove(stack, found, tag)[..|stack| - 1 - i]
    {
      problems := problems + [Unclosed(stack[i], tag)];
      i := i - 1;
    }
  }
}
