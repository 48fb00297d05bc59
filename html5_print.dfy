/**
 * A printer from template trees back to tokens, and the round trip: parsing
 * what it prints with the `html5.rs` parser gives back the tree. Conditions,
 * iterables and variables print as a single identifier holding their text.
 */
module Html5Print {
  import opened Wrappers
  import opened Tokens
  import opened Elements
  import opened Template
  import opened Scan
  import opened Html5

  /** A brace body: a `Fragment` root holding the body's nodes. */
  predicate IsBody(b: Node) {
    b.value == Tag(Fragment, [])
  }

  /** The trees this printer writes and the parser reads back. */
  predicate WellFormed(n: Node)
    decreases n
  {
    match n.value
    case Tag(e, attrs) =>
      && e.Named? && IsPlainIdent(Ident(e.name))
      && (forall i :: 0 <= i < |attrs| ==> WellFormedAttr(attrs[i], Syntax))
      && (IsVoid(e) ==> n.children == [])
      && WellFormedSeq(n.children)
    case Text(_) => n.children == []
    case Var(_) => n.children == []
    case For(x, _) =>
      IsPlainIdent(Ident(x)) && |n.children| == 1 && IsBody(n.children[0]) && WellFormedSeq(n.children[0].children)
    case _ =>
      |n.children| == 1 && IsBody(n.children[0]) && WellFormedSeq(n.children[0].children)
  }

  predicate WellFormedSeq(cs: seq<Node>)
    decreases cs
  {
    forall i :: 0 <= i < |cs| ==> WellFormed(cs[i])
  }

  /** The nodes of a control-flow construct's body. */
  function BodyNodes(n: Node): seq<Node> {
    if |n.children| == 1 then n.children[0].children else []
  }

  /** The tokens before a control-flow construct's body. */
  function Head(n: Node): seq<Token> {
    match n.value
    case If(c) => [Ident("if"), Ident(c)]
    case ElseIf(c) => [Ident("else"), Ident("if"), Ident(c)]
    case Else => [Ident("else")]
    case For(x, it) => [Ident("for"), Ident(x), Ident("in"), Ident(it)]
    case _ => []
  }

  function Print(n: Node): seq<Token>
    decreases n, 1
  {
    match n.value
    case Tag(e, attrs) =>
      [Punct('<'), Ident(ElementName(e))] + PrintAttrs(attrs) + [Punct('>')]
      + (if IsVoid(e) then [] else PrintSeq(n.children) + [Punct('<'), Punct('/'), Ident(ElementName(e)), Punct('>')])
    case Text(t) => [Group(Brace, [Str(t)])]
    case Var(v) => [Group(Brace, [Group(Brace, [Ident(v)])])]
    case _ => Head(n) + [Group(Brace, PrintBody(n))]
  }

  function PrintBody(n: Node): seq<Token>
    decreases n, 0
  {
    if |n.children| == 1 then PrintSeq(n.children[0].children) else []
  }

  function PrintSeq(cs: seq<Node>): seq<Token>
    decreases cs
  {
    if cs == [] then [] else Print(cs[0]) + PrintSeq(cs[1..])
  }

  /** The top frame with `cs` appended to its children. */
  function ExtendTop(stack: seq<Node>, cs: seq<Node>): seq<Node>
    requires stack != []
  {
    stack[..|stack| - 1] + [Node(Last(stack).children + cs, Last(stack).value)]
  }

  /** One loop iteration that succeeded, unfolded. */
  lemma RunStep(ts: seq<Token>, stack: seq<Node>, s: Step)
    requires ts != [] && Advance(ts, stack) == Ok(s)
    ensures Run(ts, stack) == Run(ts[s.n..], s.stack)
  {
  }

  lemma AdvanceOpen(ts: seq<Token>, stack: seq<Node>)
    requires |ts| >= 2 && ts[0] == Punct('<') && IsPlainIdent(ts[1])
    ensures Advance(ts, stack) == Html5.OpenTag(ts, stack)
  {
  }

  lemma AdvanceClose(ts: seq<Token>, stack: seq<Node>)
    requires |ts| >= 3 && ts[0] == Punct('<') && ts[1] == Punct('/') && IsPlainIdent(ts[2])
    ensures Advance(ts, stack) == Html5.CloseTag(ts, stack)
  {
  }

  lemma AdvanceBraced(ts: seq<Token>, stack: seq<Node>)
    requires ts != [] && IsBrace(ts[0])
    ensures Advance(ts, stack) == Braced(ts[0].inner, stack)
  {
  }

  lemma AdvanceIf(ts: seq<Token>, stack: seq<Node>, c: Token)
    requires |ts| >= 2 && ts[0] == Ident("if") && UntilBrace(ts[1..], "Condition shuold be here.") == Ok(Parsed([c], 1))
    ensures Advance(ts, stack) == Block(ts, stack, 2, If(StreamText([c])), "`if` should be used inside of a node")
  {
  }

  lemma AdvanceElseIf(ts: seq<Token>, stack: seq<Node>, c: Token)
    requires |ts| >= 3 && ts[0] == Ident("else") && ts[1] == Ident("if")
    requires UntilBrace(ts[2..], "Condition shuold be here.") == Ok(Parsed([c], 1))
    ensures Advance(ts, stack) == Block(ts, stack, 3, ElseIf(StreamText([c])), "`else-if` should be used inside of a node")
  {
  }

  lemma AdvanceElse(ts: seq<Token>, stack: seq<Node>)
    requires |ts| >= 2 && ts[0] == Ident("else") && ts[1] != Ident("if")
    ensures Advance(ts, stack) == Block(ts, stack, 1, Else, "`else` should be used inside of a node")
  {
  }

  lemma AdvanceFor(ts: seq<Token>, stack: seq<Node>, c: Token)
    requires |ts| >= 4 && ts[0] == Ident("for") && IsPlainIdent(ts[1]) && ts[2] == Ident("in")
    requires UntilBrace(ts[3..], "Iter should be here.") == Ok(Parsed([c], 1))
    ensures Advance(ts, stack) == Block(ts, stack, 4, For(ts[1].name, StreamText([c])), "`for-in` should be used inside of a node")
  {
  }

  /** Printing then parsing gives back the nodes under a `Fragment` root. */
  lemma {:induction false} ParsePrinted(cs: seq<Node>)
    requires WellFormedSeq(cs)
    ensures Parse(PrintSeq(cs)) == Ok(Node(cs, Tag(Fragment, [])))
    decreases cs, 1
  {
    RunPrintedSeq(cs, [], [Root]);
    assert PrintSeq(cs) + [] == PrintSeq(cs);
    assert [] + cs == cs;
  }

  lemma {:induction false} RunPrintedSeq(cs: seq<Node>, rest: seq<Token>, stack: seq<Node>)
    requires WellFormedSeq(cs) && stack != []
    ensures Run(PrintSeq(cs) + rest, stack) == Run(rest, ExtendTop(stack, cs))
    decreases cs, 0
  {
    if cs == [] {
      assert PrintSeq(cs) + rest == rest;
      assert Last(stack).children + cs == Last(stack).children;
      assert ExtendTop(stack, cs) == stack;
    } else {
      var more := PrintSeq(cs[1..]) + rest;
      assert PrintSeq(cs) + rest == Print(cs[0]) + more;
      RunPrinted(cs[0], more, stack);
      var st := AttachTop(stack, cs[0]).value;
      RunPrintedSeq(cs[1..], rest, st);
      ExtendTopStep(stack, cs);
    }
  }

  lemma ExtendTopStep(stack: seq<Node>, cs: seq<Node>)
    requires stack != [] && cs != []
    ensures ExtendTop(AttachTop(stack, cs[0]).value, cs[1..]) == ExtendTop(stack, cs)
  {
    var st := AttachTop(stack, cs[0]).value;
    assert st[..|st| - 1] == stack[..|stack| - 1];
    assert Last(st).children == Last(stack).children + [cs[0]];
    assert (Last(stack).children + [cs[0]]) + cs[1..] == Last(stack).children + cs;
  }

  lemma {:induction false} RunPrinted(n: Node, rest: seq<Token>, stack: seq<Node>)
    requires WellFormed(n) && stack != []
    ensures Run(Print(n) + rest, stack) == Run(rest, AttachTop(stack, n).value)
    decreases n, 2
  {
    var ts := Print(n) + rest;
    match n.value
    case Tag(e, attrs) =>
      RunPrintedTag(n, rest, stack);
    case Text(t) =>
      assert ts[1..] == rest;
      assert n == Node([], Text(t));
      AdvanceBraced(ts, stack);
      RunStep(ts, stack, Step(1, AttachTop(stack, n).value));
    case Var(v) =>
      assert ts[1..] == rest;
      assert ConcatText([Ident(v)]) == v;
      assert n == Node([], Var(v));
      AdvanceBraced(ts, stack);
      RunStep(ts, stack, Step(1, AttachTop(stack, n).value));
    case _ =>
      RunBlockPrinted(n, rest, stack);
  }

  /** The tokens of a tag up to and including its `>`. */
  function OpenTokensOf(n: Node): seq<Token>
    requires n.value.Tag?
  {
    [Punct('<'), Ident(ElementName(n.value.element))] + PrintAttrs(n.value.attributes) + [Punct('>')]
  }

  function CloseTokensOf(n: Node): seq<Token>
    requires n.value.Tag?
  {
    [Punct('<'), Punct('/'), Ident(ElementName(n.value.element)), Punct('>')]
  }

  /** An opening tag pushes its frame, or hands a void element to the top frame. */
  lemma AdvanceOpenPrinted(n: Node, tail: seq<Token>, stack: seq<Node>)
    requires WellFormed(n) && stack != [] && n.value.Tag?
    ensures Html5.OpenTag(OpenTokensOf(n) + tail, stack) == Ok(Step(|OpenTokensOf(n)|,
      if IsVoid(n.value.element) then AttachTop(stack, Node([], n.value)).value else stack + [Node([], n.value)]))
  {
    OpenTagPrinted(n.value.element, n.value.attributes, tail, stack);
  }

  /** An opening tag whose attributes parse and are followed by `>`. */
  lemma OpenTagStep(ts: seq<Token>, stack: seq<Node>, attrs: seq<Attribute>)
    requires |ts| >= 2 && IsPlainIdent(ts[1])
    requires ParseAttributes(ts[2..], Syntax) == Ok(Parsed(attrs, 3 * |attrs|))
    requires 2 + 3 * |attrs| < |ts| && ts[2 + 3 * |attrs|] == Punct('>')
    ensures var tag := Node([], Tag(Named(ts[1].name), attrs));
      Html5.OpenTag(ts, stack) == Ok(Step(3 + 3 * |attrs|,
        if IsVoid(Named(ts[1].name)) then AttachOrPush(stack, tag) else stack + [tag]))
  {
  }

  lemma OpenTagPrinted(e: Element, attrs: seq<Attribute>, tail: seq<Token>, stack: seq<Node>)
    requires e.Named? && IsPlainIdent(Ident(e.name)) && stack != []
    requires forall i :: 0 <= i < |attrs| ==> WellFormedAttr(attrs[i], Syntax)
    ensures var open := [Punct('<'), Ident(ElementName(e))] + PrintAttrs(attrs) + [Punct('>')];
      Html5.OpenTag(open + tail, stack) == Ok(Step(|open|,
        if IsVoid(e) then AttachTop(stack, Node([], Tag(e, attrs))).value else stack + [Node([], Tag(e, attrs))]))
  {
    var pa := PrintAttrs(attrs);
    var ts := [Punct('<'), Ident(e.name)] + pa + [Punct('>')] + tail;
    OpenShape(e.name, pa, tail);
    ParseAttrsPrinted(attrs, [Punct('>')] + tail, Syntax);
    OpenTagStep(ts, stack, attrs);
  }

  /** The closing tag of the top frame folds it into the frame below. */
  lemma RunCloseTokens(n: Node, rest: seq<Token>, stack: seq<Node>)
    requires WellFormed(n) && stack != [] && n.value.Tag?
    ensures Run(CloseTokensOf(n) + rest, stack + [n]) == Run(rest, AttachTop(stack, n).value)
  {
    var close := CloseTokensOf(n) + rest;
    var st := stack + [n];
    assert st[..|st| - 1] == stack;
    assert Last(st) == n;
    AdvanceClose(close, st);
    assert Html5.CloseTag(close, st) == Ok(Step(4, AttachTop(stack, n).value));
    RunStep(close, st, Step(4, AttachTop(stack, n).value));
    assert close[4..] == rest;
  }

  /** The opening tag of a void element attaches it as a leaf. */
  lemma RunOpenVoid(n: Node, rest: seq<Token>, stack: seq<Node>)
    requires WellFormed(n) && stack != [] && n.value.Tag? && IsVoid(n.value.element)
    ensures Run(OpenTokensOf(n) + rest, stack) == Run(rest, AttachTop(stack, Node([], n.value)).value)
  {
    var open := OpenTokensOf(n);
    var ts := open + rest;
    AdvanceOpen(ts, stack);
    AdvanceOpenPrinted(n, rest, stack);
    RunStep(ts, stack, Step(|open|, AttachTop(stack, Node([], n.value)).value));
    assert ts[|open|..] == rest;
  }

  /** The opening tag of any other element pushes an empty frame. */
  lemma RunOpenFrame(n: Node, tail: seq<Token>, stack: seq<Node>)
    requires WellFormed(n) && stack != [] && n.value.Tag? && !IsVoid(n.value.element)
    ensures Run(OpenTokensOf(n) + tail, stack) == Run(tail, stack + [Node([], n.value)])
  {
    var open := OpenTokensOf(n);
    var ts := open + tail;
    AdvanceOpen(ts, stack);
    AdvanceOpenPrinted(n, tail, stack);
    RunStep(ts, stack, Step(|open|, stack + [Node([], n.value)]));
    assert ts[|open|..] == tail;
  }

  /** How a tag prints: its opening tag, then its children and closing tag unless void. */
  lemma PrintTag(n: Node)
    requires n.value.Tag?
    ensures Print(n) == if IsVoid(n.value.element) then OpenTokensOf(n)
      else OpenTokensOf(n) + PrintSeq(n.children) + CloseTokensOf(n)
  {
  }

  lemma RunPrintedNonVoid(n: Node, rest: seq<Token>, stack: seq<Node>)
    requires WellFormed(n) && stack != [] && n.value.Tag? && !IsVoid(n.value.element)
    requires Run(PrintSeq(n.children) + (CloseTokensOf(n) + rest), stack + [Node([], n.value)])
      == Run(CloseTokensOf(n) + rest, ExtendTop(stack + [Node([], n.value)], n.children))
    ensures Run(Print(n) + rest, stack) == Run(rest, AttachTop(stack, n).value)
  {
    var frame := Node([], n.value);
    var close := CloseTokensOf(n) + rest;
    var tail := PrintSeq(n.children) + close;
    PrintTag(n);
    Regroup(OpenTokensOf(n), PrintSeq(n.children), CloseTokensOf(n), rest);
    RunOpenFrame(n, tail, stack);
    ExtendFrame(stack, n);
    RunCloseTokens(n, rest, stack);
  }

  lemma Regroup(a: seq<Token>, b: seq<Token>, c: seq<Token>, d: seq<Token>)
    ensures (a + b + c) + d == a + (b + (c + d))
  {
  }

  /** Filling an empty frame with a node's children rebuilds the node. */
  lemma ExtendFrame(stack: seq<Node>, n: Node)
    ensures ExtendTop(stack + [Node([], n.value)], n.children) == stack + [n]
  {
    var st := stack + [Node([], n.value)];
    assert st[..|st| - 1] == stack;
    assert [] + n.children == n.children;
  }

  lemma {:induction false} RunPrintedTag(n: Node, rest: seq<Token>, stack: seq<Node>)
    requires WellFormed(n) && stack != [] && n.value.Tag?
    ensures Run(Print(n) + rest, stack) == Run(rest, AttachTop(stack, n).value)
    decreases n, 1
  {
    if IsVoid(n.value.element) {
      PrintTag(n);
      assert n == Node([], n.value);
      RunOpenVoid(n, rest, stack);
    } else {
      RunPrintedSeq(n.children, CloseTokensOf(n) + rest, stack + [Node([], n.value)]);
      RunPrintedNonVoid(n, rest, stack);
    }
  }

  /** The condition or iterable scan over one identifier and the body group. */
  lemma UntilBraceOne(t: Token, g: Token, rest: seq<Token>, missing: string)
    requires !IsBrace(t) && IsBrace(g)
    ensures UntilBrace([t, g] + rest, missing) == Ok(Parsed([t], 1))
  {
    var ts := [t, g] + rest;
    assert ts[1..] == [g] + rest;
    assert FirstBrace(ts[1..]) == Some(0);
    assert ts[..1] == [t];
  }

  /** A printed body group, parsed as a block, gives the body back. */
  lemma {:induction false} BlockPrinted(ts: seq<Token>, stack: seq<Node>, at: nat, lex: Lex, orphan: string, body: Node)
    requires 0 < at < |ts| && stack != []
    requires ts[at] == Group(Brace, PrintSeq(body.children)) && IsBody(body) && WellFormedSeq(body.children)
    ensures Block(ts, stack, at, lex, orphan) == Ok(Step(at + 1, AttachTop(stack, Node([body], lex)).value))
    decreases body, 0
  {
    ParsePrinted(body.children);
    assert Node(body.children, Tag(Fragment, [])) == body;
  }

  lemma {:induction false} RunBlockPrinted(n: Node, rest: seq<Token>, stack: seq<Node>)
    requires WellFormed(n) && stack != [] && !n.value.Tag? && !n.value.Text? && !n.value.Var?
    ensures Run(Print(n) + rest, stack) == Run(rest, AttachTop(stack, n).value)
    decreases n, 1
  {
    var body := n.children[0];
    var g := Group(Brace, PrintSeq(body.children));
    var h := Head(n);
    var ts := Print(n) + rest;
    assert PrintBody(n) == PrintSeq(body.children);
    assert Print(n) == h + [g];
    assert ts == h + [g] + rest;
    var at := |h|;
    assert ts[at] == g;
    assert ts[at + 1..] == rest;
    assert n == Node([body], n.value);
    match n.value
    case If(c) =>
      assert ts[1..] == [Ident(c), g] + rest;
      UntilBraceOne(Ident(c), g, rest, "Condition shuold be here.");
      assert StreamText([Ident(c)]) == c;
      AdvanceIf(ts, stack, Ident(c));
      BlockPrinted(ts, stack, at, n.value, "`if` should be used inside of a node", body);
    case ElseIf(c) =>
      assert ts[2..] == [Ident(c), g] + rest;
      UntilBraceOne(Ident(c), g, rest, "Condition shuold be here.");
      assert StreamText([Ident(c)]) == c;
      AdvanceElseIf(ts, stack, Ident(c));
      BlockPrinted(ts, stack, at, n.value, "`else-if` should be used inside of a node", body);
    case Else =>
      AdvanceElse(ts, stack);
      BlockPrinted(ts, stack, at, n.value, "`else` should be used inside of a node", body);
    case For(x, it) =>
      assert ts[3..] == [Ident(it), g] + rest;
      UntilBraceOne(Ident(it), g, rest, "Iter should be here.");
      assert StreamText([Ident(it)]) == it;
      AdvanceFor(ts, stack, Ident(it));
      BlockPrinted(ts, stack, at, n.value, "`for-in` should be used inside of a node", body);
    RunStep(ts, stack, Step(at + 1, AttachTop(stack, n).value));
  }
}
