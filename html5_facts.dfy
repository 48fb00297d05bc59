/**
 * Properties of the `html5.rs` parser: the frames it keeps, what one step
 * does with each construct, and what a successful parse returns.
 */
module Html5Facts {
  import opened Wrappers
  import opened Tokens
  import opened Elements
  import opened Template
  import opened Scan
  import opened Html5

  /**
   * What the stack holds between iterations: the `Fragment` root at the
   * bottom and, above it, open non-void tags, every frame with void leaves.
   */
  ghost predicate Frames(stack: seq<Node>) {
    && stack != []
    && stack[0].value == Tag(Fragment, [])
    && forall i :: 0 <= i < |stack| ==>
      stack[i].value.Tag? && !IsVoid(stack[i].value.element) && VoidLeaves(stack[i])
  }

  lemma FramesRoot()
    ensures Frames([Root])
  {
  }

  lemma AttachKeepsFrames(stack: seq<Node>, child: Node)
    requires Frames(stack) && VoidLeaves(child)
    ensures AttachTop(stack, child).Some? && Frames(AttachTop(stack, child).value)
  {
    var st := AttachTop(stack, child).value;
    var top := Last(st);
    assert top.children == Last(stack).children + [child];
    assert forall i :: 0 <= i < |top.children| ==> VoidLeaves(top.children[i]) by {
      forall i | 0 <= i < |top.children|
        ensures VoidLeaves(top.children[i])
      {
        if i < |Last(stack).children| {
          assert top.children[i] == Last(stack).children[i];
        }
      }
    }
    assert VoidLeaves(top);
    assert forall i :: 0 <= i < |st| - 1 ==> st[i] == stack[i];
  }

  /** A successful parse yields a `Fragment` root in which every void element is a leaf. */
  lemma {:induction false} ParseShape(ts: seq<Token>)
    requires Parse(ts).Ok?
    ensures Parse(ts).value.value == Tag(Fragment, [])
    ensures VoidLeaves(Parse(ts).value)
    decreases SeqSize(ts), 3
  {
    FramesRoot();
    RunShape(ts, [Root]);
  }

  lemma {:induction false} RunShape(ts: seq<Token>, stack: seq<Node>)
    requires Frames(stack) && Run(ts, stack).Ok?
    ensures Run(ts, stack).value.value == Tag(Fragment, [])
    ensures VoidLeaves(Run(ts, stack).value)
    decreases SeqSize(ts), 2
  {
    if ts != [] {
      var s := Advance(ts, stack).value;
      AdvanceShape(ts, stack);
      SeqSizeDrop(ts, s.n);
      RunShape(ts[s.n..], s.stack);
    }
  }

  /** Every successful step keeps the frame invariant; in particular the stack never empties. */
  lemma {:induction false} AdvanceShape(ts: seq<Token>, stack: seq<Node>)
    requires ts != [] && Frames(stack) && Advance(ts, stack).Ok?
    ensures Frames(Advance(ts, stack).value.stack)
    decreases SeqSize(ts), 1
  {
    if |ts| >= 2 && ts[0] == Punct('<') && IsPlainIdent(ts[1]) {
      var element := Named(ts[1].name);
      var attrs := ParseAttributes(ts[2..], Syntax).value;
      var tag := Node([], Tag(element, attrs.value));
      if IsVoid(element) {
        AttachKeepsFrames(stack, tag);
      } else {
        assert (stack + [tag])[..|stack|] == stack;
      }
    } else if |ts| >= 3 && ts[0] == Punct('<') && ts[1] == Punct('/') && IsPlainIdent(ts[2]) {
      var below := stack[..|stack| - 1];
      assert |stack| >= 2;
      AttachKeepsFrames(below, Last(stack));
    } else if IsBrace(ts[0]) {
      var content := ts[0].inner;
      var child := if |content| > 0 && IsBrace(content[0]) then Node([], Var(ConcatText(content[0].inner)))
        else Node([], Text(content[0].value));
      AttachKeepsFrames(stack, child);
    } else if ts[0] == Ident("if") {
      var c := UntilBrace(ts[1..], "Condition shuold be here.").value;
      BlockShape(ts, stack, 1 + c.n, If(StreamText(c.value)), "`if` should be used inside of a node");
    } else if |ts| >= 2 && ts[0] == Ident("else") && ts[1] == Ident("if") {
      var c := UntilBrace(ts[2..], "Condition shuold be here.").value;
      BlockShape(ts, stack, 2 + c.n, ElseIf(StreamText(c.value)), "`else-if` should be used inside of a node");
    } else if ts[0] == Ident("else") {
      BlockShape(ts, stack, 1, Else, "`else` should be used inside of a node");
    } else {
      var c := UntilBrace(ts[3..], "Iter should be here.").value;
      BlockShape(ts, stack, 3 + c.n, For(ts[1].name, StreamText(c.value)), "`for-in` should be used inside of a node");
    }
  }

  lemma {:induction false} BlockShape(ts: seq<Token>, stack: seq<Node>, at: nat, lex: Lex, orphan: string)
    requires 0 < at <= |ts| && !lex.Tag? && Frames(stack) && Block(ts, stack, at, lex, orphan).Ok?
    ensures Frames(Block(ts, stack, at, lex, orphan).value.stack)
    decreases SeqSize(ts), 0
  {
    SeqSizeInner(ts, at);
    var body := Parse(ts[at].inner).value;
    ParseShape(ts[at].inner);
    var node := Node([body], lex);
    assert node.children[0] == body;
    AttachKeepsFrames(stack, node);
  }

  /** `</n>` closes the frame of `n` on top: it becomes the last child of the frame beneath it. */
  lemma ClosePops(n: string, stack: seq<Node>, rest: seq<Token>)
    requires IsPlainIdent(Ident(n)) && |stack| >= 2
    requires Last(stack).value.Tag? && ElementName(Last(stack).value.element) == n
    ensures Advance([Punct('<'), Punct('/'), Ident(n), Punct('>')] + rest, stack) ==
      Ok(Step(4, stack[..|stack| - 2] + [AppendChild(stack[|stack| - 2], Last(stack))]))
  {
    var below := stack[..|stack| - 1];
    assert below[..|below| - 1] == stack[..|stack| - 2];
  }

  /** A closing tag for another element than the top frame's is "Invalid syntax". */
  lemma CloseMismatch(n: string, stack: seq<Node>, rest: seq<Token>)
    requires IsPlainIdent(Ident(n)) && stack != []
    requires Last(stack).value.Tag? && ElementName(Last(stack).value.element) != n
    ensures Advance([Punct('<'), Punct('/'), Ident(n)] + rest, stack) == Err(Message("Invalid syntax"))
  {
  }

  /** With only the root on the stack, a closing tag for any element is "Invalid syntax". */
  lemma CloseAtRoot(n: string, rest: seq<Token>)
    requires IsPlainIdent(Ident(n)) && n != ""
    ensures Advance([Punct('<'), Punct('/'), Ident(n)] + rest, [Root]) == Err(Message("Invalid syntax"))
  {
    CloseMismatch(n, [Root], rest);
  }

  /** The tokens of a tag without attributes, written `<n>` or `<n />`. */
  function OpenTokens(n: string, slash: bool): seq<Token> {
    [Punct('<'), Ident(n)] + (if slash then [Punct('/')] else []) + [Punct('>')]
  }

  /** A void element, written `<n>` or `<n />`, becomes a leaf child of the top frame; the stack keeps its height. */
  lemma VoidIsLeaf(n: string, slash: bool, stack: seq<Node>, rest: seq<Token>)
    requires IsPlainIdent(Ident(n)) && IsVoid(Named(n)) && stack != []
    ensures Advance(OpenTokens(n, slash) + rest, stack) ==
      Ok(Step(|OpenTokens(n, slash)|, AttachTop(stack, Node([], Tag(Named(n), []))).value))
  {
    var ts := OpenTokens(n, slash) + rest;
    assert ts[2..] == OpenTokens(n, slash)[2..] + rest;
    assert ParseAttributes(ts[2..], Syntax) == Ok(Parsed([], 0));
  }

  /** Any other element, written `<n>` or `<n />`, is pushed as a new, empty frame. */
  lemma OpenPushes(n: string, slash: bool, stack: seq<Node>, rest: seq<Token>)
    requires IsPlainIdent(Ident(n)) && !IsVoid(Named(n))
    ensures Advance(OpenTokens(n, slash) + rest, stack) ==
      Ok(Step(|OpenTokens(n, slash)|, stack + [Node([], Tag(Named(n), []))]))
  {
    var ts := OpenTokens(n, slash) + rest;
    assert ts[2..] == OpenTokens(n, slash)[2..] + rest;
    assert ParseAttributes(ts[2..], Syntax) == Ok(Parsed([], 0));
  }

  /** An element left open makes the parse fail at the end of the input. */
  lemma UnclosedFails(n: string)
    requires IsPlainIdent(Ident(n)) && !IsVoid(Named(n))
    ensures Parse(OpenTokens(n, false)) == Err(Message("Error: lack of some closing tags"))
  {
    var ts := OpenTokens(n, false);
    OpenPushes(n, false, [Root], []);
    assert ts + [] == ts;
    assert |ts| == 3 && ts[3..] == [];
    var frame := Node([], Tag(Named(n), []));
    assert [Root] + [frame] == [Root, frame];
    assert Advance(ts + [], [Root]) == Ok(Step(3, [Root] + [frame]));
    assert Advance(ts, [Root]) == Ok(Step(3, [Root, frame]));
    assert Run(ts, [Root]) == Run([], [Root, frame]);
  }

  /** `{ "s" }` gives the top frame a `Text(s)` child. */
  lemma TextChild(text: string, stack: seq<Node>, rest: seq<Token>)
    requires stack != []
    ensures Advance([Group(Brace, [Str(text)])] + rest, stack) ==
      Ok(Step(1, AttachTop(stack, Node([], Text(text))).value))
  {
  }

  /** `{ { tokens } }` gives the top frame a `Var` child holding the tokens' text. */
  lemma VarChild(tokens: seq<Token>, stack: seq<Node>, rest: seq<Token>)
    requires stack != []
    ensures Advance([Group(Brace, [Group(Brace, tokens)])] + rest, stack) ==
      Ok(Step(1, AttachTop(stack, Node([], Var(ConcatText(tokens)))).value))
  {
  }

  /**
   * A template that is only a string literal followed by more tokens inside the
   * braces is refused with "unexpected token": nothing else in it can fail first.
   */
  lemma TextWithTrailing(text: string, extra: Token)
    ensures Parse([Group(Brace, [Str(text), extra])]) == Err(Message("unexpected token"))
  {
    var ts := [Group(Brace, [Str(text), extra])];
    assert Braced(ts[0].inner, [Root]) == Err(Message("unexpected token"));
    assert Advance(ts, [Root]) == Err(Message("unexpected token"));
  }

  /**
   * `if cond { body }`: the body is parsed as a template of its own and becomes
   * the only child of an `If` node for the condition's text, given to the top frame.
   */
  lemma IfBlock(cond: seq<Token>, body: seq<Token>, stack: seq<Node>, rest: seq<Token>)
    requires stack != [] && forall i :: 0 <= i < |cond| ==> !IsBrace(cond[i])
    ensures Advance([Ident("if")] + cond + [Group(Brace, body)] + rest, stack) ==
      match Parse(body)
      case Err(e) => Err(e)
      case Ok(b) => Ok(Step(|cond| + 2, AttachTop(stack, Node([b], If(StreamText(cond)))).value))
  {
    var ts := [Ident("if")] + cond + [Group(Brace, body)] + rest;
    assert ts[1..] == cond + [Group(Brace, body)] + rest;
    FirstBraceShift(ts[1..], |cond|);
    assert ts[1..][..|cond|] == cond;
    assert ts[1 + |cond|] == Group(Brace, body);
  }

  /**
   * `for x in iter { body }`: likewise, with a `For` node binding `x` to the
   * iterable's text.
   */
  lemma ForBlock(x: string, iter: seq<Token>, body: seq<Token>, stack: seq<Node>, rest: seq<Token>)
    requires IsPlainIdent(Ident(x)) && stack != [] && forall i :: 0 <= i < |iter| ==> !IsBrace(iter[i])
    ensures Advance([Ident("for"), Ident(x), Ident("in")] + iter + [Group(Brace, body)] + rest, stack) ==
      match Parse(body)
      case Err(e) => Err(e)
      case Ok(b) => Ok(Step(|iter| + 4, AttachTop(stack, Node([b], For(x, StreamText(iter)))).value))
  {
    var ts := [Ident("for"), Ident(x), Ident("in")] + iter + [Group(Brace, body)] + rest;
    assert ts[3..] == iter + [Group(Brace, body)] + rest;
    FirstBraceShift(ts[3..], |iter|);
    assert ts[3..][..|iter|] == iter;
    assert ts[3 + |iter|] == Group(Brace, body);
  }

  /** A condition with no brace group after it is the error of the missing braces. */
  lemma IfWithoutBody(cond: seq<Token>, stack: seq<Node>)
    requires cond != [] && forall i :: 0 <= i < |cond| ==> !IsBrace(cond[i])
    ensures Advance([Ident("if")] + cond, stack) == Err(Message("expected curly braces"))
  {
    var ts := [Ident("if")] + cond;
    assert ts[1..] == cond;
  }

  /** `if` with nothing after it is the error of the missing condition. */
  lemma IfAtEnd(stack: seq<Node>)
    ensures Advance([Ident("if")], stack) == Err(Message("Condition shuold be here."))
  {
    assert [Ident("if")][1..] == [];
  }

  /** A keyword as the binding of `for` is refused with syn's message naming it. */
  lemma ForKeywordBinding(k: string, rest: seq<Token>)
    requires k in Keywords
    ensures Parse([Ident("for"), Ident(k)] + rest) == Err(Message("expected identifier, found keyword `" + k + "`"))
  {
    var ts := [Ident("for"), Ident(k)] + rest;
    assert Advance(ts, [Root]) == Err(Message("expected identifier, found keyword `" + k + "`"));
  }

  /** A leading literal, a non-`<` punctuation or a paren or bracket group is "Invalid token". */
  lemma InvalidLeading(t: Token, stack: seq<Node>, rest: seq<Token>)
    requires t.Str? || t.Num? || (t.Punct? && t.ch != '<') || (t.Group? && t.delim != Brace)
    ensures Advance([t] + rest, stack) == Err(Message("Invalid token"))
  {
  }
}
