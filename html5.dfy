/**
 * `rocal_ui::html5`: the template parser that walks the token stream once,
 * keeping the open elements on an explicit stack of frames. The stack starts
 * with a `Fragment` root; an opening tag pushes a frame, its closing tag pops
 * it into the frame beneath, and every other construct becomes a child of the
 * frame on top. The bodies of `if`, `else if`, `else` and `for` are parsed by
 * a recursive call into a fresh root, which becomes the single child of the
 * control node.
 *
 * `Parse`, `Run`, `Advance` and `Block` are the specification: `Run` is the
 * `while` loop over the input, `Advance` one iteration of it. `ParseTemplate`
 * is the loop itself over a `DataStack.Stack`, proved equal to `Parse`.
 */
module Html5 {
  import opened Wrappers
  import opened Tokens
  import opened Elements
  import opened Template
  import opened Scan
  import DataStack

  /** One loop iteration's outcome: the trees it consumed and the new stack, bottom first. */
  datatype Step = Step(n: nat, stack: seq<Node>)

  function Last(stack: seq<Node>): Node
    requires stack != []
  {
    stack[|stack| - 1]
  }

  /** Pop the top frame, give it `child`, push it back; `None` on an empty stack. */
  function AttachTop(stack: seq<Node>, child: Node): (r: Option<seq<Node>>)
    ensures r.None? <==> stack == []
    ensures r.Some? ==> |r.value| == |stack| && r.value[..|stack| - 1] == stack[..|stack| - 1]
    ensures r.Some? ==> Last(r.value) == AppendChild(Last(stack), child)
  {
    if stack == [] then None else Some(stack[..|stack| - 1] + [AppendChild(Last(stack), child)])
  }

  /** The attribute syntax of this parser: `type` may be a key and values may be `{{ expr }}`. */
  const Syntax := Html5Attrs

  /** `Html5::parse` on a token stream. */
  function Parse(ts: seq<Token>): Result<Node, Error>
    decreases SeqSize(ts), 3
  {
    Run(ts, [Root])
  }

  /** The `while !input.is_empty()` loop from the given stack, then the final check. */
  function Run(ts: seq<Token>, stack: seq<Node>): Result<Node, Error>
    decreases SeqSize(ts), 2
  {
    if ts == [] then
      if |stack| != 1 then Err(Message("Error: lack of some closing tags")) else Ok(stack[0])
    else
      match Advance(ts, stack)
      case Err(e) => Err(e)
      case Ok(s) =>
        SeqSizeDrop(ts, s.n);
        Run(ts[s.n..], s.stack)
  }

  /** One iteration of the loop, chosen by the leading tokens. */
  function Advance(ts: seq<Token>, stack: seq<Node>): (r: Result<Step, Error>)
    requires ts != []
    ensures r.Ok? ==> 0 < r.value.n <= |ts|
    decreases SeqSize(ts), 1
  {
    if |ts| >= 2 && ts[0] == Punct('<') && IsPlainIdent(ts[1]) then OpenTag(ts, stack)
    else if |ts| >= 3 && ts[0] == Punct('<') && ts[1] == Punct('/') && IsPlainIdent(ts[2]) then CloseTag(ts, stack)
    else if IsBrace(ts[0]) then Braced(ts[0].inner, stack)
    else if ts[0] == Ident("if") then
      match UntilBrace(ts[1..], "Condition shuold be here.")
      case Err(e) => Err(e)
      case Ok(c) => Block(ts, stack, 1 + c.n, If(StreamText(c.value)), "`if` should be used inside of a node")
    else if |ts| >= 2 && ts[0] == Ident("else") && ts[1] == Ident("if") then
      match UntilBrace(ts[2..], "Condition shuold be here.")
      case Err(e) => Err(e)
      case Ok(c) => Block(ts, stack, 2 + c.n, ElseIf(StreamText(c.value)), "`else-if` should be used inside of a node")
    else if ts[0] == Ident("else") then
      Block(ts, stack, 1, Else, "`else` should be used inside of a node")
    else if ts[0] == Ident("for") then
      if |ts| < 2 || !IsPlainIdent(ts[1]) then Err(Message(IdentError(ts, 1)))
      else if |ts| < 3 || ts[2] != Ident("in") then Err(Message("expected `in`"))
      else
        match UntilBrace(ts[3..], "Iter should be here.")
        case Err(e) => Err(e)
        case Ok(c) => Block(ts, stack, 3 + c.n, For(ts[1].name, StreamText(c.value)), "`for-in` should be used inside of a node")
    else Err(Message("Invalid token"))
  }

  /**
   * A control-flow node: the brace group at `at` is parsed as a fresh template
   * and becomes the only child of a node holding `lex`, given to the top frame.
   */
  function Block(ts: seq<Token>, stack: seq<Node>, at: nat, lex: Lex, orphan: string): (r: Result<Step, Error>)
    requires 0 < at <= |ts|
    ensures r.Ok? ==> r.value.n == at + 1 <= |ts|
    decreases SeqSize(ts), 0
  {
    if at == |ts| || !IsBrace(ts[at]) then Err(Message("expected curly braces"))
    else
      SeqSizeInner(ts, at);
      match Parse(ts[at].inner)
      case Err(e) => Err(e)
      case Ok(body) =>
        match AttachTop(stack, Node([body], lex))
        case None => Err(Message(orphan))
        case Some(st) => Ok(Step(at + 1, st))
  }

  /**
   * `<name attrs>` or `<name attrs />`: a void element becomes a leaf of the
   * top frame, any other element a new frame. A `/` before `>` is skipped.
   */
  function OpenTag(ts: seq<Token>, stack: seq<Node>): (r: Result<Step, Error>)
    requires |ts| >= 2 && IsPlainIdent(ts[1])
    ensures r.Ok? ==> 0 < r.value.n <= |ts|
  {
    var element := Named(ts[1].name);
    match ParseAttributes(ts[2..], Syntax)
    case Err(e) => Err(e)
    case Ok(attrs) =>
      var p := 2 + attrs.n;
      var q := if p < |ts| && ts[p] == Punct('/') then p + 1 else p;
      if q < |ts| && ts[q] == Punct('>') then
        var tag := Node([], Tag(element, attrs.value));
        Ok(Step(q + 1, if IsVoid(element) then AttachOrPush(stack, tag) else stack + [tag]))
      else Err(Message("expected `>`"))
  }

  /** A void element goes to the top frame, or becomes the only frame of an empty stack. */
  function AttachOrPush(stack: seq<Node>, tag: Node): seq<Node> {
    match AttachTop(stack, tag)
    case Some(st) => st
    case None => [tag]
  }

  /**
   * `</name>`: the top frame, when it is the element being closed, becomes the
   * last child of the frame beneath it.
   */
  function CloseTag(ts: seq<Token>, stack: seq<Node>): (r: Result<Step, Error>)
    requires |ts| >= 3 && IsPlainIdent(ts[2])
    ensures r.Ok? ==> r.value.n == 4 <= |ts|
  {
    var el := ts[2].name;
    if stack == [] then Err(Message("There is no opening tag for </" + el + ">"))
    else
      var top := Last(stack);
      var below := stack[..|stack| - 1];
      var popped :=
        if !top.value.Tag? then Ok(below)
        else if ElementName(top.value.element) != el then Err(Message("Invalid syntax"))
        else match AttachTop(below, top)
          case None => Err(Message("A single root is mandatory."))
          case Some(st) => Ok(st);
      match popped
      case Err(e) => Err(e)
      case Ok(st) => if |ts| >= 4 && ts[3] == Punct('>') then Ok(Step(4, st)) else Err(Message("expected `>`"))
  }

  /**
   * `{ "text" }` gives a `Text` child and `{ { tokens } }` a `Var` child holding
   * the tokens' text run together; a buffer left with tokens is an error.
   */
  function Braced(content: seq<Token>, stack: seq<Node>): (r: Result<Step, Error>)
    ensures r.Ok? ==> r.value.n == 1
  {
    var child :=
      if |content| > 0 && IsBrace(content[0]) then Ok(Node([], Var(ConcatText(content[0].inner))))
      else if |content| > 0 && content[0].Str? then Ok(Node([], Text(content[0].value)))
      else Err(Message("expected string literal"));
    match child
    case Err(e) => Err(e)
    case Ok(c) =>
      match AttachTop(stack, c)
      case None => Err(Message("A single root is mandatory"))
      case Some(st) => if |content| > 1 then Err(Message("unexpected token")) else Ok(Step(1, st))
  }

  /** `Html5::parse`: the `while` loop over a stack of frames. */
  method ParseTemplate(input: seq<Token>) returns (r: Result<Node, Error>)
    ensures r == Parse(input)
    decreases SeqSize(input), 4
  {
    var stack := new DataStack.Stack<Node>();
    stack.Push(Root);
    assert stack.Contents == [Root];
    r := RunLoop(input, stack);
  }

  /** The `while` loop and the final check, from the frames held by `stack`. */
  method RunLoop(input: seq<Token>, stack: DataStack.Stack<Node>) returns (r: Result<Node, Error>)
    requires stack.Valid()
    modifies stack
    ensures r == Run(input, old(stack.Contents))
    decreases SeqSize(input), 3
  {
    var pos := 0;
    ghost var frames := stack.Contents;
    ghost var goal := Run(input, frames);
    assert input[pos..] == input;
    while pos < |input|
      invariant 0 <= pos <= |input|
      invariant stack.Valid()
      invariant stack.Contents == frames
      invariant Run(input[pos..], frames) == goal
      decreases |input| - pos
    {
      SeqSizeDrop(input, pos);
      var ts := input[pos..];
      var step := Turn(ts, stack, frames);
      if step.Err? {
        return Err(step.error);
      }
      assert ts[step.value..] == input[pos + step.value..];
      frames := stack.Contents;
      pos := pos + step.value;
    }
    assert input[pos..] == [];
    r := Finish(stack, frames);
  }

  /** The check after the loop: exactly one frame, the root, must be left. */
  method Finish(stack: DataStack.Stack<Node>, ghost frames: seq<Node>) returns (r: Result<Node, Error>)
    requires stack.Valid() && stack.Contents == frames
    modifies stack
    ensures r == Run([], frames)
  {
    if stack.len != 1 {
      return Err(Message("Error: lack of some closing tags"));
    }
    var root := stack.Pop();
    r := Ok(root.value);
  }

  /** One iteration, and what is left of the loop after it. */
  method Turn(ts: seq<Token>, stack: DataStack.Stack<Node>, ghost frames: seq<Node>) returns (step: Result<nat, Error>)
    requires ts != [] && stack.Valid() && stack.Contents == frames
    modifies stack
    ensures stack.Valid()
    ensures step.Err? ==> Run(ts, frames) == Err(step.error)
    ensures step.Ok? ==> 0 < step.value <= |ts| && Run(ts, frames) == Run(ts[step.value..], stack.Contents)
    decreases SeqSize(ts), 2
  {
    ghost var adv := Advance(ts, frames);
    step := Iterate(ts, stack);
    RunStep(ts, frames);
  }

  /** The loop after one iteration. */
  lemma RunStep(ts: seq<Token>, stack: seq<Node>)
    requires ts != []
    ensures Advance(ts, stack).Err? ==> Run(ts, stack) == Err(Advance(ts, stack).error)
    ensures Advance(ts, stack).Ok? ==> Run(ts, stack) == Run(ts[Advance(ts, stack).value.n..], Advance(ts, stack).value.stack)
  {
  }

  /** One iteration of the loop in `Html5::parse`, on the frames held by `stack`. */
  method Iterate(ts: seq<Token>, stack: DataStack.Stack<Node>) returns (res: Result<nat, Error>)
    requires ts != [] && stack.Valid()
    modifies stack
    ensures stack.Valid()
    ensures match Advance(ts, old(stack.Contents))
      case Err(e) => res == Err(e)
      case Ok(s) => res == Ok(s.n) && stack.Contents == s.stack
    decreases SeqSize(ts), 1
  {
    if |ts| >= 2 && ts[0] == Punct('<') && IsPlainIdent(ts[1]) {
      res := RunOpenTag(ts, stack);
    } else if |ts| >= 3 && ts[0] == Punct('<') && ts[1] == Punct('/') && IsPlainIdent(ts[2]) {
      res := RunCloseTag(ts, stack);
    } else if IsBrace(ts[0]) {
      res := RunBraced(ts[0].inner, stack);
    } else if ts[0] == Ident("if") {
      var c := ExtractUntilBrace(ts[1..], "Condition shuold be here.");
      if c.Err? {
        return Err(c.error);
      }
      res := RunBlock(ts, stack, 1 + c.value.n, If(StreamText(c.value.value)), "`if` should be used inside of a node");
    } else if |ts| >= 2 && ts[0] == Ident("else") && ts[1] == Ident("if") {
      var c := ExtractUntilBrace(ts[2..], "Condition shuold be here.");
      if c.Err? {
        return Err(c.error);
      }
      res := RunBlock(ts, stack, 2 + c.value.n, ElseIf(StreamText(c.value.value)), "`else-if` should be used inside of a node");
    } else if ts[0] == Ident("else") {
      res := RunBlock(ts, stack, 1, Else, "`else` should be used inside of a node");
    } else if ts[0] == Ident("for") {
      if |ts| < 2 || !IsPlainIdent(ts[1]) {
        return Err(Message(IdentError(ts, 1)));
      }
      if |ts| < 3 || ts[2] != Ident("in") {
        return Err(Message("expected `in`"));
      }
      var c := ExtractUntilBrace(ts[3..], "Iter should be here.");
      if c.Err? {
        return Err(c.error);
      }
      res := RunBlock(ts, stack, 3 + c.value.n, For(ts[1].name, StreamText(c.value.value)), "`for-in` should be used inside of a node");
    } else {
      res := Err(Message("Invalid token"));
    }
  }

  /** The opening-tag branch of the loop. */
  method RunOpenTag(ts: seq<Token>, stack: DataStack.Stack<Node>) returns (res: Result<nat, Error>)
    requires |ts| >= 2 && IsPlainIdent(ts[1]) && stack.Valid()
    modifies stack
    ensures stack.Valid()
    ensures match OpenTag(ts, old(stack.Contents))
      case Err(e) => res == Err(e)
      case Ok(s) => res == Ok(s.n) && stack.Contents == s.stack
  {
    var element := Named(ts[1].name);
    var attrs := ScanAttributes(ts[2..], Syntax);
    if attrs.Err? {
      return Err(attrs.error);
    }
    var p := 2 + attrs.value.n;
    if p < |ts| && ts[p] == Punct('/') {
      p := p + 1;
    }
    if !(p < |ts| && ts[p] == Punct('>')) {
      return Err(Message("expected `>`"));
    }
    var tag := Node([], Tag(element, attrs.value.value));
    if IsVoid(element) {
      var parent := stack.Pop();
      if parent.Some? {
        stack.Push(AppendChild(parent.value, tag));
      } else {
        stack.Push(tag);
      }
    } else {
      stack.Push(tag);
    }
    res := Ok(p + 1);
  }

  /** The closing-tag branch of the loop. */
  method RunCloseTag(ts: seq<Token>, stack: DataStack.Stack<Node>) returns (res: Result<nat, Error>)
    requires |ts| >= 3 && IsPlainIdent(ts[2]) && stack.Valid()
    modifies stack
    ensures stack.Valid()
    ensures match CloseTag(ts, old(stack.Contents))
      case Err(e) => res == Err(e)
      case Ok(s) => res == Ok(s.n) && stack.Contents == s.stack
  {
    var el := ts[2].name;
    var previous1 := stack.Pop();
    if previous1.None? {
      return Err(Message("There is no opening tag for </" + el + ">"));
    }
    var top := previous1.value;
    if top.value.Tag? {
      if ElementName(top.value.element) != el {
        return Err(Message("Invalid syntax"));
      }
      var previous2 := stack.Pop();
      if previous2.None? {
        return Err(Message("A single root is mandatory."));
      }
      stack.Push(AppendChild(previous2.value, top));
    }
    if !(|ts| >= 4 && ts[3] == Punct('>')) {
      return Err(Message("expected `>`"));
    }
    res := Ok(4);
  }

  /** The brace branch of the loop: a text or a variable. */
  method RunBraced(content: seq<Token>, stack: DataStack.Stack<Node>) returns (res: Result<nat, Error>)
    requires stack.Valid()
    modifies stack
    ensures stack.Valid()
    ensures match Braced(content, old(stack.Contents))
      case Err(e) => res == Err(e)
      case Ok(s) => res == Ok(s.n) && stack.Contents == s.stack
  {
    var child: Node;
    if |content| > 0 && IsBrace(content[0]) {
      var v := ExtractVariable(content[0].inner);
      child := Node([], Var(v));
    } else if |content| > 0 && content[0].Str? {
      child := Node([], Text(content[0].value));
    } else {
      return Err(Message("expected string literal"));
    }
    var parent := stack.Pop();
    if parent.None? {
      return Err(Message("A single root is mandatory"));
    }
    stack.Push(AppendChild(parent.value, child));
    if |content| > 1 {
      return Err(Message("unexpected token"));
    }
    res := Ok(1);
  }

  /** A control-flow construct's body, parsed recursively and given to the top frame. */
  method RunBlock(ts: seq<Token>, stack: DataStack.Stack<Node>, at: nat, lex: Lex, orphan: string)
    returns (res: Result<nat, Error>)
    requires 0 < at <= |ts| && stack.Valid()
    modifies stack
    ensures stack.Valid()
    ensures match Block(ts, old(stack.Contents), at, lex, orphan)
      case Err(e) => res == Err(e)
      case Ok(s) => res == Ok(s.n) && stack.Contents == s.stack
    decreases SeqSize(ts), 0
  {
    if at == |ts| || !IsBrace(ts[at]) {
      return Err(Message("expected curly braces"));
    }
    SeqSizeInner(ts, at);
    var body := ParseTemplate(ts[at].inner);
    if body.Err? {
      return Err(body.error);
    }
    var parent := stack.Pop();
    if parent.None? {
      return Err(Message(orphan));
    }
    stack.Push(AppendChild(parent.value, Node([body.value], lex)));
    res := Ok(at + 1);
  }
}
