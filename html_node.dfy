/**
 * `models/html_node.rs`: the node tree of the older lexer and its code
 * generator `Node::to_token_stream`. The generated Rust is modelled as a list
 * of statements (`Code`), not as text.
 *
 * The generator threads an accumulator of already generated code through the
 * tree. Two of its arms do not do what their neighbours make evident:
 * `For` replaces the accumulator instead of appending to it, so the code of
 * the siblings before a loop is lost, and the branch
 * pattern `(_last_idx, None)` binds a fresh name instead of comparing with
 * the last index, so a branch without a condition writes `else` wherever it
 * stands. `Generator` selects each behaviour: `AsWritten` is the file,
 * `Fixed` appends in `For` and panics ("Invalid condition") on a branch
 * without a condition that is not the last.
 */
module HtmlNode {
  import opened Wrappers
  import opened Elements

  datatype Node =
    | Element(element: Element, attributes: seq<(string, string)>, children: seq<Node>)
    | Text(text: string)
    | Var(name: string)
    | Expr(expr: string)
    | If(branches: seq<Branch>)
    | For(varName: string, iterName: string, body: Node)

  datatype Branch = Branch(cond: Option<string>, body: Node)

  /** The Rust statements the generator writes. */
  datatype Code =
    | Declare                                   // let mut html = String::new();
    | PushStr(text: string)                     // html += "…";
    | PushVar(name: string)                     // html += name;
    | PushExpr(expr: string)                    // html += expr;
    | IfCode(cond: string, body: seq<Code>)
    | ElseIfCode(cond: string, body: seq<Code>)
    | ElseCode(body: seq<Code>)
    | ForCode(pattern: string, iterable: string, body: seq<Code>)

  /** `add_child`: an element gets a copy of `child` as its last child; any other node is left as it is. */
  function AddChild(n: Node, child: Node): (r: Node)
    ensures n.Element? ==> r.Element? && r.element == n.element && r.attributes == n.attributes
    ensures n.Element? ==> |r.children| == |n.children| + 1 && r.children[..|n.children|] == n.children
    ensures n.Element? ==> r.children[|n.children|] == child
    ensures !n.Element? ==> r == n
  {
    match n
    case Element(e, attrs, cs) => Element(e, attrs, cs + [child])
    case _ => n
  }

  // ---- the generator ----

  /** `forKeepsCode`: `For` appends to the accumulator; `elseLastOnly`: only the last branch may lack a condition. */
  datatype Generator = Generator(forKeepsCode: bool, elseLastOnly: bool)

  const AsWritten := Generator(false, false)
  const Fixed := Generator(true, true)

  const InvalidCondition := "Invalid condition"

  /** ` k="v"` for every attribute, in order. */
  function AttrsLiteral(attrs: seq<(string, string)>): string
    decreases |attrs|
  {
    if attrs == [] then ""
    else AttrsLiteral(attrs[..|attrs| - 1]) + " " + attrs[|attrs| - 1].0 + "=\"" + attrs[|attrs| - 1].1 + "\""
  }

  function OpenLiteral(e: Element, attrs: seq<(string, string)>): string {
    "<" + ElementName(e) + AttrsLiteral(attrs) + ">\n"
  }

  function CloseLiteral(e: Element): string {
    "</" + ElementName(e) + ">\n"
  }

  /** The code generation starts from: what it was given, or the buffer's declaration. */
  function Start(html: Option<seq<Code>>): seq<Code> {
    match html
    case Some(h) => h
    case None => [Declare]
  }

  /** `n.to_token_stream(html)`; `Err` is a panic of the generator. */
  function Emit(n: Node, html: Option<seq<Code>>, g: Generator): (r: Result<seq<Code>, string>)
    ensures !g.elseLastOnly ==> r.Ok?
    ensures r.Err? ==> r.error == InvalidCondition
    decreases n, 1
  {
    var h := Start(html);
    match n
    case Element(e, attrs, cs) =>
      var start := if e != Fragment then h + [PushStr(OpenLiteral(e, attrs))] else h;
      if IsVoid(e) then Ok(start)
      else (match EmitChildren(cs, [], g)
        case Err(m) => Err(m)
        case Ok(nested) => Ok(start + nested + (if e != Fragment then [PushStr(CloseLiteral(e))] else [])))
    case Text(t) => Ok(h + [PushStr(t)])
    case Var(v) => Ok(h + [PushVar(v)])
    case Expr(x) => Ok(h + [PushExpr(x)])
    case If(bs) => EmitBranches(bs, 0, h, g)
    case For(v, it, body) =>
      (match Emit(body, Some([]), g)
       case Err(m) => Err(m)
       case Ok(b) => Ok((if g.forKeepsCode then h else []) + [ForCode(it, v, b)]))
  }

  /** `for child in children { nested = child.to_token_stream(Some(nested)) }`. */
  function EmitChildren(cs: seq<Node>, nested: seq<Code>, g: Generator): (r: Result<seq<Code>, string>)
    ensures !g.elseLastOnly ==> r.Ok?
    ensures r.Err? ==> r.error == InvalidCondition
    decreases cs, 0
  {
    if cs == [] then Ok(nested)
    else match Emit(cs[0], Some(nested), g)
      case Err(m) => Err(m)
      case Ok(next) => EmitChildren(cs[1..], next, g)
  }

  /** The statement for branch `i` of `count` with the generated `body`. */
  function Piece(i: nat, count: nat, b: Branch, body: seq<Code>, g: Generator): (r: Result<Code, string>)
    ensures r.Err? <==> g.elseLastOnly && b.cond.None? && i + 1 != count
    ensures r.Err? ==> r.error == InvalidCondition
    ensures r.Ok? ==> (r.value.IfCode? <==> i == 0 && b.cond.Some?)
    ensures r.Ok? ==> (r.value.ElseCode? <==> b.cond.None?)
  {
    if i == 0 && b.cond.Some? then Ok(IfCode(b.cond.value, body))
    else if b.cond.None? then
      if g.elseLastOnly && i + 1 != count then Err(InvalidCondition) else Ok(ElseCode(body))
    else Ok(ElseIfCode(b.cond.value, body))
  }

  /** The loop over the branches of an `If`, from branch `i` on, appending to `html`. */
  function EmitBranches(bs: seq<Branch>, i: nat, html: seq<Code>, g: Generator): (r: Result<seq<Code>, string>)
    requires i <= |bs|
    ensures !g.elseLastOnly ==> r.Ok?
    ensures r.Err? ==> r.error == InvalidCondition
    decreases bs, |bs| - i
  {
    if i == |bs| then Ok(html)
    else match EmitBody(bs[i], g)
      case Err(m) => Err(m)
      case Ok(body) =>
        match Piece(i, |bs|, bs[i], body, g)
        case Err(m) => Err(m)
        case Ok(p) => EmitBranches(bs, i + 1, html + [p], g)
  }

  /** `branch.body.to_token_stream(Some(quote!()))`. */
  function EmitBody(b: Branch, g: Generator): (r: Result<seq<Code>, string>)
    ensures !g.elseLastOnly ==> r.Ok?
    ensures r.Err? ==> r.error == InvalidCondition
    decreases b
  {
    Emit(b.body, Some([]), g)
  }

  /** The generated code of a whole tree: `to_token_stream(None)`. */
  function Generate(n: Node, g: Generator): Result<seq<Code>, string> {
    Emit(n, None, g)
  }

  // ---- the generator as a method, with its loops ----

  /** `to_token_stream`, with the loops over attributes, children and branches. */
  method ToTokenStream(n: Node, html: Option<seq<Code>>, g: Generator) returns (r: Result<seq<Code>, string>)
    ensures r == Emit(n, html, g)
    decreases n
  {
    var h := if html.Some? then html.value else [Declare];
    assert h == Start(html);
    match n {
      case Element(e, attrs, cs) =>
        if e != Fragment {
          var literal := WriteAttrs(attrs);
          var tag := "<" + ElementName(e) + literal + ">\n";
          assert tag == OpenLiteral(e, attrs);
          h := h + [PushStr(tag)];
        }
        ghost var start := h;
        if !IsVoid(e) {
          var nested: seq<Code> := [];
          var i := 0;
          while i < |cs|
            invariant 0 <= i <= |cs|
            invariant EmitChildren(cs, [], g) == EmitChildren(cs[i..], nested, g)
          {
            assert cs[i..][0] == cs[i] && cs[i..][1..] == cs[i + 1..];
            var next := ToTokenStream(cs[i], Some(nested), g);
            if next.Err? {
              assert EmitChildren(cs, [], g) == Err(next.error);
              return Err(next.error);
            }
            nested := next.value;
            i := i + 1;
          }
          assert cs[i..] == [];
          assert EmitChildren(cs, [], g) == Ok(nested);
          h := h + nested;
          if e != Fragment {
            h := h + [PushStr("</" + ElementName(e) + ">\n")];
          }
          assert h == start + nested + (if e != Fragment then [PushStr(CloseLiteral(e))] else []);
        }
        r := Ok(h);
      case Text(t) => r := Ok(h + [PushStr(t)]);
      case Var(v) => r := Ok(h + [PushVar(v)]);
      case Expr(x) => r := Ok(h + [PushExpr(x)]);
      case If(bs) =>
        ghost var h0 := h;
        var i := 0;
        while i < |bs|
          invariant 0 <= i <= |bs|
          invariant EmitBranches(bs, 0, h0, g) == EmitBranches(bs, i, h, g)
        {
          var body := ToTokenStream(bs[i].body, Some([]), g);
          assert body == EmitBody(bs[i], g);
          if body.Err? {
            return Err(body.error);
          }
          var p := Piece(i, |bs|, bs[i], body.value, g);
          if p.Err? {
            return Err(p.error);
          }
          h := h + [p.value];
          i := i + 1;
        }
        r := Ok(h);
        assert r == EmitBranches(bs, 0, h0, g);
      case For(v, it, body) =>
        var b := ToTokenStream(body, Some([]), g);
        if b.Err? {
          return Err(b.error);
        }
        if g.forKeepsCode {
          r := Ok(h + [ForCode(it, v, b.value)]);
        } else {
          r := Ok([ForCode(it, v, b.value)]);
          assert [] + [ForCode(it, v, b.value)] == [ForCode(it, v, b.value)];
        }
    }
  }

  /** `for (k, v) in attributes { attrs += … }`. */
  method WriteAttrs(attrs: seq<(string, string)>) returns (s: string)
    ensures s == AttrsLiteral(attrs)
  {
    s := "";
    var i := 0;
    while i < |attrs|
      invariant 0 <= i <= |attrs|
      invariant s == AttrsLiteral(attrs[..i])
    {
      assert attrs[..i + 1][..i] == attrs[..i];
      s := s + " " + attrs[i].0 + "=\"" + attrs[i].1 + "\"";
      i := i + 1;
    }
    assert attrs[..i] == attrs;
  }

  // ---- what each node contributes ----

  /** `r` with `acc` put in front. */
  function Then(acc: seq<Code>, r: Result<seq<Code>, string>): Result<seq<Code>, string> {
    match r
    case Err(m) => Err(m)
    case Ok(s) => Ok(acc + s)
  }

  /**
   * The statements a node contributes on its own, defined by structure rather
   * than through an accumulator: an element's opening literal, its children's
   * statements and its closing literal; one push for a text, variable or
   * expression; one statement per branch of an `If`; one loop for a `For`.
   */
  function Statements(n: Node, g: Generator): (r: Result<seq<Code>, string>)
    decreases n, 1
  {
    match n
    case Element(e, attrs, cs) =>
      var open := if e != Fragment then [PushStr(OpenLiteral(e, attrs))] else [];
      if IsVoid(e) then Ok(open)
      else Then(open, Then2(StatementsSeq(cs, g), if e != Fragment then [PushStr(CloseLiteral(e))] else []))
    case Text(t) => Ok([PushStr(t)])
    case Var(v) => Ok([PushVar(v)])
    case Expr(x) => Ok([PushExpr(x)])
    case If(bs) => Pieces(bs, 0, g)
    case For(v, it, body) =>
      (match Statements(body, g)
       case Err(m) => Err(m)
       case Ok(b) => Ok([ForCode(it, v, b)]))
  }

  /** `r` with `tail` put behind. */
  function Then2(r: Result<seq<Code>, string>, tail: seq<Code>): Result<seq<Code>, string> {
    match r
    case Err(m) => Err(m)
    case Ok(s) => Ok(s + tail)
  }

  function StatementsSeq(cs: seq<Node>, g: Generator): Result<seq<Code>, string>
    decreases cs, 0
  {
    if cs == [] then Ok([])
    else match Statements(cs[0], g)
      case Err(m) => Err(m)
      case Ok(s) => Then(s, StatementsSeq(cs[1..], g))
  }

  function Pieces(bs: seq<Branch>, i: nat, g: Generator): Result<seq<Code>, string>
    requires i <= |bs|
    decreases bs, |bs| - i
  {
    if i == |bs| then Ok([])
    else match BodyStatements(bs[i], g)
      case Err(m) => Err(m)
      case Ok(body) =>
        match Piece(i, |bs|, bs[i], body, g)
        case Err(m) => Err(m)
        case Ok(p) => Then([p], Pieces(bs, i + 1, g))
  }

  function BodyStatements(b: Branch, g: Generator): Result<seq<Code>, string>
    decreases b
  {
    Statements(b.body, g)
  }

  lemma ThenThen(a: seq<Code>, b: seq<Code>, r: Result<seq<Code>, string>)
    ensures Then(a, Then(b, r)) == Then(a + b, r)
  {
    if r.Ok? {
      assert a + (b + r.value) == a + b + r.value;
    }
  }

  /**
   * With `For` appending, generating into `acc` is `acc` followed by what the
   * node contributes: the accumulator is never lost.
   */
  lemma {:induction false} EmitAppends(n: Node, acc: seq<Code>, g: Generator)
    requires g.forKeepsCode
    ensures Emit(n, Some(acc), g) == Then(acc, Statements(n, g))
    decreases n, 1
  {
    match n
    case Element(e, attrs, cs) =>
      if !IsVoid(e) {
        ChildrenAppend(cs, [], g);
        var open := if e != Fragment then [PushStr(OpenLiteral(e, attrs))] else [];
        var close := if e != Fragment then [PushStr(CloseLiteral(e))] else [];
        var sc := StatementsSeq(cs, g);
        assert (if e != Fragment then acc + [PushStr(OpenLiteral(e, attrs))] else acc) == acc + open;
        if sc.Ok? {
          assert [] + sc.value == sc.value;
          assert acc + open + sc.value + close == acc + (open + (sc.value + close));
        }
      }
    case Text(_) =>
    case Var(_) =>
    case Expr(_) =>
    case If(bs) =>
      BranchesAppend(bs, 0, acc, g);
    case For(v, it, body) =>
      EmitAppends(body, [], g);
      var sb := Statements(body, g);
      if sb.Ok? {
        assert [] + sb.value == sb.value;
      }
  }

  lemma {:induction false} ChildrenAppend(cs: seq<Node>, acc: seq<Code>, g: Generator)
    requires g.forKeepsCode
    ensures EmitChildren(cs, acc, g) == Then(acc, StatementsSeq(cs, g))
    decreases cs, 0
  {
    if cs == [] {
      assert acc + [] == acc;
    } else {
      EmitAppends(cs[0], acc, g);
      var s := Statements(cs[0], g);
      if s.Ok? {
        ChildrenAppend(cs[1..], acc + s.value, g);
        ThenThen(acc, s.value, StatementsSeq(cs[1..], g));
      }
    }
  }

  lemma {:induction false} BranchesAppend(bs: seq<Branch>, i: nat, acc: seq<Code>, g: Generator)
    requires g.forKeepsCode && i <= |bs|
    ensures EmitBranches(bs, i, acc, g) == Then(acc, Pieces(bs, i, g))
    decreases bs, |bs| - i
  {
    if i == |bs| {
      assert acc + [] == acc;
    } else {
      BodyAppends(bs[i], g);
      var s := Statements(bs[i].body, g);
      if s.Ok? {
        assert [] + s.value == s.value;
        var p := Piece(i, |bs|, bs[i], s.value, g);
        if p.Ok? {
          BranchesAppend(bs, i + 1, acc + [p.value], g);
          ThenThen(acc, [p.value], Pieces(bs, i + 1, g));
        }
      }
    }
  }

  lemma BodyAppends(b: Branch, g: Generator)
    requires g.forKeepsCode
    ensures EmitBody(b, g) == Then([], BodyStatements(b, g))
    decreases b
  {
    EmitAppends(b.body, [], g);
  }

  /** Corrected: the generated code is the buffer's declaration followed by the tree's statements. */
  lemma GenerateFixed(n: Node)
    ensures Generate(n, Fixed) == Then([Declare], Statements(n, Fixed))
  {
    EmitAppends(n, [Declare], Fixed);
  }

  /**
   * Corrected: the statements of the branches are one per branch; the first
   * is `if` exactly when it has a condition, and a branch is `else` exactly
   * when it has none.
   */
  lemma {:induction false} PiecesShape(bs: seq<Branch>, i: nat)
    requires i <= |bs|
    ensures Pieces(bs, i, Fixed).Ok? ==> |Pieces(bs, i, Fixed).value| == |bs| - i
    ensures Pieces(bs, i, Fixed).Ok? ==> forall k :: i <= k < |bs| - 1 ==> bs[k].cond.Some?
    ensures Pieces(bs, i, Fixed).Ok? ==> forall k :: i <= k < |bs| ==>
      var p := Pieces(bs, i, Fixed).value[k - i];
      (p.ElseCode? <==> bs[k].cond.None?) && (p.IfCode? <==> k == 0 && bs[k].cond.Some?)
    decreases |bs| - i
  {
    if i < |bs| {
      PiecesShape(bs, i + 1);
    }
  }

  /** Corrected: in the statements of branches that generate, only the last can be `else`. */
  lemma ElseLast(bs: seq<Branch>)
    requires Pieces(bs, 0, Fixed).Ok?
    ensures forall k :: 0 <= k < |Pieces(bs, 0, Fixed).value| - 1 ==> !Pieces(bs, 0, Fixed).value[k].ElseCode?
  {
    PiecesShape(bs, 0);
    var ps := Pieces(bs, 0, Fixed).value;
    forall k | 0 <= k < |ps| - 1
      ensures !ps[k].ElseCode?
    {
      assert ps[k - 0].ElseCode? <==> bs[k].cond.None?;
    }
  }

  /** Whether every branch without a condition, in the whole tree, is the last of its `If`. */
  predicate ElseOnlyLast(n: Node)
    decreases n, 1
  {
    match n
    case Element(e, _, cs) => IsVoid(e) || forall i :: 0 <= i < |cs| ==> ElseOnlyLast(cs[i])
    case If(bs) => BranchesOnlyLast(bs, 0)
    case For(_, _, body) => ElseOnlyLast(body)
    case _ => true
  }

  predicate BranchesOnlyLast(bs: seq<Branch>, i: nat)
    decreases bs, 0
  {
    && (forall k :: i <= k < |bs| - 1 ==> bs[k].cond.Some?)
    && forall k :: i <= k < |bs| ==> BodyOnlyLast(bs[k])
  }

  predicate BodyOnlyLast(b: Branch)
    decreases b
  {
    ElseOnlyLast(b.body)
  }

  /** Corrected: generation succeeds exactly when no branch without a condition precedes another branch. */
  lemma {:induction false} StatementsOk(n: Node)
    ensures Statements(n, Fixed).Ok? <==> ElseOnlyLast(n)
    decreases n, 1
  {
    match n
    case Element(e, _, cs) =>
      SeqOk(cs);
    case If(bs) => PiecesOk(bs, 0);
    case For(_, _, body) => StatementsOk(body);
    case Text(_) =>
    case Var(_) =>
    case Expr(_) =>
  }

  lemma BodyOk(b: Branch)
    ensures BodyStatements(b, Fixed).Ok? <==> BodyOnlyLast(b)
    decreases b
  {
    StatementsOk(b.body);
  }

  lemma {:induction false} SeqOk(cs: seq<Node>)
    ensures StatementsSeq(cs, Fixed).Ok? <==> forall i :: 0 <= i < |cs| ==> ElseOnlyLast(cs[i])
    decreases cs, 0
  {
    if cs != [] {
      StatementsOk(cs[0]);
      SeqOk(cs[1..]);
      assert forall i :: 1 <= i < |cs| ==> cs[i] == cs[1..][i - 1];
    }
  }

  lemma {:induction false} PiecesOk(bs: seq<Branch>, i: nat)
    requires i <= |bs|
    ensures Pieces(bs, i, Fixed).Ok? <==> BranchesOnlyLast(bs, i)
    decreases bs, |bs| - i
  {
    if i < |bs| {
      BodyOk(bs[i]);
      PiecesOk(bs, i + 1);
    }
  }

  // ---- facts about the generator as written ----

  /** A void element writes its opening literal and nothing for its children. */
  lemma VoidIgnoresChildren(e: Element, attrs: seq<(string, string)>, cs: seq<Node>, html: Option<seq<Code>>, g: Generator)
    requires IsVoid(e)
    ensures Emit(Element(e, attrs, cs), html, g) == Ok(Start(html) + [PushStr(OpenLiteral(e, attrs))])
  {
  }

  /** Emitting anything but a `For` leaves the code it was given in front. */
  lemma KeepsStart(n: Node, html: Option<seq<Code>>, g: Generator)
    requires !n.For?
    ensures Emit(n, html, g).Ok? ==> Start(html) <= Emit(n, html, g).value
  {
    if n.If? {
      BranchesKeep(n.branches, 0, Start(html), g);
    }
  }

  lemma {:induction false} BranchesKeep(bs: seq<Branch>, i: nat, html: seq<Code>, g: Generator)
    requires i <= |bs|
    ensures EmitBranches(bs, i, html, g).Ok? ==> html <= EmitBranches(bs, i, html, g).value
    decreases |bs| - i
  {
    if i < |bs| {
      var body := EmitBody(bs[i], g);
      if body.Ok? {
        var p := Piece(i, |bs|, bs[i], body.value, g);
        if p.Ok? {
          BranchesKeep(bs, i + 1, html + [p.value], g);
        }
      }
    }
  }

  /** `<>` holding a text and then a loop. */
  function TextThenLoop(): Node {
    Element(Fragment, [], [Text("a"), For("items", "item", Text("b"))])
  }

  lemma TextCode(t: string, g: Generator)
    ensures Emit(Text(t), Some([]), g) == Ok([PushStr(t)])
  {
    assert [] + [PushStr(t)] == [PushStr(t)];
  }

  /** As written, the loop discards the code of the siblings before it: the text is lost. */
  lemma ForDropsCode()
    ensures Generate(TextThenLoop(), AsWritten) == Ok([Declare, ForCode("item", "items", [PushStr("b")])])
  {
    var cs := TextThenLoop().children;
    TextCode("a", AsWritten);
    TextCode("b", AsWritten);
    var loop := [ForCode("item", "items", [PushStr("b")])];
    assert [] + loop == loop;
    assert Emit(cs[1], Some([PushStr("a")]), AsWritten) == Ok(loop);
    assert cs[1..][1..] == [];
    assert EmitChildren(cs, [], AsWritten) == Ok(loop);
    assert [Declare] + loop + [] == [Declare, ForCode("item", "items", [PushStr("b")])];
  }

  /** Corrected, the text and the loop are both there, in order. */
  lemma ForKeepsCode()
    ensures Generate(TextThenLoop(), Fixed) == Ok([Declare, PushStr("a"), ForCode("item", "items", [PushStr("b")])])
  {
    var cs := TextThenLoop().children;
    TextCode("a", Fixed);
    TextCode("b", Fixed);
    var both := [PushStr("a"), ForCode("item", "items", [PushStr("b")])];
    assert [PushStr("a")] + [ForCode("item", "items", [PushStr("b")])] == both;
    assert Emit(cs[1], Some([PushStr("a")]), Fixed) == Ok(both);
    assert cs[1..][1..] == [];
    assert EmitChildren(cs, [], Fixed) == Ok(both);
    assert [Declare] + both + [] == [Declare, PushStr("a"), ForCode("item", "items", [PushStr("b")])];
  }

  /** `if x {a} else {b} else if y {c}` as branches: the branch without a condition in the middle. */
  function ElseInMiddle(): Node {
    If([Branch(Some("x"), Text("a")), Branch(None, Text("b")), Branch(Some("y"), Text("c"))])
  }

  /** As written, the middle branch writes `else` and an `else if` follows it. */
  lemma ElseAnywhere()
    ensures Generate(ElseInMiddle(), AsWritten) == Ok([Declare,
      IfCode("x", [PushStr("a")]), ElseCode([PushStr("b")]), ElseIfCode("y", [PushStr("c")])])
  {
    var bs := ElseInMiddle().branches;
    TextCode("a", AsWritten);
    TextCode("b", AsWritten);
    TextCode("c", AsWritten);
    assert EmitBody(bs[0], AsWritten) == Ok([PushStr("a")]);
    assert EmitBody(bs[1], AsWritten) == Ok([PushStr("b")]);
    assert EmitBody(bs[2], AsWritten) == Ok([PushStr("c")]);
    var i0 := IfCode("x", [PushStr("a")]);
    var e1 := ElseCode([PushStr("b")]);
    var f2 := ElseIfCode("y", [PushStr("c")]);
    assert Piece(0, 3, bs[0], [PushStr("a")], AsWritten) == Ok(i0);
    assert Piece(1, 3, bs[1], [PushStr("b")], AsWritten) == Ok(e1);
    assert Piece(2, 3, bs[2], [PushStr("c")], AsWritten) == Ok(f2);
    assert [Declare] + [i0] == [Declare, i0];
    assert [Declare, i0] + [e1] == [Declare, i0, e1];
    assert [Declare, i0, e1] + [f2] == [Declare, i0, e1, f2];
    assert EmitBranches(bs, 3, [Declare, i0, e1, f2], AsWritten) == Ok([Declare, i0, e1, f2]);
    assert EmitBranches(bs, 2, [Declare, i0, e1], AsWritten) == Ok([Declare, i0, e1, f2]);
    assert EmitBranches(bs, 1, [Declare, i0], AsWritten) == Ok([Declare, i0, e1, f2]);
    assert EmitBranches(bs, 0, [Declare], AsWritten) == Ok([Declare, i0, e1, f2]);
  }

  /** Corrected, the same branches are refused. */
  lemma ElseInMiddleRefused()
    ensures Generate(ElseInMiddle(), Fixed) == Err(InvalidCondition)
  {
    var bs := ElseInMiddle().branches;
    TextCode("a", Fixed);
    TextCode("b", Fixed);
    assert EmitBody(bs[0], Fixed) == Ok([PushStr("a")]);
    assert EmitBody(bs[1], Fixed) == Ok([PushStr("b")]);
  }
}
