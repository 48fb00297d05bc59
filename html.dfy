/**
 * `Html` of `html.rs`: the recursive parser with `{{ expr }}` attribute
 * values, `for var in iter`, and a body scan that consumes the closing tag of
 * an empty body. `ParseAsWritten` is the parser as the file has it, whose body
 * scan records every opening tag; `Parse` records only the element's own name.
 */
module Html {
  import opened Wrappers
  import opened Tokens
  import opened Elements
  import opened Template
  import opened Scan
  import opened BodyScan
  import Recursive
  import RecursivePrint

  const AsWritten := Recursive.Config(HtmlAttrs, false, EveryTag, SkipsClose)
  const Fixed := Recursive.Config(HtmlAttrs, false, SameName, SkipsClose)

  function ParseAsWritten(ts: seq<Token>): (r: Result<Node, Error>)
    ensures r.Ok? ==> r.value.value == Tag(Fragment, [])
  {
    Recursive.Parse(ts, AsWritten)
  }

  function Parse(ts: seq<Token>): (r: Result<Node, Error>)
    ensures r.Ok? ==> r.value.value == Tag(Fragment, [])
  {
    Recursive.Parse(ts, Fixed)
  }

  // ---- token shorthands ----

  function OpenTag(name: string): seq<Token> {
    [Punct('<'), Ident(name), Punct('>')]
  }

  function CloseTag(name: string): seq<Token> {
    [Punct('<'), Punct('/'), Ident(name), Punct('>')]
  }

  function TextTree(s: string): Token {
    Group(Brace, [Str(s)])
  }

  function Leaf(lex: Lex): Node {
    Node([], lex)
  }

  function Tagged(name: string, children: seq<Node>): Node {
    Node(children, Tag(Named(name), []))
  }

  /** `{ "Hello" } {{ name }}`: a text node and a variable node, in order. */
  lemma TextAndVariable()
    ensures ParseAsWritten([TextTree("Hello"), Group(Brace, [Group(Brace, [Ident("name")])])])
      == Ok(Node([Leaf(Text("Hello")), Leaf(Var("name"))], Tag(Fragment, [])))
  {
    var t, v := TextTree("Hello"), Group(Brace, [Group(Brace, [Ident("name")])]);
    var ts := [t, v];
    assert ConcatText([Ident("name")]) == "name";
    assert Recursive.Item(ts, AsWritten) == Ok(Parsed(Leaf(Text("Hello")), 1));
    Recursive.IntoStep(ts, Root, AsWritten, Parsed(Leaf(Text("Hello")), 1));
    assert ts[1..] == [v];
    assert Recursive.Item([v], AsWritten) == Ok(Parsed(Leaf(Var("name")), 1));
    Recursive.IntoStep([v], AppendChild(Root, Leaf(Text("Hello"))), AsWritten, Parsed(Leaf(Var("name")), 1));
    assert [v][1..] == [];
    assert AppendChild(AppendChild(Root, Leaf(Text("Hello"))), Leaf(Var("name"))).children == [Leaf(Text("Hello")), Leaf(Var("name"))];
  }

  /** A token that starts no construct is refused. */
  lemma InvalidToken(rest: seq<Token>)
    ensures ParseAsWritten([Punct('?')] + rest) == Err(Message("The token is invalid"))
    ensures Parse([Punct('?')] + rest) == Err(Message("The token is invalid"))
  {
    var ts := [Punct('?')] + rest;
    assert ts[0] == Punct('?');
    assert Recursive.Item(ts, AsWritten) == Err(Message("The token is invalid"));
    assert Recursive.Item(ts, Fixed) == Err(Message("The token is invalid"));
  }

  /** `<` not followed by an identifier is refused. */
  lemma AngleWithoutName(rest: seq<Token>)
    ensures ParseAsWritten([Punct('<'), Punct('>')] + rest) == Err(Message("The syntax is invalid"))
  {
    var ts := [Punct('<'), Punct('>')] + rest;
    assert ts[0] == Punct('<') && ts[1] == Punct('>');
    assert Recursive.Item(ts, AsWritten) == Err(Message("The syntax is invalid"));
  }

  /** `if cond { }` at the head of the input, whatever follows. */
  lemma IfItem(cond: string, rest: seq<Token>)
    ensures Recursive.Item([Ident("if"), Ident(cond), Group(Brace, [])] + rest, AsWritten) == Ok(Parsed(Leaf(If(cond)), 3))
  {
    var ts := [Ident("if"), Ident(cond), Group(Brace, [])] + rest;
    assert ts[1..][1..][0] == Group(Brace, []);
    assert FirstBrace(ts[1..][1..]) == Some(0);
    assert FirstBrace(ts[1..]) == Some(1);
    assert ts[1..][..1] == [Ident(cond)];
    assert StreamText([Ident(cond)]) == cond;
    assert Recursive.ParseInto([], Leaf(If(cond)), AsWritten) == Ok(Leaf(If(cond)));
    assert Recursive.Block(ts, 2, If(cond), AsWritten) == Ok(Parsed(Leaf(If(cond)), 3));
  }

  /** `else if cond { }` at the head of the input. */
  lemma ElseIfItem(cond: string, rest: seq<Token>)
    ensures Recursive.Item([Ident("else"), Ident("if"), Ident(cond), Group(Brace, [])] + rest, AsWritten) == Ok(Parsed(Leaf(ElseIf(cond)), 4))
  {
    var ts := [Ident("else"), Ident("if"), Ident(cond), Group(Brace, [])] + rest;
    assert ts[2..][1..][0] == Group(Brace, []);
    assert FirstBrace(ts[2..][1..]) == Some(0);
    assert FirstBrace(ts[2..]) == Some(1);
    assert ts[2..][..1] == [Ident(cond)];
    assert StreamText([Ident(cond)]) == cond;
    assert Recursive.ParseInto([], Leaf(ElseIf(cond)), AsWritten) == Ok(Leaf(ElseIf(cond)));
    assert Recursive.Block(ts, 3, ElseIf(cond), AsWritten) == Ok(Parsed(Leaf(ElseIf(cond)), 4));
  }

  /** `else { }` at the head of the input. */
  lemma ElseItem(rest: seq<Token>)
    requires rest == [] || rest[0] != Ident("if")
    ensures Recursive.Item([Ident("else"), Group(Brace, [])] + rest, AsWritten) == Ok(Parsed(Leaf(Else), 2))
  {
    var ts := [Ident("else"), Group(Brace, [])] + rest;
    assert ts[0] == Ident("else") && ts[1] == Group(Brace, []);
    assert Recursive.ParseInto([], Leaf(Else), AsWritten) == Ok(Leaf(Else));
    assert Recursive.Block(ts, 1, Else, AsWritten) == Ok(Parsed(Leaf(Else), 2));
  }

  /** `if a { } else if b { } else { }`: three sibling nodes, in order. */
  lemma IfChain()
    ensures ParseAsWritten([Ident("if"), Ident("a"), Group(Brace, [])]
        + [Ident("else"), Ident("if"), Ident("b"), Group(Brace, [])]
        + [Ident("else"), Group(Brace, [])])
      == Ok(Node([Leaf(If("a")), Leaf(ElseIf("b")), Leaf(Else)], Tag(Fragment, [])))
  {
    var e := [Ident("else"), Group(Brace, [])];
    var ei := [Ident("else"), Ident("if"), Ident("b"), Group(Brace, [])];
    var i := [Ident("if"), Ident("a"), Group(Brace, [])];
    var ts := i + ei + e;
    IfItem("a", ei + e);
    assert ts == i + (ei + e);
    Recursive.IntoStep(ts, Root, AsWritten, Parsed(Leaf(If("a")), 3));
    assert ts[3..] == ei + e;
    var h1 := AppendChild(Root, Leaf(If("a")));
    ElseIfItem("b", e);
    Recursive.IntoStep(ei + e, h1, AsWritten, Parsed(Leaf(ElseIf("b")), 4));
    assert (ei + e)[4..] == e;
    var h2 := AppendChild(h1, Leaf(ElseIf("b")));
    ElseItem([]);
    assert e + [] == e;
    Recursive.IntoStep(e, h2, AsWritten, Parsed(Leaf(Else), 2));
    assert e[2..] == [];
    assert AppendChild(h2, Leaf(Else)).children == [Leaf(If("a")), Leaf(ElseIf("b")), Leaf(Else)];
  }

  /** `for x in items { }` binds `x` and iterates `items`. */
  lemma ForLoop()
    ensures ParseAsWritten([Ident("for"), Ident("x"), Ident("in"), Ident("items"), Group(Brace, [])])
      == Ok(Node([Leaf(For("x", "items"))], Tag(Fragment, [])))
  {
    var ts := [Ident("for"), Ident("x"), Ident("in"), Ident("items"), Group(Brace, [])];
    PlainName("x");
    PlainName("items");
    assert Recursive.Item(ts, AsWritten) == Ok(Parsed(Leaf(For("x", "items")), 5));
    Recursive.IntoStep(ts, Root, AsWritten, Parsed(Leaf(For("x", "items")), 5));
    assert ts[5..] == [];
  }

  /** The iterable of `for` must be one identifier: `for x in 1 { }` is refused. */
  lemma ForNeedsIdentifier()
    ensures ParseAsWritten([Ident("for"), Ident("x"), Ident("in"), Num("1"), Group(Brace, [])])
      == Err(Message("expected identifier"))
  {
    PlainName("x");
  }

  /** A keyword as the binding or the iterable of `for` is refused with syn's message naming it. */
  lemma ForKeyword(k: string, rest: seq<Token>)
    requires k in Keywords
    ensures ParseAsWritten([Ident("for"), Ident(k)] + rest)
      == Err(Message("expected identifier, found keyword `" + k + "`"))
    ensures ParseAsWritten([Ident("for"), Ident("x"), Ident("in"), Ident(k)] + rest)
      == Err(Message("expected identifier, found keyword `" + k + "`"))
  {
    var m := Message("expected identifier, found keyword `" + k + "`");
    var ts := [Ident("for"), Ident(k)] + rest;
    assert ts[1] == Ident(k) && !IsPlainIdent(ts[1]);
    assert IdentError(ts, 1) == m.text;
    assert Recursive.Item(ts, AsWritten) == Err(m);
    PlainName("x");
    var us := [Ident("for"), Ident("x"), Ident("in"), Ident(k)] + rest;
    assert us[3] == Ident(k) && !IsPlainIdent(us[3]);
    assert IdentError(us, 3) == m.text;
    assert Recursive.Item(us, AsWritten) == Err(m);
  }

  // ---- the body scan on nested elements of one name ----
  // These lemmas hold for every configuration whose scan records every
  // opening tag, which `html2.rs` shares.

  /** `<div><br></div></div>`: what follows the outer `<div>` of the counterexample. */
  function NestedBody(): seq<Token> {
    OpenTag("div") + OpenTag("br") + CloseTag("div") + CloseTag("div")
  }

  /** The counterexample's input: two `div`s, one inside the other, around a `br`. */
  function NestedDivs(): seq<Token> {
    OpenTag("div") + NestedBody()
  }

  /** The tree `NestedDivs` is written for. */
  function NestedTree(): Node {
    Tagged("div", [Tagged("div", [Tagged("br", [])])])
  }

  /**
   * Recording every tag, the scan pushes `br` over the inner `div` and so
   * takes the inner `</div>` for the outer element's closing tag.
   */
  lemma FindNestedBody()
    ensures Find(NestedBody(), "div", [], EveryTag) == Some(6)
  {
    var r := NestedBody();
    assert r[6..][0] == Punct('<') && r[6..][1] == Punct('/') && r[6..][2] == Ident("div") && r[6..][3] == Punct('>');
    assert Look(r[6..], "div", ["div", "br"], EveryTag) == Stop;
    FindStop(r[6..], "div", ["div", "br"], EveryTag);
    assert Look(r[5..], "div", ["div", "br"], EveryTag) == Skip(1, ["div", "br"]);
    FindStep(r[5..], "div", ["div", "br"], EveryTag, 1, ["div", "br"]);
    assert r[5..][1..] == r[6..];
    assert Look(r[3..], "div", ["div"], EveryTag) == Skip(2, ["div", "br"]);
    FindStep(r[3..], "div", ["div"], EveryTag, 2, ["div", "br"]);
    assert r[3..][2..] == r[5..];
    assert Look(r[2..], "div", ["div"], EveryTag) == Skip(1, ["div"]);
    FindStep(r[2..], "div", ["div"], EveryTag, 1, ["div"]);
    assert r[2..][1..] == r[3..];
    assert Look(r, "div", [], EveryTag) == Skip(2, ["div"]);
    FindStep(r, "div", [], EveryTag, 2, ["div"]);
  }

  lemma NestedBodyEveryTag(empty: EmptyBody)
    ensures NextInput(NestedBody(), "div", EveryTag, empty) == Parsed(Some(OpenTag("div") + OpenTag("br")), 10)
  {
    var r := NestedBody();
    FindNestedBody();
    NextInputFound(r, "div", EveryTag, empty, 6);
    assert r[..6] == OpenTag("div") + OpenTag("br");
  }

  /** `<br>` alone, from inside a `div`: the scan runs to the end and keeps it all. */
  lemma BrScan(empty: EmptyBody)
    ensures NextInput(OpenTag("br"), "div", EveryTag, empty) == Parsed(Some(OpenTag("br")), 3)
  {
    var br := OpenTag("br");
    assert Look(br, "div", [], EveryTag) == Skip(2, ["br"]);
    FindStep(br, "div", [], EveryTag, 2, ["br"]);
    assert Look(br[2..], "div", ["br"], EveryTag) == Skip(1, ["br"]);
    FindStep(br[2..], "div", ["br"], EveryTag, 1, ["br"]);
    assert br[2..][1..] == [];
    NextInputEnd(br, "div", EveryTag, empty);
  }

  /** `<br>` with nothing after it is one empty `br` element. */
  lemma BrItem(c: Recursive.Config)
    ensures Recursive.Item(OpenTag("br"), c) == Ok(Parsed(Tagged("br", []), 3))
  {
    PlainName("br");
    Recursive.ItemBareTag(OpenTag("br"), c);
    assert OpenTag("br")[3..] == [];
  }

  lemma BrInto(html: Node, c: Recursive.Config)
    ensures Recursive.ParseInto(OpenTag("br"), html, c) == Ok(AppendChild(html, Tagged("br", [])))
  {
    BrItem(c);
    Recursive.IntoStep(OpenTag("br"), html, c, Parsed(Tagged("br", []), 3));
    assert OpenTag("br")[3..] == [];
  }

  /** `<div><br>`: the `div` takes the `br` as its body. */
  lemma InnerItem(c: Recursive.Config)
    requires c.nesting == EveryTag
    ensures Recursive.Item(OpenTag("div") + OpenTag("br"), c) == Ok(Parsed(Tagged("div", [Tagged("br", [])]), 6))
  {
    var ts := OpenTag("div") + OpenTag("br");
    PlainName("div");
    Recursive.ItemBareTag(ts, c);
    assert ts[3..] == OpenTag("br");
    BrScan(c.empty);
    BrInto(Tagged("div", []), c);
    assert !IsVoid(Named("div"));
    Recursive.ChildrenBody(ts, 3, Tag(Named("div"), []), c, OpenTag("br"), 3, Tagged("div", [Tagged("br", [])]));
  }

  /** The inner `<div><br>` the scan hands over parses as a `div` holding a `br`. */
  lemma InnerDiv(c: Recursive.Config)
    requires c.nesting == EveryTag
    ensures Recursive.ParseInto(OpenTag("div") + OpenTag("br"), Tagged("div", []), c) == Ok(NestedTree())
  {
    var ts := OpenTag("div") + OpenTag("br");
    InnerItem(c);
    Recursive.IntoStep(ts, Tagged("div", []), c, Parsed(Tagged("div", [Tagged("br", [])]), 6));
    assert ts[6..] == [];
  }

  /** `NestedDivs` as one item: the outer `div` ends at the inner `</div>`. */
  lemma OuterItem(c: Recursive.Config)
    requires c.nesting == EveryTag
    ensures Recursive.Item(NestedDivs(), c) == Ok(Parsed(NestedTree(), 13))
  {
    var ts := NestedDivs();
    PlainName("div");
    Recursive.ItemBareTag(ts, c);
    assert ts[3..] == NestedBody();
    NestedBodyEveryTag(c.empty);
    InnerDiv(c);
    assert !IsVoid(Named("div"));
    Recursive.ChildrenBody(ts, 3, Tag(Named("div"), []), c, OpenTag("div") + OpenTag("br"), 10, NestedTree());
  }

  /**
   * `<div><div><br></div></div>` does not parse when the scan records every
   * tag: the outer body ends at the inner `</div>`, and the outer `</div>` is
   * left over.
   */
  lemma NestedDivsEveryTag(c: Recursive.Config)
    requires c.nesting == EveryTag
    ensures Recursive.Parse(NestedDivs(), c) == Err(Message("The syntax is invalid"))
  {
    var ts := NestedDivs();
    OuterItem(c);
    Recursive.IntoStep(ts, Root, c, Parsed(NestedTree(), 13));
    assert ts[13..] == CloseTag("div");
  }

  /** As written, `html.rs` refuses the nested `div`s. */
  lemma NestedDivsAsWritten()
    ensures ParseAsWritten(NestedDivs()) == Err(Message("The syntax is invalid"))
  {
    NestedDivsEveryTag(AsWritten);
  }

  // ---- the corrected scan ----

  /** The printer writes the tags of a bare element as `OpenTag` and `CloseTag`. */
  lemma BareTokens(name: string)
    ensures RecursivePrint.OpenTokens(Named(name), []) == OpenTag(name)
    ensures RecursivePrint.CloseTokens(Named(name)) == CloseTag(name)
  {
    assert PrintAttrs([]) == [];
  }

  lemma PrintOne(n: Node, c: Recursive.Config)
    ensures RecursivePrint.PrintSeq([n], c) == RecursivePrint.Print(n, c)
  {
    assert [n][1..] == [];
  }

  /** The counterexample's tree, printed, is the counterexample's input. */
  lemma NestedDivsPrinted(c: Recursive.Config)
    ensures RecursivePrint.PrintSeq([NestedTree()], c) == NestedDivs()
  {
    var br := Tagged("br", []);
    var inner := Tagged("div", [br]);
    var outer := NestedTree();
    BareTokens("br");
    BareTokens("div");
    assert IsVoid(Named("br")) && !IsVoid(Named("div"));
    assert RecursivePrint.Print(br, c) == OpenTag("br");
    PrintOne(br, c);
    assert RecursivePrint.Print(inner, c) == OpenTag("div") + OpenTag("br") + CloseTag("div");
    PrintOne(inner, c);
    PrintOne(outer, c);
    assert RecursivePrint.Print(outer, c) == OpenTag("div") + (OpenTag("div") + OpenTag("br") + CloseTag("div")) + CloseTag("div");
  }

  lemma NestedDivsWellFormed(c: Recursive.Config)
    ensures RecursivePrint.WellFormedSeq([NestedTree()], c)
  {
    PlainName("div");
    PlainName("br");
    var br := Tagged("br", []);
    var inner := Tagged("div", [br]);
    assert RecursivePrint.WellFormed(br, c);
    assert RecursivePrint.WellFormed(inner, c);
    assert RecursivePrint.WellFormed(NestedTree(), c);
  }

  /** With a scan that round-trips, the same input parses to the nested tree. */
  lemma NestedDivsRoundTrip(c: Recursive.Config)
    requires RecursivePrint.RoundTrips(c)
    ensures Recursive.Parse(NestedDivs(), c) == Ok(Node([NestedTree()], Tag(Fragment, [])))
  {
    NestedDivsPrinted(c);
    NestedDivsWellFormed(c);
    RecursivePrint.ParsePrinted([NestedTree()], c);
  }

  /** With the scan recording only `div`, `html.rs` accepts the nested `div`s. */
  lemma NestedDivsFixed()
    ensures Parse(NestedDivs()) == Ok(Node([NestedTree()], Tag(Fragment, [])))
  {
    NestedDivsRoundTrip(Fixed);
  }

  /** Parsing what the printer writes gives the trees back. */
  lemma RoundTrip(cs: seq<Node>)
    requires RecursivePrint.WellFormedSeq(cs, Fixed)
    ensures Parse(RecursivePrint.PrintSeq(cs, Fixed)) == Ok(Node(cs, Tag(Fragment, [])))
  {
    RecursivePrint.ParsePrinted(cs, Fixed);
  }

  /** A void element in a parsed tree never has children. */
  lemma VoidLeavesAsWritten(ts: seq<Token>)
    requires ParseAsWritten(ts).Ok?
    ensures VoidLeaves(ParseAsWritten(ts).value)
  {
    Recursive.ParseBuilt(ts, AsWritten);
  }
}
