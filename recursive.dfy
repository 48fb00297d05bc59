/**
 * The recursive template parsers `Html::parse_html` (`html.rs`) and
 * `parse_html2` (`html2.rs`). The two files are copies of one another except
 * for the attribute syntax, the order of the two identifiers of `for … in …`
 * and what `get_next_input` does with an empty body, so one `Config` selects
 * between them. Each call parses one construct at the head of the input,
 * appends its node to the node being built, and recurses on what is left.
 */
module Recursive {
  import opened Wrappers
  import opened Tokens
  import opened Elements
  import opened Template
  import opened Scan
  import opened BodyScan

  /**
   * `syntax` is the attribute syntax, `iterFirst` stores the first identifier
   * of `for a in b` as the iterable, and `nesting` and `empty` choose the
   * body scan.
   */
  datatype Config = Config(syntax: AttrSyntax, iterFirst: bool, nesting: Nesting, empty: EmptyBody)

  /** `Parse for Html`: the nodes of the input under a `Fragment` root. */
  function Parse(ts: seq<Token>, c: Config): (r: Result<Node, Error>)
    ensures r.Ok? ==> r.value.value == Tag(Fragment, [])
  {
    ParseInto(ts, Root, c)
  }

  /** `parse_html(input, html)`: every construct of `ts`, in order, appended to `html`. */
  function ParseInto(ts: seq<Token>, html: Node, c: Config): (r: Result<Node, Error>)
    ensures r.Ok? ==> r.value.value == html.value
    ensures r.Ok? ==> |html.children| <= |r.value.children| && r.value.children[..|html.children|] == html.children
    decreases SeqSize(ts), 4
  {
    if ts == [] then Ok(html)
    else match Item(ts, c)
      case Err(e) => Err(e)
      case Ok(p) =>
        SeqSizeDrop(ts, p.n);
        var r := ParseInto(ts[p.n..], AppendChild(html, p.value), c);
        if r.Ok? then
          assert r.value.children[..|html.children|] == r.value.children[..|html.children| + 1][..|html.children|];
          r
        else r
  }

  /** One construct at the head of the input: its node and how many trees it takes. */
  function Item(ts: seq<Token>, c: Config): (r: Result<Parsed<Node>, Error>)
    requires ts != []
    ensures r.Ok? ==> 0 < r.value.n <= |ts|
    decreases SeqSize(ts), 3
  {
    if ts[0] == Punct('<') then
      if |ts| >= 2 && IsPlainIdent(ts[1]) then Element(ts, c) else Err(Message("The syntax is invalid"))
    else if IsBrace(ts[0]) then
      match Braced(ts[0].inner)
      case Err(e) => Err(e)
      case Ok(n) => Ok(Parsed(n, 1))
    else if ts[0] == Ident("if") then
      match UntilBrace(ts[1..], "Condition shuold be here.")
      case Err(e) => Err(e)
      case Ok(cond) => Block(ts, 1 + cond.n, If(StreamText(cond.value)), c)
    else if ts[0] == Ident("else") then
      if |ts| >= 2 && ts[1] == Ident("if") then
        match UntilBrace(ts[2..], "Condition shuold be here.")
        case Err(e) => Err(e)
        case Ok(cond) => Block(ts, 2 + cond.n, ElseIf(StreamText(cond.value)), c)
      else Block(ts, 1, Else, c)
    else if ts[0] == Ident("for") then
      if |ts| < 2 || !IsPlainIdent(ts[1]) then Err(Message(IdentError(ts, 1)))
      else if |ts| < 3 || ts[2] != Ident("in") then Err(Message("expected `in`"))
      else if |ts| < 4 || !IsPlainIdent(ts[3]) then Err(Message(IdentError(ts, 3)))
      else Block(ts, 4, ForOf(ts[1].name, ts[3].name, c), c)
    else Err(Message("The token is invalid"))
  }

  /** The `For` value of `for first in second`. */
  function ForOf(first: string, second: string, c: Config): (r: Lex)
    ensures r.For? && (if c.iterFirst then r.iter == first && r.binding == second else r.binding == first && r.iter == second)
  {
    if c.iterFirst then For(second, first) else For(first, second)
  }

  /**
   * `{ "text" }` gives a `Text` node and `{ { tokens } }` a `Var` node holding
   * the tokens' text run together; a buffer left with tokens is an error.
   */
  function Braced(content: seq<Token>): (r: Result<Node, Error>)
    ensures r.Ok? ==> |content| == 1 && r.value.children == []
    ensures r.Ok? && content[0].Str? ==> r.value.value == Text(content[0].value)
    ensures r.Ok? && !content[0].Str? ==> IsBrace(content[0]) && r.value.value == Var(ConcatText(content[0].inner))
  {
    var child :=
      if |content| > 0 && content[0].Str? then Ok(Node([], Text(content[0].value)))
      else if |content| > 0 && IsBrace(content[0]) then Ok(Node([], Var(ConcatText(content[0].inner))))
      else Err(Message("expected curly braces"));
    match child
    case Err(e) => Err(e)
    case Ok(n) => if |content| > 1 then Err(Message("unexpected token")) else Ok(n)
  }

  /**
   * The brace group at `at`, parsed into a new `lex` node: what `if`,
   * `else if`, `else` and `for` have after their header.
   */
  function Block(ts: seq<Token>, at: nat, lex: Lex, c: Config): (r: Result<Parsed<Node>, Error>)
    requires 0 < at <= |ts|
    ensures r.Ok? ==> r.value.n == at + 1 <= |ts| && r.value.value.value == lex
    decreases SeqSize(ts), 0
  {
    if at == |ts| || !IsBrace(ts[at]) then Err(Message("expected curly braces"))
    else
      SeqSizeInner(ts, at);
      match ParseInto(ts[at].inner, Node([], lex), c)
      case Err(e) => Err(e)
      case Ok(n) => Ok(Parsed(n, at + 1))
  }

  /**
   * `<name attrs>` or `<name attrs />`, and then the element's children.
   */
  function Element(ts: seq<Token>, c: Config): (r: Result<Parsed<Node>, Error>)
    requires |ts| >= 2 && IsPlainIdent(ts[1])
    ensures r.Ok? ==> 0 < r.value.n <= |ts| && r.value.value.value.Tag? && r.value.value.value.element == Named(ts[1].name)
    ensures r.Ok? && IsVoid(Named(ts[1].name)) ==> r.value.value.children == []
    decreases SeqSize(ts), 2
  {
    match ParseAttributes(ts[2..], c.syntax)
    case Err(e) => Err(e)
    case Ok(attrs) => TagEnd(ts, 2 + attrs.n, Tag(Named(ts[1].name), attrs.value), c)
  }

  /** After the attributes, which end at `p`: an optional `/`, then `>`, then the children. */
  function TagEnd(ts: seq<Token>, p: nat, tag: Lex, c: Config): (r: Result<Parsed<Node>, Error>)
    requires 2 <= p <= |ts| && tag.Tag? && tag.element.Named?
    ensures r.Ok? ==> 0 < r.value.n <= |ts| && r.value.value.value == tag
    ensures r.Ok? && IsVoid(tag.element) ==> r.value.value.children == []
    decreases SeqSize(ts), 1
  {
    var q := if p < |ts| && ts[p] == Punct('/') then p + 1 else p;
    if q < |ts| && ts[q] == Punct('>') then Children(ts, q + 1, tag, c)
    else Err(Message("expected `>`"))
  }

  /**
   * The element opened by the tag ending before `at`: a void element is a
   * leaf; any other element takes the body `get_next_input` finds as its
   * children, and the cursor moves past what the scan consumed.
   */
  function Children(ts: seq<Token>, at: nat, tag: Lex, c: Config): (r: Result<Parsed<Node>, Error>)
    requires 3 <= at <= |ts| && tag.Tag? && tag.element.Named?
    ensures r.Ok? ==> at <= r.value.n <= |ts| && r.value.value.value == tag
    ensures r.Ok? && IsVoid(tag.element) ==> r.value.value.children == [] && r.value.n == at
    decreases SeqSize(ts), 0
  {
    if IsVoid(tag.element) then Ok(Parsed(Node([], tag), at))
    else
      var next := NextInput(ts[at..], tag.element.name, c.nesting, c.empty);
      match next.value
      case None => Ok(Parsed(Node([], tag), at + next.n))
      case Some(body) =>
        SeqSizeDrop(ts, at);
        SeqSizeTake(ts[at..], |body|);
        match ParseInto(body, Node([], tag), c)
        case Err(e) => Err(e)
        case Ok(n) => Ok(Parsed(n, at + next.n))
  }

  /** What every parse result satisfies: void elements are leaves, and without expression values every attribute is text. */
  ghost predicate Built(n: Node, c: Config) {
    VoidLeaves(n) && (!c.syntax.exprValue ==> TextAttributesOnly(n))
  }

  /** A node the parser may still append to: built so far, and not a void element. */
  ghost predicate Growing(n: Node, c: Config) {
    Built(n, c) && !(n.value.Tag? && IsVoid(n.value.element))
  }

  lemma AppendKeepsBuilt(html: Node, child: Node, c: Config)
    requires Growing(html, c) && Built(child, c)
    ensures Growing(AppendChild(html, child), c)
  {
    var r := AppendChild(html, child);
    assert forall i :: 0 <= i < |r.children| ==> r.children[i] == child || r.children[i] == html.children[i];
  }

  lemma {:induction false} IntoBuilt(ts: seq<Token>, html: Node, c: Config)
    requires ParseInto(ts, html, c).Ok? && Growing(html, c)
    ensures Growing(ParseInto(ts, html, c).value, c)
    decreases SeqSize(ts), 3
  {
    if ts != [] {
      var p := Item(ts, c).value;
      ItemBuilt(ts, c);
      AppendKeepsBuilt(html, p.value, c);
      SeqSizeDrop(ts, p.n);
      IntoBuilt(ts[p.n..], AppendChild(html, p.value), c);
    }
  }

  lemma {:induction false} ItemBuilt(ts: seq<Token>, c: Config)
    requires ts != [] && Item(ts, c).Ok?
    ensures Built(Item(ts, c).value.value, c)
    decreases SeqSize(ts), 2
  {
    if ts[0] == Punct('<') {
      ElementBuilt(ts, c);
    } else if IsBrace(ts[0]) {
    } else if ts[0] == Ident("if") {
      var cond := UntilBrace(ts[1..], "Condition shuold be here.").value;
      BlockBuilt(ts, 1 + cond.n, If(StreamText(cond.value)), c);
    } else if ts[0] == Ident("else") {
      if |ts| >= 2 && ts[1] == Ident("if") {
        var cond := UntilBrace(ts[2..], "Condition shuold be here.").value;
        BlockBuilt(ts, 2 + cond.n, ElseIf(StreamText(cond.value)), c);
      } else {
        BlockBuilt(ts, 1, Else, c);
      }
    } else {
      BlockBuilt(ts, 4, ForOf(ts[1].name, ts[3].name, c), c);
    }
  }

  lemma {:induction false} BlockBuilt(ts: seq<Token>, at: nat, lex: Lex, c: Config)
    requires 0 < at <= |ts| && !lex.Tag? && Block(ts, at, lex, c).Ok?
    ensures Built(Block(ts, at, lex, c).value.value, c)
    decreases SeqSize(ts), 0
  {
    SeqSizeInner(ts, at);
    IntoBuilt(ts[at].inner, Node([], lex), c);
  }

  lemma {:induction false} ElementBuilt(ts: seq<Token>, c: Config)
    requires |ts| >= 2 && IsPlainIdent(ts[1]) && Element(ts, c).Ok?
    ensures Built(Element(ts, c).value.value, c)
    decreases SeqSize(ts), 1
  {
    var attrs := ParseAttributes(ts[2..], c.syntax).value;
    var p := 2 + attrs.n;
    var q := if p < |ts| && ts[p] == Punct('/') then p + 1 else p;
    var tag := Tag(Named(ts[1].name), attrs.value);
    ElementOpens(ts, c);
    TagEndCloses(ts, p, tag, c);
    if !c.syntax.exprValue {
      TextOnlyAttributes(ts[2..], c.syntax);
    }
    ChildrenBuilt(ts, q + 1, tag, c);
  }

  /** `Element` reads the attributes and hands the rest of the opening tag to `TagEnd`. */
  lemma ElementOpens(ts: seq<Token>, c: Config)
    requires |ts| >= 2 && IsPlainIdent(ts[1])
    ensures ParseAttributes(ts[2..], c.syntax).Err? ==> Element(ts, c).Err?
    ensures ParseAttributes(ts[2..], c.syntax).Ok? ==>
      var attrs := ParseAttributes(ts[2..], c.syntax).value;
      Element(ts, c) == TagEnd(ts, 2 + attrs.n, Tag(Named(ts[1].name), attrs.value), c)
  {
  }

  /** `TagEnd` at a `>`, after an optional `/`, hands the rest to `Children`. */
  lemma TagEndCloses(ts: seq<Token>, p: nat, tag: Lex, c: Config)
    requires 2 <= p <= |ts| && tag.Tag? && tag.element.Named?
    ensures var q := if p < |ts| && ts[p] == Punct('/') then p + 1 else p;
      && (TagEnd(ts, p, tag, c).Ok? ==> q < |ts| && ts[q] == Punct('>'))
      && (q < |ts| && ts[q] == Punct('>') ==> TagEnd(ts, p, tag, c) == Children(ts, q + 1, tag, c))
  {
  }

  lemma {:induction false} ChildrenBuilt(ts: seq<Token>, at: nat, tag: Lex, c: Config)
    requires 3 <= at <= |ts| && tag.Tag? && tag.element.Named? && Children(ts, at, tag, c).Ok?
    requires !c.syntax.exprValue ==> forall a :: a in tag.attributes ==> a.value.AText?
    ensures Built(Children(ts, at, tag, c).value.value, c)
    decreases SeqSize(ts), 0
  {
    assert Built(Node([], tag), c);
    if !IsVoid(tag.element) {
      var next := NextInput(ts[at..], tag.element.name, c.nesting, c.empty);
      if next.value.Some? {
        SeqSizeDrop(ts, at);
        SeqSizeTake(ts[at..], |next.value.value|);
        IntoBuilt(next.value.value, Node([], tag), c);
      }
    }
  }

  /** Every tree a successful parse returns satisfies `Built`. */
  lemma ParseBuilt(ts: seq<Token>, c: Config)
    requires Parse(ts, c).Ok?
    ensures Built(Parse(ts, c).value, c)
  {
    IntoBuilt(ts, Root, c);
  }

  /** One turn of `parse_html`: the construct at the head, then the rest. */
  lemma IntoStep(ts: seq<Token>, html: Node, c: Config, p: Parsed<Node>)
    requires ts != [] && Item(ts, c) == Ok(p)
    ensures ParseInto(ts, html, c) == ParseInto(ts[p.n..], AppendChild(html, p.value), c)
  {
  }

  /** `<name>` with no attributes hands what follows it to `Children`. */
  lemma ItemBareTag(ts: seq<Token>, c: Config)
    requires |ts| >= 3 && ts[0] == Punct('<') && IsPlainIdent(ts[1]) && ts[2] == Punct('>')
    ensures Item(ts, c) == Children(ts, 3, Tag(Named(ts[1].name), []), c)
  {
    assert ParseAttributes(ts[2..], c.syntax) == Ok(Parsed([], 0));
    ElementOpens(ts, c);
    TagEndCloses(ts, 2, Tag(Named(ts[1].name), []), c);
  }

  /** A body the scan finds becomes the element's children. */
  lemma ChildrenBody(ts: seq<Token>, at: nat, tag: Lex, c: Config, body: seq<Token>, m: nat, n: Node)
    requires 3 <= at <= |ts| && tag.Tag? && tag.element.Named? && !IsVoid(tag.element)
    requires NextInput(ts[at..], tag.element.name, c.nesting, c.empty) == Parsed(Some(body), m)
    requires ParseInto(body, Node([], tag), c) == Ok(n)
    ensures Children(ts, at, tag, c) == Ok(Parsed(n, at + m))
  {
  }
}
