/**
 * `lexer.rs`: the oldest template parser. A template is one lexeme: `<>`, a
 * text `{ "…" }` or a tag whose body is itself one lexeme. The body of
 * `<name …>` is every token up to the first `</name>` the scan meets, with no
 * count of nested tags of the same name. `dst` turns each lexeme into one
 * node of `models/html_node.rs` appended to its parent, so every element of
 * the tree has at most one child.
 *
 * `lex_html`, which runs this parser, is not part of this model; it is taken
 * to be `syn::parse2`, which refuses a stream it has not read to its end.
 */
module Lexer {
  import opened Wrappers
  import opened Tokens
  import opened Elements
  import opened Scan
  import Template
  import HtmlNode

  /** `Lexeme`: a tag with its attributes and, unless it is `<>`, the tokens of its body. */
  datatype Lexeme =
    | Tag(element: Element, attributes: seq<(string, string)>, children: Option<seq<Token>>)
    | Text(text: string)

  /** `</name>`. */
  function CloseTag(name: string): seq<Token> {
    [Punct('<'), Punct('/'), Ident(name), Punct('>')]
  }

  // ---- get_children ----

  /** What `get_children` does with the head of the rest: push `k` trees, stop at `</name>`, or loop forever. */
  datatype Chunk = Skip(k: nat) | Closing | Stuck

  function NextChunk(ts: seq<Token>, name: string): (c: Chunk)
    requires ts != []
    ensures c.Skip? ==> 1 <= c.k <= 4 && c.k <= |ts|
    ensures c.Closing? ==> 4 <= |ts| && ts[..4] == CloseTag(name)
    ensures c.Stuck? ==> |ts| < 4
  {
    if ts[0] != Punct('<') then Skip(1)
    else if |ts| < 2 then Stuck
    else if ts[1] != Punct('/') then Skip(2)
    else if |ts| < 3 then Stuck
    else if !(ts[2].Ident? && ts[2].name == name) then Skip(3)
    else if |ts| < 4 then Stuck
    else if ts[3] == Punct('>') then Closing
    else Skip(4)
  }

  /**
   * `get_children(cursor, element)`: the body before the first `</name>` the
   * scan meets and how many trees it takes with that closing tag; or, with no
   * such tag, the whole rest. A stream ending in `<`, `< /` or `< / name`
   * makes the loop go round without moving.
   */
  function ChildrenOf(ts: seq<Token>, name: string): (r: Result<Parsed<seq<Token>>, Error>)
    ensures r.Err? ==> r.error == Diverges
    ensures r.Ok? ==> |r.value.value| <= r.value.n <= |ts|
    decreases |ts|
  {
    if ts == [] then Ok(Parsed([], 0))
    else match NextChunk(ts, name)
      case Stuck => Err(Diverges)
      case Closing => Ok(Parsed([], 4))
      case Skip(k) =>
        match ChildrenOf(ts[k..], name)
        case Err(e) => Err(e)
        case Ok(p) => Ok(Parsed(ts[..k] + p.value, k + p.n))
  }

  /** The body is the whole rest, when no `</name>` is met, or what comes before the closing tag. */
  lemma {:induction false} ChildrenShape(ts: seq<Token>, name: string)
    requires ChildrenOf(ts, name).Ok?
    ensures var p := ChildrenOf(ts, name).value;
      p == Parsed(ts, |ts|) || ts[..p.n] == p.value + CloseTag(name)
    decreases |ts|
  {
    if ts != [] && NextChunk(ts, name).Skip? {
      var k := NextChunk(ts, name).k;
      ChildrenShape(ts[k..], name);
      var p := ChildrenOf(ts[k..], name).value;
      if p == Parsed(ts[k..], |ts| - k) {
        assert ts[..k] + ts[k..] == ts;
      } else {
        assert ts[k..][..p.n] == ts[k..k + p.n];
        assert ts[..k + p.n] == ts[..k] + ts[k..k + p.n];
      }
    }
  }

  /** `r` with `pre` put in front. */
  function Shift(pre: seq<Token>, r: Result<Parsed<seq<Token>>, Error>): Result<Parsed<seq<Token>>, Error> {
    match r
    case Err(e) => Err(e)
    case Ok(p) => Ok(Parsed(pre + p.value, |pre| + p.n))
  }

  lemma ShiftStep(ts: seq<Token>, pos: nat, k: nat, name: string)
    requires pos < |ts| && NextChunk(ts[pos..], name) == Skip(k)
    ensures Shift(ts[..pos], ChildrenOf(ts[pos..], name)) == Shift(ts[..pos + k], ChildrenOf(ts[pos + k..], name))
  {
    assert ts[pos..][k..] == ts[pos + k..];
    assert ts[pos..][..k] == ts[pos..pos + k];
    assert ts[..pos + k] == ts[..pos] + ts[pos..pos + k];
    var r := ChildrenOf(ts[pos + k..], name);
    if r.Ok? {
      assert ts[..pos] + (ts[pos..pos + k] + r.value.value) == ts[..pos + k] + r.value.value;
    }
  }

  /** Where the scan stops, at `pos` with `ts[..pos]` pushed. */
  lemma StopStep(ts: seq<Token>, pos: nat, name: string)
    requires pos <= |ts|
    ensures pos == |ts| ==> Shift(ts[..pos], ChildrenOf(ts[pos..], name)) == Ok(Parsed(ts[..pos], pos))
    ensures pos < |ts| && NextChunk(ts[pos..], name).Closing? ==>
      Shift(ts[..pos], ChildrenOf(ts[pos..], name)) == Ok(Parsed(ts[..pos], pos + 4))
    ensures pos < |ts| && NextChunk(ts[pos..], name).Stuck? ==>
      Shift(ts[..pos], ChildrenOf(ts[pos..], name)) == Err(Diverges)
  {
    assert ts[..pos] + [] == ts[..pos];
  }

  lemma StartStep(ts: seq<Token>, name: string)
    ensures ChildrenOf(ts, name) == Shift(ts[..0], ChildrenOf(ts[0..], name))
  {
    assert ts[..0] == [] && ts[0..] == ts;
    if ChildrenOf(ts, name).Ok? {
      assert [] + ChildrenOf(ts, name).value.value == ChildrenOf(ts, name).value.value;
    }
  }

  /** The `while let` loop of `get_children`, pushing trees onto `children`. */
  method GetChildren(ts: seq<Token>, name: string) returns (r: Result<Parsed<seq<Token>>, Error>)
    ensures r == ChildrenOf(ts, name)
  {
    var children: seq<Token> := [];
    var pos := 0;
    StartStep(ts, name);
    while pos < |ts|
      invariant 0 <= pos <= |ts| && children == ts[..pos]
      invariant ChildrenOf(ts, name) == Shift(children, ChildrenOf(ts[pos..], name))
      decreases |ts| - pos
    {
      // the nested `if let`s over the next four trees
      var chunk := NextChunk(ts[pos..], name);
      StopStep(ts, pos, name);
      match chunk
      case Stuck =>
        // `rest` is not moved: the loop would go round forever
        return Err(Diverges);
      case Closing =>
        return Ok(Parsed(children, pos + 4));
      case Skip(k) =>
        ShiftStep(ts, pos, k, name);
        assert ts[..pos + k] == ts[..pos] + ts[pos..pos + k];
        children := children + ts[pos..pos + k];
        pos := pos + k;
    }
    StopStep(ts, pos, name);
    r := Ok(Parsed(children, pos));
  }

  // ---- Lexeme::parse ----

  function ValueText(v: Template.AttrValue): string {
    match v
    case AText(t) => t
    case AVar(_) => ""
  }

  /** The attributes as the `(key, value)` pairs the node keeps. */
  function Pairs(attrs: seq<Template.Attribute>): (r: seq<(string, string)>)
    ensures |r| == |attrs|
    ensures forall i :: 0 <= i < |attrs| ==> r[i] == (attrs[i].key, ValueText(attrs[i].value))
  {
    if attrs == [] then [] else [(attrs[0].key, ValueText(attrs[0].value))] + Pairs(attrs[1..])
  }

  /**
   * `Lexeme::parse`: `<>`; `<name attrs>` followed by its body up to
   * `</name>`; or `{ "text" }`. It does not need to read the whole stream.
   */
  function ParseLexeme(ts: seq<Token>): (r: Result<Parsed<Lexeme>, Error>)
    ensures r.Ok? ==> 0 < r.value.n <= |ts|
    ensures r.Ok? && r.value.value.Tag? && r.value.value.children.Some? ==> |r.value.value.children.value| < |ts|
    ensures r.Ok? && r.value.value.Tag? ==> (r.value.value.element.Fragment? <==> r.value.value.children.None?)
  {
    if StartsWithPunct(ts, '<') then ParseTag(ts)
    else if |ts| > 0 && IsBrace(ts[0]) then ParseText(ts)
    else Err(Message("Invalid syntax."))
  }

  /** The tag branch: `<>`, or `<name attrs>` and its body. */
  function ParseTag(ts: seq<Token>): (r: Result<Parsed<Lexeme>, Error>)
    requires StartsWithPunct(ts, '<')
    ensures r.Ok? ==> 0 < r.value.n <= |ts| && r.value.value.Tag?
    ensures r.Ok? && r.value.value.children.Some? ==> |r.value.value.children.value| < |ts|
    ensures r.Ok? ==> (r.value.value.element.Fragment? <==> r.value.value.children.None?)
  {
    if |ts| >= 2 && ts[1] == Punct('>') then Ok(Parsed(Tag(Fragment, [], None), 2))
    else if |ts| >= 2 && IsPlainIdent(ts[1]) then
      match ParseAttributes(ts[2..], LexerAttrs)
      case Err(e) => Err(e)
      case Ok(a) => NamedTag(ts, a)
    else Err(Message("Invalid tag."))
  }

  /** The text branch: a brace group holding one string literal. */
  function ParseText(ts: seq<Token>): (r: Result<Parsed<Lexeme>, Error>)
    requires |ts| > 0 && IsBrace(ts[0])
    ensures r.Ok? ==> r.value.n == 1 && r.value.value.Text?
  {
    var content := ts[0].inner;
    if |content| == 0 || !content[0].Str? then Err(Message("expected string literal"))
    else if |content| > 1 then Err(Message("unexpected token"))
    else Ok(Parsed(Text(content[0].value), 1))
  }

  /** After `< name` and its attributes: the body up to `</name>`. */
  function NamedTag(ts: seq<Token>, a: Parsed<seq<Template.Attribute>>): (r: Result<Parsed<Lexeme>, Error>)
    requires |ts| >= 2 && IsPlainIdent(ts[1])
    requires 2 + a.n < |ts|
    ensures r.Ok? ==> 0 < r.value.n <= |ts|
    ensures r.Ok? ==> r.value.value.Tag? && r.value.value.element.Named? && r.value.value.children.Some? && |r.value.value.children.value| < |ts|
  {
    var start := 2 + a.n + 1;
    match ChildrenOf(ts[start..], ts[1].name)
    case Err(e) => Err(e)
    case Ok(c) => Ok(Parsed(Tag(Named(ts[1].name), Pairs(a.value), Some(c.value)), start + c.n))
  }

  /** `syn::parse2::<Lexeme>(stream)`: one lexeme that takes the whole stream. */
  function ParseWhole(ts: seq<Token>): (r: Result<Lexeme, Error>)
    ensures r.Ok? && r.value.Tag? && r.value.children.Some? ==> |r.value.children.value| < |ts|
    ensures r.Ok? ==> ParseLexeme(ts) == Ok(Parsed(r.value, |ts|))
  {
    match ParseLexeme(ts)
    case Err(e) => Err(e)
    case Ok(p) => if p.n < |ts| then Err(Message("unexpected token")) else Ok(p.value)
  }

  // ---- dst and Lexer::parse ----

  /** Every element has at most one child, and the tree holds only elements and texts. */
  predicate Chain(n: HtmlNode.Node)
    decreases n
  {
    match n
    case Element(_, _, cs) => |cs| <= 1 && (|cs| == 1 ==> Chain(cs[0]))
    case Text(_) => true
    case _ => false
  }

  /** `q` is `parent` with one more child, a chain, at the end (when `parent` is an element). */
  predicate Appended(parent: HtmlNode.Node, q: HtmlNode.Node) {
    if parent.Element? then
      && q.Element? && q.element == parent.element && q.attributes == parent.attributes
      && |q.children| == |parent.children| + 1 && q.children[..|parent.children|] == parent.children
      && Chain(q.children[|parent.children|])
    else q == parent
  }

  function LexSize(lex: Lexeme): nat {
    if lex.Tag? && lex.children.Some? then |lex.children.value| + 1 else 0
  }

  /** The node of a lexeme before its body is added. */
  function Shell(lex: Lexeme): HtmlNode.Node {
    match lex
    case Tag(e, attrs, _) => HtmlNode.Element(e, attrs, [])
    case Text(t) => HtmlNode.Text(t)
  }

  /**
   * `dst(lex, parent)`: the lexeme's node, with its body parsed as one
   * lexeme and added to it in turn, appended to `parent`: one node per
   * lexeme.
   */
  function Dst(lex: Lexeme, parent: HtmlNode.Node): (r: Result<HtmlNode.Node, Error>)
    ensures r.Ok? ==> Appended(parent, r.value)
    decreases LexSize(lex)
  {
    match lex
    case Tag(e, attrs, Some(ch)) =>
      (match ParseWhole(ch)
       case Err(err) => Err(err)
       case Ok(inner) =>
         match Dst(inner, HtmlNode.Element(e, attrs, []))
         case Err(err) => Err(err)
         case Ok(child) =>
           assert Chain(child);
           Ok(HtmlNode.AddChild(parent, child)))
    case Tag(e, attrs, None) =>
      assert Chain(HtmlNode.Element(e, attrs, []));
      Ok(HtmlNode.AddChild(parent, HtmlNode.Element(e, attrs, [])))
    case Text(t) =>
      assert Chain(HtmlNode.Text(t));
      Ok(HtmlNode.AddChild(parent, HtmlNode.Text(t)))
  }

  /**
   * `Lexer::parse` run by `syn::parse2`: the root is the node of the one
   * lexeme of the stream, an element or a text.
   */
  function Parse(ts: seq<Token>): (r: Result<HtmlNode.Node, Error>)
    ensures r.Ok? ==> Chain(r.value)
  {
    match ParseLexeme(ts)
    case Err(e) => Err(e)
    case Ok(p) =>
      var root :=
        match p.value
        case Tag(e, attrs, Some(ch)) =>
          (match ParseWhole(ch)
           case Err(err) => Err(err)
           case Ok(inner) => Dst(inner, HtmlNode.Element(e, attrs, [])))
        case _ => Ok(Shell(p.value));
      if root.Err? then root
      else if p.n < |ts| then Err(Message("unexpected token"))
      else root
  }

  // ---- what the scan does with a body it reads through ----

  /** The scan reads all of `ts` without meeting `</name>` and stops exactly at its end. */
  predicate Clean(ts: seq<Token>, name: string) {
    ChildrenOf(ts, name) == Ok(Parsed(ts, |ts|))
  }

  lemma ChunkPrefix(a: seq<Token>, b: seq<Token>, name: string)
    requires a != [] && NextChunk(a, name).Skip?
    ensures NextChunk(a + b, name) == NextChunk(a, name)
  {
    var ab := a + b;
    assert forall i :: 0 <= i < |a| ==> ab[i] == a[i];
  }

  lemma SkipUnfold(ts: seq<Token>, name: string)
    requires ts != [] && NextChunk(ts, name).Skip?
    ensures var k := NextChunk(ts, name).k;
      ChildrenOf(ts, name) == Shift(ts[..k], ChildrenOf(ts[k..], name))
  {
  }

  lemma ShiftShift(p: seq<Token>, q: seq<Token>, r: Result<Parsed<seq<Token>>, Error>)
    ensures Shift(p, Shift(q, r)) == Shift(p + q, r)
  {
    if r.Ok? {
      assert p + (q + r.value.value) == (p + q) + r.value.value;
    }
  }

  /** What is left of a body the scan reads through after one chunk is read through as well. */
  lemma CleanRest(a: seq<Token>, name: string)
    requires a != [] && Clean(a, name)
    ensures NextChunk(a, name).Skip? && Clean(a[NextChunk(a, name).k..], name)
  {
    var k := NextChunk(a, name).k;
    SkipUnfold(a, name);
    var p := ChildrenOf(a[k..], name);
    assert a[..k] + p.value.value == a;
    assert p.value.value == a[k..] by {
      assert a[k..] == (a[..k] + p.value.value)[k..];
    }
  }

  lemma SplitAppend(a: seq<Token>, b: seq<Token>, k: nat)
    requires k <= |a|
    ensures (a + b)[k..] == a[k..] + b && (a + b)[..k] == a[..k] && a[..k] + a[k..] == a
  {
  }

  /** After a part it reads through, the scan goes on as if that part were not there. */
  lemma {:induction false} ScanAppend(a: seq<Token>, b: seq<Token>, name: string)
    requires Clean(a, name)
    ensures ChildrenOf(a + b, name) == Shift(a, ChildrenOf(b, name))
    decreases |a|
  {
    if a == [] {
      assert a + b == b;
      ShiftShift([], [], ChildrenOf(b, name));
      StartStep(b, name);
      assert b[..0] == [] && b[0..] == b;
    } else {
      CleanRest(a, name);
      var k := NextChunk(a, name).k;
      ChunkPrefix(a, b, name);
      SkipUnfold(a + b, name);
      ScanAppend(a[k..], b, name);
      SplitAppend(a, b, k);
      ShiftShift(a[..k], a[k..], ChildrenOf(b, name));
    }
  }

  lemma CleanAppend(a: seq<Token>, b: seq<Token>, name: string)
    requires Clean(a, name) && Clean(b, name)
    ensures Clean(a + b, name)
  {
    ScanAppend(a, b, name);
  }

  /** A body the scan reads through, then `</name>`: the body is the children and the closing tag is taken too. */
  lemma CloseAfterClean(body: seq<Token>, rest: seq<Token>, name: string)
    requires Clean(body, name)
    ensures ChildrenOf(body + CloseTag(name) + rest, name) == Ok(Parsed(body, |body| + 4))
  {
    var tail := CloseTag(name) + rest;
    assert body + CloseTag(name) + rest == body + tail;
    ScanAppend(body, tail, name);
    assert tail[4..] == rest && tail[..4] == CloseTag(name);
    assert NextChunk(tail, name) == Closing;
    assert body + [] == body;
  }

  /** A body the scan reads through, then `<`, `< /` or `< / name` at the very end: the scan never ends. */
  lemma StuckAfterClean(body: seq<Token>, tail: seq<Token>, name: string)
    requires Clean(body, name)
    requires tail == [Punct('<')] || tail == [Punct('<'), Punct('/')] || tail == [Punct('<'), Punct('/'), Ident(name)]
    ensures ChildrenOf(body + tail, name) == Err(Diverges)
  {
    ScanAppend(body, tail, name);
    assert NextChunk(tail, name) == Stuck;
  }

  lemma {:induction false} NoAngleClean(ts: seq<Token>, name: string)
    requires forall i :: 0 <= i < |ts| ==> ts[i] != Punct('<')
    ensures Clean(ts, name)
    decreases |ts|
  {
    if ts != [] {
      NoAngleClean(ts[1..], name);
      assert ts[..1] + ts[1..] == ts;
    }
  }

  lemma OpenClean(x: string, name: string)
    ensures Clean([Punct('<'), Ident(x)], name) && Clean([Punct('<'), Punct('>')], name)
  {
    var a := [Punct('<'), Ident(x)];
    var b := [Punct('<'), Punct('>')];
    assert NextChunk(a, name) == Skip(2) && NextChunk(b, name) == Skip(2);
    assert a[2..] == [] && a[..2] + [] == a;
    assert b[2..] == [] && b[..2] + [] == b;
  }

  lemma CloseClean(x: string, name: string)
    requires x != name
    ensures Clean(CloseTag(x), name)
  {
    var ts := CloseTag(x);
    assert ts[3..] == [Punct('>')];
    NoAngleClean([Punct('>')], name);
    assert ts[..3] + [Punct('>')] == ts;
  }

  // ---- a printer for the trees the lexer builds ----

  function AsAttributes(attrs: seq<(string, string)>): (r: seq<Template.Attribute>)
    ensures |r| == |attrs|
    ensures forall i :: 0 <= i < |attrs| ==> r[i] == Template.Attribute(attrs[i].0, Template.AText(attrs[i].1))
  {
    if attrs == [] then [] else [Template.Attribute(attrs[0].0, Template.AText(attrs[0].1))] + AsAttributes(attrs[1..])
  }

  lemma PairsOfAttributes(attrs: seq<(string, string)>)
    ensures Pairs(AsAttributes(attrs)) == attrs
  {
  }

  /** `key = "value"` for every pair. */
  function PrintPairs(attrs: seq<(string, string)>): seq<Token> {
    PrintAttrs(AsAttributes(attrs))
  }

  lemma {:induction false} NoAngleInAttrs(attrs: seq<Template.Attribute>)
    ensures forall i :: 0 <= i < |PrintAttrs(attrs)| ==> PrintAttrs(attrs)[i] != Punct('<')
    decreases attrs
  {
    if attrs != [] {
      NoAngleInAttrs(attrs[1..]);
      var a := attrs[0];
      assert PrintAttrs(attrs) == PrintAttr(a) + PrintAttrs(attrs[1..]);
      assert PrintAttr(a)[0] == Ident(a.key) && PrintAttr(a)[1] == Punct('=');
      assert PrintAttr(a)[2].Str? || PrintAttr(a)[2].Group?;
    }
  }

  /** The template that writes `n`: `<>`, `<name k = "v" …>child</name>` or `{ "text" }`. */
  function Print(n: HtmlNode.Node): seq<Token>
    decreases n
  {
    match n
    case Element(Fragment, _, _) => [Punct('<'), Punct('>')]
    case Element(Named(x), attrs, cs) =>
      [Punct('<'), Ident(x)] + PrintPairs(attrs) + [Punct('>')] + (if cs == [] then [] else Print(cs[0])) + CloseTag(x)
    case Text(t) => [Group(Brace, [Str(t)])]
    case _ => []
  }

  /**
   * A tree the lexer reads back from its print: `<>` with nothing, a text, or
   * an element with plain names and exactly one child, none of whose
   * elements has the name of an element around it (`outer`).
   */
  predicate Printable(n: HtmlNode.Node, outer: set<string>)
    decreases n
  {
    match n
    case Element(Fragment, attrs, cs) => attrs == [] && cs == []
    case Element(Named(x), attrs, cs) =>
      && IsPlainIdent(Ident(x)) && x !in outer && |cs| == 1
      && (forall i :: 0 <= i < |attrs| ==> IsPlainIdent(Ident(attrs[i].0)))
      && Printable(cs[0], outer + {x})
    case Text(_) => true
    case _ => false
  }

  /** The scan for the name of an element around a printed tree reads through it. */
  lemma {:induction false} PrintClean(n: HtmlNode.Node, outer: set<string>, name: string)
    requires Printable(n, outer) && name in outer
    ensures Clean(Print(n), name)
    decreases n
  {
    match n
    case Element(Fragment, _, _) => OpenClean("", name);
    case Element(Named(x), attrs, cs) =>
      OpenClean(x, name);
      NoAngleInAttrs(AsAttributes(attrs));
      NoAngleClean(PrintPairs(attrs), name);
      NoAngleClean([Punct('>')], name);
      PrintClean(cs[0], outer + {x}, name);
      CloseClean(x, name);
      var a := [Punct('<'), Ident(x)];
      CleanAppend(a, PrintPairs(attrs), name);
      CleanAppend(a + PrintPairs(attrs), [Punct('>')], name);
      CleanAppend(a + PrintPairs(attrs) + [Punct('>')], Print(cs[0]), name);
      CleanAppend(a + PrintPairs(attrs) + [Punct('>')] + Print(cs[0]), CloseTag(x), name);
    case Text(t) => NoAngleClean([Group(Brace, [Str(t)])], name);
  }

  /** The lexeme of a printed tree. */
  function LexemeOf(n: HtmlNode.Node): Lexeme
  {
    match n
    case Element(e, attrs, cs) => Tag(e, attrs, if e == Fragment || cs == [] then None else Some(Print(cs[0])))
    case Text(t) => Text(t)
    case _ => Text("")
  }

  /** `<x k = "v" …>` followed by a body: a `Named` tag whose children are what the scan for `</x>` finds. */
  /** `ts` is `< x`, the tokens `pa`, `>` and then `body`. */
  predicate Opens(ts: seq<Token>, x: string, pa: seq<Token>, body: seq<Token>) {
    && 3 + |pa| <= |ts| && ts[0] == Punct('<') && ts[1] == Ident(x)
    && ts[2..] == pa + ([Punct('>')] + body) && ts[3 + |pa|..] == body
  }

  lemma OpensShape(x: string, pa: seq<Token>, body: seq<Token>)
    ensures Opens([Punct('<'), Ident(x)] + pa + [Punct('>')] + body, x, pa, body)
  {
    OpenShape(x, pa, body);
  }

  lemma OpenAttributes(attrs: seq<(string, string)>, rest: seq<Token>)
    requires forall i :: 0 <= i < |attrs| ==> IsPlainIdent(Ident(attrs[i].0))
    requires EndsAttributes(rest, LexerAttrs)
    ensures ParseAttributes(PrintPairs(attrs) + rest, LexerAttrs) == Ok(Parsed(AsAttributes(attrs), 3 * |attrs|))
  {
    var aa := AsAttributes(attrs);
    assert forall i :: 0 <= i < |aa| ==> WellFormedAttr(aa[i], LexerAttrs);
    ParseAttrsPrinted(aa, rest, LexerAttrs);
  }

  /**
   * `ts` is `< x`, attribute tokens `pa` that read as `a`, `>` and a body
   * whose scan for `</x>` gives the children of `lex` and takes `total`
   * trees in all.
   */
  predicate TagParts(ts: seq<Token>, pa: seq<Token>, a: Parsed<seq<Template.Attribute>>, body: seq<Token>, lex: Lexeme, total: nat) {
    && lex.Tag? && lex.element.Named? && IsPlainIdent(Ident(lex.element.name)) && lex.children.Some?
    && Opens(ts, lex.element.name, pa, body)
    && ParseAttributes(pa + ([Punct('>')] + body), LexerAttrs) == Ok(a) && a.n == |pa| && lex.attributes == Pairs(a.value)
    && 3 + a.n <= total && ChildrenOf(body, lex.element.name) == Ok(Parsed(lex.children.value, total - 3 - a.n))
  }

  lemma NamedLexeme(ts: seq<Token>, pa: seq<Token>, a: Parsed<seq<Template.Attribute>>, body: seq<Token>, lex: Lexeme, total: nat)
    requires TagParts(ts, pa, a, body, lex, total)
    ensures ParseLexeme(ts) == Ok(Parsed(lex, total))
  {
    TagLayer(ts, a, pa + ([Punct('>')] + body));
    NamedLayer(ts, a, body, lex, total);
  }

  lemma TagLayer(ts: seq<Token>, a: Parsed<seq<Template.Attribute>>, tail: seq<Token>)
    requires |ts| >= 2 && ts[0] == Punct('<') && ts[1].Ident? && IsPlainIdent(ts[1])
    requires ts[2..] == tail && ParseAttributes(tail, LexerAttrs) == Ok(a)
    ensures 2 + a.n < |ts| && ParseLexeme(ts) == NamedTag(ts, a)
  {
  }

  lemma NamedLayer(ts: seq<Token>, a: Parsed<seq<Template.Attribute>>, body: seq<Token>, lex: Lexeme, total: nat)
    requires |ts| >= 2 && IsPlainIdent(ts[1]) && 2 + a.n < |ts| && ts[3 + a.n..] == body
    requires lex.Tag? && lex.element == Named(ts[1].name) && lex.attributes == Pairs(a.value) && lex.children.Some?
    requires 3 + a.n <= total && ChildrenOf(body, ts[1].name) == Ok(Parsed(lex.children.value, total - 3 - a.n))
    ensures NamedTag(ts, a) == Ok(Parsed(lex, total))
  {
  }

  lemma Regroup(a: seq<Token>, b: seq<Token>, c: seq<Token>, d: seq<Token>)
    ensures a + b + c + d == a + (b + c + d)
  {
  }

  /** The print of an element with one child opens the tag, and its body ends with the closing tag. */
  lemma PrintOpens(n: HtmlNode.Node, c: HtmlNode.Node, rest: seq<Token>)
    requires n.Element? && n.element.Named? && n.children == [c]
    ensures var x := n.element.name;
      && Opens(Print(n) + rest, x, PrintPairs(n.attributes), Print(c) + CloseTag(x) + rest)
      && |Print(n)| == 3 + 3 * |n.attributes| + |Print(c)| + 4
  {
    var x := n.element.name;
    var open := [Punct('<'), Ident(x)] + PrintPairs(n.attributes) + [Punct('>')];
    assert Print(n) == open + Print(c) + CloseTag(x);
    Regroup(open, Print(c), CloseTag(x), rest);
    OpensShape(x, PrintPairs(n.attributes), Print(c) + CloseTag(x) + rest);
  }

  /** The body of a printed element: the child's print and the closing tag. */
  lemma PrintedBody(c: HtmlNode.Node, x: string, outer: set<string>, rest: seq<Token>)
    requires Printable(c, outer + {x})
    ensures ChildrenOf(Print(c) + CloseTag(x) + rest, x) == Ok(Parsed(Print(c), |Print(c)| + 4))
  {
    PrintClean(c, outer + {x}, x);
    CloseAfterClean(Print(c), rest, x);
  }

  /** The attributes of a printed element read back as themselves. */
  lemma PrintedAttributes(attrs: seq<(string, string)>, rest: seq<Token>)
    requires forall i :: 0 <= i < |attrs| ==> IsPlainIdent(Ident(attrs[i].0))
    requires EndsAttributes(rest, LexerAttrs)
    ensures var a := Parsed(AsAttributes(attrs), 3 * |attrs|);
      ParseAttributes(PrintPairs(attrs) + rest, LexerAttrs) == Ok(a) && a.n == |PrintPairs(attrs)| && attrs == Pairs(a.value)
  {
    OpenAttributes(attrs, rest);
    PairsOfAttributes(attrs);
  }

  lemma PrintedParts(n: HtmlNode.Node, c: HtmlNode.Node, outer: set<string>, rest: seq<Token>)
    requires n.Element? && n.element.Named? && n.children == [c] && Printable(n, outer)
    ensures var x, attrs := n.element.name, n.attributes;
      TagParts(Print(n) + rest, PrintPairs(attrs), Parsed(AsAttributes(attrs), 3 * |attrs|), Print(c) + CloseTag(x) + rest,
        Tag(n.element, attrs, Some(Print(c))), |Print(n)|)
  {
    var x, attrs := n.element.name, n.attributes;
    var body := Print(c) + CloseTag(x) + rest;
    PrintedBody(c, x, outer, rest);
    PrintOpens(n, c, rest);
    PrintedAttributes(attrs, [Punct('>')] + body);
  }

  lemma NamedPrinted(n: HtmlNode.Node, c: HtmlNode.Node, outer: set<string>, rest: seq<Token>)
    requires n.Element? && n.element.Named? && n.children == [c] && Printable(n, outer)
    ensures ParseLexeme(Print(n) + rest) == Ok(Parsed(Tag(n.element, n.attributes, Some(Print(c))), |Print(n)|))
  {
    var x, attrs := n.element.name, n.attributes;
    PrintedParts(n, c, outer, rest);
    NamedLexeme(Print(n) + rest, PrintPairs(attrs), Parsed(AsAttributes(attrs), 3 * |attrs|), Print(c) + CloseTag(x) + rest,
      Tag(n.element, attrs, Some(Print(c))), |Print(n)|);
  }

  lemma ParseLexemePrinted(n: HtmlNode.Node, outer: set<string>, rest: seq<Token>)
    requires Printable(n, outer)
    ensures ParseLexeme(Print(n) + rest) == Ok(Parsed(LexemeOf(n), |Print(n)|))
  {
    match n
    case Element(Fragment, _, _) =>
      FragmentLexeme(rest);
    case Element(Named(x), attrs, cs) =>
      assert cs == [cs[0]];
      NamedPrinted(n, cs[0], outer, rest);
    case Text(t) =>
      TextLexeme(t, rest);
  }

  lemma ParseWholePrinted(n: HtmlNode.Node, outer: set<string>)
    requires Printable(n, outer)
    ensures ParseWhole(Print(n)) == Ok(LexemeOf(n))
  {
    ParseLexemePrinted(n, outer, []);
    assert Print(n) + [] == Print(n);
  }

  /** `dst` of a printed tree's lexeme appends that very tree. */
  lemma {:induction false} DstPrinted(n: HtmlNode.Node, outer: set<string>, parent: HtmlNode.Node)
    requires Printable(n, outer)
    ensures Dst(LexemeOf(n), parent) == Ok(HtmlNode.AddChild(parent, n))
    decreases n
  {
    match n
    case Element(Fragment, _, _) =>
    case Element(Named(x), attrs, cs) =>
      var c := cs[0];
      ParseWholePrinted(c, outer + {x});
      DstPrinted(c, outer + {x}, HtmlNode.Element(Named(x), attrs, []));
      assert [] + [c] == cs;
    case Text(_) =>
  }

  /** The lexer reads back every printable tree from its print. */
  lemma ParsePrinted(n: HtmlNode.Node)
    requires Printable(n, {})
    ensures Parse(Print(n)) == Ok(n)
  {
    ParseLexemePrinted(n, {}, []);
    assert Print(n) + [] == Print(n);
    if n.Element? && n.element.Named? {
      var x := n.element.name;
      ParseWholePrinted(n.children[0], {} + {x});
      DstPrinted(n.children[0], {} + {x}, HtmlNode.Element(n.element, n.attributes, []));
      assert [] + [n.children[0]] == n.children;
    }
  }

  // ---- single steps ----

  /** `<>` is a `Fragment` tag without a body, whatever follows. */
  lemma FragmentLexeme(rest: seq<Token>)
    ensures ParseLexeme([Punct('<'), Punct('>')] + rest) == Ok(Parsed(Tag(Fragment, [], None), 2))
  {
    var ts := [Punct('<'), Punct('>')] + rest;
    assert ts[0] == Punct('<') && ts[1] == Punct('>');
  }

  /** `{ "s" }` is the text `s`, whatever follows. */
  lemma TextLexeme(s: string, rest: seq<Token>)
    ensures ParseLexeme([Group(Brace, [Str(s)])] + rest) == Ok(Parsed(Text(s), 1))
  {
    var ts := [Group(Brace, [Str(s)])] + rest;
    assert ts[0] == Group(Brace, [Str(s)]);
  }

  /** A stream that starts with neither `<` nor a brace group, the empty one included. */
  lemma InvalidSyntax(ts: seq<Token>)
    requires ts == [] || (ts[0] != Punct('<') && !IsBrace(ts[0]))
    ensures ParseLexeme(ts) == Err(Message("Invalid syntax."))
  {
  }

  /** `<` followed by neither `>` nor a plain identifier. */
  lemma InvalidTag(ts: seq<Token>)
    requires StartsWithPunct(ts, '<')
    requires |ts| < 2 || (ts[1] != Punct('>') && !IsPlainIdent(ts[1]))
    ensures ParseLexeme(ts) == Err(Message("Invalid tag."))
  {
  }

  /** The attributes of a tag end only at `>`: any other token that is no key makes the loop stall. */
  lemma AttributesStall(x: string, t: Token, rest: seq<Token>)
    requires IsPlainIdent(Ident(x)) && t != Punct('>') && !IsPlainIdent(t)
    ensures ParseLexeme([Punct('<'), Ident(x), t] + rest) == Err(Diverges)
  {
    var ts := [Punct('<'), Ident(x), t] + rest;
    assert ts[1] == Ident(x) && ts[2..] == [t] + rest;
    assert ts[2..][0] == t;
  }

  /** `<x>` and a body whose scan gives `children`: a `Named` tag without attributes. */
  lemma BareTag(x: string, body: seq<Token>, ts: seq<Token>, children: seq<Token>, k: nat)
    requires IsPlainIdent(Ident(x)) && ts == [Punct('<'), Ident(x), Punct('>')] + body
    requires ChildrenOf(body, x) == Ok(Parsed(children, k))
    ensures ParseLexeme(ts) == Ok(Parsed(Tag(Named(x), [], Some(children)), 3 + k))
  {
    assert ts == [Punct('<'), Ident(x)] + [] + [Punct('>')] + body;
    OpensShape(x, [], body);
    assert ParseAttributes([Punct('>')] + body, LexerAttrs) == Ok(Parsed([], 0));
    assert [] + ([Punct('>')] + body) == [Punct('>')] + body;
    assert TagParts(ts, [], Parsed([], 0), body, Tag(Named(x), [], Some(children)), 3 + k);
    NamedLexeme(ts, [], Parsed([], 0), body, Tag(Named(x), [], Some(children)), 3 + k);
  }

  /** `<x></x>`: the body is empty, and an empty stream is no lexeme. */
  lemma EmptyElementRefused(x: string)
    requires IsPlainIdent(Ident(x))
    ensures Parse([Punct('<'), Ident(x), Punct('>')] + CloseTag(x)) == Err(Message("Invalid syntax."))
  {
    assert Clean([], x);
    CloseAfterClean([], [], x);
    assert [] + CloseTag(x) + [] == CloseTag(x);
    BareTag(x, CloseTag(x), [Punct('<'), Ident(x), Punct('>')] + CloseTag(x), [], 4);
  }

  // ---- no nesting tracking ----

  /** `<div>{"x"}`: the opening of an inner `div` and its text, without the closing tag. */
  function InnerOpen(): seq<Token> {
    [Punct('<'), Ident("div"), Punct('>'), Group(Brace, [Str("x")])]
  }

  /** `<div><div>{"x"}</div></div>`. */
  function NestedDivs(): seq<Token> {
    [Punct('<'), Ident("div"), Punct('>')] + InnerOpen() + CloseTag("div") + CloseTag("div")
  }

  /** The scan for `</div>` from inside the outer `div` stops at the inner closing tag. */
  lemma NestedScan()
    ensures ChildrenOf(InnerOpen() + CloseTag("div") + CloseTag("div"), "div") == Ok(Parsed(InnerOpen(), 8))
  {
    var i := InnerOpen();
    OpenClean("div", "div");
    NoAngleClean([Punct('>'), Group(Brace, [Str("x")])], "div");
    assert i == [Punct('<'), Ident("div")] + [Punct('>'), Group(Brace, [Str("x")])];
    CleanAppend([Punct('<'), Ident("div")], [Punct('>'), Group(Brace, [Str("x")])], "div");
    CloseAfterClean(i, CloseTag("div"), "div");
  }

  /** The outer lexeme takes the inner opening as its whole body, and the last `</div>` is left over. */
  lemma NestedOuterLexeme()
    ensures ParseLexeme(NestedDivs()) == Ok(Parsed(Tag(Named("div"), [], Some(InnerOpen())), 11))
  {
    PlainName("div");
    NestedScan();
    var body := InnerOpen() + CloseTag("div") + CloseTag("div");
    BareTag("div", body, NestedDivs(), InnerOpen(), 8);
  }

  /** The body `<div>{"x"}` reads as a `div` holding the text, up to the end of the stream. */
  lemma NestedInnerLexeme()
    ensures ParseWhole(InnerOpen()) == Ok(Tag(Named("div"), [], Some([Group(Brace, [Str("x")])])))
  {
    PlainName("div");
    var t := [Group(Brace, [Str("x")])];
    NoAngleClean(t, "div");
    assert t == [] + t;
    BareTag("div", t, InnerOpen(), t, 1);
  }

  /**
   * `<div><div>{"x"}</div></div>` is refused: the outer body ends at the
   * first `</div>`, so the root is built from `<div>{"x"}` and the last
   * `</div>` is left unread.
   */
  lemma NestedSameNameRefused()
    ensures Parse(NestedDivs()) == Err(Message("unexpected token"))
  {
    NestedOuterLexeme();
    NestedInnerLexeme();
    var inner := HtmlNode.Element(Named("div"), [], [HtmlNode.Text("x")]);
    PlainName("div");
    assert Printable(inner, {});
    assert LexemeOf(inner) == Tag(Named("div"), [], Some([Group(Brace, [Str("x")])]));
    DstPrinted(inner, {}, HtmlNode.Element(Named("div"), [], []));
    assert |NestedDivs()| == 15;
  }

}
