/**
 * A printer from trees back to tokens for the recursive parsers, and the round
 * trip: with a body scan that tracks only the element's own name and consumes
 * the closing tag of an empty body, parsing what the printer writes gives the
 * tree back. Conditions, iterables and variables print as one identifier
 * holding their text.
 */
module RecursivePrint {
  import opened Wrappers
  import opened Tokens
  import opened Elements
  import opened Template
  import opened Scan
  import opened BodyScan
  import opened Recursive

  /** The trees the printer writes and the parser reads back. */
  predicate WellFormed(n: Node, c: Config)
    decreases n
  {
    match n.value
    case Tag(e, attrs) =>
      && e.Named? && IsPlainIdent(Ident(e.name))
      && (forall i :: 0 <= i < |attrs| ==> WellFormedAttr(attrs[i], c.syntax))
      && (IsVoid(e) ==> n.children == [])
      && WellFormedSeq(n.children, c)
    case Text(_) => n.children == []
    case Var(_) => n.children == []
    case For(x, it) => IsPlainIdent(Ident(x)) && IsPlainIdent(Ident(it)) && WellFormedSeq(n.children, c)
    case _ => WellFormedSeq(n.children, c)
  }

  predicate WellFormedSeq(cs: seq<Node>, c: Config)
    decreases cs
  {
    forall i :: 0 <= i < |cs| ==> WellFormed(cs[i], c)
  }

  function OpenTokens(e: Element, attrs: seq<Attribute>): seq<Token> {
    [Punct('<'), Ident(ElementName(e))] + PrintAttrs(attrs) + [Punct('>')]
  }

  function CloseTokens(e: Element): seq<Token> {
    [Punct('<'), Punct('/'), Ident(ElementName(e)), Punct('>')]
  }

  /** The tokens before a control-flow construct's body. */
  function Head(lex: Lex, c: Config): seq<Token> {
    match lex
    case If(cond) => [Ident("if"), Ident(cond)]
    case ElseIf(cond) => [Ident("else"), Ident("if"), Ident(cond)]
    case Else => [Ident("else")]
    case For(x, it) => if c.iterFirst then [Ident("for"), Ident(it), Ident("in"), Ident(x)] else [Ident("for"), Ident(x), Ident("in"), Ident(it)]
    case _ => []
  }

  function Print(n: Node, c: Config): seq<Token>
    decreases n, 1
  {
    match n.value
    case Tag(e, attrs) => OpenTokens(e, attrs) + (if IsVoid(e) then [] else PrintSeq(n.children, c) + CloseTokens(e))
    case Text(t) => [Group(Brace, [Str(t)])]
    case Var(v) => [Group(Brace, [Group(Brace, [Ident(v)])])]
    case _ => Head(n.value, c) + [Group(Brace, PrintSeq(n.children, c))]
  }

  function PrintSeq(cs: seq<Node>, c: Config): seq<Token>
    decreases cs
  {
    if cs == [] then [] else Print(cs[0], c) + PrintSeq(cs[1..], c)
  }

  /** No `<` among the trees. */
  predicate NoAngle(a: seq<Token>) {
    forall i :: 0 <= i < |a| ==> a[i] != Punct('<')
  }

  lemma {:induction false} PrintAttrsNoAngle(attrs: seq<Attribute>)
    ensures NoAngle(PrintAttrs(attrs))
    decreases attrs
  {
    if attrs != [] {
      PrintAttrsNoAngle(attrs[1..]);
      var a := PrintAttr(attrs[0]);
      assert PrintAttrs(attrs) == a + PrintAttrs(attrs[1..]);
      assert NoAngle(a);
    }
  }

  lemma {:induction false} PrintNonEmpty(cs: seq<Node>, c: Config)
    ensures PrintSeq(cs, c) == [] <==> cs == []
  {
    if cs != [] {
      assert |Print(cs[0], c)| > 0;
    }
  }

  // ---- the body scan over printed trees ----

  /** Trees without `<` are kept one by one. */
  lemma {:induction false} FindPlain(a: seq<Token>, tail: seq<Token>, name: string, open: seq<string>, nesting: Nesting)
    requires NoAngle(a)
    ensures Find(a + tail, name, open, nesting) == Shift(|a|, Find(tail, name, open, nesting))
    decreases |a|
  {
    if a == [] {
      assert a + tail == tail;
    } else {
      var ts := a + tail;
      assert ts[0] == a[0] && ts[0] != Punct('<');
      assert Look(ts, name, open, nesting) == Skip(1, open);
      FindStep(ts, name, open, nesting, 1, open);
      assert ts[1..] == a[1..] + tail;
      FindPlain(a[1..], tail, name, open, nesting);
    }
  }

  /** The look at `<x`: the element's own name goes onto the stack, other names do not. */
  lemma LookOpen(x: string, r: seq<Token>, name: string, open: seq<string>)
    ensures Look([Punct('<'), Ident(x)] + r, name, open, SameName) == Skip(2, if x == name then open + [name] else open)
  {
    var ts := [Punct('<'), Ident(x)] + r;
    assert ts[0] == Punct('<') && ts[1] == Ident(x) && |ts| >= 2;
    assert Opened(ts, name, open, SameName) == if x == name then open + [name] else open;
  }

  /** `<x attrs>` is kept whole, with the stack as `LookOpen` leaves it. */
  lemma FindOpenTag(x: string, pa: seq<Token>, tail: seq<Token>, name: string, open: seq<string>)
    requires NoAngle(pa)
    ensures Find([Punct('<'), Ident(x)] + pa + [Punct('>')] + tail, name, open, SameName)
      == Shift(3 + |pa|, Find(tail, name, if x == name then open + [name] else open, SameName))
  {
    var ts := [Punct('<'), Ident(x)] + pa + [Punct('>')] + tail;
    var o := if x == name then open + [name] else open;
    var a := pa + [Punct('>')];
    OpenShape(x, pa, tail);
    assert ts == [Punct('<'), Ident(x)] + ts[2..];
    LookOpen(x, ts[2..], name, open);
    FindStep(ts, name, open, SameName, 2, o);
    assert ts[2..] == a + tail;
    assert NoAngle(a);
    FindPlain(a, tail, name, o, SameName);
  }

  /** `</x>`: the element's own name pops the stack, other names are kept as they are. */
  lemma FindCloseTag(x: string, tail: seq<Token>, name: string, open: seq<string>)
    requires x == name ==> open != [] && open[|open| - 1] == name
    ensures Find([Punct('<'), Punct('/'), Ident(x), Punct('>')] + tail, name, open, SameName)
      == Shift(4, Find(tail, name, if x == name then open[..|open| - 1] else open, SameName))
  {
    var ts := [Punct('<'), Punct('/'), Ident(x), Punct('>')] + tail;
    assert ts[0] == Punct('<') && ts[1] == Punct('/') && ts[2] == Ident(x) && ts[3] == Punct('>');
    if x == name {
      assert Look(ts, name, open, SameName) == Skip(4, open[..|open| - 1]);
      FindStep(ts, name, open, SameName, 4, open[..|open| - 1]);
      assert ts[4..] == tail;
    } else {
      assert Look(ts, name, open, SameName) == Skip(3, open);
      FindStep(ts, name, open, SameName, 3, open);
      assert ts[3..] == [Punct('>')] + tail;
      FindPlain([Punct('>')], tail, name, open, SameName);
    }
  }

  lemma ShiftTwice(a: nat, b: nat, r: Option<nat>)
    ensures Shift(a, Shift(b, r)) == Shift(a + b, r)
  {
  }

  lemma Assoc(a: seq<Token>, b: seq<Token>, c: seq<Token>)
    ensures (a + b) + c == a + (b + c) && |a + b| == |a| + |b|
  {
  }

  lemma Regroup(a: seq<Token>, b: seq<Token>, c: seq<Token>, d: seq<Token>)
    ensures (a + (b + c)) + d == a + (b + (c + d))
  {
  }

  /** What the element's own name does to the stack at its opening tag. */
  function Pushed(e: Element, name: string, open: seq<string>): seq<string> {
    if ElementName(e) == name then open + [name] else open
  }

  /** An opening tag as the printer writes it is kept whole. */
  lemma FindOpenTokens(e: Element, attrs: seq<Attribute>, tail: seq<Token>, name: string, open: seq<string>)
    requires e.Named?
    ensures Find(OpenTokens(e, attrs) + tail, name, open, SameName)
      == Shift(|OpenTokens(e, attrs)|, Find(tail, name, Pushed(e, name, open), SameName))
  {
    PrintAttrsNoAngle(attrs);
    assert OpenTokens(e, attrs) == [Punct('<'), Ident(e.name)] + PrintAttrs(attrs) + [Punct('>')];
    FindOpenTag(e.name, PrintAttrs(attrs), tail, name, open);
  }

  /** A closing tag as the printer writes it is kept whole and undoes `Pushed`. */
  lemma FindCloseTokens(e: Element, tail: seq<Token>, name: string, open: seq<string>)
    requires e.Named?
    ensures Find(CloseTokens(e) + tail, name, Pushed(e, name, open), SameName)
      == Shift(|CloseTokens(e)|, Find(tail, name, open, SameName))
  {
    var o := Pushed(e, name, open);
    FindCloseTag(e.name, tail, name, o);
    assert (if e.name == name then o[..|o| - 1] else o) == open;
  }

  /** Two kept stretches in a row. */
  lemma FindThen(a: seq<Token>, b: seq<Token>, tail: seq<Token>, name: string, open: seq<string>, mid: seq<string>, last: seq<string>)
    requires Find(a + (b + tail), name, open, SameName) == Shift(|a|, Find(b + tail, name, mid, SameName))
    requires Find(b + tail, name, mid, SameName) == Shift(|b|, Find(tail, name, last, SameName))
    ensures Find((a + b) + tail, name, open, SameName) == Shift(|a + b|, Find(tail, name, last, SameName))
  {
    Assoc(a, b, tail);
    ShiftTwice(|a|, |b|, Find(tail, name, last, SameName));
  }

  /** A printed tree is kept whole by the scan and leaves the tag stack as it found it. */
  lemma {:induction false} FindPrinted(n: Node, tail: seq<Token>, name: string, open: seq<string>, c: Config)
    requires WellFormed(n, c) && AllNamed(open, name) && !IsVoid(Named(name))
    ensures Find(Print(n, c) + tail, name, open, SameName) == Shift(|Print(n, c)|, Find(tail, name, open, SameName))
    decreases n, 1
  {
    if n.value.Tag? {
      FindPrintedTag(n, tail, name, open, c);
    } else {
      assert NoAngle(Print(n, c));
      FindPlain(Print(n, c), tail, name, open, SameName);
    }
  }

  lemma {:induction false} FindPrintedTag(n: Node, tail: seq<Token>, name: string, open: seq<string>, c: Config)
    requires WellFormed(n, c) && n.value.Tag? && AllNamed(open, name) && !IsVoid(Named(name))
    ensures Find(Print(n, c) + tail, name, open, SameName) == Shift(|Print(n, c)|, Find(tail, name, open, SameName))
    decreases n, 0
  {
    var e := n.value.element;
    var attrs := n.value.attributes;
    if IsVoid(e) {
      assert Pushed(e, name, open) == open;
      assert Print(n, c) == OpenTokens(e, attrs);
      FindOpenTokens(e, attrs, tail, name, open);
    } else {
      var o := Pushed(e, name, open);
      var open', body, close := OpenTokens(e, attrs), PrintSeq(n.children, c), CloseTokens(e);
      assert WellFormedSeq(n.children, c);
      FindPrintedSeq(n.children, close + tail, name, o, c);
      FindCloseTokens(e, tail, name, open);
      FindThen(body, close, tail, name, o, o, open);
      FindOpenTokens(e, attrs, (body + close) + tail, name, open);
      FindThen(open', body + close, tail, name, open, o, open);
      assert Print(n, c) == open' + (body + close);
    }
  }

  lemma {:induction false} FindPrintedSeq(cs: seq<Node>, tail: seq<Token>, name: string, open: seq<string>, c: Config)
    requires WellFormedSeq(cs, c) && AllNamed(open, name) && !IsVoid(Named(name))
    ensures Find(PrintSeq(cs, c) + tail, name, open, SameName) == Shift(|PrintSeq(cs, c)|, Find(tail, name, open, SameName))
    decreases cs, 0
  {
    if cs == [] {
      assert PrintSeq(cs, c) + tail == tail;
    } else {
      var a, b := Print(cs[0], c), PrintSeq(cs[1..], c);
      FindPrinted(cs[0], b + tail, name, open, c);
      FindPrintedSeq(cs[1..], tail, name, open, c);
      FindThen(a, b, tail, name, open, open, open);
      assert PrintSeq(cs, c) == a + b;
    }
  }

  /** The body scan after a printed opening tag finds exactly the printed children. */
  lemma NextInputPrinted(cs: seq<Node>, e: Element, rest: seq<Token>, c: Config)
    requires WellFormedSeq(cs, c) && e.Named? && !IsVoid(e)
    ensures var body := PrintSeq(cs, c);
      NextInput(body + (CloseTokens(e) + rest), e.name, SameName, SkipsClose)
        == if body == [] then Parsed(None, 4) else Parsed(Some(body), |body| + 4)
  {
    var body := PrintSeq(cs, c);
    var ts := body + (CloseTokens(e) + rest);
    var close := CloseTokens(e) + rest;
    FindPrintedSeq(cs, close, e.name, [], c);
    assert close[0] == Punct('<') && close[1] == Punct('/') && close[2] == Ident(e.name) && close[3] == Punct('>');
    assert Look(close, e.name, [], SameName) == Stop;
    FindStop(close, e.name, [], SameName);
    NextInputFound(ts, e.name, SameName, SkipsClose, |body|);
    assert ts[..|body|] == body;
  }

  // ---- parsing printed trees ----

  /** A configuration under which printed trees read back. */
  predicate RoundTrips(c: Config) {
    c.nesting == SameName && c.empty == SkipsClose
  }

  /** Printing then parsing gives back the nodes under a `Fragment` root. */
  lemma ParsePrinted(cs: seq<Node>, c: Config)
    requires RoundTrips(c) && WellFormedSeq(cs, c)
    ensures Parse(PrintSeq(cs, c), c) == Ok(Node(cs, Tag(Fragment, [])))
  {
    IntoPrinted(cs, Root, c);
    assert Root.children + cs == cs;
  }

  lemma {:induction false} IntoPrinted(cs: seq<Node>, html: Node, c: Config)
    requires RoundTrips(c) && WellFormedSeq(cs, c)
    ensures ParseInto(PrintSeq(cs, c), html, c) == Ok(Node(html.children + cs, html.value))
    decreases cs, 0
  {
    if cs == [] {
      assert html.children + cs == html.children;
    } else {
      var head, tail := Print(cs[0], c), PrintSeq(cs[1..], c);
      ItemPrinted(cs[0], tail, c);
      IntoPrinted(cs[1..], AppendChild(html, cs[0]), c);
      IntoCons(head, tail, html, cs[0], cs[1..], c);
      assert [cs[0]] + cs[1..] == cs;
      assert PrintSeq(cs, c) == head + tail;
    }
  }

  /** A construct read at the head, then the rest read after it. */
  lemma IntoCons(head: seq<Token>, tail: seq<Token>, html: Node, n: Node, more: seq<Node>, c: Config)
    requires head + tail != [] && Item(head + tail, c) == Ok(Parsed(n, |head|))
    requires ParseInto(tail, AppendChild(html, n), c) == Ok(Node(AppendChild(html, n).children + more, html.value))
    ensures ParseInto(head + tail, html, c) == Ok(Node(html.children + ([n] + more), html.value))
  {
    IntoStep(head + tail, html, c, Parsed(n, |head|));
    assert (head + tail)[|head|..] == tail;
    assert AppendChild(html, n).children + more == html.children + ([n] + more);
  }

  /** One printed tree, followed by anything, is read back as one construct. */
  lemma {:induction false} ItemPrinted(n: Node, rest: seq<Token>, c: Config)
    requires RoundTrips(c) && WellFormed(n, c)
    ensures Item(Print(n, c) + rest, c) == Ok(Parsed(n, |Print(n, c)|))
    decreases n, 2
  {
    var ts := Print(n, c) + rest;
    match n.value
    case Tag(e, attrs) =>
      TagPrinted(n, rest, c);
    case Text(t) =>
      assert ts[0] == Group(Brace, [Str(t)]);
      assert n == Node([], Text(t));
    case Var(v) =>
      assert ts[0] == Group(Brace, [Group(Brace, [Ident(v)])]);
      assert ConcatText([Ident(v)]) == v;
      assert n == Node([], Var(v));
    case _ =>
      ControlPrinted(n, rest, c);
  }

  /** A printed opening tag, read by `Element`, hands what follows it to `Children`. */
  lemma OpenPrinted(e: Element, attrs: seq<Attribute>, tail: seq<Token>, c: Config)
    requires e.Named? && IsPlainIdent(Ident(e.name))
    requires forall i :: 0 <= i < |attrs| ==> WellFormedAttr(attrs[i], c.syntax)
    ensures var ts := OpenTokens(e, attrs) + tail;
      && |ts| >= 2 && ts[0] == Punct('<') && IsPlainIdent(ts[1])
      && Recursive.Element(ts, c) == Children(ts, |OpenTokens(e, attrs)|, Tag(e, attrs), c)
      && ts[|OpenTokens(e, attrs)|..] == tail
  {
    var ts := OpenTokens(e, attrs) + tail;
    OpenParts(e, attrs, tail);
    ParseAttrsPrinted(attrs, [Punct('>')] + tail, c.syntax);
    Recursive.ElementOpens(ts, c);
    Recursive.TagEndCloses(ts, 2 + 3 * |attrs|, Tag(e, attrs), c);
  }

  /** Where the parts of a printed opening tag sit. */
  lemma OpenParts(e: Element, attrs: seq<Attribute>, tail: seq<Token>)
    requires e.Named?
    ensures var ts := OpenTokens(e, attrs) + tail;
      && |OpenTokens(e, attrs)| == 3 + 3 * |attrs| && |ts| >= 3 + 3 * |attrs|
      && ts[0] == Punct('<') && ts[1] == Ident(e.name) && Named(ts[1].name) == e
      && ts[2..] == PrintAttrs(attrs) + ([Punct('>')] + tail) && ts[2 + 3 * |attrs|] == Punct('>')
      && ts[|OpenTokens(e, attrs)|..] == tail
  {
    var ts := OpenTokens(e, attrs) + tail;
    OpenShape(e.name, PrintAttrs(attrs), tail);
    assert ts == [Punct('<'), Ident(e.name)] + PrintAttrs(attrs) + [Punct('>')] + tail;
  }

  lemma ItemElement(ts: seq<Token>, c: Config)
    requires |ts| >= 2 && ts[0] == Punct('<') && IsPlainIdent(ts[1])
    ensures Item(ts, c) == Recursive.Element(ts, c)
  {
  }

  /** The tokens of a printed element. */
  lemma PrintTag(n: Node, c: Config)
    requires n.value.Tag?
    ensures var e := n.value.element;
      Print(n, c) == if IsVoid(e) then OpenTokens(e, n.value.attributes)
        else OpenTokens(e, n.value.attributes) + (PrintSeq(n.children, c) + CloseTokens(e))
  {
  }

  lemma {:induction false} TagPrinted(n: Node, rest: seq<Token>, c: Config)
    requires RoundTrips(c) && WellFormed(n, c) && n.value.Tag?
    ensures Item(Print(n, c) + rest, c) == Ok(Parsed(n, |Print(n, c)|))
    decreases n, 1
  {
    var e := n.value.element;
    var attrs := n.value.attributes;
    var open := OpenTokens(e, attrs);
    PrintTag(n, c);
    if IsVoid(e) {
      OpenPrinted(e, attrs, rest, c);
      ItemElement(open + rest, c);
      assert n == Node([], n.value);
    } else {
      var body, close := PrintSeq(n.children, c), CloseTokens(e);
      var tail := body + (close + rest);
      var ts := open + tail;
      Regroup(open, body, close, rest);
      OpenPrinted(e, attrs, tail, c);
      ItemElement(ts, c);
      ChildrenPrinted(n, ts, |open|, rest, c);
      assert |Print(n, c)| == |open| + |body| + 4;
    }
  }

  /** `Children` after a printed opening tag, with the printed children and closing tag next. */
  lemma {:induction false} ChildrenPrinted(n: Node, ts: seq<Token>, at: nat, rest: seq<Token>, c: Config)
    requires RoundTrips(c) && WellFormed(n, c) && n.value.Tag? && n.value.element.Named? && !IsVoid(n.value.element)
    requires 3 <= at <= |ts| && ts[at..] == PrintSeq(n.children, c) + (CloseTokens(n.value.element) + rest)
    ensures Children(ts, at, n.value, c) == Ok(Parsed(n, at + |PrintSeq(n.children, c)| + 4))
    decreases n, 0
  {
    var body := PrintSeq(n.children, c);
    var e := n.value.element;
    NextInputPrinted(n.children, e, rest, c);
    var next := NextInput(ts[at..], e.name, c.nesting, c.empty);
    assert next == if body == [] then Parsed(None, 4) else Parsed(Some(body), |body| + 4);
    PrintNonEmpty(n.children, c);
    if body == [] {
      assert n == Node([], n.value);
    } else {
      IntoPrinted(n.children, Node([], n.value), c);
      assert [] + n.children == n.children;
    }
  }

  /** The condition scan over one identifier before the body group. */
  lemma UntilBraceOne(t: Token, g: Token, rest: seq<Token>, missing: string)
    requires !IsBrace(t) && IsBrace(g)
    ensures UntilBrace([t, g] + rest, missing) == Ok(Parsed([t], 1))
  {
    var ts := [t, g] + rest;
    assert ts[1..] == [g] + rest;
    assert FirstBrace(ts[1..]) == Some(0);
    assert ts[..1] == [t];
  }

  /** A printed body group, parsed as a block, gives the construct back. */
  lemma {:induction false} BlockPrinted(n: Node, ts: seq<Token>, at: nat, c: Config)
    requires RoundTrips(c) && WellFormed(n, c) && 0 < at < |ts| && ts[at] == Group(Brace, PrintSeq(n.children, c))
    requires !n.value.Tag? && !n.value.Text? && !n.value.Var?
    ensures Block(ts, at, n.value, c) == Ok(Parsed(n, at + 1))
    decreases n, 0
  {
    SeqSizeInner(ts, at);
    IntoPrinted(n.children, Node([], n.value), c);
    assert [] + n.children == n.children;
  }

  lemma {:induction false} ControlPrinted(n: Node, rest: seq<Token>, c: Config)
    requires RoundTrips(c) && WellFormed(n, c) && !n.value.Tag? && !n.value.Text? && !n.value.Var?
    ensures Item(Print(n, c) + rest, c) == Ok(Parsed(n, |Print(n, c)|))
    decreases n, 1
  {
    var h := Head(n.value, c);
    var g := Group(Brace, PrintSeq(n.children, c));
    var ts := Print(n, c) + rest;
    assert ts == h + [g] + rest;
    var at := |h|;
    assert ts[at] == g;
    match n.value
    case If(cond) =>
      assert ts[1..] == [Ident(cond), g] + rest;
      UntilBraceOne(Ident(cond), g, rest, "Condition shuold be here.");
      assert StreamText([Ident(cond)]) == cond;
      BlockPrinted(n, ts, at, c);
    case ElseIf(cond) =>
      assert ts[2..] == [Ident(cond), g] + rest;
      UntilBraceOne(Ident(cond), g, rest, "Condition shuold be here.");
      assert StreamText([Ident(cond)]) == cond;
      BlockPrinted(n, ts, at, c);
    case Else =>
      BlockPrinted(n, ts, at, c);
    case For(x, it) =>
      assert ForOf(ts[1].name, ts[3].name, c) == n.value;
      BlockPrinted(n, ts, at, c);
  }
}
