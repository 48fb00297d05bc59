/**
 * The scanning helpers the template parsers share: `extract_condition` /
 * `extract_iter`, `extract_variable`, and `Attribute::parse` with its loop in
 * the tag parser. The parsers differ only in which attribute forms they
 * accept, which `AttrSyntax` records.
 */
module Scan {
  import opened Wrappers
  import opened Tokens
  import opened Template

  /**
   * A parse error: syn's error with its message, or a loop of the parser that
   * makes no progress and never ends.
   */
  datatype Error = Message(text: string) | Diverges

  /** What a parse step consumed and produced. */
  datatype Parsed<T> = Parsed(value: T, n: nat)

  /**
   * Which attributes a parser accepts:
   * `typeKey`    — the keyword `type` may be a key (html5.rs);
   * `exprValue`  — a value may be `{{ expr }}` (html.rs, html5.rs);
   * `slashEnds`  — the attribute list also ends at `/` (all but lexer.rs).
   */
  datatype AttrSyntax = AttrSyntax(typeKey: bool, exprValue: bool, slashEnds: bool)

  const Html5Attrs := AttrSyntax(true, true, true)
  const HtmlAttrs := AttrSyntax(false, true, true)
  const Html2Attrs := AttrSyntax(false, false, true)
  const LexerAttrs := AttrSyntax(false, false, false)

  /** The position of the first `{ … }` group, if any. */
  function FirstBrace(ts: seq<Token>): (r: Option<nat>)
    ensures r.Some? ==> r.value < |ts| && IsBrace(ts[r.value])
    ensures r.Some? ==> forall i :: 0 <= i < r.value ==> !IsBrace(ts[i])
    ensures r.None? ==> forall i :: 0 <= i < |ts| ==> !IsBrace(ts[i])
    decreases ts
  {
    if ts == [] then None
    else if IsBrace(ts[0]) then Some(0)
    else match FirstBrace(ts[1..])
      case None => None
      case Some(k) => Some(k + 1)
  }

  /**
   * `extract_condition` and `extract_iter`: the token trees before the first
   * brace group, and how many were consumed. Without a brace group the trees
   * are returned but nothing is consumed; with no trees at all the result is
   * the error `missing`.
   */
  function UntilBrace(ts: seq<Token>, missing: string): (r: Result<Parsed<seq<Token>>, Error>)
    ensures r.Err? <==> ts == []
    ensures r.Err? ==> r.error == Message(missing)
    ensures r.Ok? ==> r.value.n < |ts|
    ensures r.Ok? ==> forall i :: 0 <= i < |r.value.value| ==> !IsBrace(r.value.value[i])
    ensures r.Ok? && IsBrace(ts[r.value.n]) ==> r.value.value == ts[..r.value.n]
    ensures r.Ok? && !IsBrace(ts[r.value.n]) ==> r.value == Parsed(ts, 0) && FirstBrace(ts).None?
  {
    match FirstBrace(ts)
    case Some(k) => Ok(Parsed(ts[..k], k))
    case None => if ts == [] then Err(Message(missing)) else Ok(Parsed(ts, 0))
  }

  /** The cursor loop of `extract_condition` / `extract_iter`. */
  method ExtractUntilBrace(ts: seq<Token>, missing: string) returns (r: Result<Parsed<seq<Token>>, Error>)
    ensures r == UntilBrace(ts, missing)
  {
    var tokens: seq<Token> := [];
    var i := 0;
    while i < |ts|
      invariant 0 <= i <= |ts|
      invariant tokens == ts[..i]
      invariant forall j :: 0 <= j < i ==> !IsBrace(ts[j])
      invariant FirstBrace(ts).Some? ==> FirstBrace(ts).value >= i
    {
      FirstBraceShift(ts, i);
      if IsBrace(ts[i]) {
        return Ok(Parsed(tokens, i));
      }
      tokens := tokens + [ts[i]];
      i := i + 1;
    }
    if tokens == [] {
      r := Err(Message(missing));
    } else {
      assert tokens == ts;
      r := Ok(Parsed(tokens, 0));
    }
  }

  lemma {:induction false} FirstBraceShift(ts: seq<Token>, i: nat)
    requires i < |ts|
    requires forall j :: 0 <= j < i ==> !IsBrace(ts[j])
    ensures IsBrace(ts[i]) ==> FirstBrace(ts) == Some(i)
    decreases i
  {
    if i > 0 {
      FirstBraceShift(ts[1..], i - 1);
    }
  }

  /** `extract_variable`: every tree's text, run together, consuming the whole buffer. */
  method ExtractVariable(ts: seq<Token>) returns (r: string)
    ensures r == ConcatText(ts)
  {
    r := "";
    var i := 0;
    while i < |ts|
      invariant 0 <= i <= |ts|
      invariant r == ConcatText(ts[..i])
    {
      assert ts[..i + 1] == ts[..i] + [ts[i]];
      ConcatTextAppend(ts[..i], [ts[i]]);
      ConcatTextOne(ts[i]);
      r := r + TokenText(ts[i]);
      i := i + 1;
    }
    assert ts[..i] == ts;
  }

  /** Whether the attribute loop will hand the input to `Attribute::parse`. */
  predicate StartsAttribute(ts: seq<Token>, syntax: AttrSyntax) {
    |ts| > 0 && (IsPlainIdent(ts[0]) || (syntax.typeKey && ts[0] == Ident("type")))
  }

  /** Whether the attribute loop stops before the input. */
  predicate EndsAttributes(ts: seq<Token>, syntax: AttrSyntax) {
    StartsWithPunct(ts, '>') || (syntax.slashEnds && StartsWithPunct(ts, '/'))
  }

  /**
   * `Attribute::parse`: a key, `=`, then a string literal or, where the syntax
   * allows it, an expression in double braces. It consumes three trees.
   */
  function ParseAttribute(ts: seq<Token>, syntax: AttrSyntax): (r: Result<Parsed<Attribute>, Error>)
    ensures r.Ok? ==> r.value.n == 3 <= |ts| && StartsAttribute(ts, syntax) && ts[1] == Punct('=')
    ensures r.Ok? ==> r.value.value.key == ts[0].name
    ensures r.Ok? && r.value.value.value.AText? ==> ts[2] == Str(r.value.value.value.text)
    ensures r.Ok? && r.value.value.value.AVar? ==>
      syntax.exprValue && ts[2] == Group(Brace, [Group(Brace, r.value.value.value.expr)]) && r.value.value.value.expr != []
    ensures !StartsAttribute(ts, syntax) ==> r == Err(Message("Some attributes should be here."))
  {
    if !StartsAttribute(ts, syntax) then Err(Message("Some attributes should be here."))
    else if |ts| < 2 || ts[1] != Punct('=') then Err(Message("expected `=`"))
    else if |ts| >= 3 && syntax.exprValue && IsBrace(ts[2]) then
      var outer := ts[2].inner;
      if |outer| == 0 || !IsBrace(outer[0]) then Err(Message("expected curly braces"))
      else if outer[0].inner == [] then Err(Message("expected an expression"))
      else if |outer| > 1 then Err(Message("unexpected token"))
      else Ok(Parsed(Attribute(ts[0].name, AVar(outer[0].inner)), 3))
    else if |ts| >= 3 && ts[2].Str? then Ok(Parsed(Attribute(ts[0].name, AText(ts[2].value)), 3))
    else Err(Message("expected string literal"))
  }

  /**
   * The attribute loop of a tag: attributes until `>` (or `/`), and how many
   * trees they took. Any other token, or the end of the input, stalls the loop.
   */
  function ParseAttributes(ts: seq<Token>, syntax: AttrSyntax): (r: Result<Parsed<seq<Attribute>>, Error>)
    ensures r.Ok? ==> r.value.n == 3 * |r.value.value| <= |ts| && EndsAttributes(ts[r.value.n..], syntax)
    ensures !EndsAttributes(ts, syntax) && !StartsAttribute(ts, syntax) ==> r == Err(Diverges)
    decreases |ts|
  {
    if EndsAttributes(ts, syntax) then Ok(Parsed([], 0))
    else if !StartsAttribute(ts, syntax) then Err(Diverges)
    else match ParseAttribute(ts, syntax)
      case Err(e) => Err(e)
      case Ok(a) =>
        match ParseAttributes(ts[3..], syntax)
        case Err(e) => Err(e)
        case Ok(rest) =>
          assert ts[3..][rest.n..] == ts[3 + rest.n..];
          Ok(Parsed([a.value] + rest.value, 3 + rest.n))
  }

  /** `r` with `attrs` put in front and `pos` more trees consumed. */
  function After(attrs: seq<Attribute>, pos: nat, r: Result<Parsed<seq<Attribute>>, Error>): Result<Parsed<seq<Attribute>>, Error> {
    match r
    case Err(e) => Err(e)
    case Ok(p) => Ok(Parsed(attrs + p.value, pos + p.n))
  }

  lemma AfterAfter(attrs: seq<Attribute>, pos: nat, a: Attribute, r: Result<Parsed<seq<Attribute>>, Error>)
    ensures After(attrs, pos, After([a], 3, r)) == After(attrs + [a], pos + 3, r)
  {
    if r.Ok? {
      assert attrs + ([a] + r.value.value) == (attrs + [a]) + r.value.value;
    }
  }

  /** The `while` loop collecting a tag's attributes. */
  method ScanAttributes(ts: seq<Token>, syntax: AttrSyntax) returns (r: Result<Parsed<seq<Attribute>>, Error>)
    ensures r == ParseAttributes(ts, syntax)
  {
    var attrs: seq<Attribute> := [];
    var pos := 0;
    assert ts[pos..] == ts;
    if ParseAttributes(ts, syntax).Ok? {
      assert attrs + ParseAttributes(ts, syntax).value.value == ParseAttributes(ts, syntax).value.value;
    }
    while !EndsAttributes(ts[pos..], syntax)
      invariant 0 <= pos <= |ts| && pos == 3 * |attrs|
      invariant ParseAttributes(ts, syntax) == After(attrs, pos, ParseAttributes(ts[pos..], syntax))
      decreases |ts| - pos
    {
      if !StartsAttribute(ts[pos..], syntax) {
        return Err(Diverges);
      }
      var a := ParseAttribute(ts[pos..], syntax);
      if a.Err? {
        return Err(a.error);
      }
      assert ts[pos..][3..] == ts[pos + 3..];
      assert ParseAttributes(ts[pos..], syntax) == After([a.value.value], 3, ParseAttributes(ts[pos + 3..], syntax));
      AfterAfter(attrs, pos, a.value.value, ParseAttributes(ts[pos + 3..], syntax));
      attrs := attrs + [a.value.value];
      pos := pos + 3;
    }
    assert attrs + [] == attrs;
    r := Ok(Parsed(attrs, pos));
  }

  /** Every attribute a syntax without expression values accepts is a string literal. */
  lemma {:induction false} TextOnlyAttributes(ts: seq<Token>, syntax: AttrSyntax)
    requires !syntax.exprValue
    requires ParseAttributes(ts, syntax).Ok?
    ensures forall a :: a in ParseAttributes(ts, syntax).value.value ==> a.value.AText?
    decreases |ts|
  {
    if !EndsAttributes(ts, syntax) {
      TextOnlyAttributes(ts[3..], syntax);
    }
  }

  /** An attribute the given syntax reads back from what `PrintAttr` writes. */
  predicate WellFormedAttr(a: Attribute, syntax: AttrSyntax) {
    && (IsPlainIdent(Ident(a.key)) || (syntax.typeKey && a.key == "type"))
    && (a.value.AVar? ==> syntax.exprValue && a.value.expr != [])
  }

  /** `key = "text"` or `key = {{ expr }}`. */
  function PrintAttr(a: Attribute): seq<Token> {
    [Ident(a.key), Punct('='), match a.value case AText(t) => Str(t) case AVar(e) => Group(Brace, [Group(Brace, e)])]
  }

  function PrintAttrs(attrs: seq<Attribute>): (r: seq<Token>)
    ensures |r| == 3 * |attrs|
  {
    if attrs == [] then [] else PrintAttr(attrs[0]) + PrintAttrs(attrs[1..])
  }

  lemma ParseAttrPrinted(a: Attribute, rest: seq<Token>, syntax: AttrSyntax)
    requires WellFormedAttr(a, syntax)
    ensures ParseAttribute(PrintAttr(a) + rest, syntax) == Ok(Parsed(a, 3))
  {
    var ts := PrintAttr(a) + rest;
    assert ts[0] == Ident(a.key) && ts[1] == Punct('=');
    match a.value
    case AText(t) =>
      assert ts[2] == Str(t);
    case AVar(e) =>
      assert ts[2] == Group(Brace, [Group(Brace, e)]);
  }

  /** The attribute loop reads back every printed attribute, in order, and stops at `rest`. */
  lemma {:induction false} ParseAttrsPrinted(attrs: seq<Attribute>, rest: seq<Token>, syntax: AttrSyntax)
    requires forall i :: 0 <= i < |attrs| ==> WellFormedAttr(attrs[i], syntax)
    requires EndsAttributes(rest, syntax)
    ensures ParseAttributes(PrintAttrs(attrs) + rest, syntax) == Ok(Parsed(attrs, 3 * |attrs|))
    decreases attrs
  {
    var ts := PrintAttrs(attrs) + rest;
    if attrs == [] {
      assert ts == rest;
    } else {
      var tail := PrintAttrs(attrs[1..]) + rest;
      assert ts == PrintAttr(attrs[0]) + tail;
      assert ts[3..] == tail;
      assert ts[0] == Ident(attrs[0].key);
      assert !EndsAttributes(ts, syntax) && StartsAttribute(ts, syntax);
      ParseAttrPrinted(attrs[0], tail, syntax);
      ParseAttrsPrinted(attrs[1..], rest, syntax);
      assert [attrs[0]] + attrs[1..] == attrs;
    }
  }

  /** Where the parts of a printed opening tag sit. */
  lemma OpenShape(name: string, pa: seq<Token>, tail: seq<Token>)
    ensures var ts := [Punct('<'), Ident(name)] + pa + [Punct('>')] + tail;
      |ts| > 2 + |pa| && ts[1] == Ident(name) && ts[2..] == pa + ([Punct('>')] + tail) && ts[2 + |pa|] == Punct('>')
  {
    var ts := [Punct('<'), Ident(name)] + pa + [Punct('>')] + tail;
    assert ts == [Punct('<'), Ident(name)] + (pa + ([Punct('>')] + tail));
  }
}
