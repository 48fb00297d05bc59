/**
 * `Html2` of `html2.rs`: the older recursive parser. Attribute values are
 * string literals only, `for a in b` stores `a` as the iterable and `b` as
 * the variable, and the body scan leaves the cursor before the closing tag of
 * an empty body. `ParseAsWritten` is the parser as the file has it; `Parse`
 * has the scan record only the element's own name and consume the closing
 * tag of an empty body, as `html.rs` does.
 */
module Html2 {
  import opened Wrappers
  import opened Tokens
  import opened Elements
  import opened Template
  import opened Scan
  import opened BodyScan
  import Recursive
  import RecursivePrint
  import Html

  const AsWritten := Recursive.Config(Html2Attrs, true, EveryTag, KeepsClose)
  const Fixed := Recursive.Config(Html2Attrs, true, SameName, SkipsClose)

  function ParseAsWritten(ts: seq<Token>): (r: Result<Node, Error>)
    ensures r.Ok? ==> r.value.value == Tag(Fragment, [])
  {
    Recursive.Parse(ts, AsWritten)
  }

  function Parse(ts: seq<Token>): (r: Result<Node, Error>)
    ensures r.Ok? ==> r.value.value == Tag(Fragment, [])
  {
    Recursive.Parse(ts, Fixed)
  }

  /** Every attribute of a parsed tree is a string literal, and void elements are leaves. */
  lemma ParsedShape(ts: seq<Token>)
    requires ParseAsWritten(ts).Ok?
    ensures TextAttributesOnly(ParseAsWritten(ts).value) && VoidLeaves(ParseAsWritten(ts).value)
  {
    Recursive.ParseBuilt(ts, AsWritten);
  }

  /** `key = {{ expr }}` is refused: only a string literal may follow `=`. */
  lemma ExpressionValueRefused(key: string, expr: seq<Token>, rest: seq<Token>)
    requires IsPlainIdent(Ident(key))
    ensures ParseAttribute([Ident(key), Punct('='), Group(Brace, [Group(Brace, expr)])] + rest, Html2Attrs)
      == Err(Message("expected string literal"))
  {
    var ts := [Ident(key), Punct('='), Group(Brace, [Group(Brace, expr)])] + rest;
    assert ts[0] == Ident(key) && ts[1] == Punct('=') && ts[2] == Group(Brace, [Group(Brace, expr)]);
  }

  /** `key = "text"` is the pair of the key and the text. */
  lemma TextValue(key: string, text: string, rest: seq<Token>)
    requires IsPlainIdent(Ident(key))
    ensures ParseAttribute([Ident(key), Punct('='), Str(text)] + rest, Html2Attrs)
      == Ok(Parsed(Attribute(key, AText(text)), 3))
  {
    var ts := [Ident(key), Punct('='), Str(text)] + rest;
    assert ts[0] == Ident(key) && ts[1] == Punct('=') && ts[2] == Str(text);
  }

  /** `for a in b { }` stores `a` as the iterable and `b` as the variable. */
  lemma ForSwapped()
    ensures ParseAsWritten([Ident("for"), Ident("a"), Ident("in"), Ident("b"), Group(Brace, [])])
      == Ok(Node([Html.Leaf(For("b", "a"))], Tag(Fragment, [])))
  {
    var ts := [Ident("for"), Ident("a"), Ident("in"), Ident("b"), Group(Brace, [])];
    PlainName("a");
    PlainName("b");
    assert Recursive.Item(ts, AsWritten) == Ok(Parsed(Html.Leaf(For("b", "a")), 5));
    Recursive.IntoStep(ts, Root, AsWritten, Parsed(Html.Leaf(For("b", "a")), 5));
    assert ts[5..] == [];
  }

  // ---- an empty body ----

  /** `<p></p>`. */
  function EmptyP(): seq<Token> {
    Html.OpenTag("p") + Html.CloseTag("p")
  }

  /** The scan finds `</p>` first and, as written, leaves the cursor before it. */
  lemma EmptyScan(empty: EmptyBody)
    ensures NextInput(Html.CloseTag("p"), "p", EveryTag, empty) == Parsed(None, if empty == SkipsClose then 4 else 0)
  {
    var r := Html.CloseTag("p");
    assert Look(r, "p", [], EveryTag) == Stop;
    FindStop(r, "p", [], EveryTag);
    NextInputFound(r, "p", EveryTag, empty, 0);
  }

  /** As written, `<p>` is an empty `p` that takes only its own three trees. */
  lemma EmptyPItem()
    ensures Recursive.Item(EmptyP(), AsWritten) == Ok(Parsed(Html.Tagged("p", []), 3))
  {
    var ts := EmptyP();
    PlainName("p");
    Recursive.ItemBareTag(ts, AsWritten);
    assert ts[3..] == Html.CloseTag("p");
    EmptyScan(KeepsClose);
    assert !IsVoid(Named("p"));
  }

  /**
   * `<p></p>` does not parse as written: parsing resumes at `</p>`, and `<`
   * followed by `/` is refused.
   */
  lemma EmptyBodyAsWritten()
    ensures ParseAsWritten(EmptyP()) == Err(Message("The syntax is invalid"))
  {
    var ts := EmptyP();
    EmptyPItem();
    Recursive.IntoStep(ts, Root, AsWritten, Parsed(Html.Tagged("p", []), 3));
    var rest := ts[3..];
    assert rest == Html.CloseTag("p");
    assert rest[0] == Punct('<') && rest[1] == Punct('/');
    assert Recursive.Item(rest, AsWritten) == Err(Message("The syntax is invalid"));
  }

  /** `<p></p>`, printed from the tree with one empty `p`. */
  lemma EmptyPPrinted()
    ensures RecursivePrint.PrintSeq([Html.Tagged("p", [])], Fixed) == EmptyP()
  {
    Html.BareTokens("p");
    assert !IsVoid(Named("p"));
    assert RecursivePrint.PrintSeq([], Fixed) == [];
    assert RecursivePrint.Print(Html.Tagged("p", []), Fixed) == Html.OpenTag("p") + Html.CloseTag("p");
    Html.PrintOne(Html.Tagged("p", []), Fixed);
  }

  /** With the scan corrected, `<p></p>` is one empty `p`. */
  lemma EmptyBodyFixed()
    ensures Parse(EmptyP()) == Ok(Node([Html.Tagged("p", [])], Tag(Fragment, [])))
  {
    PlainName("p");
    EmptyPPrinted();
    assert RecursivePrint.WellFormed(Html.Tagged("p", []), Fixed);
    RecursivePrint.ParsePrinted([Html.Tagged("p", [])], Fixed);
  }

  // ---- nested elements of one name ----

  /** As written, `html2.rs` refuses `<div><div><br></div></div>` as `html.rs` does. */
  lemma NestedDivsAsWritten()
    ensures ParseAsWritten(Html.NestedDivs()) == Err(Message("The syntax is invalid"))
  {
    Html.NestedDivsEveryTag(AsWritten);
  }

  lemma NestedDivsFixed()
    ensures Parse(Html.NestedDivs()) == Ok(Node([Html.NestedTree()], Tag(Fragment, [])))
  {
    Html.NestedDivsRoundTrip(Fixed);
  }

  /** Parsing what the printer writes gives the trees back. */
  lemma RoundTrip(cs: seq<Node>)
    requires RecursivePrint.WellFormedSeq(cs, Fixed)
    ensures Parse(RecursivePrint.PrintSeq(cs, Fixed)) == Ok(Node(cs, Tag(Fragment, [])))
  {
    RecursivePrint.ParsePrinted(cs, Fixed);
  }
}
