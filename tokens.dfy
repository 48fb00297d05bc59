/**
 * The token trees a procedural macro receives, reduced to what the template
 * parsers inspect. Keywords such as `if`, `for` or `type` are identifiers, as in
 * proc_macro2; syn's `peek(Ident)` refuses them (see `IsPlainIdent`).
 */
module Tokens {
  datatype Delimiter = Brace | Paren | Bracket

  datatype Token =
    | Punct(ch: char)
    | Ident(name: string)
    | Str(value: string)     // a string literal; `value` is its unquoted contents
    | Num(digits: string)    // any other literal
    | Group(delim: Delimiter, inner: seq<Token>)

  /** The words syn's identifier parser rejects. */
  const Keywords: set<string> := {
    "_", "abstract", "as", "async", "await", "become", "box", "break", "const",
    "continue", "crate", "do", "dyn", "else", "enum", "extern", "false", "final",
    "fn", "for", "if", "impl", "in", "let", "loop", "macro", "match", "mod", "move",
    "mut", "override", "priv", "pub", "ref", "return", "Self", "self", "static",
    "struct", "super", "trait", "true", "try", "type", "typeof", "unsafe",
    "unsized", "use", "virtual", "where", "while", "yield"
  }

  /** What `input.peek(Ident)` accepts: an identifier that is not a keyword. */
  predicate IsPlainIdent(t: Token) {
    t.Ident? && t.name !in Keywords
  }

  /**
   * The message of syn's `Ident::parse` where `ts` holds no plain identifier at
   * `i`: a keyword is named in it, anything else is just "expected identifier".
   */
  function IdentError(ts: seq<Token>, i: nat): (m: string)
    ensures (i < |ts| && ts[i].Ident? && ts[i].name in Keywords) <==> m != "expected identifier"
  {
    if i < |ts| && ts[i].Ident? && ts[i].name in Keywords then
      "expected identifier, found keyword `" + ts[i].name + "`"
    else "expected identifier"
  }

  /** `Keywords` in two halves, small enough for the solver to rule a name out of each. */
  const KeywordsToL: set<string> := {
    "_", "abstract", "as", "async", "await", "become", "box", "break", "const",
    "continue", "crate", "do", "dyn", "else", "enum", "extern", "false", "final",
    "fn", "for", "if", "impl", "in", "let", "loop"
  }
  const KeywordsFromM: set<string> := {
    "macro", "match", "mod", "move", "mut", "override", "priv", "pub", "ref",
    "return", "Self", "self", "static", "struct", "super", "trait", "true", "try",
    "type", "typeof", "unsafe", "unsized", "use", "virtual", "where", "while", "yield"
  }

  lemma KeywordsSplit(s: string)
    ensures s in Keywords <==> s in KeywordsToL || s in KeywordsFromM
  {
  }

  /** A name found in neither half is a plain identifier. */
  lemma PlainName(s: string)
    requires s !in KeywordsToL && s !in KeywordsFromM
    ensures IsPlainIdent(Ident(s))
  {
    KeywordsSplit(s);
  }

  predicate IsBrace(t: Token) {
    t.Group? && t.delim == Brace
  }

  /** Whether the stream starts with the given punctuation character. */
  predicate StartsWithPunct(ts: seq<Token>, c: char) {
    |ts| > 0 && ts[0] == Punct(c)
  }

  /** Whether the stream starts with the given keyword (`Token![if]` and friends). */
  predicate StartsWithKw(ts: seq<Token>, k: string) {
    |ts| > 0 && ts[0] == Ident(k)
  }

  /** The number of token trees, counting every nested one. */
  function SeqSize(ts: seq<Token>): nat
    decreases ts
  {
    if ts == [] then 0
    else (match ts[0] case Group(_, inner) => 1 + SeqSize(inner) case _ => 1) + SeqSize(ts[1..])
  }

  /** The printed form of one token tree (`TokenTree::to_string`), without proc_macro2's spacing rules. */
  function TokenText(t: Token): string
    decreases t
  {
    match t
    case Punct(c) => [c]
    case Ident(n) => n
    case Str(v) => "\"" + v + "\""
    case Num(d) => d
    case Group(d, inner) =>
      var (open, close) := match d case Brace => ("{", "}") case Paren => ("(", ")") case Bracket => ("[", "]");
      open + StreamText(inner) + close
  }

  /** The printed form of a token stream (`TokenStream::to_string`): the trees separated by one space. */
  function StreamText(ts: seq<Token>): string
    decreases ts
  {
    if ts == [] then ""
    else if |ts| == 1 then TokenText(ts[0])
    else TokenText(ts[0]) + " " + StreamText(ts[1..])
  }

  /** The trees' printed forms run together, as the template's `extract_variable` builds them. */
  function ConcatText(ts: seq<Token>): string
    decreases ts
  {
    if ts == [] then "" else TokenText(ts[0]) + ConcatText(ts[1..])
  }

  lemma {:induction false} SeqSizeAppend(a: seq<Token>, b: seq<Token>)
    ensures SeqSize(a + b) == SeqSize(a) + SeqSize(b)
    decreases a
  {
    if a == [] {
      assert a + b == b;
    } else {
      assert (a + b)[0] == a[0];
      assert (a + b)[1..] == a[1..] + b;
      SeqSizeAppend(a[1..], b);
    }
  }

  /** Dropping `n` leading trees removes at least `n` from the size. */
  lemma {:induction false} SeqSizeDrop(ts: seq<Token>, n: nat)
    requires n <= |ts|
    ensures SeqSize(ts[n..]) + n <= SeqSize(ts)
    decreases n
  {
    if n > 0 {
      SeqSizeDrop(ts[1..], n - 1);
      assert ts[1..][n - 1..] == ts[n..];
    }
  }

  /** A prefix is no larger than the whole stream. */
  lemma SeqSizeTake(ts: seq<Token>, k: nat)
    requires k <= |ts|
    ensures SeqSize(ts[..k]) <= SeqSize(ts)
  {
    assert ts == ts[..k] + ts[k..];
    SeqSizeAppend(ts[..k], ts[k..]);
  }

  /** The contents of the `k`-th tree, when it is a group, are smaller than the whole stream. */
  lemma {:induction false} SeqSizeInner(ts: seq<Token>, k: nat)
    requires k < |ts| && ts[k].Group?
    ensures SeqSize(ts[k].inner) < SeqSize(ts)
    decreases k
  {
    if k > 0 {
      SeqSizeInner(ts[1..], k - 1);
    }
  }

  lemma {:induction false} ConcatTextOne(t: Token)
    ensures ConcatText([t]) == TokenText(t)
  {
    assert [t][1..] == [];
  }

  lemma {:induction false} ConcatTextAppend(a: seq<Token>, b: seq<Token>)
    ensures ConcatText(a + b) == ConcatText(a) + ConcatText(b)
    decreases a
  {
    if a == [] {
      assert a + b == b;
    } else {
      assert (a + b)[0] == a[0];
      assert (a + b)[1..] == a[1..] + b;
      ConcatTextAppend(a[1..], b);
    }
  }
}
