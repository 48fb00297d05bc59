/**
 * `ToTokens for Html` of `html/to_tokens.rs`: the code generator of the
 * `view!` macro. It walks a template tree and collects an ordered, nested list
 * of statements that build a string in a buffer `html`; the program it emits
 * starts from an empty buffer, runs them in order and returns the buffer. The
 * `html_escape` closure it emits escapes interpolated values.
 *
 * The tree here has the shape this file works on (with `SanitizedVar`,
 * `DocType` and optional attribute values). The Rust code of the emitted
 * statements is modelled by `Stmt`, and what that code does by `Run`, which
 * takes the meaning of the embedded Rust expressions as a parameter.
 */
module ToTokens {
  import opened Wrappers
  import opened Elements

  datatype AttributeValue = TextValue(text: string) | VarValue(expr: string)

  datatype Attribute = Attribute(key: string, value: Option<AttributeValue>)

  datatype Lex =
    | Tag(element: Element, attributes: seq<Attribute>)
    | SanitizedVar(expr: string)
    | Var(expr: string)
    | If(cond: string)
    | ElseIf(cond: string)
    | Else
    | For(binding: string, iter: string)
    | DocType

  datatype Html = Html(children: seq<Html>, value: Lex)

  /** One emitted statement. Expressions are kept as their source text. */
  datatype Stmt =
    | Append(text: string)               // html.push_str("text")
    | AppendEscaped(expr: string)        // html.push_str(&html_escape(expr))
    | AppendRaw(expr: string)            // html.push_str(expr)
    | WriteAttr(attr: Attribute)         // write!(html, " key=\"value\"") or write!(html, " key")
    | IfBlock(cond: string, body: seq<Stmt>)
    | ElseIfBlock(cond: string, body: seq<Stmt>)
    | ElseBlock(body: seq<Stmt>)
    | ForBlock(binding: string, iter: string, body: seq<Stmt>)

  // ---- html_escape ----

  predicate Special(c: char) {
    c == '&' || c == '"' || c == '\'' || c == '>' || c == '<'
  }

  /** What `html_escape` writes for one character. */
  function EscapeChar(c: char): (r: string)
    ensures !Special(c) ==> r == [c]
  {
    match c
    case '&' => "&amp;"
    case '"' => "&quot;"
    case '\'' => "&#39;"
    case '>' => "&gt;"
    case '<' => "&lt;"
    case _ => [c]
  }

  /** `html_escape(input)`. */
  function HtmlEscape(s: string): string
    decreases s
  {
    if s == [] then "" else EscapeChar(s[0]) + HtmlEscape(s[1..])
  }

  /** The `for c in input.chars()` loop of the emitted `html_escape` closure. */
  method EscapeLoop(input: string) returns (output: string)
    ensures output == HtmlEscape(input)
  {
    output := "";
    var i := 0;
    assert input[i..] == input;
    while i < |input|
      invariant 0 <= i <= |input|
      invariant output + HtmlEscape(input[i..]) == HtmlEscape(input)
    {
      var c := input[i];
      var piece: string;
      match c {
        case '&' => piece := "&amp;";
        case '"' => piece := "&quot;";
        case '\'' => piece := "&#39;";
        case '>' => piece := "&gt;";
        case '<' => piece := "&lt;";
        case _ => piece := [c];
      }
      assert piece == EscapeChar(c);
      EscapeStep(input, i, output);
      output := output + piece;
      i := i + 1;
    }
    assert output + HtmlEscape([]) == output;
  }

  lemma EscapeStep(input: string, i: nat, output: string)
    requires i < |input| && output + HtmlEscape(input[i..]) == HtmlEscape(input)
    ensures (output + EscapeChar(input[i])) + HtmlEscape(input[i + 1..]) == HtmlEscape(input)
  {
    assert input[i..][1..] == input[i + 1..];
  }

  /** `s` starts with the entity `e`. */
  predicate Starts(s: string, e: string) {
    |e| <= |s| && s[..|e|] == e
  }

  /** Decoding the five entities `html_escape` writes, and nothing else. */
  function Unescape(s: string): string
    decreases |s|
  {
    if s == [] then ""
    else if Starts(s, "&amp;") then "&" + Unescape(s[5..])
    else if Starts(s, "&quot;") then "\"" + Unescape(s[6..])
    else if Starts(s, "&#39;") then "'" + Unescape(s[5..])
    else if Starts(s, "&gt;") then ">" + Unescape(s[4..])
    else if Starts(s, "&lt;") then "<" + Unescape(s[4..])
    else [s[0]] + Unescape(s[1..])
  }

  /** The five entities differ in their second character. */
  lemma StartsSecond(s: string, e: string)
    requires Starts(s, e) && |e| >= 2
    ensures s[0] == e[0] && s[1] == e[1]
  {
    assert s[..|e|][0] == s[0] && s[..|e|][1] == s[1];
  }

  lemma UnescapeEntity(e: string, c: char, rest: string)
    requires (e, c) in {("&amp;", '&'), ("&quot;", '"'), ("&#39;", '\''), ("&gt;", '>'), ("&lt;", '<')}
    ensures Unescape(e + rest) == [c] + Unescape(rest)
  {
    var s := e + rest;
    assert s[..|e|] == e && s[|e|..] == rest;
    assert s[1] == e[1];
    forall f | f in ["&amp;", "&quot;", "&#39;", "&gt;", "&lt;"] && f != e
      ensures !Starts(s, f)
    {
      if Starts(s, f) {
        StartsSecond(s, f);
      }
    }
  }

  lemma UnescapeChar(c: char, rest: string)
    ensures Unescape(EscapeChar(c) + rest) == [c] + Unescape(rest)
  {
    if Special(c) {
      UnescapeEntity(EscapeChar(c), c, rest);
    } else {
      var s := [c] + rest;
      assert s[0] == c && s[1..] == rest;
      forall f | f in ["&amp;", "&quot;", "&#39;", "&gt;", "&lt;"]
        ensures !Starts(s, f)
      {
        if Starts(s, f) {
          StartsSecond(s, f);
        }
      }
    }
  }

  /** `html_escape` loses nothing: the entities decode back to the input. */
  lemma {:induction false} UnescapeEscape(s: string)
    ensures Unescape(HtmlEscape(s)) == s
    decreases s
  {
    if s != [] {
      UnescapeChar(s[0], HtmlEscape(s[1..]));
      UnescapeEscape(s[1..]);
      assert s == [s[0]] + s[1..];
    }
  }

  /** Hence different inputs escape differently. */
  lemma EscapeInjective(s: string, t: string)
    requires HtmlEscape(s) == HtmlEscape(t)
    ensures s == t
  {
    UnescapeEscape(s);
    UnescapeEscape(t);
  }

  /** The output holds none of `<`, `>`, `"` and `'`. */
  lemma {:induction false} EscapeSafe(s: string)
    ensures forall i :: 0 <= i < |HtmlEscape(s)| ==> !(HtmlEscape(s)[i] in "<>\"'")
    decreases s
  {
    if s != [] {
      var e := EscapeChar(s[0]);
      var q := HtmlEscape(s[1..]);
      EscapeSafe(s[1..]);
      assert !('<' in e) && !('>' in e) && !('"' in e) && !('\'' in e);
      forall i | 0 <= i < |e + q|
        ensures !((e + q)[i] in "<>\"'")
      {
        if i < |e| {
          assert (e + q)[i] == e[i];
        } else {
          assert (e + q)[i] == q[i - |e|];
        }
      }
    }
  }

  /** A string with none of the five characters is its own escape. */
  lemma {:induction false} EscapeIdentity(s: string)
    requires forall i :: 0 <= i < |s| ==> !Special(s[i])
    ensures HtmlEscape(s) == s
    decreases s
  {
    if s != [] {
      EscapeIdentity(s[1..]);
      assert [s[0]] + s[1..] == s;
    }
  }

  /** Each special character takes more room, and every other one takes one character. */
  lemma {:induction false} EscapeLength(s: string)
    ensures |HtmlEscape(s)| >= |s|
    ensures |HtmlEscape(s)| == |s| <==> forall i :: 0 <= i < |s| ==> !Special(s[i])
    decreases s
  {
    if s != [] {
      EscapeLength(s[1..]);
      assert Special(s[0]) ==> |EscapeChar(s[0])| > 1;
      assert forall i :: 1 <= i < |s| ==> s[1..][i - 1] == s[i];
    }
  }

  // ---- collect_stmts ----

  /** The statements an element's attributes emit, in source order. */
  function AttrStmts(attrs: seq<Attribute>): (r: seq<Stmt>)
    ensures |r| == |attrs| && forall i :: 0 <= i < |r| ==> r[i] == WriteAttr(attrs[i])
  {
    if attrs == [] then [] else [WriteAttr(attrs[0])] + AttrStmts(attrs[1..])
  }

  /** The opening tag of a named element: `<`, the name, the attributes, then `>` or ` />`. */
  function OpenStmts(e: Element, attrs: seq<Attribute>): seq<Stmt> {
    if e == Fragment then []
    else [Append("<"), Append(ElementName(e))] + AttrStmts(attrs) + [Append(if IsVoid(e) then " />" else ">")]
  }

  function CloseStmts(e: Element): seq<Stmt> {
    if e == Fragment then [] else [Append("</" + ElementName(e) + ">\n")]
  }

  /** `n.collect_stmts(out)` appends `Collect(n)` to `out`. */
  function Collect(n: Html): seq<Stmt>
    decreases n, 1
  {
    match n.value
    case Tag(e, attrs) => OpenStmts(e, attrs) + (if IsVoid(e) then [] else CollectSeq(n.children) + CloseStmts(e))
    case SanitizedVar(v) => [AppendEscaped(v)]
    case Var(v) => [AppendRaw(v)]
    case If(c) => [IfBlock(c, CollectSeq(n.children))]
    case ElseIf(c) => [ElseIfBlock(c, CollectSeq(n.children))]
    case Else => [ElseBlock(CollectSeq(n.children))]
    case For(x, it) => [ForBlock(x, it, CollectSeq(n.children))]
    case DocType => [Append("<!DOCTYPE html>\n")]
  }

  /** `for child in children { child.collect_stmts(out) }`. */
  function CollectSeq(cs: seq<Html>): seq<Stmt>
    decreases cs
  {
    if cs == [] then [] else Collect(cs[0]) + CollectSeq(cs[1..])
  }

  lemma CollectSeqAppend(cs: seq<Html>, c: Html)
    ensures CollectSeq(cs + [c]) == CollectSeq(cs) + Collect(c)
    decreases cs
  {
    if cs == [] {
      assert [c][1..] == [];
    } else {
      assert (cs + [c])[1..] == cs[1..] + [c];
      CollectSeqAppend(cs[1..], c);
    }
  }

  /** The loop over a node's children, each pushing its statements onto `out`. */
  method CollectChildren(cs: seq<Html>, out: seq<Stmt>, ghost parent: Html) returns (r: seq<Stmt>)
    requires forall i :: 0 <= i < |cs| ==> cs[i] < parent
    ensures r == out + CollectSeq(cs)
    decreases parent, 0
  {
    r := out;
    var i := 0;
    while i < |cs|
      invariant 0 <= i <= |cs|
      invariant r == out + CollectSeq(cs[..i])
    {
      r := CollectStmts(cs[i], r);
      assert cs[..i + 1] == cs[..i] + [cs[i]];
      CollectSeqAppend(cs[..i], cs[i]);
      i := i + 1;
    }
    assert cs[..i] == cs;
  }

  /** `collect_stmts(&self, out)`: the statements for `n`, pushed onto `out`. */
  method CollectStmts(n: Html, out: seq<Stmt>) returns (r: seq<Stmt>)
    ensures r == out + Collect(n)
    decreases n, 2
  {
    var children := CollectChildren(n.children, [], n);
    assert children == CollectSeq(n.children);
    match n.value {
      case Tag(_, _) => r := CollectTag(n, out);
      case SanitizedVar(v) => r := out + [AppendEscaped(v)];
      case Var(v) => r := out + [AppendRaw(v)];
      case If(c) => r := out + [IfBlock(c, children)];
      case ElseIf(c) => r := out + [ElseIfBlock(c, children)];
      case Else => r := out + [ElseBlock(children)];
      case For(x, it) => r := out + [ForBlock(x, it, children)];
      case DocType => r := out + [Append("<!DOCTYPE html>\n")];
    }
  }

  /** The `Lex::Tag` arm: opening tag, attributes, children, closing tag. */
  method CollectTag(n: Html, out: seq<Stmt>) returns (r: seq<Stmt>)
    requires n.value.Tag?
    ensures r == out + Collect(n)
    decreases n, 1
  {
    var e := n.value.element;
    r := CollectOpen(e, n.value.attributes, out);
    if !IsVoid(e) {
      ghost var open := r;
      r := CollectChildren(n.children, r, n);
      r := r + CloseStmts(e);
      assert r == open + (CollectSeq(n.children) + CloseStmts(e));
    }
  }

  /** The opening tag's statements; none for `Fragment`. */
  method CollectOpen(e: Element, attrs: seq<Attribute>, out: seq<Stmt>) returns (r: seq<Stmt>)
    ensures r == out + OpenStmts(e, attrs)
  {
    r := out;
    if e != Fragment {
      var head := [Append("<"), Append(ElementName(e))];
      var last := [Append(if IsVoid(e) then " />" else ">")];
      r := CollectAttrs(attrs, out + head);
      ghost var a := AttrStmts(attrs);
      r := r + last;
      assert r == out + (head + a + last);
    }
  }

  /** `for attr in attributes`: one `write!` per attribute, in order. */
  method CollectAttrs(attrs: seq<Attribute>, out: seq<Stmt>) returns (r: seq<Stmt>)
    ensures r == out + AttrStmts(attrs)
  {
    r := out;
    var i := 0;
    while i < |attrs|
      invariant 0 <= i <= |attrs|
      invariant r == out + AttrStmts(attrs[..i])
    {
      assert AttrStmts(attrs[..i + 1]) == AttrStmts(attrs[..i]) + [WriteAttr(attrs[i])];
      r := r + [WriteAttr(attrs[i])];
      i := i + 1;
    }
    assert attrs[..i] == attrs;
  }

  // ---- what the emitted program does ----

  type Env = map<string, string>

  /**
   * The meaning of the Rust expressions the template embeds: the string a
   * value expression gives, whether a condition holds, and the items an
   * iterable yields, each in an environment of loop variables.
   */
  datatype Meaning = Meaning(value: (Env, string) -> string, holds: (Env, string) -> bool, items: (Env, string) -> seq<string>)

  /** Whether the statement before may be followed by `else`: after `if`/`else if`, and whether a branch was taken. */
  datatype Chain = NoChain | InChain(taken: bool)

  datatype State = State(html: string, chain: Chain)

  /** What `write!` adds for one attribute; a variable's value is written as is. */
  function AttrText(a: Attribute, m: Meaning, env: Env): string {
    match a.value
    case Some(TextValue(t)) => " " + a.key + "=\"" + t + "\""
    case Some(VarValue(v)) => " " + a.key + "=\"" + m.value(env, v) + "\""
    case None => " " + a.key
  }

  /** `s` appended to the buffer, ending any `if` chain. */
  function Put(st: State, s: string): (r: State)
    ensures r.html == st.html + s && r.chain == NoChain
  {
    State(st.html + s, NoChain)
  }

  const StrayElse := "`else` without a previous `if`"

  /**
   * Running statements on a buffer, in order. An `else` or `else if` that
   * does not follow an `if` chain does not compile.
   */
  function Run(stmts: seq<Stmt>, m: Meaning, env: Env, st: State): Result<State, string>
    decreases stmts, 1
  {
    if stmts == [] then Ok(st)
    else match Step(stmts[0], m, env, st)
      case Err(e) => Err(e)
      case Ok(st') => Run(stmts[1..], m, env, st')
  }

  function Step(s: Stmt, m: Meaning, env: Env, st: State): Result<State, string>
    decreases s, 2
  {
    match s
    case Append(t) => Ok(Put(st, t))
    case AppendEscaped(v) => Ok(Put(st, HtmlEscape(m.value(env, v))))
    case AppendRaw(v) => Ok(Put(st, m.value(env, v)))
    case WriteAttr(a) => Ok(Put(st, AttrText(a, m, env)))
    case IfBlock(c, body) => Branch(body, m.holds(env, c), m, env, st.html)
    case ElseIfBlock(c, body) =>
      if st.chain == NoChain then Err(StrayElse)
      else if st.chain.taken then Ok(st)
      else Branch(body, m.holds(env, c), m, env, st.html)
    case ElseBlock(body) =>
      if st.chain == NoChain then Err(StrayElse)
      else if st.chain.taken then Ok(State(st.html, NoChain))
      else
        (match Run(body, m, env, State(st.html, NoChain))
         case Err(e) => Err(e)
         case Ok(b) => Ok(State(b.html, NoChain)))
    case ForBlock(x, it, body) => Loop(body, x, m.items(env, it), m, env, st.html)
  }

  /** A branch of an `if` chain: its body runs when `go` holds. */
  function Branch(body: seq<Stmt>, go: bool, m: Meaning, env: Env, html: string): Result<State, string>
    decreases body, 2
  {
    if !go then Ok(State(html, InChain(false)))
    else match Run(body, m, env, State(html, NoChain))
      case Err(e) => Err(e)
      case Ok(b) => Ok(State(b.html, InChain(true)))
  }

  /** `for x in items { body }`: the body once per item, with `x` bound to it. */
  function Loop(body: seq<Stmt>, x: string, items: seq<string>, m: Meaning, env: Env, html: string): Result<State, string>
    decreases body, 2, |items|
  {
    if items == [] then Ok(State(html, NoChain))
    else match Run(body, m, env[x := items[0]], State(html, NoChain))
      case Err(e) => Err(e)
      case Ok(b) => Loop(body, x, items[1..], m, env, b.html)
  }

  /**
   * `Html::to_token_stream`: the program that starts from an empty buffer,
   * runs the collected statements and returns the buffer.
   */
  function Program(n: Html, m: Meaning, env: Env): Result<string, string> {
    match Run(Collect(n), m, env, State("", NoChain))
    case Err(e) => Err(e)
    case Ok(st) => Ok(st.html)
  }

  lemma {:induction false} RunAppend(a: seq<Stmt>, b: seq<Stmt>, m: Meaning, env: Env, st: State)
    ensures Run(a + b, m, env, st) == match Run(a, m, env, st) case Err(e) => Err(e) case Ok(s) => Run(b, m, env, s)
    decreases a
  {
    if a == [] {
      assert a + b == b;
    } else {
      assert (a + b)[0] == a[0];
      assert (a + b)[1..] == a[1..] + b;
      match Step(a[0], m, env, st)
      case Err(_) =>
      case Ok(s) => RunAppend(a[1..], b, m, env, s);
    }
  }

  lemma RunOne(s: Stmt, m: Meaning, env: Env, st: State)
    ensures Run([s], m, env, st) == Step(s, m, env, st)
  {
    assert [s][1..] == [];
  }

  // ---- the template's meaning, read off the tree ----

  /** The attributes, as written into the opening tag, in source order. */
  function AttrsText(attrs: seq<Attribute>, m: Meaning, env: Env): string {
    if attrs == [] then "" else AttrText(attrs[0], m, env) + AttrsText(attrs[1..], m, env)
  }

  /**
   * What a template node means, independently of the generated statements:
   * a fragment is its children; an element is its opening tag, then (unless
   * void) its children and its closing tag; control nodes are Rust's
   * `if`/`else if`/`else` chains over siblings and `for` loops.
   */
  function Render(n: Html, m: Meaning, env: Env, st: State): Result<State, string>
    decreases n, 2
  {
    match n.value
    case Tag(e, attrs) =>
      if e == Fragment then RenderSeq(n.children, m, env, st)
      else
        var start := Put(st, "<" + ElementName(e) + AttrsText(attrs, m, env) + (if IsVoid(e) then " />" else ">"));
        if IsVoid(e) then Ok(start)
        else
          (match RenderSeq(n.children, m, env, start)
           case Err(err) => Err(err)
           case Ok(inner) => Ok(Put(inner, "</" + ElementName(e) + ">\n")))
    case SanitizedVar(v) => Ok(Put(st, HtmlEscape(m.value(env, v))))
    case Var(v) => Ok(Put(st, m.value(env, v)))
    case If(c) => RenderBranch(n, m.holds(env, c), m, env, st.html)
    case ElseIf(c) =>
      if st.chain == NoChain then Err(StrayElse)
      else if st.chain.taken then Ok(st)
      else RenderBranch(n, m.holds(env, c), m, env, st.html)
    case Else =>
      if st.chain == NoChain then Err(StrayElse)
      else if st.chain.taken then Ok(State(st.html, NoChain))
      else
        (match RenderSeq(n.children, m, env, State(st.html, NoChain))
         case Err(err) => Err(err)
         case Ok(b) => Ok(State(b.html, NoChain)))
    case For(x, it) => RenderLoop(n, x, m.items(env, it), m, env, st.html)
    case DocType => Ok(Put(st, "<!DOCTYPE html>\n"))
  }

  function RenderBranch(n: Html, go: bool, m: Meaning, env: Env, html: string): Result<State, string>
    decreases n, 1
  {
    if !go then Ok(State(html, InChain(false)))
    else match RenderSeq(n.children, m, env, State(html, NoChain))
      case Err(e) => Err(e)
      case Ok(b) => Ok(State(b.html, InChain(true)))
  }

  function RenderLoop(n: Html, x: string, items: seq<string>, m: Meaning, env: Env, html: string): Result<State, string>
    decreases n, 1, |items|
  {
    if items == [] then Ok(State(html, NoChain))
    else match RenderSeq(n.children, m, env[x := items[0]], State(html, NoChain))
      case Err(e) => Err(e)
      case Ok(b) => RenderLoop(n, x, items[1..], m, env, b.html)
  }

  function RenderSeq(cs: seq<Html>, m: Meaning, env: Env, st: State): Result<State, string>
    decreases cs, 0
  {
    if cs == [] then Ok(st)
    else match Render(cs[0], m, env, st)
      case Err(e) => Err(e)
      case Ok(st') => RenderSeq(cs[1..], m, env, st')
  }

  // ---- the generated program does what the template means ----

  lemma {:induction false} RunAttrs(attrs: seq<Attribute>, m: Meaning, env: Env, st: State, s: string)
    ensures Run(AttrStmts(attrs), m, env, Put(st, s)) == Ok(Put(st, s + AttrsText(attrs, m, env)))
    decreases attrs
  {
    if attrs != [] {
      var t := AttrText(attrs[0], m, env);
      assert Put(Put(st, s), t) == Put(st, s + t);
      RunAttrs(attrs[1..], m, env, st, s + t);
      assert s + t + AttrsText(attrs[1..], m, env) == s + AttrsText(attrs, m, env);
    } else {
      assert s + "" == s;
    }
  }

  lemma Appends(a: string, b: string, m: Meaning, env: Env, st: State)
    ensures Run([Append(a), Append(b)], m, env, st) == Ok(Put(st, a + b))
  {
    assert [Append(a), Append(b)] == [Append(a)] + [Append(b)];
    RunAppend([Append(a)], [Append(b)], m, env, st);
    RunOne(Append(a), m, env, st);
    RunOne(Append(b), m, env, Put(st, a));
    assert st.html + a + b == st.html + (a + b);
  }

  /** The opening tag's statements write the opening tag. */
  lemma RunOpen(e: Element, attrs: seq<Attribute>, m: Meaning, env: Env, st: State)
    requires e.Named?
    ensures Run(OpenStmts(e, attrs), m, env, st)
      == Ok(Put(st, "<" + ElementName(e) + AttrsText(attrs, m, env) + (if IsVoid(e) then " />" else ">")))
  {
    var head := [Append("<"), Append(ElementName(e))];
    var last := Append(if IsVoid(e) then " />" else ">");
    var s := "<" + ElementName(e);
    RunAppend(head + AttrStmts(attrs), [last], m, env, st);
    RunAppend(head, AttrStmts(attrs), m, env, st);
    Appends("<", ElementName(e), m, env, st);
    RunAttrs(attrs, m, env, st, s);
    RunOne(last, m, env, Put(st, s + AttrsText(attrs, m, env)));
    assert OpenStmts(e, attrs) == head + AttrStmts(attrs) + [last];
    var p := s + AttrsText(attrs, m, env);
    assert Put(Put(st, p), last.text) == Put(st, p + last.text);
  }

  /**
   * The statements `collect_stmts` emits for a node do, when run, what the
   * node means: the generator is correct for every tree and every meaning of
   * the embedded expressions.
   */
  lemma {:induction false} CollectRendered(n: Html, m: Meaning, env: Env, st: State)
    ensures Run(Collect(n), m, env, st) == Render(n, m, env, st)
    decreases n, 2
  {
    match n.value
    case Tag(e, attrs) =>
      if e == Fragment {
        assert Collect(n) == CollectSeq(n.children);
        CollectSeqRendered(n.children, m, env, st);
      } else {
        RunOpen(e, attrs, m, env, st);
        var start := Put(st, "<" + ElementName(e) + AttrsText(attrs, m, env) + (if IsVoid(e) then " />" else ">"));
        if IsVoid(e) {
          assert Collect(n) == OpenStmts(e, attrs) + [];
          assert OpenStmts(e, attrs) + [] == OpenStmts(e, attrs);
        } else {
          RunAppend(OpenStmts(e, attrs), CollectSeq(n.children) + CloseStmts(e), m, env, st);
          RunAppend(CollectSeq(n.children), CloseStmts(e), m, env, start);
          CollectSeqRendered(n.children, m, env, start);
          match RenderSeq(n.children, m, env, start)
          case Err(_) =>
          case Ok(inner) => RunOne(Append("</" + ElementName(e) + ">\n"), m, env, inner);
        }
      }
    case If(c) =>
      RunOne(IfBlock(c, CollectSeq(n.children)), m, env, st);
      BranchRendered(n, m.holds(env, c), m, env, st.html);
    case ElseIf(c) =>
      RunOne(ElseIfBlock(c, CollectSeq(n.children)), m, env, st);
      BranchRendered(n, m.holds(env, c), m, env, st.html);
    case Else =>
      RunOne(ElseBlock(CollectSeq(n.children)), m, env, st);
      CollectSeqRendered(n.children, m, env, State(st.html, NoChain));
    case For(x, it) =>
      RunOne(ForBlock(x, it, CollectSeq(n.children)), m, env, st);
      LoopRendered(n, x, m.items(env, it), m, env, st.html);
    case _ =>
      RunOne(Collect(n)[0], m, env, st);
  }

  lemma {:induction false} BranchRendered(n: Html, go: bool, m: Meaning, env: Env, html: string)
    ensures Branch(CollectSeq(n.children), go, m, env, html) == RenderBranch(n, go, m, env, html)
    decreases n, 1
  {
    CollectSeqRendered(n.children, m, env, State(html, NoChain));
  }

  lemma {:induction false} LoopRendered(n: Html, x: string, items: seq<string>, m: Meaning, env: Env, html: string)
    ensures Loop(CollectSeq(n.children), x, items, m, env, html) == RenderLoop(n, x, items, m, env, html)
    decreases n, 1, |items|
  {
    if items != [] {
      CollectSeqRendered(n.children, m, env[x := items[0]], State(html, NoChain));
      match RenderSeq(n.children, m, env[x := items[0]], State(html, NoChain))
      case Err(_) =>
      case Ok(b) => LoopRendered(n, x, items[1..], m, env, b.html);
    }
  }

  lemma {:induction false} CollectSeqRendered(cs: seq<Html>, m: Meaning, env: Env, st: State)
    ensures Run(CollectSeq(cs), m, env, st) == RenderSeq(cs, m, env, st)
    decreases cs, 0
  {
    if cs != [] {
      RunAppend(Collect(cs[0]), CollectSeq(cs[1..]), m, env, st);
      CollectRendered(cs[0], m, env, st);
      match Render(cs[0], m, env, st)
      case Err(_) =>
      case Ok(st') => CollectSeqRendered(cs[1..], m, env, st');
    }
  }

  /** The emitted program's result is the root's meaning, from an empty buffer. */
  lemma ProgramRendered(n: Html, m: Meaning, env: Env)
    ensures Program(n, m, env) == match Render(n, m, env, State("", NoChain)) case Err(e) => Err(e) case Ok(st) => Ok(st.html)
  {
    CollectRendered(n, m, env, State("", NoChain));
  }

  // ---- what the emitted program writes, construct by construct ----

  function Leaf(l: Lex): Html {
    Html([], l)
  }

  function Root(cs: seq<Html>): Html {
    Html(cs, Tag(Fragment, []))
  }

  /** `SanitizedVar` writes the escaped value, which holds no `<`, `>`, `"` or `'`. */
  lemma SanitizedVarEscaped(v: string, m: Meaning, env: Env)
    ensures Program(Leaf(SanitizedVar(v)), m, env) == Ok(HtmlEscape(m.value(env, v)))
    ensures forall i :: 0 <= i < |Program(Leaf(SanitizedVar(v)), m, env).value| ==>
      !(Program(Leaf(SanitizedVar(v)), m, env).value[i] in "<>\"'")
  {
    ProgramRendered(Leaf(SanitizedVar(v)), m, env);
    EscapeSafe(m.value(env, v));
    assert "" + HtmlEscape(m.value(env, v)) == HtmlEscape(m.value(env, v));
  }

  /** `Var` writes the value as it is. */
  lemma VarRaw(v: string, m: Meaning, env: Env)
    ensures Program(Leaf(Var(v)), m, env) == Ok(m.value(env, v))
  {
    ProgramRendered(Leaf(Var(v)), m, env);
    assert "" + m.value(env, v) == m.value(env, v);
  }

  lemma DocTypeWritten(m: Meaning, env: Env)
    ensures Program(Leaf(DocType), m, env) == Ok("<!DOCTYPE html>\n")
  {
    ProgramRendered(Leaf(DocType), m, env);
    assert "" + "<!DOCTYPE html>\n" == "<!DOCTYPE html>\n";
  }

  /** A `Fragment` writes no tag of its own and ignores its attributes: only its children. */
  lemma FragmentTransparent(cs: seq<Html>, attrs: seq<Attribute>, m: Meaning, env: Env, st: State)
    ensures Run(Collect(Html(cs, Tag(Fragment, attrs))), m, env, st) == Run(CollectSeq(cs), m, env, st)
  {
    CollectRendered(Html(cs, Tag(Fragment, attrs)), m, env, st);
    CollectSeqRendered(cs, m, env, st);
  }

  /** A void element writes `<name attrs />` and nothing for its children. */
  lemma VoidElementWritten(name: string, attrs: seq<Attribute>, cs: seq<Html>, m: Meaning, env: Env)
    requires IsVoid(Named(name))
    ensures Program(Html(cs, Tag(Named(name), attrs)), m, env) == Ok("<" + name + AttrsText(attrs, m, env) + " />")
  {
    ProgramRendered(Html(cs, Tag(Named(name), attrs)), m, env);
    var t := "<" + name + AttrsText(attrs, m, env) + " />";
    assert "" + t == t;
  }

  /** Any other element writes its opening tag, its children in order, and `</name>` and a newline. */
  lemma ElementWritten(name: string, attrs: seq<Attribute>, cs: seq<Html>, m: Meaning, env: Env, inner: string)
    requires !IsVoid(Named(name))
    requires Program(Root(cs), m, env) == Ok(inner)
    ensures Program(Html(cs, Tag(Named(name), attrs)), m, env)
      == Ok("<" + name + AttrsText(attrs, m, env) + ">" + inner + "</" + name + ">\n")
  {
    var open := "<" + name + AttrsText(attrs, m, env) + ">";
    var empty := State("", NoChain);
    var n := Html(cs, Tag(Named(name), attrs));
    ProgramRendered(n, m, env);
    ProgramRendered(Root(cs), m, env);
    assert RenderSeq(cs, m, env, empty) == Ok(State(inner, RenderSeq(cs, m, env, empty).value.chain));
    RenderSeqPrefix(cs, open, m, env, empty);
    assert open + "" == open;
    assert RenderSeq(cs, m, env, State(open, NoChain)).value.html == open + inner;
    ElementRender(n, m, env, open, inner);
  }

  lemma ElementRender(n: Html, m: Meaning, env: Env, open: string, inner: string)
    requires n.value.Tag? && n.value.element.Named? && !IsVoid(n.value.element)
    requires open == "<" + ElementName(n.value.element) + AttrsText(n.value.attributes, m, env) + ">"
    requires RenderSeq(n.children, m, env, State(open, NoChain)).Ok?
    requires RenderSeq(n.children, m, env, State(open, NoChain)).value.html == open + inner
    ensures Render(n, m, env, State("", NoChain))
      == Ok(State(open + inner + "</" + ElementName(n.value.element) + ">\n", NoChain))
  {
    var e := n.value.element;
    assert Put(State("", NoChain), open) == State(open, NoChain);
    var inner' := RenderSeq(n.children, m, env, State(open, NoChain)).value;
    assert Render(n, m, env, State("", NoChain)) == Ok(Put(inner', "</" + ElementName(e) + ">\n"));
    assert (open + inner) + ("</" + ElementName(e) + ">\n") == open + inner + "</" + ElementName(e) + ">\n";
  }

  /** `r` with `p` in front of its buffer. */
  function Prefixed(p: string, r: Result<State, string>): Result<State, string> {
    match r
    case Err(e) => Err(e)
    case Ok(st) => Ok(State(p + st.html, st.chain))
  }

  lemma PrefixPut(p: string, st: State, s: string)
    ensures Put(State(p + st.html, st.chain), s) == State(p + Put(st, s).html, NoChain)
  {
    assert p + st.html + s == p + (st.html + s);
  }

  /**
   * The program only appends to the buffer: what a node writes does not
   * depend on what the buffer already holds.
   */
  lemma {:induction false} RenderPrefix(n: Html, p: string, m: Meaning, env: Env, st: State)
    ensures Render(n, m, env, State(p + st.html, st.chain)) == Prefixed(p, Render(n, m, env, st))
    decreases n, 2
  {
    var st' := State(p + st.html, st.chain);
    match n.value
    case Tag(e, attrs) =>
      if e == Fragment {
        RenderSeqPrefix(n.children, p, m, env, st);
      } else {
        var t := "<" + ElementName(e) + AttrsText(attrs, m, env) + (if IsVoid(e) then " />" else ">");
        PrefixPut(p, st, t);
        if !IsVoid(e) {
          RenderSeqPrefix(n.children, p, m, env, Put(st, t));
          match RenderSeq(n.children, m, env, Put(st, t))
          case Err(_) =>
          case Ok(inner) => PrefixPut(p, inner, "</" + ElementName(e) + ">\n");
        }
      }
    case SanitizedVar(v) => PrefixPut(p, st, HtmlEscape(m.value(env, v)));
    case Var(v) => PrefixPut(p, st, m.value(env, v));
    case If(c) => BranchPrefix(n, m.holds(env, c), p, m, env, st.html);
    case ElseIf(c) =>
      if st.chain != NoChain && !st.chain.taken {
        BranchPrefix(n, m.holds(env, c), p, m, env, st.html);
      }
    case Else =>
      if st.chain != NoChain && !st.chain.taken {
        RenderSeqPrefix(n.children, p, m, env, State(st.html, NoChain));
      }
    case For(x, it) => LoopPrefix(n, x, m.items(env, it), p, m, env, st.html);
    case DocType => PrefixPut(p, st, "<!DOCTYPE html>\n");
  }

  lemma {:induction false} BranchPrefix(n: Html, go: bool, p: string, m: Meaning, env: Env, html: string)
    ensures RenderBranch(n, go, m, env, p + html) == Prefixed(p, RenderBranch(n, go, m, env, html))
    decreases n, 1
  {
    if go {
      RenderSeqPrefix(n.children, p, m, env, State(html, NoChain));
    }
  }

  lemma {:induction false} LoopPrefix(n: Html, x: string, items: seq<string>, p: string, m: Meaning, env: Env, html: string)
    ensures RenderLoop(n, x, items, m, env, p + html) == Prefixed(p, RenderLoop(n, x, items, m, env, html))
    decreases n, 1, |items|
  {
    if items != [] {
      RenderSeqPrefix(n.children, p, m, env[x := items[0]], State(html, NoChain));
      match RenderSeq(n.children, m, env[x := items[0]], State(html, NoChain))
      case Err(_) =>
      case Ok(b) => LoopPrefix(n, x, items[1..], p, m, env, b.html);
    }
  }

  lemma {:induction false} RenderSeqPrefix(cs: seq<Html>, p: string, m: Meaning, env: Env, st: State)
    ensures RenderSeq(cs, m, env, State(p + st.html, st.chain)) == Prefixed(p, RenderSeq(cs, m, env, st))
    decreases cs, 0
  {
    if cs != [] {
      RenderPrefix(cs[0], p, m, env, st);
      match Render(cs[0], m, env, st)
      case Err(_) =>
      case Ok(s1) => RenderSeqPrefix(cs[1..], p, m, env, s1);
    }
  }

  lemma RenderTwo(x: Html, y: Html, m: Meaning, env: Env, st: State)
    ensures Render(x, m, env, st).Err? ==> RenderSeq([x, y], m, env, st) == Render(x, m, env, st)
    ensures Render(x, m, env, st).Ok? ==> RenderSeq([x, y], m, env, st) == Render(y, m, env, Render(x, m, env, st).value)
  {
    assert [x, y][1..] == [y];
    assert [y][1..] == [];
    var r1 := Render(x, m, env, st);
    if r1.Ok? {
      var r2 := Render(y, m, env, r1.value);
      if r2.Ok? {
        assert RenderSeq([y], m, env, r1.value) == r2;
      }
    }
  }

  /** `if c { a } else { b }` writes what `a` writes when `c` holds and what `b` writes otherwise. */
  lemma IfElseChosen(c: string, a: seq<Html>, b: seq<Html>, m: Meaning, env: Env)
    ensures Program(Root([Html(a, If(c)), Html(b, Else)]), m, env)
      == if m.holds(env, c) then Program(Root(a), m, env) else Program(Root(b), m, env)
  {
    var empty := State("", NoChain);
    ProgramRendered(Root([Html(a, If(c)), Html(b, Else)]), m, env);
    ProgramRendered(Root(a), m, env);
    ProgramRendered(Root(b), m, env);
    RenderTwo(Html(a, If(c)), Html(b, Else), m, env, empty);
    if !m.holds(env, c) {
      assert Render(Html(a, If(c)), m, env, empty) == Ok(State("", InChain(false)));
      match RenderSeq(b, m, env, empty)
      case Err(_) =>
      case Ok(_) =>
    } else {
      match RenderSeq(a, m, env, empty)
      case Err(_) =>
      case Ok(_) =>
    }
  }

  /** An `else` that follows no `if` makes code that does not compile. */
  lemma StrayElseRefused(b: seq<Html>, m: Meaning, env: Env)
    ensures Program(Root([Html(b, Else)]), m, env) == Err(StrayElse)
  {
    ProgramRendered(Root([Html(b, Else)]), m, env);
    assert Render(Html(b, Else), m, env, State("", NoChain)) == Err(StrayElse);
    assert RenderSeq([Html(b, Else)], m, env, State("", NoChain)) == Err(StrayElse);
  }

  function Concat(items: seq<string>): string {
    if items == [] then "" else items[0] + Concat(items[1..])
  }

  lemma {:induction false} LoopOfVar(n: Html, x: string, items: seq<string>, m: Meaning, env: Env, html: string)
    requires n.children == [Leaf(Var(x))]
    requires forall e: Env :: x in e ==> m.value(e, x) == e[x]
    ensures RenderLoop(n, x, items, m, env, html) == Ok(State(html + Concat(items), NoChain))
    decreases |items|
  {
    if items == [] {
      assert html + "" == html;
    } else {
      assert [Leaf(Var(x))][1..] == [];
      assert RenderSeq(n.children, m, env[x := items[0]], State(html, NoChain)) == Ok(State(html + items[0], NoChain));
      LoopOfVar(n, x, items[1..], m, env, html + items[0]);
      assert html + items[0] + Concat(items[1..]) == html + Concat(items);
    }
  }

  /** `for x in it { {{ x }} }` writes the items `it` yields, in order, when `x` stands for its binding. */
  lemma ForWritesItems(x: string, it: string, m: Meaning, env: Env)
    requires forall e: Env :: x in e ==> m.value(e, x) == e[x]
    ensures Program(Root([Html([Leaf(Var(x))], For(x, it))]), m, env) == Ok(Concat(m.items(env, it)))
  {
    var n := Html([Leaf(Var(x))], For(x, it));
    ProgramRendered(Root([n]), m, env);
    LoopOfVar(n, x, m.items(env, it), m, env, "");
    assert "" + Concat(m.items(env, it)) == Concat(m.items(env, it));
    var done := State(Concat(m.items(env, it)), NoChain);
    assert Render(n, m, env, State("", NoChain)) == Ok(done);
    assert [n][1..] == [];
    assert RenderSeq([n], m, env, State("", NoChain)) == RenderSeq([], m, env, done);
  }
}
