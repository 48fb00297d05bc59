/**
 * `List` of the command-line tool (`rocal_cli/src/commands/utils/list.rs`):
 * a tree of optional texts printed as an indented bullet list, one space of
 * indent per level and the bullet cycling through `.`, `*`, `+`, `-`.
 */
module CliList {
  import opened Wrappers

  /** A list handed to `add_list`: it is moved into its parent, so it is a value from then on. */
  datatype Tree = Tree(text: Option<string>, items: seq<Tree>)

  /** `BulletStyle::list()[indent % BulletStyle::len()]`. */
  function Bullet(indent: nat): (c: char)
    ensures c in ".*+-"
  {
    ".*+-"[indent % 4]
  }

  /** `n` copies of `c`: the padding, indents and rules of the command-line output. */
  function Repeat(c: char, n: nat): (s: string)
    ensures |s| == n && forall i :: 0 <= i < n ==> s[i] == c
  {
    seq(n, _ => c)
  }

  /** The strings one after the other. */
  function Concat(parts: seq<string>): string
    decreases |parts|
  {
    if parts == [] then "" else Concat(parts[..|parts| - 1]) + parts[|parts| - 1]
  }

  /** The line for a node's own text: bullet, space, text, newline; nothing without a text. */
  function Line(text: Option<string>, indent: nat): string {
    if text.Some? then [Bullet(indent), ' '] + text.value + "\n" else ""
  }

  /** What `List::print` writes for a tree at an indent. */
  function Printed(t: Tree, indent: nat): string
    decreases t
  {
    Repeat(' ', indent) + Line(t.text, indent) + Concat(ChildTexts(t, indent))
  }

  /** What each child writes, one level deeper. */
  function ChildTexts(t: Tree, indent: nat): (r: seq<string>)
    ensures |r| == |t.items|
    decreases t, 0
  {
    seq(|t.items|, i requires 0 <= i < |t.items| => Printed(t.items[i], indent + 1))
  }

  lemma ChildTextsAt(t: Tree, indent: nat, k: nat)
    requires k < |t.items|
    ensures ChildTexts(t, indent)[k] == Printed(t.items[k], indent + 1)
  {
  }

  lemma ConcatStep(parts: seq<string>, k: nat)
    requires k < |parts|
    ensures Concat(parts[..k + 1]) == Concat(parts[..k]) + parts[k]
  {
    assert parts[..k + 1][..k] == parts[..k];
  }

  /** The `while 0 < i` countdown of `List::print`, writing one space per step. */
  method Indent(indent: nat) returns (out: string)
    ensures out == Repeat(' ', indent)
  {
    out := "";
    var i := indent;
    while 0 < i
      invariant 0 <= i <= indent
      invariant out == Repeat(' ', indent - i)
    {
      out := out + " ";
      i := i - 1;
    }
  }

  /** `List::print`: the indent, the bullet line, then each child one level deeper. */
  method Print(t: Tree, indent: nat) returns (out: string)
    ensures out == Printed(t, indent)
    decreases t, 1
  {
    out := Indent(indent);
    if t.text.Some? {
      out := out + [Bullet(indent), ' '] + t.text.value + "\n";
    }
    assert out == Repeat(' ', indent) + Line(t.text, indent);
    if |t.items| < 1 {
      assert ChildTexts(t, indent) == [];
      return;
    }
    var children := PrintChildren(t, indent);
    out := out + children;
  }

  /** The `for l in list.items` loop of `List::print`. */
  method PrintChildren(t: Tree, indent: nat) returns (out: string)
    ensures out == Concat(ChildTexts(t, indent))
    decreases t, 0
  {
    out := "";
    for k := 0 to |t.items|
      invariant out == Concat(ChildTexts(t, indent)[..k])
    {
      var s := Print(t.items[k], indent + 1);
      ChildTextsAt(t, indent, k);
      ConcatStep(ChildTexts(t, indent), k);
      out := out + s;
    }
    assert ChildTexts(t, indent)[..|t.items|] == ChildTexts(t, indent);
  }

  /** Every node is written after exactly `indent` spaces. */
  lemma PrintedIndent(t: Tree, indent: nat)
    ensures |Printed(t, indent)| >= indent
    ensures Printed(t, indent)[..indent] == Repeat(' ', indent)
    ensures t.text.Some? ==>
      |Printed(t, indent)| > indent + 1 && Printed(t, indent)[indent] == Bullet(indent) && Printed(t, indent)[indent + 1] == ' '
  {
    var rest := Line(t.text, indent) + Concat(ChildTexts(t, indent));
    assert Printed(t, indent) == Repeat(' ', indent) + rest;
  }

  /** A node without text or children writes only its indent, and no newline. */
  lemma EmptyNode(indent: nat)
    ensures Printed(Tree(None, []), indent) == Repeat(' ', indent)
  {
    assert ChildTexts(Tree(None, []), indent) == [];
  }

  /** The bullet repeats every four levels. */
  lemma BulletCycle(indent: nat)
    ensures Bullet(indent + 4) == Bullet(indent)
    ensures Bullet(0) == '.' && Bullet(1) == '*' && Bullet(2) == '+' && Bullet(3) == '-'
  {
  }

  /** A child added last is written last, one level deeper, after everything written before. */
  lemma AddedLast(text: Option<string>, items: seq<Tree>, child: Tree, indent: nat)
    ensures Printed(Tree(text, items + [child]), indent) == Printed(Tree(text, items), indent) + Printed(child, indent + 1)
  {
    var before := Tree(text, items);
    var after := Tree(text, items + [child]);
    var cs := ChildTexts(after, indent);
    assert cs[..|items|] == ChildTexts(before, indent);
    ChildTextsAt(after, indent, |items|);
    ConcatStep(cs, |items|);
    assert cs[..|items| + 1] == cs;
  }

  /** `List`: the root under construction. */
  class List {
    var text: Option<string>
    var items: seq<Tree>

    constructor ()
      ensures text.None? && items == []
    {
      text := None;
      items := [];
    }

    function Value(): Tree
      reads this
    {
      Tree(text, items)
    }

    /** `add_text`: overwrites the text. */
    method AddText(t: string)
      modifies this
      ensures text == Some(t) && items == old(items)
    {
      text := Some(t);
    }

    /** `add_list`: appends the given list as the last child. */
    method AddList(l: Tree)
      modifies this
      ensures items == old(items) + [l] && text == old(text)
      ensures Printed(Value(), 0) == old(Printed(Value(), 0)) + Printed(l, 1)
    {
      AddedLast(text, items, l, 0);
      items := items + [l];
    }

    /** `Display`: the tree printed from indent 0. */
    method Display() returns (s: string)
      ensures s == Printed(Value(), 0)
    {
      s := Print(Value(), 0);
    }
  }
}
