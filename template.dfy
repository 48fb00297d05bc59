/**
 * The trees the `view!` template parsers of `html.rs` and `html5.rs` build:
 * every node has a value (a tag with attributes, a text, an interpolated
 * variable or a control-flow header) and an ordered list of children.
 */
module Template {
  import opened Tokens
  import opened Elements

  /** An attribute value: a string literal, or the expression written inside `{{ … }}`. */
  datatype AttrValue = AText(text: string) | AVar(expr: seq<Token>)

  datatype Attribute = Attribute(key: string, value: AttrValue)

  datatype Lex =
    | Tag(element: Element, attributes: seq<Attribute>)
    | Text(text: string)
    | Var(name: string)
    | If(cond: string)
    | ElseIf(cond: string)
    | Else
    | For(binding: string, iter: string)

  datatype Node = Node(children: seq<Node>, value: Lex)

  /** The implicit root every parse starts from. */
  const Root: Node := Node([], Tag(Fragment, []))

  /** `parent.children.push(child)`. */
  function AppendChild(parent: Node, child: Node): (r: Node)
    ensures r.value == parent.value
    ensures |r.children| == |parent.children| + 1
    ensures r.children[..|parent.children|] == parent.children
    ensures r.children[|parent.children|] == child
  {
    Node(parent.children + [child], parent.value)
  }

  /** Every void element in the tree is a leaf. */
  ghost predicate VoidLeaves(n: Node)
    decreases n
  {
    && (n.value.Tag? && IsVoid(n.value.element) ==> n.children == [])
    && forall i :: 0 <= i < |n.children| ==> VoidLeaves(n.children[i])
  }

  /** Every attribute in the tree has a string-literal value. */
  ghost predicate TextAttributesOnly(n: Node)
    decreases n
  {
    && (n.value.Tag? ==> forall a :: a in n.value.attributes ==> a.value.AText?)
    && forall i :: 0 <= i < |n.children| ==> TextAttributesOnly(n.children[i])
  }
}
