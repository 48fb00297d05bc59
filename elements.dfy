/**
 * The element names of the template language. The element table itself is not
 * part of this model: any identifier names an element, `Fragment` is reserved
 * for the implicit root, and the void elements are those of the WHATWG HTML
 * Living Standard, section 13.1.2.
 */
module Elements {
  datatype Element = Fragment | Named(name: string)

  const VoidNames: set<string> := {
    "area", "base", "br", "col", "embed", "hr", "img", "input", "link", "meta",
    "source", "track", "wbr"
  }

  /** `HtmlElement::is_void`. */
  predicate IsVoid(e: Element) {
    e.Named? && e.name in VoidNames
  }

  /** `HtmlElement::to_string` of an element written in a template. */
  function ElementName(e: Element): string {
    match e
    case Fragment => ""
    case Named(n) => n
  }
}
