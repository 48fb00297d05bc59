/**
 * `Note` of the `simple_note` example: a note's title, with an empty title
 * reported as no title, and its body.
 */
module Note {
  import opened Wrappers

  datatype Note = Note(id: int, title: Option<string>, body: Option<string>)

  /** `get_title`: the title, except that an empty one reads as `None`. */
  function Title(n: Note): (r: Option<string>)
    ensures r != Some("")
    ensures n.title.None? ==> r.None?
    ensures n.title.Some? && n.title.value != "" ==> r == n.title
    ensures n.title == Some("") ==> r.None?
  {
    match n.title
    case Some(t) => if t == "" then None else n.title
    case None => n.title
  }

  /** `get_body`: unlike the title, an empty body is kept as it is. */
  function Body(n: Note): (r: Option<string>)
    ensures r == n.body
    ensures n.body == Some("") ==> r == Some("")
  {
    n.body
  }

  /** Reading the title is the same as dropping an empty title first. */
  lemma TitleTwice(n: Note)
    ensures Title(n.(title := Title(n))) == Title(n)
  {
  }
}
