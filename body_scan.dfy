/**
 * `get_next_input` of the recursive parsers (`html.rs`, `html2.rs`): the scan
 * that finds an element's body by looking ahead for its closing tag. Every tag
 * name after a `<` goes onto a stack of opening tags; a `</name>` of the
 * element being scanned pops that stack when its top has the same name, and
 * otherwise ends the body and is consumed with it.
 *
 * Two choices are parameters. `Nesting` says which opening tags the stack
 * records: `EveryTag` is the code as written, `SameName` only the element's
 * own name, which is what nesting needs. `EmptyBody` says what happens when
 * the closing tag comes first: `html.rs` consumes it (`SkipsClose`),
 * `html2.rs` leaves the cursor before it (`KeepsClose`).
 */
module BodyScan {
  import opened Wrappers
  import opened Tokens
  import opened Scan
  import opened DataStack

  datatype Nesting = EveryTag | SameName
  datatype EmptyBody = SkipsClose | KeepsClose

  /** What one look at the input does: keep `m` trees with a new tag stack, or stop. */
  datatype Probe = Skip(m: nat, open: seq<string>) | Stop

  /** `rest` holds `</name>` from index `k`. */
  predicate ClosesAt(rest: seq<Token>, k: nat, name: string) {
    && k + 4 <= |rest|
    && rest[k] == Punct('<') && rest[k + 1] == Punct('/') && rest[k + 2] == Ident(name) && rest[k + 3] == Punct('>')
  }

  predicate AllNamed(open: seq<string>, name: string) {
    forall i :: 0 <= i < |open| ==> open[i] == name
  }

  /** The tag stack after `<` and the tree after it. */
  function Opened(rest: seq<Token>, name: string, open: seq<string>, nesting: Nesting): (r: seq<string>)
    requires |rest| >= 2
    ensures nesting == SameName && AllNamed(open, name) ==> AllNamed(r, name)
    ensures !rest[1].Ident? ==> r == open
  {
    if rest[1].Ident? && (nesting == EveryTag || rest[1].name == name) then open + [rest[1].name] else open
  }

  /**
   * One turn of the scan loop at the head of `rest`: a tree other than `<`
   * is kept; `<` is kept with up to three trees after it unless they complete
   * `</name>`, and a complete `</name>` is kept only when it closes a tag on
   * the stack.
   */
  function Look(rest: seq<Token>, name: string, open: seq<string>, nesting: Nesting): (r: Probe)
    requires rest != []
    ensures r.Skip? ==> 1 <= r.m <= |rest|
    ensures r.Stop? <==> ClosesAt(rest, 0, name) && (open == [] || open[|open| - 1] != name)
    ensures r.Skip? && nesting == SameName && AllNamed(open, name) ==> AllNamed(r.open, name)
  {
    if rest[0] != Punct('<') || |rest| == 1 then Skip(1, open)
    else
      var o := Opened(rest, name, open, nesting);
      if rest[1] != Punct('/') || |rest| == 2 then Skip(2, o)
      else if rest[2] != Ident(name) || |rest| == 3 then Skip(3, o)
      else if rest[3] != Punct('>') then Skip(4, o)
      else if o != [] && o[|o| - 1] == name then Skip(4, o[..|o| - 1]) else Stop
  }

  /** Where the element's closing tag starts, or `None` when the scan runs off the end. */
  function Find(rest: seq<Token>, name: string, open: seq<string>, nesting: Nesting): (r: Option<nat>)
    ensures r.Some? ==> r.value + 4 <= |rest|
    decreases |rest|
  {
    if rest == [] then None
    else match Look(rest, name, open, nesting)
      case Stop => Some(0)
      case Skip(m, o) =>
        match Find(rest[m..], name, o, nesting)
        case None => None
        case Some(k) => Some(m + k)
  }

  /** The scan stops only at the element's closing tag. */
  lemma {:induction false} FindCloses(rest: seq<Token>, name: string, open: seq<string>, nesting: Nesting)
    requires Find(rest, name, open, nesting).Some?
    ensures ClosesAt(rest, Find(rest, name, open, nesting).value, name)
    decreases |rest|
  {
    match Look(rest, name, open, nesting)
    case Stop =>
    case Skip(m, o) =>
      FindCloses(rest[m..], name, o, nesting);
  }

  /**
   * `get_next_input`: the body (`None` when it is empty) and how many trees
   * the cursor moves past.
   */
  function NextInput(ts: seq<Token>, name: string, nesting: Nesting, empty: EmptyBody): (r: Parsed<Option<seq<Token>>>)
    ensures r.n <= |ts|
    ensures r.value.Some? ==> r.value.value != [] && |r.value.value| <= |ts| && r.value.value == ts[..|r.value.value|]
    ensures r.value.Some? ==> r.n == |ts| == |r.value.value| || (r.n == |r.value.value| + 4 && ClosesAt(ts, |r.value.value|, name))
    ensures r.value.None? ==> r.n == |ts| == 0 || (r.n == 4 && ClosesAt(ts, 0, name)) || (r.n == 0 && empty == KeepsClose)
  {
    match Find(ts, name, [], nesting)
    case None => Parsed(if ts == [] then None else Some(ts), |ts|)
    case Some(k) =>
      FindCloses(ts, name, [], nesting);
      if k == 0 then Parsed(None, if empty == SkipsClose then 4 else 0)
      else Parsed(Some(ts[..k]), k + 4)
  }

  /** `r` counted from `pos` trees further on. */
  function Shift(pos: nat, r: Option<nat>): Option<nat> {
    match r
    case None => None
    case Some(k) => Some(pos + k)
  }

  lemma FindStep(rest: seq<Token>, name: string, open: seq<string>, nesting: Nesting, m: nat, o: seq<string>)
    requires rest != [] && Look(rest, name, open, nesting) == Skip(m, o)
    ensures Find(rest, name, open, nesting) == Shift(m, Find(rest[m..], name, o, nesting))
  {
  }

  /** The scan stops where the loop's look stops. */
  lemma FindStop(rest: seq<Token>, name: string, open: seq<string>, nesting: Nesting)
    requires rest != [] && Look(rest, name, open, nesting) == Stop
    ensures Find(rest, name, open, nesting) == Some(0)
  {
  }

  /** The loop invariant carried over one kept step, and the position the scan stops at. */
  lemma FindAt(ts: seq<Token>, pos: nat, name: string, before: seq<string>, nesting: Nesting, p: Probe, target: Option<nat>)
    requires pos < |ts| && Look(ts[pos..], name, before, nesting) == p
    requires target == Shift(pos, Find(ts[pos..], name, before, nesting))
    ensures p.Stop? ==> target == Some(pos)
    ensures p.Skip? ==> pos + p.m <= |ts| && target == Shift(pos + p.m, Find(ts[pos + p.m..], name, p.open, nesting))
  {
    var rest := ts[pos..];
    if p.Skip? {
      assert rest[p.m..] == ts[pos + p.m..];
      FindStep(rest, name, before, nesting, p.m, p.open);
      var x := Find(rest[p.m..], name, p.open, nesting);
      assert Shift(pos, Shift(p.m, x)) == Shift(pos + p.m, x);
    } else {
      FindStop(rest, name, before, nesting);
    }
  }

  lemma NextInputFound(ts: seq<Token>, name: string, nesting: Nesting, empty: EmptyBody, k: nat)
    requires Find(ts, name, [], nesting) == Some(k)
    ensures NextInput(ts, name, nesting, empty) ==
      if k == 0 then Parsed(None, if empty == SkipsClose then 4 else 0) else Parsed(Some(ts[..k]), k + 4)
  {
  }

  lemma NextInputEnd(ts: seq<Token>, name: string, nesting: Nesting, empty: EmptyBody)
    requires Find(ts, name, [], nesting) == None
    ensures NextInput(ts, name, nesting, empty) == Parsed(if ts == [] then None else Some(ts), |ts|)
  {
  }

  /** One turn of the loop, on the stack object: the trees kept, or `stop`. */
  method LookStep(ts: seq<Token>, pos: nat, name: string, opening: Stack<string>, nesting: Nesting)
    returns (m: nat, stop: bool)
    requires pos < |ts| && opening.Valid()
    modifies opening
    ensures opening.Valid()
    ensures Look(ts[pos..], name, old(opening.Contents), nesting) == if stop then Stop else Skip(m, opening.Contents)
  {
    var rest := ts[pos..];
    if rest[0] != Punct('<') || |rest| == 1 {
      return 1, false;
    }
    if rest[1].Ident? && (nesting == EveryTag || rest[1].name == name) {
      opening.Push(rest[1].name);
    }
    if rest[1] != Punct('/') || |rest| == 2 {
      return 2, false;
    }
    if rest[2] != Ident(name) || |rest| == 3 {
      return 3, false;
    }
    if rest[3] != Punct('>') {
      return 4, false;
    }
    var top := opening.Peek();
    if top == Some(name) {
      var _ := opening.Pop();
      return 4, false;
    }
    return 0, true;
  }

  /** `LookStep` with what it means for where the scan stops. */
  method ScanTurn(ts: seq<Token>, pos: nat, name: string, opening: Stack<string>, nesting: Nesting, ghost target: Option<nat>)
    returns (m: nat, stop: bool)
    requires pos < |ts| && opening.Valid()
    requires target == Shift(pos, Find(ts[pos..], name, opening.Contents, nesting))
    modifies opening
    ensures opening.Valid()
    ensures stop ==> target == Some(pos)
    ensures !stop ==> 1 <= m && pos + m <= |ts| && target == Shift(pos + m, Find(ts[pos + m..], name, opening.Contents, nesting))
  {
    ghost var before := opening.Contents;
    m, stop := LookStep(ts, pos, name, opening, nesting);
    FindAt(ts, pos, name, before, nesting, if stop then Stop else Skip(m, opening.Contents), target);
  }

  /** The `while let` loop of `get_next_input`, with its stack of opening tags. */
  method ScanNextInput(ts: seq<Token>, name: string, nesting: Nesting, empty: EmptyBody)
    returns (r: Parsed<Option<seq<Token>>>)
    ensures r == NextInput(ts, name, nesting, empty)
  {
    var opening := new Stack<string>();
    var tokens, pos, stop := ScanLoop(ts, name, nesting, opening);
    if stop {
      NextInputFound(ts, name, nesting, empty, pos);
      if tokens == [] {
        return Parsed(None, if empty == SkipsClose then pos + 4 else pos);
      }
      return Parsed(Some(tokens), pos + 4);
    }
    NextInputEnd(ts, name, nesting, empty);
    if tokens == [] {
      return Parsed(None, pos);
    }
    assert ts[..pos] == ts;
    return Parsed(Some(tokens), pos);
  }

  /** The loop itself: the trees kept before the closing tag, and whether it was found. */
  method ScanLoop(ts: seq<Token>, name: string, nesting: Nesting, opening: Stack<string>)
    returns (tokens: seq<Token>, pos: nat, stop: bool)
    requires opening.Valid() && opening.Contents == []
    modifies opening
    ensures pos <= |ts| && tokens == ts[..pos]
    ensures stop ==> Find(ts, name, [], nesting) == Some(pos)
    ensures !stop ==> pos == |ts| && Find(ts, name, [], nesting) == None
  {
    tokens, pos := [], 0;
    ghost var open: seq<string> := [];
    ghost var target := Find(ts, name, open, nesting);
    assert ts[pos..] == ts;
    while pos < |ts|
      invariant 0 <= pos <= |ts| && tokens == ts[..pos]
      invariant opening.Valid()
      invariant opening.Contents == open
      invariant target == Shift(pos, Find(ts[pos..], name, open, nesting))
      decreases |ts| - pos
    {
      var m;
      m, stop := ScanTurn(ts, pos, name, opening, nesting, target);
      if stop {
        return;
      }
      assert ts[..pos + m] == ts[..pos] + ts[pos..pos + m];
      open := opening.Contents;
      tokens := tokens + ts[pos..pos + m];
      pos := pos + m;
    }
    assert ts[pos..] == [];
    stop := false;
  }
}
