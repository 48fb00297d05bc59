/**
 * `parsed_action.rs`: what the `#[action]` attribute reads from a controller
 * method's signature, namely its name and, for each argument bound to a plain
 * name, that name, the innermost type name and whether an `Option` wraps it.
 */
module ParsedAction {
  import opened Wrappers

  /** The parts of syn's `Type` the reader tells apart. */
  datatype Type =
    | Reference(elem: Type)             // `&T`, `&mut T`
    | PathType(segments: seq<Segment>)  // `a::b::C<…>`
    | OtherType                         // tuples, slices, `impl Trait`, …

  datatype Segment = Segment(ident: string, arguments: PathArguments)

  datatype PathArguments = NoArguments | AngleBracketed(args: seq<GenericArgument>) | Parenthesized

  datatype GenericArgument = TypeArgument(ty: Type) | OtherArgument  // a lifetime, a const, a binding, …

  /** A pattern: a plain name (`PatIdent`) or anything else (`_`, a tuple, …). */
  datatype Pat = PatIdent(ident: string) | OtherPat

  datatype FnArg = Receiver | Typed(pat: Pat, ty: Type)

  /** The part of `ItemFn` the reader uses. */
  datatype ItemFn = ItemFn(ident: string, inputs: seq<FnArg>)

  datatype Arg = Arg(name: string, ty: string, isOptional: bool)

  datatype Action = Action(name: string, args: seq<Arg>)

  /**
   * `extract_type_ident`: through references and `Option<…>`, the last path
   * segment's name, and whether an `Option` was passed on the way.
   */
  function TypeIdent(t: Type): (r: Option<(string, bool)>)
    ensures r.Some? ==> r.value.0 != "Option"
    ensures t.OtherType? ==> r.None?
    ensures t.Reference? ==> r == TypeIdent(t.elem)
    decreases t
  {
    match t
    case Reference(elem) => TypeIdent(elem)
    case OtherType => None
    case PathType(segments) =>
      if segments == [] then None
      else
        var segment := segments[|segments| - 1];
        if segment.ident == "Option" then
          if segment.arguments.AngleBracketed? && segment.arguments.args != [] && segment.arguments.args[0].TypeArgument? then
            assert segment.arguments.args[0] in segment.arguments.args;
            match TypeIdent(segment.arguments.args[0].ty)
            case None => None
            case Some(inner) => Some((inner.0, true))
          else None
        else Some((segment.ident, false))
  }

  /** A type built from a name by references and `Option<…>` around it. */
  datatype Layer = Ref | Opt

  function Wrap(base: string, layers: seq<Layer>): Type
    decreases |layers|
  {
    if layers == [] then PathType([Segment(base, NoArguments)])
    else if layers[0] == Ref then Reference(Wrap(base, layers[1..]))
    else PathType([Segment("Option", AngleBracketed([TypeArgument(Wrap(base, layers[1..]))]))])
  }

  /** Any nesting of references and options around a name gives that name, optional when some layer is an `Option`. */
  lemma {:induction false} TypeIdentWrap(base: string, layers: seq<Layer>)
    requires base != "Option"
    ensures TypeIdent(Wrap(base, layers)) == Some((base, Opt in layers))
    decreases |layers|
  {
    if layers != [] {
      TypeIdentWrap(base, layers[1..]);
      assert layers == [layers[0]] + layers[1..];
    }
  }

  /** A path's leading segments do not matter: `std::option::Option<T>` is read like `Option<T>`. */
  lemma LastSegmentOnly(prefix: seq<Segment>, segment: Segment)
    ensures TypeIdent(PathType(prefix + [segment])) == TypeIdent(PathType([segment]))
  {
  }

  /** `Option` without a type argument, e.g. bare or `Option<'a>`, is no type at all. */
  lemma OptionWithoutType(arguments: PathArguments)
    requires !arguments.AngleBracketed? || arguments.args == [] || !arguments.args[0].TypeArgument?
    ensures TypeIdent(PathType([Segment("Option", arguments)])) == None
  {
  }

  /** The argument one input contributes: none, or one. */
  function ArgOf(input: FnArg): (r: seq<Arg>)
    ensures |r| <= 1
    ensures |r| == 1 <==> input.Typed? && input.pat.PatIdent? && TypeIdent(input.ty).Some?
  {
    if input.Typed? && input.pat.PatIdent? then
      match TypeIdent(input.ty)
      case Some(found) => [Arg(input.pat.ident, found.0, found.1)]
      case None => []
    else []
  }

  /** The arguments the inputs contribute, in order. */
  function ArgsOf(inputs: seq<FnArg>): seq<Arg>
    decreases |inputs|
  {
    if inputs == [] then [] else ArgsOf(inputs[..|inputs| - 1]) + ArgOf(inputs[|inputs| - 1])
  }

  /** `extract_args`: the loop over the inputs, pushing each argument kept. */
  method ExtractArgs(f: ItemFn) returns (args: seq<Arg>)
    ensures args == ArgsOf(f.inputs)
  {
    args := [];
    for i := 0 to |f.inputs|
      invariant args == ArgsOf(f.inputs[..i])
    {
      assert f.inputs[..i + 1][..i] == f.inputs[..i];
      var input := f.inputs[i];
      if input.Typed? && input.pat.PatIdent? {
        var found := TypeIdent(input.ty);
        if found.Some? {
          args := args + [Arg(input.pat.ident, found.value.0, found.value.1)];
        }
      }
    }
    assert f.inputs[..|f.inputs|] == f.inputs;
  }

  /** `parse_action`: always succeeds, with the method's name and its arguments. */
  method ParseAction(f: ItemFn) returns (r: Result<Action, string>)
    ensures r == Ok(Action(f.ident, ArgsOf(f.inputs)))
  {
    var args := ExtractArgs(f);
    return Ok(Action(f.ident, args));
  }

  /** Inputs split anywhere contribute the arguments of each part, one after the other. */
  lemma {:induction false} ArgsOfAppend(a: seq<FnArg>, b: seq<FnArg>)
    ensures ArgsOf(a + b) == ArgsOf(a) + ArgsOf(b)
    decreases |b|
  {
    if b == [] {
      assert a + b == a;
    } else {
      var b' := b[..|b| - 1];
      assert (a + b)[..|a + b| - 1] == a + b';
      assert (a + b)[|a + b| - 1] == b[|b| - 1];
      ArgsOfAppend(a, b');
    }
  }

  /** No more arguments than inputs. */
  lemma {:induction false} ArgsOfBound(inputs: seq<FnArg>)
    ensures |ArgsOf(inputs)| <= |inputs|
    decreases |inputs|
  {
    if inputs != [] {
      ArgsOfBound(inputs[..|inputs| - 1]);
    }
  }

  /** `self` contributes nothing, wherever it stands. */
  lemma ReceiverSkipped(a: seq<FnArg>, b: seq<FnArg>)
    ensures ArgsOf(a + [Receiver] + b) == ArgsOf(a + b)
  {
    var ar := a + [Receiver];
    ArgsOfAppend(ar, b);
    assert ar[..|ar| - 1] == a;
    assert ArgsOf(ar) == ArgsOf(a) + ArgOf(Receiver);
    ArgsOfAppend(a, b);
  }

  /** One input per argument: a plain name with a wrapped type name. */
  datatype Declared = Declared(name: string, base: string, layers: seq<Layer>)

  function Input(d: Declared): FnArg {
    Typed(PatIdent(d.name), Wrap(d.base, d.layers))
  }

  function Inputs(ds: seq<Declared>): (r: seq<FnArg>)
    ensures |r| == |ds| && forall i :: 0 <= i < |ds| ==> r[i] == Input(ds[i])
  {
    seq(|ds|, i requires 0 <= i < |ds| => Input(ds[i]))
  }

  /** Arguments declared with plain names and named types are all read back, in order. */
  lemma {:induction false} DeclaredArgs(ds: seq<Declared>)
    requires forall i :: 0 <= i < |ds| ==> ds[i].base != "Option"
    ensures |ArgsOf(Inputs(ds))| == |ds|
    ensures forall i :: 0 <= i < |ds| ==> ArgsOf(Inputs(ds))[i] == Arg(ds[i].name, ds[i].base, Opt in ds[i].layers)
    decreases |ds|
  {
    if ds != [] {
      var n := |ds| - 1;
      DeclaredArgs(ds[..n]);
      assert Inputs(ds)[..n] == Inputs(ds[..n]);
      TypeIdentWrap(ds[n].base, ds[n].layers);
    }
  }
}
