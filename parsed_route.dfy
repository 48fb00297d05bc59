/**
 * `parsed_route.rs`: the `route!` input, a comma-separated list of
 * `method "path" => { key: Ident, … }` entries. A destination key is one of
 * `controller`, `action` and `view`; a later entry for a key overrides an
 * earlier one.
 */
module ParsedRoute {
  import opened Wrappers
  import opened Tokens
  import opened Scan
  import RequestMethod
  import opened Entries

  /** `ParsedRoute`: every field stays `None` until the parser sets it. */
  datatype Route = Route(
    requestMethod: Option<RequestMethod.Method>,
    path: Option<string>,
    controller: Option<string>,
    action: Option<string>,
    view: Option<string>)

  const Keys: set<string> := {"controller", "action", "view"}

  // ---- `KeyValue::parse` ----

  /** `key : value`, where the key is one of `Keys` and both are plain identifiers. */
  function ParseKeyValue(ts: seq<Token>): (r: Result<Parsed<KeyValue>, Error>)
    ensures r.Ok? <==> |ts| >= 3 && IsPlainIdent(ts[0]) && ts[1] == Punct(':') && ts[0].name in Keys && IsPlainIdent(ts[2])
    ensures r.Ok? ==> r.value == Parsed(KeyValue(ts[0].name, ts[2].name), 3)
  {
    if |ts| == 0 || !IsPlainIdent(ts[0]) then Err(Message("should have property keys within curly braces"))
    else if |ts| < 2 || ts[1] != Punct(':') then Err(Message("prop key and value should be separated by :"))
    else if ts[0].name !in Keys then Err(Message("unknown property key: " + ts[0].name))
    else if |ts| < 3 || !IsPlainIdent(ts[2]) then Err(Message("Property requires a value"))
    else Ok(Parsed(KeyValue(ts[0].name, ts[2].name), 3))
  }

  /**
   * `Punctuated::<KeyValue, Token![,]>::parse_terminated`: entries separated
   * by commas, a trailing comma allowed, up to the end of the braces.
   */
  function KeyValues(ts: seq<Token>): (r: Result<seq<KeyValue>, Error>)
    ensures r.Ok? ==> forall i :: 0 <= i < |r.value| ==> r.value[i].key in Keys
    decreases |ts|
  {
    if ts == [] then Ok([])
    else match ParseKeyValue(ts)
      case Err(e) => Err(e)
      case Ok(kv) =>
        var rest := ts[kv.n..];
        if rest == [] then Ok([kv.value])
        else if rest[0] != Punct(',') then Err(Message("expected `,`"))
        else match KeyValues(rest[1..])
          case Err(e) => Err(e)
          case Ok(more) => Ok([kv.value] + more)
  }

  // ---- the setters applied in `for_each` ----

  /** One setter call: a destination key sets its own field and nothing else. */
  function Set(route: Route, kv: KeyValue): (r: Route)
    ensures r.requestMethod == route.requestMethod && r.path == route.path
    ensures r.controller == (if kv.key == "controller" then Some(kv.value) else route.controller)
    ensures r.action == (if kv.key == "action" then Some(kv.value) else route.action)
    ensures r.view == (if kv.key == "view" then Some(kv.value) else route.view)
  {
    if kv.key == "controller" then route.(controller := Some(kv.value))
    else if kv.key == "action" then route.(action := Some(kv.value))
    else if kv.key == "view" then route.(view := Some(kv.value))
    else route
  }

  /** The setters for `kvs`, in order. */
  function Applied(route: Route, kvs: seq<KeyValue>): Route
    decreases |kvs|
  {
    if kvs == [] then route else Set(Applied(route, kvs[..|kvs| - 1]), kvs[|kvs| - 1])
  }

  /** The `for_each` of `ParsedRoute::parse`: each setter in turn on the route. */
  method ApplyAll(route: Route, kvs: seq<KeyValue>) returns (r: Route)
    ensures r == Applied(route, kvs)
  {
    r := route;
    for i := 0 to |kvs|
      invariant r == Applied(route, kvs[..i])
    {
      assert kvs[..i + 1][..i] == kvs[..i];
      r := Set(r, kvs[i]);
    }
    assert kvs[..|kvs|] == kvs;
  }

  function Override(before: Option<string>, after: Option<string>): Option<string> {
    if after.Some? then after else before
  }

  /** Each destination field ends as the last entry for its key set it, or as it was. */
  lemma {:induction false} AppliedFields(route: Route, kvs: seq<KeyValue>)
    ensures Applied(route, kvs) == Route(route.requestMethod, route.path,
      Override(route.controller, Lookup(kvs, "controller")),
      Override(route.action, Lookup(kvs, "action")),
      Override(route.view, Lookup(kvs, "view")))
    decreases |kvs|
  {
    if kvs != [] {
      AppliedFields(route, kvs[..|kvs| - 1]);
    }
  }

  // ---- `ParsedRoute::parse` ----

  /** The keyword of a method in the `route!` input. */
  function MethodWord(m: RequestMethod.Method): string {
    match m
    case Get => "get"
    case Post => "post"
    case Put => "put"
    case Patch => "patch"
    case Delete => "delete"
  }

  /** The five `peek` tests in turn. */
  function ParseMethod(ts: seq<Token>): (r: Option<RequestMethod.Method>)
    ensures r.Some? ==> |ts| > 0 && ts[0] == Ident(MethodWord(r.value))
    ensures r.None? ==> forall m :: !StartsWithKw(ts, MethodWord(m))
  {
    if StartsWithKw(ts, "get") then Some(RequestMethod.Get)
    else if StartsWithKw(ts, "post") then Some(RequestMethod.Post)
    else if StartsWithKw(ts, "put") then Some(RequestMethod.Put)
    else if StartsWithKw(ts, "patch") then Some(RequestMethod.Patch)
    else if StartsWithKw(ts, "delete") then Some(RequestMethod.Delete)
    else None
  }

  /** `method "path" => { … }`: the method and the path set, then the destination's setters. */
  function ParseRoute(ts: seq<Token>): (r: Result<Parsed<Route>, Error>)
    ensures r.Ok? ==> r.value.n == 5 <= |ts|
    ensures r.Ok? ==> r.value.value.requestMethod.Some? && r.value.value.path.Some?
  {
    match ParseMethod(ts)
    case None => Err(Message("Method should be get, post, put, patch, or delete"))
    case Some(m) =>
      if |ts| < 2 || !ts[1].Str? then Err(Message("Path is required"))
      else if |ts| < 4 || ts[2] != Punct('=') || ts[3] != Punct('>') then Err(Message("Path and destination should be separated by =>"))
      else if |ts| < 5 || !IsBrace(ts[4]) then Err(Message("expected curly braces"))
      else match KeyValues(ts[4].inner)
        case Err(e) => Err(e)
        case Ok(kvs) =>
          AppliedFields(Route(Some(m), Some(ts[1].value), None, None, None), kvs);
          Ok(Parsed(Applied(Route(Some(m), Some(ts[1].value), None, None, None), kvs), 5))
  }

  /** `ParsedRoutes::parse`: routes separated by commas, a trailing comma allowed, in their order. */
  function ParseRoutes(ts: seq<Token>): (r: Result<seq<Route>, Error>)
    decreases |ts|
  {
    if ts == [] then Ok([])
    else match ParseRoute(ts)
      case Err(e) => Err(e)
      case Ok(route) =>
        var rest := ts[route.n..];
        if rest == [] then Ok([route.value])
        else if rest[0] != Punct(',') then Err(Message("expected `,`"))
        else match ParseRoutes(rest[1..])
          case Err(e) => Err(e)
          case Ok(more) => Ok([route.value] + more)
  }

  /** `ParsedRoutes::parse`: the punctuated routes, then each pushed onto the result in turn. */
  method CollectRoutes(ts: seq<Token>) returns (r: Result<seq<Route>, Error>)
    ensures r == ParseRoutes(ts)
  {
    var routes := ParseRoutes(ts);
    if routes.Err? {
      return Err(routes.error);
    }
    var result: seq<Route> := [];
    for i := 0 to |routes.value|
      invariant result == routes.value[..i]
    {
      result := result + [routes.value[i]];
    }
    assert result == routes.value;
    return Ok(result);
  }

  // ---- the input that writes given routes ----

  predicate ValidEntry(kv: KeyValue) {
    kv.key in Keys && IsPlainIdent(Ident(kv.value))
  }

  function EntryTokens(kv: KeyValue): seq<Token> {
    [Ident(kv.key), Punct(':'), Ident(kv.value)]
  }

  /** `k: v, k: v, …` without a trailing comma. */
  function PrintEntries(kvs: seq<KeyValue>): seq<Token>
    decreases |kvs|
  {
    if kvs == [] then [] else EntryTokens(kvs[0]) + (if |kvs| == 1 then [] else [Punct(',')] + PrintEntries(kvs[1..]))
  }

  /** A route as written: its method, its path and its destination entries. */
  datatype RouteSpec = RouteSpec(requestMethod: RequestMethod.Method, path: string, entries: seq<KeyValue>)

  function PrintRoute(s: RouteSpec): seq<Token> {
    [Ident(MethodWord(s.requestMethod)), Str(s.path), Punct('='), Punct('>'), Group(Brace, PrintEntries(s.entries))]
  }

  function PrintRoutes(specs: seq<RouteSpec>): seq<Token>
    decreases |specs|
  {
    if specs == [] then [] else PrintRoute(specs[0]) + (if |specs| == 1 then [] else [Punct(',')] + PrintRoutes(specs[1..]))
  }

  /** The route a spec stands for: method and path set, then the entries' setters. */
  function Meaning(s: RouteSpec): Route {
    Applied(Route(Some(s.requestMethod), Some(s.path), None, None, None), s.entries)
  }

  function Meanings(specs: seq<RouteSpec>): (r: seq<Route>)
    ensures |r| == |specs| && forall i :: 0 <= i < |specs| ==> r[i] == Meaning(specs[i])
  {
    seq(|specs|, i requires 0 <= i < |specs| => Meaning(specs[i]))
  }

  predicate ValidSpec(s: RouteSpec) {
    forall i :: 0 <= i < |s.entries| ==> ValidEntry(s.entries[i])
  }

  /** The three destination keys are plain identifiers. */
  lemma KeysPlain(k: string)
    requires k in Keys
    ensures IsPlainIdent(Ident(k))
  {
    if k == "controller" {
      PlainName(k);
    } else if k == "action" {
      PlainName(k);
    } else {
      PlainName("view");
    }
  }

  lemma EntryHead(kv: KeyValue, rest: seq<Token>)
    requires ValidEntry(kv)
    ensures ParseKeyValue(EntryTokens(kv) + rest) == Ok(Parsed(kv, 3))
    ensures (EntryTokens(kv) + rest)[3..] == rest
  {
    var ts := EntryTokens(kv) + rest;
    assert ts[0] == Ident(kv.key) && ts[1] == Punct(':') && ts[2] == Ident(kv.value);
    KeysPlain(kv.key);
  }

  /** One printed entry in front of the rest of the list. */
  lemma EntryCons(kv: KeyValue, after: seq<Token>)
    requires ValidEntry(kv)
    ensures after == [] ==> KeyValues(EntryTokens(kv) + after) == Ok([kv])
    ensures after != [] && after[0] == Punct(',') && KeyValues(after[1..]).Ok? ==>
      KeyValues(EntryTokens(kv) + after) == Ok([kv] + KeyValues(after[1..]).value)
  {
    EntryHead(kv, after);
  }

  /** What follows the first entry of a print. */
  function EntriesAfter(kvs: seq<KeyValue>, tail: seq<Token>): seq<Token>
    requires kvs != []
  {
    (if |kvs| == 1 then [] else [Punct(',')] + PrintEntries(kvs[1..])) + tail
  }

  lemma EntriesSplit(kvs: seq<KeyValue>, tail: seq<Token>)
    requires kvs != []
    ensures PrintEntries(kvs) + tail == EntryTokens(kvs[0]) + EntriesAfter(kvs, tail)
    ensures |kvs| > 1 ==> EntriesAfter(kvs, tail)[0] == Punct(',') && EntriesAfter(kvs, tail)[1..] == PrintEntries(kvs[1..]) + tail
    ensures |kvs| == 1 ==> EntriesAfter(kvs, tail) == tail
  {
    var x := EntryTokens(kvs[0]);
    var y := if |kvs| == 1 then [] else [Punct(',')] + PrintEntries(kvs[1..]);
    assert PrintEntries(kvs) == x + y;
    Assoc(x, y, tail);
    if |kvs| > 1 {
      Assoc([Punct(',')], PrintEntries(kvs[1..]), tail);
    } else {
      assert y + tail == tail;
    }
  }

  /** The entries read back from their print, with or without a trailing comma. */
  lemma {:induction false} EntriesPrinted(kvs: seq<KeyValue>, tail: seq<Token>)
    requires forall i :: 0 <= i < |kvs| ==> ValidEntry(kvs[i])
    requires tail == [] || (kvs != [] && tail == [Punct(',')])
    ensures KeyValues(PrintEntries(kvs) + tail) == Ok(kvs)
    decreases |kvs|
  {
    if kvs == [] {
      assert PrintEntries(kvs) + tail == [];
    } else {
      var after := EntriesAfter(kvs, tail);
      EntriesSplit(kvs, tail);
      EntryCons(kvs[0], after);
      if |kvs| > 1 {
        EntriesPrinted(kvs[1..], tail);
        assert kvs == [kvs[0]] + kvs[1..];
      } else if tail != [] {
        assert after[1..] == [];
        assert KeyValues(after[1..]) == Ok([]);
        assert kvs == [kvs[0]] + [];
      } else {
        assert after == [] && kvs == [kvs[0]];
      }
    }
  }

  /** The tokens of a printed route, one by one. */
  lemma RouteTokens(s: RouteSpec, rest: seq<Token>)
    ensures var ts := PrintRoute(s) + rest;
      |ts| >= 5 && ts[0] == Ident(MethodWord(s.requestMethod)) && ts[1] == Str(s.path) &&
      ts[2] == Punct('=') && ts[3] == Punct('>') && ts[4] == Group(Brace, PrintEntries(s.entries)) && ts[5..] == rest
  {
  }

  lemma RouteHead(s: RouteSpec, rest: seq<Token>)
    requires ValidSpec(s)
    ensures ParseRoute(PrintRoute(s) + rest) == Ok(Parsed(Meaning(s), 5))
    ensures (PrintRoute(s) + rest)[5..] == rest
  {
    RouteTokens(s, rest);
    EntriesPrinted(s.entries, []);
    assert PrintEntries(s.entries) + [] == PrintEntries(s.entries);
  }

  /** One printed route in front of the rest of the list. */
  lemma RouteCons(s: RouteSpec, after: seq<Token>)
    requires ValidSpec(s)
    ensures after == [] ==> ParseRoutes(PrintRoute(s) + after) == Ok([Meaning(s)])
    ensures after != [] && after[0] == Punct(',') && ParseRoutes(after[1..]).Ok? ==>
      ParseRoutes(PrintRoute(s) + after) == Ok([Meaning(s)] + ParseRoutes(after[1..]).value)
  {
    RouteHead(s, after);
  }

  /** What follows the first route of a print. */
  function RoutesAfter(specs: seq<RouteSpec>, tail: seq<Token>): seq<Token>
    requires specs != []
  {
    (if |specs| == 1 then [] else [Punct(',')] + PrintRoutes(specs[1..])) + tail
  }

  lemma Assoc(a: seq<Token>, b: seq<Token>, c: seq<Token>)
    ensures (a + b) + c == a + (b + c)
  {
  }

  lemma RoutesSplit(specs: seq<RouteSpec>, tail: seq<Token>)
    requires specs != []
    ensures PrintRoutes(specs) + tail == PrintRoute(specs[0]) + RoutesAfter(specs, tail)
    ensures |specs| > 1 ==> RoutesAfter(specs, tail)[0] == Punct(',') && RoutesAfter(specs, tail)[1..] == PrintRoutes(specs[1..]) + tail
    ensures |specs| == 1 ==> RoutesAfter(specs, tail) == tail
  {
    var x := PrintRoute(specs[0]);
    var y := if |specs| == 1 then [] else [Punct(',')] + PrintRoutes(specs[1..]);
    assert PrintRoutes(specs) == x + y;
    Assoc(x, y, tail);
    if |specs| > 1 {
      Assoc([Punct(',')], PrintRoutes(specs[1..]), tail);
    } else {
      assert y + tail == tail;
    }
  }

  lemma MeaningsCons(specs: seq<RouteSpec>)
    requires specs != []
    ensures Meanings(specs) == [Meaning(specs[0])] + Meanings(specs[1..])
  {
  }

  /** Routes read back from their print, in order, with or without a trailing comma. */
  lemma {:induction false} RoutesPrinted(specs: seq<RouteSpec>, tail: seq<Token>)
    requires forall i :: 0 <= i < |specs| ==> ValidSpec(specs[i])
    requires tail == [] || (specs != [] && tail == [Punct(',')])
    ensures ParseRoutes(PrintRoutes(specs) + tail) == Ok(Meanings(specs))
    decreases |specs|
  {
    if specs == [] {
      assert PrintRoutes(specs) + tail == [];
    } else {
      var after := RoutesAfter(specs, tail);
      RoutesSplit(specs, tail);
      MeaningsCons(specs);
      RouteCons(specs[0], after);
      if |specs| > 1 {
        RoutesPrinted(specs[1..], tail);
      } else if tail != [] {
        assert after[1..] == [];
        assert ParseRoutes(after[1..]) == Ok([]);
        assert Meanings(specs) == [Meaning(specs[0])] + [];
      } else {
        assert after == [] && Meanings(specs) == [Meaning(specs[0])];
      }
    }
  }

  // ---- single cases ----

  /** A key other than `controller`, `action` and `view` is refused with its name. */
  lemma UnknownKey(key: string, value: string, rest: seq<Token>)
    requires IsPlainIdent(Ident(key)) && key !in Keys
    ensures ParseKeyValue([Ident(key), Punct(':'), Ident(value)] + rest) == Err(Message("unknown property key: " + key))
  {
    var ts := [Ident(key), Punct(':'), Ident(value)] + rest;
    assert ts[0] == Ident(key) && ts[1] == Punct(':');
  }

  /** The first token must be one of the five method keywords. */
  lemma MethodRequired(ts: seq<Token>)
    requires |ts| > 0 && (!ts[0].Ident? || ts[0].name !in {"get", "post", "put", "patch", "delete"})
    ensures ParseRoutes(ts) == Err(Message("Method should be get, post, put, patch, or delete"))
  {
  }

  /** A method keyword not followed by a string literal. */
  lemma PathRequired(m: RequestMethod.Method, t: Token, rest: seq<Token>)
    requires !t.Str?
    ensures ParseRoute([Ident(MethodWord(m)), t] + rest) == Err(Message("Path is required"))
  {
    var ts := [Ident(MethodWord(m)), t] + rest;
    assert ts[0] == Ident(MethodWord(m)) && ts[1] == t;
    assert ParseMethod(ts) == Some(m);
  }

  /** Nothing at all is no route. */
  lemma NoRoutes()
    ensures ParseRoutes([]) == Ok([])
  {
  }

  /** With `controller` given twice, the second value is the one kept. */
  lemma DuplicateKey(kvs: seq<KeyValue>, a: string, b: string, rest: seq<KeyValue>)
    requires kvs == [KeyValue("controller", a)] + rest + [KeyValue("controller", b)]
    ensures Applied(Route(None, None, None, None, None), kvs).controller == Some(b)
  {
    AppliedFields(Route(None, None, None, None, None), kvs);
    assert kvs[|kvs| - 1] == KeyValue("controller", b);
  }
}
