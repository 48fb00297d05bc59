/**
 * `ContentType::get_content_type` of the development server: the MIME type
 * of the first extension in a fixed order that occurs anywhere in the file
 * name, and `application/octet-stream` when none does.
 */
module ContentType {
  /** `sub` occurs in `s` at index `i`. */
  predicate Occurs(s: string, sub: string, i: int) {
    0 <= i && i + |sub| <= |s| && s[i..i + |sub|] == sub
  }

  /** `str::contains`. */
  predicate Contains(s: string, sub: string) {
    exists i :: 0 <= i <= |s| - |sub| && Occurs(s, sub, i)
  }

  const Js := "application/javascript; charset=UTF-8"
  const Html := "text/html; charset=UTF-8"
  const OctetStream := "application/octet-stream"

  /** The checks in order: the extensions each tests and the type it gives. */
  const Checks: seq<(seq<string>, string)> := [
    ([".js", ".mjs"], Js),
    ([".html"], Html),
    ([".wasm"], "application/wasm"),
    ([".css"], "text/css; charset=UTF-8"),
    ([".jpg", ".jpeg"], "image/jpeg"),
    ([".png"], "image/png"),
    ([".gif"], "image/gif"),
    ([".ico"], "image/x-icon"),
    ([".svg"], "image/svg+xml"),
    ([".webp"], "image/webp"),
    ([".avif"], "image/avif"),
    ([".apng"], "image/apng"),
    ([".bmp"], "image/bmp"),
    ([".heic"], "image/heic")
  ]

  /** Every type the chain can give. */
  const Types: set<string> := {
    Js, Html, "application/wasm", "text/css; charset=UTF-8", "image/jpeg", "image/png", "image/gif",
    "image/x-icon", "image/svg+xml", "image/webp", "image/avif", "image/apng", "image/bmp", "image/heic",
    OctetStream
  }

  /** The if/else-if chain of `get_content_type`. */
  function Of(name: string): (r: string)
    ensures r in Types
  {
    if Contains(name, ".js") || Contains(name, ".mjs") then Js
    else if Contains(name, ".html") then Html
    else if Contains(name, ".wasm") then "application/wasm"
    else if Contains(name, ".css") then "text/css; charset=UTF-8"
    else if Contains(name, ".jpg") || Contains(name, ".jpeg") then "image/jpeg"
    else if Contains(name, ".png") then "image/png"
    else if Contains(name, ".gif") then "image/gif"
    else if Contains(name, ".ico") then "image/x-icon"
    else if Contains(name, ".svg") then "image/svg+xml"
    else if Contains(name, ".webp") then "image/webp"
    else if Contains(name, ".avif") then "image/avif"
    else if Contains(name, ".apng") then "image/apng"
    else if Contains(name, ".bmp") then "image/bmp"
    else if Contains(name, ".heic") then "image/heic"
    else OctetStream
  }

  /** Whether a check applies: one of its extensions occurs in the name. */
  predicate Applies(check: (seq<string>, string), name: string) {
    exists j :: 0 <= j < |check.0| && Contains(name, check.0[j])
  }

  /** The type of the first check from `k` on that applies. */
  function FirstMatch(name: string, k: nat): string
    requires k <= |Checks|
    decreases |Checks| - k
  {
    if k == |Checks| then OctetStream
    else if Applies(Checks[k], name) then Checks[k].1
    else FirstMatch(name, k + 1)
  }

  lemma Applies2(a: string, b: string, t: string, name: string)
    ensures Applies(([a, b], t), name) <==> Contains(name, a) || Contains(name, b)
  {
    var c := ([a, b], t);
    if Contains(name, a) {
      assert c.0[0] == a;
    }
    if Contains(name, b) {
      assert c.0[1] == b;
    }
  }

  lemma Applies1(a: string, t: string, name: string)
    ensures Applies(([a], t), name) <==> Contains(name, a)
  {
    var c := ([a], t);
    if Contains(name, a) {
      assert c.0[0] == a;
    }
  }

  /** The chain gives the type of the first check, in the table's order, that applies. */
  lemma OfIsFirstMatch(name: string)
    ensures Of(name) == FirstMatch(name, 0)
  {
    Applies2(".js", ".mjs", Js, name);
    Applies1(".html", Html, name);
    Applies1(".wasm", "application/wasm", name);
    Applies1(".css", "text/css; charset=UTF-8", name);
    Applies2(".jpg", ".jpeg", "image/jpeg", name);
    Applies1(".png", "image/png", name);
    Applies1(".gif", "image/gif", name);
    Applies1(".ico", "image/x-icon", name);
    Applies1(".svg", "image/svg+xml", name);
    Applies1(".webp", "image/webp", name);
    Applies1(".avif", "image/avif", name);
    Applies1(".apng", "image/apng", name);
    Applies1(".bmp", "image/bmp", name);
    Applies1(".heic", "image/heic", name);
  }

  /** A name holding `sub + rest` holds `sub`. */
  lemma ContainsPrefix(name: string, sub: string, rest: string)
    requires Contains(name, sub + rest)
    ensures Contains(name, sub)
  {
    var i :| 0 <= i <= |name| - |sub + rest| && Occurs(name, sub + rest, i);
    assert 0 <= i && i + |sub| + |rest| <= |name|;
    assert name[i..i + |sub|] == name[i..i + |sub + rest|][..|sub|];
    assert Occurs(name, sub, i);
  }

  /** Matching is by substring: `a.json`, or anything holding `.js`, is JavaScript. */
  lemma JsonIsJavaScript(name: string)
    requires Contains(name, ".json")
    ensures Of(name) == Js
  {
    assert ".json" == ".js" + "on";
    ContainsPrefix(name, ".js", "on");
  }

  /** `.js` is tested before `.html`. */
  lemma JsBeforeHtml(name: string)
    requires Contains(name, ".js") && Contains(name, ".html")
    ensures Of(name) == Js
  {
  }

  /** A name holding none of the extensions is `application/octet-stream`. */
  lemma Unknown(name: string)
    requires forall k, j :: 0 <= k < |Checks| && 0 <= j < |Checks[k].0| ==> !Contains(name, Checks[k].0[j])
    ensures Of(name) == OctetStream
  {
    OfIsFirstMatch(name);
    NoneApplies(name, 0);
  }

  lemma {:induction false} NoneApplies(name: string, k: nat)
    requires k <= |Checks|
    requires forall k, j :: 0 <= k < |Checks| && 0 <= j < |Checks[k].0| ==> !Contains(name, Checks[k].0[j])
    ensures FirstMatch(name, k) == OctetStream
    decreases |Checks| - k
  {
    if k < |Checks| {
      NoneApplies(name, k + 1);
    }
  }

  /** The file the server reads for a request path: the path without its `/`, or `index.html` for `/`. */
  function FilePath(resource: string): (r: string)
    ensures 1 < |resource| ==> r == resource[1..]
    ensures |resource| <= 1 ==> r == "index.html"
  {
    if 1 < |resource| then resource[1..] else "index.html"
  }

  /** A name without some character of `sub` does not contain `sub`. */
  lemma MissingChar(name: string, sub: string, k: nat)
    requires k < |sub| && forall j :: 0 <= j < |name| ==> name[j] != sub[k]
    ensures !Contains(name, sub)
  {
    forall i | 0 <= i <= |name| - |sub|
      ensures !Occurs(name, sub, i)
    {
      assert name[i..i + |sub|][k] == name[i + k];
    }
  }

  /** `/` is served as HTML. */
  lemma RootIsHtml()
    ensures Of(FilePath("/")) == Html
  {
    var name := "index.html";
    assert FilePath("/") == name;
    assert Occurs(name, ".html", 5);
    forall j | 0 <= j < |name|
      ensures name[j] != 'j'
    {
    }
    MissingChar(name, ".js", 1);
    MissingChar(name, ".mjs", 2);
  }
}
