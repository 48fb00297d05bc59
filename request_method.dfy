/**
 * `RequestMethod` of `enums/request_method.rs`: the five HTTP methods the
 * router keys its routes by, read case-insensitively from a string and
 * written in capitals.
 */
module RequestMethod {
  datatype Method = Get | Post | Put | Patch | Delete

  /** The capital of an ASCII lower-case letter; every other character is kept. */
  function UpperChar(c: char): (u: char)
    ensures 'a' <= c <= 'z' ==> 'A' <= u <= 'Z' && u as int - c as int == 'A' as int - 'a' as int
    ensures !('a' <= c <= 'z') ==> u == c
  {
    if 'a' <= c <= 'z' then (c as int - 'a' as int + 'A' as int) as char else c
  }

  /** `str::to_uppercase`, on ASCII letters. */
  function ToUpper(s: string): (r: string)
    ensures |r| == |s| && forall i :: 0 <= i < |s| ==> r[i] == UpperChar(s[i])
  {
    seq(|s|, i requires 0 <= i < |s| => UpperChar(s[i]))
  }

  lemma UpperCharTwice(c: char)
    ensures UpperChar(UpperChar(c)) == UpperChar(c)
  {
  }

  lemma ToUpperTwice(s: string)
    ensures ToUpper(ToUpper(s)) == ToUpper(s)
  {
    var u := ToUpper(s);
    forall i | 0 <= i < |s|
      ensures ToUpper(u)[i] == u[i]
    {
      UpperCharTwice(s[i]);
    }
  }

  /** `Display`: the method's name in capitals. */
  function Name(m: Method): (r: string)
    ensures |r| >= 3 && ToUpper(r) == r
  {
    match m
    case Get => "GET"
    case Post => "POST"
    case Put => "PUT"
    case Patch => "PATCH"
    case Delete => "DELETE"
  }

  const Names: set<string> := {"GET", "POST", "PUT", "PATCH", "DELETE"}

  /** `RequestMethod::from`: the method whose name is `s` in capitals, and `Post` for any other string. */
  function From(s: string): (m: Method)
    ensures Name(m) == ToUpper(s) || (m == Post && ToUpper(s) !in Names)
  {
    match ToUpper(s)
    case "GET" => Get
    case "POST" => Post
    case "PUT" => Put
    case "PATCH" => Patch
    case "DELETE" => Delete
    case _ => Post
  }

  /** The five names are pairwise different. */
  lemma NamesDistinct(a: Method, b: Method)
    ensures Name(a) == Name(b) <==> a == b
  {
    if a != b {
      assert Name(a)[1] != Name(b)[1] || |Name(a)| != |Name(b)| || Name(a)[0] != Name(b)[0];
    }
  }

  lemma NameIsKnown(m: Method)
    ensures Name(m) in Names
  {
  }

  /** Reading back a written method gives the same method. */
  lemma FromName(m: Method)
    ensures From(Name(m)) == m
  {
    ToUpperTwice(Name(m));
    NameIsKnown(m);
    NamesDistinct(From(Name(m)), m);
  }

  /** Strings that agree up to case read as the same method. */
  lemma FromIgnoresCase(s: string, t: string)
    requires ToUpper(s) == ToUpper(t)
    ensures From(s) == From(t)
  {
  }

  /** `From(s)` is `m` exactly when `s` is `m`'s name in any case, or `m` is `Post` and `s` names no method. */
  lemma FromExactly(s: string, m: Method)
    ensures From(s) == m <==> (ToUpper(s) == Name(m) || (m == Post && ToUpper(s) !in Names))
  {
    NameIsKnown(m);
    NameIsKnown(From(s));
    NamesDistinct(From(s), m);
  }

  /** `"get"`, `"Get"` and `"GET"` are all `Get`. */
  lemma LowerCaseGet()
    ensures From("get") == Get && From("Get") == Get && From("delete") == Delete
  {
    assert ToUpper("get") == "GET";
    assert ToUpper("Get") == "GET";
    assert ToUpper("delete") == "DELETE";
  }

  /** An unknown method reads as `Post`. */
  lemma UnknownIsPost()
    ensures From("head") == Post && From("") == Post
  {
    assert ToUpper("head") == "HEAD";
    assert ToUpper("") == "";
  }
}
