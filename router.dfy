/**
 * `Router` of `router.rs`: a trie whose first level is the request method and
 * whose further levels are the `/`-separated segments of a route. A node is
 * identified here by the path of keys leading to it from the root, so the
 * trie is a map from paths to the action stored at the node; every path in
 * it has its parent in it as well.
 */
module Router {
  import opened Wrappers
  import RequestMethod

  type Path = seq<string>

  // ---- `str::split("/")` ----

  /** The pieces of `s` between its slashes: `"/a/b"` gives `"", "a", "b"`, and `""` gives one empty piece. */
  function Split(s: string): (r: seq<string>)
    ensures |r| >= 1
  {
    if s == [] then [""]
    else
      var r := Split(s[1..]);
      if s[0] == '/' then [""] + r else [[s[0]] + r[0]] + r[1..]
  }

  /** The pieces joined with slashes between them. */
  function Join(parts: seq<string>): string
    requires |parts| >= 1
  {
    if |parts| == 1 then parts[0] else parts[0] + "/" + Join(parts[1..])
  }

  predicate NoSlash(s: string) {
    forall j :: 0 <= j < |s| ==> s[j] != '/'
  }

  /** Splitting loses nothing: the pieces join back to `s`. */
  lemma {:induction false} JoinSplit(s: string)
    ensures Join(Split(s)) == s
  {
    if s != [] {
      var r := Split(s[1..]);
      JoinSplit(s[1..]);
      if s[0] == '/' {
        assert ([""] + r)[1..] == r;
      } else if |r| > 1 {
        assert ([[s[0]] + r[0]] + r[1..])[1..] == r[1..];
      }
    }
  }

  /** No piece holds a slash. */
  lemma {:induction false} SplitPieces(s: string)
    ensures forall k :: 0 <= k < |Split(s)| ==> NoSlash(Split(s)[k])
  {
    if s != [] {
      SplitPieces(s[1..]);
      var r := Split(s[1..]);
      if s[0] != '/' {
        assert NoSlash(r[0]);
        assert NoSlash([s[0]] + r[0]);
      }
    }
  }

  /** A piece without slashes, a slash, and then `b`: the piece, then the pieces of `b`. */
  lemma {:induction false} SplitPrefix(a: string, b: string)
    requires NoSlash(a)
    ensures Split(a + "/" + b) == [a] + Split(b)
  {
    if a == [] {
      assert a + "/" + b == "/" + b && ("/" + b)[1..] == b;
    } else {
      assert (a + "/" + b)[1..] == a[1..] + "/" + b;
      SplitPrefix(a[1..], b);
      assert [a[0]] + a[1..] == a;
    }
  }

  lemma {:induction false} SplitNoSlash(a: string)
    requires NoSlash(a)
    ensures Split(a) == [a]
  {
    if a != [] {
      SplitNoSlash(a[1..]);
      assert [a[0]] + a[1..] == a;
    }
  }

  /** Pieces without slashes are what splitting their join gives back. */
  lemma {:induction false} SplitJoin(parts: seq<string>)
    requires |parts| >= 1 && forall k :: 0 <= k < |parts| ==> NoSlash(parts[k])
    ensures Split(Join(parts)) == parts
    decreases |parts|
  {
    assert NoSlash(parts[0]);
    if |parts| == 1 {
      SplitNoSlash(parts[0]);
    } else {
      SplitJoin(parts[1..]);
      SplitPrefix(parts[0], Join(parts[1..]));
      assert parts == [parts[0]] + parts[1..];
    }
  }

  // ---- path parameters ----

  /** A key matching `^<(?<key>.+)>$`: `<`, at least one character other than a line break, `>`. */
  predicate IsParam(k: string) {
    |k| >= 3 && k[0] == '<' && k[|k| - 1] == '>' && forall i :: 1 <= i < |k| - 1 ==> k[i] != '\n'
  }

  /** The captured `key` of a parameter. */
  function ParamKey(k: string): (key: string)
    requires IsParam(k)
    ensures |key| >= 1 && "<" + key + ">" == k
  {
    k[1..|k| - 1]
  }

  /** Every non-empty name without line breaks makes a parameter that captures it. */
  lemma ParamOf(key: string)
    requires |key| >= 1 && forall i :: 0 <= i < |key| ==> key[i] != '\n'
    ensures IsParam("<" + key + ">") && ParamKey("<" + key + ">") == key
  {
    var k := "<" + key + ">";
    assert forall i :: 1 <= i < |k| - 1 ==> k[i] == key[i - 1];
  }

  // ---- the trie ----

  /** The root is there, and every other node's parent is too. */
  predicate IsTrie<A>(t: map<Path, Option<A>>) {
    [] in t && forall q :: q in t && q != [] ==> q[..|q| - 1] in t
  }

  /**
   * What registering does from node `p` on: take or make the child for each
   * key of `segs` in turn, and store `a` at the node reached.
   */
  function Grow<A>(t: map<Path, Option<A>>, p: Path, segs: seq<string>, a: A): map<Path, Option<A>>
    decreases |segs|
  {
    if segs == [] then t[p := Some(a)]
    else
      var q := p + [segs[0]];
      Grow(if q in t then t else t[q := None], q, segs[1..], a)
  }

  lemma {:induction false} GrowTrie<A>(t: map<Path, Option<A>>, p: Path, segs: seq<string>, a: A)
    requires IsTrie(t) && p in t
    ensures IsTrie(Grow(t, p, segs, a))
    decreases |segs|
  {
    if segs != [] {
      var q := p + [segs[0]];
      var t' := if q in t then t else t[q := None];
      assert q[..|q| - 1] == p;
      GrowTrie(t', q, segs[1..], a);
    }
  }

  /** One step of registering: the child for the first key, taken or made, keeps the trie a trie. */
  lemma GrowStep<A>(t: map<Path, Option<A>>, p: Path, segs: seq<string>, a: A)
    requires IsTrie(t) && p in t && segs != []
    ensures var q := p + [segs[0]];
      var t' := if q in t then t else t[q := None];
      && IsTrie(t') && q in t' && Grow(t', q, segs[1..], a) == Grow(t, p, segs, a)
  {
    assert (p + [segs[0]])[..|p|] == p;
  }

  /** Registering makes every node along the route and stores `a` at its end. */
  lemma {:induction false} GrowReaches<A>(t: map<Path, Option<A>>, p: Path, segs: seq<string>, a: A)
    ensures forall i :: 0 < i <= |segs| ==> p + segs[..i] in Grow(t, p, segs, a)
    ensures p + segs in Grow(t, p, segs, a) && Grow(t, p, segs, a)[p + segs] == Some(a)
    decreases |segs|
  {
    if segs == [] {
      assert p + segs == p;
    } else {
      var q := p + [segs[0]];
      var t' := if q in t then t else t[q := None];
      GrowReaches(t', q, segs[1..], a);
      GrowGrows(t', q, segs[1..], a);
      assert q + segs[1..] == p + segs;
      forall i | 0 < i <= |segs|
        ensures p + segs[..i] in Grow(t, p, segs, a)
      {
        if i == 1 {
          assert p + segs[..1] == q;
        } else {
          assert p + segs[..i] == q + segs[1..][..i - 1];
        }
      }
    }
  }

  /** Registering only adds nodes. */
  lemma {:induction false} GrowGrows<A>(t: map<Path, Option<A>>, p: Path, segs: seq<string>, a: A)
    ensures t.Keys <= Grow(t, p, segs, a).Keys
    decreases |segs|
  {
    if segs != [] {
      var q := p + [segs[0]];
      var t' := if q in t then t else t[q := None];
      GrowGrows(t', q, segs[1..], a);
    }
  }

  /** Registering changes the action of no node but the route's end node. */
  lemma {:induction false} GrowKeeps<A>(t: map<Path, Option<A>>, p: Path, segs: seq<string>, a: A)
    ensures forall q :: q in t && q != p + segs ==> q in Grow(t, p, segs, a) && Grow(t, p, segs, a)[q] == t[q]
    decreases |segs|
  {
    if segs == [] {
      assert p + segs == p;
    } else {
      var q := p + [segs[0]];
      var t' := if q in t then t else t[q := None];
      GrowKeeps(t', q, segs[1..], a);
      assert q + segs[1..] == p + segs;
    }
  }

  /** Registering adds no node off the route. */
  lemma {:induction false} GrowOnly<A>(t: map<Path, Option<A>>, p: Path, segs: seq<string>, a: A)
    ensures forall q :: q in Grow(t, p, segs, a) ==>
      q in t || exists i :: 0 <= i <= |segs| && q == p + segs[..i]
    decreases |segs|
  {
    if segs == [] {
      assert p == p + segs[..0];
    } else {
      var q0 := p + [segs[0]];
      var t' := if q0 in t then t else t[q0 := None];
      GrowOnly(t', q0, segs[1..], a);
      forall q | q in Grow(t, p, segs, a)
        ensures q in t || exists i :: 0 <= i <= |segs| && q == p + segs[..i]
      {
        if q !in t {
          assert q !in t' || q == q0;
          if q == q0 {
            assert q == p + segs[..1];
          } else {
            var i :| 0 <= i <= |segs| - 1 && q == q0 + segs[1..][..i];
            assert q == p + segs[..i + 1];
          }
        }
      }
    }
  }

  // ---- the walk `resolve` makes ----

  /** How a lookup ends: no node for the method, a segment with no child to take, or a node with the arguments built. */
  datatype Outcome = NoMethod | NoChild | Reached(node: Path, args: map<string, string>)

  /** `p`'s child under the key `k` is a path parameter. */
  predicate ParamChild<A>(t: map<Path, Option<A>>, p: Path, k: string) {
    p + [k] in t && IsParam(k)
  }

  /**
   * The walk from `p` along `segs`: an exact child is taken when there is
   * one; otherwise any parameter child is (the source takes the first in
   * hash-map order), binding its key to the segment; with neither the walk
   * ends with `NoChild`.
   */
  ghost predicate Walk<A>(t: map<Path, Option<A>>, p: Path, segs: seq<string>, args: map<string, string>, r: Outcome)
    decreases |segs|
  {
    if segs == [] then r == Reached(p, args)
    else if p + [segs[0]] in t then Walk(t, p + [segs[0]], segs[1..], args, r)
    else if exists k :: ParamChild(t, p, k) then
      exists k :: ParamChild(t, p, k) && Walk(t, p + [k], segs[1..], args[ParamKey(k) := segs[0]], r)
    else r == NoChild
  }

  /** From `p`, the segment `s` may lead to the child `k`: `s` itself, or a parameter when `p` has no child `s`. */
  predicate Takes<A>(t: map<Path, Option<A>>, p: Path, s: string, k: string) {
    p + [k] in t && (k == s || (IsParam(k) && p + [s] !in t))
  }

  /** The arguments after taking the child `k` for the segment `s`: a parameter binds its key. */
  function BindStep(args: map<string, string>, k: string, s: string): map<string, string> {
    if k == s || !IsParam(k) then args else args[ParamKey(k) := s]
  }

  /** The arguments a walk along the keys `keys` for the segments `segs` binds, step by step. */
  function Bind(args: map<string, string>, keys: seq<string>, segs: seq<string>): map<string, string>
    requires |keys| == |segs|
    decreases |segs|
  {
    if segs == [] then args else Bind(BindStep(args, keys[0], segs[0]), keys[1..], segs[1..])
  }

  /** An exact child is taken, and nothing is bound. */
  lemma ExactStep<A>(t: map<Path, Option<A>>, p: Path, s: string, rest: seq<string>, args: map<string, string>, r: Outcome)
    requires p + [s] in t
    ensures Walk(t, p, [s] + rest, args, r) <==> Walk(t, p + [s], rest, args, r)
  {
    assert ([s] + rest)[0] == s && ([s] + rest)[1..] == rest;
  }

  /** With no exact child and one parameter child, the walk follows it and binds its key to the segment. */
  lemma ParamStep<A>(t: map<Path, Option<A>>, p: Path, s: string, k: string, rest: seq<string>, args: map<string, string>, r: Outcome)
    requires p + [s] !in t && ParamChild(t, p, k) && forall k' :: ParamChild(t, p, k') ==> k' == k
    ensures Walk(t, p, [s] + rest, args, r) <==> Walk(t, p + [k], rest, args[ParamKey(k) := s], r)
  {
    assert ([s] + rest)[0] == s && ([s] + rest)[1..] == rest;
  }

  /** With neither an exact nor a parameter child, the walk ends there. */
  lemma NoChildStep<A>(t: map<Path, Option<A>>, p: Path, s: string, rest: seq<string>, args: map<string, string>, r: Outcome)
    requires p + [s] !in t && forall k :: !ParamChild(t, p, k)
    ensures Walk(t, p, [s] + rest, args, r) <==> r == NoChild
  {
    assert ([s] + rest)[0] == s && ([s] + rest)[1..] == rest;
  }

  /** Every child the segment may lead to continues a walk from `p`. */
  lemma TakesWalk<A>(t: map<Path, Option<A>>, p: Path, s: string, k: string, rest: seq<string>, args: map<string, string>, r: Outcome)
    requires Takes(t, p, s, k) && Walk(t, p + [k], rest, BindStep(args, k, s), r)
    ensures Walk(t, p, [s] + rest, args, r)
  {
    assert ([s] + rest)[0] == s && ([s] + rest)[1..] == rest;
    if k != s {
      assert ParamChild(t, p, k);
    }
  }

  lemma TakesWalks<A>(t: map<Path, Option<A>>, p: Path, s: string, k: string, rest: seq<string>, args: map<string, string>)
    requires Takes(t, p, s, k)
    ensures forall r :: Walk(t, p + [k], rest, BindStep(args, k, s), r) ==> Walk(t, p, [s] + rest, args, r)
  {
    forall r | Walk(t, p + [k], rest, BindStep(args, k, s), r)
      ensures Walk(t, p, [s] + rest, args, r)
    {
      TakesWalk(t, p, s, k, rest, args, r);
    }
  }

  /** The first step of a walk that reaches a node. */
  lemma FirstStep<A>(t: map<Path, Option<A>>, p: Path, segs: seq<string>, args: map<string, string>, r: Outcome) returns (k: string)
    requires segs != [] && Walk(t, p, segs, args, r) && r.Reached?
    ensures Takes(t, p, segs[0], k) && Walk(t, p + [k], segs[1..], BindStep(args, k, segs[0]), r)
  {
    if p + [segs[0]] in t {
      k := segs[0];
    } else {
      k :| ParamChild(t, p, k) && Walk(t, p + [k], segs[1..], args[ParamKey(k) := segs[0]], r);
    }
  }

  /**
   * A walk that reaches a node went from `p` one key per segment, each the
   * segment itself or a parameter taken for want of an exact child.
   */
  lemma {:induction false} WalkReached<A>(t: map<Path, Option<A>>, p: Path, segs: seq<string>, args: map<string, string>, q: Path, out: map<string, string>)
    requires Walk(t, p, segs, args, Reached(q, out))
    ensures |q| == |p| + |segs| && q[..|p|] == p
    ensures forall i :: 0 <= i < |segs| ==> Takes(t, q[..|p| + i], segs[i], q[|p| + i])
    decreases |segs|
  {
    if segs == [] {
      assert q == p;
    } else {
      var k := FirstStep(t, p, segs, args, Reached(q, out));
      WalkReached(t, p + [k], segs[1..], BindStep(args, k, segs[0]), q, out);
      ShiftTakes(t, p, k, segs, q);
    }
  }

  /** The arguments of a walk that reaches a node are those its parameters bind. */
  lemma {:induction false} WalkBinds<A>(t: map<Path, Option<A>>, p: Path, segs: seq<string>, args: map<string, string>, q: Path, out: map<string, string>)
    requires Walk(t, p, segs, args, Reached(q, out))
    ensures |q| == |p| + |segs| && out == Bind(args, q[|p|..], segs)
    decreases |segs|
  {
    if segs == [] {
      assert q == p;
    } else {
      var k := FirstStep(t, p, segs, args, Reached(q, out));
      WalkReached(t, p + [k], segs[1..], BindStep(args, k, segs[0]), q, out);
      WalkBinds(t, p + [k], segs[1..], BindStep(args, k, segs[0]), q, out);
      assert q[|p|..][0] == q[..|p| + 1][|p|] == k;
      assert q[|p|..][1..] == q[|p| + 1..];
    }
  }

  lemma ShiftTakes<A>(t: map<Path, Option<A>>, p: Path, k: string, segs: seq<string>, q: Path)
    requires segs != [] && Takes(t, p, segs[0], k)
    requires |q| == |p| + |segs| && q[..|p| + 1] == p + [k]
    requires forall i :: 0 <= i < |segs| - 1 ==> Takes(t, q[..|p| + 1 + i], segs[1..][i], q[|p| + 1 + i])
    ensures q[..|p|] == p
    ensures forall i :: 0 <= i < |segs| ==> Takes(t, q[..|p| + i], segs[i], q[|p| + i])
  {
    assert q[..|p|] == q[..|p| + 1][..|p|];
    assert q[|p|] == q[..|p| + 1][|p|];
    forall i | 0 <= i < |segs|
      ensures Takes(t, q[..|p| + i], segs[i], q[|p| + i])
    {
      if i > 0 {
        assert |p| + 1 + (i - 1) == |p| + i;
        assert segs[1..][i - 1] == segs[i];
      }
    }
  }

  /** A walk that reaches a node from a node of the trie stays in the trie. */
  lemma WalkInTrie<A>(t: map<Path, Option<A>>, p: Path, segs: seq<string>, args: map<string, string>, q: Path, out: map<string, string>)
    requires p in t && Walk(t, p, segs, args, Reached(q, out))
    ensures q in t
  {
    WalkReached(t, p, segs, args, q, out);
    if segs != [] {
      var i := |segs| - 1;
      assert Takes(t, q[..|p| + i], segs[i], q[|p| + i]);
      assert q[..|p| + i] + [q[|p| + i]] == q;
    } else {
      assert q == q[..|p|];
    }
  }

  /** Along a route whose every node is there, the walk takes exact children only and binds nothing. */
  lemma {:induction false} WalkExact<A>(t: map<Path, Option<A>>, p: Path, segs: seq<string>, args: map<string, string>, r: Outcome)
    requires forall i :: 0 < i <= |segs| ==> p + segs[..i] in t
    ensures Walk(t, p, segs, args, r) <==> r == Reached(p + segs, args)
    decreases |segs|
  {
    if segs == [] {
      assert p + segs == p;
    } else {
      assert p + segs[..1] == p + [segs[0]];
      var q := p + [segs[0]];
      forall i | 0 < i <= |segs| - 1
        ensures q + segs[1..][..i] in t
      {
        assert q + segs[1..][..i] == p + segs[..i + 1];
      }
      WalkExact(t, q, segs[1..], args, r);
      assert q + segs[1..] == p + segs;
    }
  }

  /** A walk that took a parameter at step `i` only binds that parameter's key to that segment. */
  lemma {:induction false} BindOne(args: map<string, string>, keys: seq<string>, segs: seq<string>, i: nat)
    requires |keys| == |segs| && i < |segs| && IsParam(keys[i]) && keys[i] != segs[i]
    requires forall j :: 0 <= j < |segs| && j != i ==> keys[j] == segs[j]
    ensures Bind(args, keys, segs) == args[ParamKey(keys[i]) := segs[i]]
    decreases |segs|
  {
    if i == 0 {
      BindNone(args[ParamKey(keys[0]) := segs[0]], keys[1..], segs[1..]);
    } else {
      BindOne(args, keys[1..], segs[1..], i - 1);
    }
  }

  /** A walk that took exact children only binds nothing. */
  lemma {:induction false} BindNone(args: map<string, string>, keys: seq<string>, segs: seq<string>)
    requires |keys| == |segs| && forall j :: 0 <= j < |segs| ==> keys[j] == segs[j]
    ensures Bind(args, keys, segs) == args
    decreases |segs|
  {
    if segs != [] {
      BindNone(args, keys[1..], segs[1..]);
    }
  }

  /** An argument no taken parameter binds keeps its value. */
  lemma {:induction false} BindKeeps(args: map<string, string>, keys: seq<string>, segs: seq<string>, key: string)
    requires |keys| == |segs|
    requires forall j :: 0 <= j < |segs| && keys[j] != segs[j] && IsParam(keys[j]) ==> ParamKey(keys[j]) != key
    ensures key in Bind(args, keys, segs) <==> key in args
    ensures key in args ==> Bind(args, keys, segs)[key] == args[key]
    decreases |segs|
  {
    if segs != [] {
      BindKeeps(BindStep(args, keys[0], segs[0]), keys[1..], segs[1..], key);
    }
  }

  /** The last parameter that binds a key gives it its segment. */
  lemma {:induction false} BindLast(args: map<string, string>, keys: seq<string>, segs: seq<string>, i: nat)
    requires |keys| == |segs| && i < |segs| && IsParam(keys[i]) && keys[i] != segs[i]
    requires forall j :: i < j < |segs| && keys[j] != segs[j] && IsParam(keys[j]) ==> ParamKey(keys[j]) != ParamKey(keys[i])
    ensures ParamKey(keys[i]) in Bind(args, keys, segs) && Bind(args, keys, segs)[ParamKey(keys[i])] == segs[i]
    decreases |segs|
  {
    if i == 0 {
      BindKeeps(BindStep(args, keys[0], segs[0]), keys[1..], segs[1..], ParamKey(keys[0]));
    } else {
      BindLast(BindStep(args, keys[0], segs[0]), keys[1..], segs[1..], i - 1);
    }
  }

  // ---- the query of the URL ----

  /** What `Url::parse` makes of the host followed by the route: its path and its query pairs. */
  datatype Url = Url(path: string, query: seq<(string, string)>)

  /** The caller's arguments with each query pair inserted in turn. */
  function Merge(args: map<string, string>, pairs: seq<(string, string)>): map<string, string>
    decreases |pairs|
  {
    if pairs == [] then args
    else Merge(args, pairs[..|pairs| - 1])[pairs[|pairs| - 1].0 := pairs[|pairs| - 1].1]
  }

  /** The last query pair with a key gives that key its value. */
  lemma {:induction false} MergeLast(args: map<string, string>, pairs: seq<(string, string)>, i: nat)
    requires i < |pairs| && forall j :: i < j < |pairs| ==> pairs[j].0 != pairs[i].0
    ensures pairs[i].0 in Merge(args, pairs) && Merge(args, pairs)[pairs[i].0] == pairs[i].1
    decreases |pairs|
  {
    if i < |pairs| - 1 {
      MergeLast(args, pairs[..|pairs| - 1], i);
    }
  }

  /** A key no query pair has keeps the caller's value, or stays absent. */
  lemma {:induction false} MergeKeeps(args: map<string, string>, pairs: seq<(string, string)>, key: string)
    requires forall j :: 0 <= j < |pairs| ==> pairs[j].0 != key
    ensures key in Merge(args, pairs) <==> key in args
    ensures key in args ==> Merge(args, pairs)[key] == args[key]
    decreases |pairs|
  {
    if pairs != [] {
      MergeKeeps(args, pairs[..|pairs| - 1], key);
    }
  }

  class Router<A> {
    /** Every node of the trie, by its path from the root, with the action stored there. */
    var routes: map<Path, Option<A>>

    predicate Valid()
      reads this
    {
      IsTrie(routes)
    }

    /** `Router::new`: only the root, without an action. */
    constructor()
      ensures Valid() && routes == map[[] := None]
    {
      routes := map[[] := None];
    }

    /** `Router::register`: the method's node, then one node per piece of the route, and the action at the last. */
    method Register(m: RequestMethod.Method, route: string, action: A)
      requires Valid()
      modifies this
      ensures Valid()
      ensures routes == Grow(old(routes), [], [RequestMethod.Name(m)] + Split(route), action)
    {
      var name := RequestMethod.Name(m);
      var segs := Split(route);
      GrowStep(routes, [], [name] + segs, action);
      assert [] + [name] == [name] && ([name] + segs)[1..] == segs;
      if [name] !in routes {
        routes := routes[[name] := None];
      }
      var ptr := [name];
      var i := 0;
      while i < |segs|
        invariant 0 <= i <= |segs| && IsTrie(routes) && ptr in routes
        invariant Grow(routes, ptr, segs[i..], action) == Grow(old(routes), [], [name] + segs, action)
      {
        var s := segs[i];
        GrowStep(routes, ptr, segs[i..], action);
        assert segs[i..][0] == s && segs[i..][1..] == segs[i + 1..];
        if ptr + [s] !in routes {
          routes := routes[ptr + [s] := None];
        }
        ptr := ptr + [s];
        i := i + 1;
      }
      assert segs[i..] == [];
      routes := routes[ptr := Some(action)];
    }

    /** The child of `ptr` that the segment `s` leads to: `s` itself when there is one, else some parameter child. */
    method ChildFor(ptr: Path, s: string) returns (key: Option<string>)
      requires ptr in routes
      ensures key.None? ==> ptr + [s] !in routes && forall k :: !ParamChild(routes, ptr, k)
      ensures key.Some? ==> Takes(routes, ptr, s, key.value)
    {
      if ptr + [s] in routes {
        return Some(s);
      }
      var params := set q | q in routes && |q| == |ptr| + 1 && q[..|ptr|] == ptr && IsParam(q[|ptr|]) :: q[|ptr|];
      forall k | ParamChild(routes, ptr, k)
        ensures k in params
      {
        assert (ptr + [k])[..|ptr|] == ptr && (ptr + [k])[|ptr|] == k;
      }
      if params == {} {
        return None;
      }
      var k :| k in params;
      var q :| q in routes && |q| == |ptr| + 1 && q[..|ptr|] == ptr && IsParam(q[|ptr|]) && q[|ptr|] == k;
      assert q == ptr + [k];
      return Some(k);
    }

    /** The caller's arguments with the query pairs inserted in turn. */
    static method MergeQuery(args: map<string, string>, pairs: seq<(string, string)>) returns (r: map<string, string>)
      ensures r == Merge(args, pairs)
    {
      r := args;
      var i := 0;
      while i < |pairs|
        invariant 0 <= i <= |pairs| && r == Merge(args, pairs[..i])
      {
        assert pairs[..i + 1][..i] == pairs[..i];
        r := r[pairs[i].0 := pairs[i].1];
        i := i + 1;
      }
      assert pairs[..|pairs|] == pairs;
    }

    /**
     * `Router::resolve`: the query pairs of the URL over the caller's
     * arguments, then the walk from the method's node along the URL's path;
     * the action found is called with the arguments, and the result says
     * whether there was one. `parsed` is what `Url::parse` makes of the host
     * followed by `route`.
     */
    method Resolve(m: RequestMethod.Method, route: string, parsed: Option<Url>, callerArgs: Option<map<string, string>>)
      returns (found: bool, outcome: Outcome, call: Option<(A, map<string, string>)>)
      requires Valid()
      ensures var args := Merge(if callerArgs.Some? then callerArgs.value else map[], if parsed.Some? then parsed.value.query else []);
        var path := if parsed.Some? then parsed.value.path else route;
        && ([RequestMethod.Name(m)] !in routes ==> outcome == NoMethod)
        && ([RequestMethod.Name(m)] in routes ==> Walk(routes, [RequestMethod.Name(m)], Split(path), args, outcome))
      ensures found <==> outcome.Reached? && outcome.node in routes && routes[outcome.node].Some?
      ensures found <==> call.Some?
      ensures found ==> call.value == (routes[outcome.node].value, outcome.args)
    {
      var args: map<string, string> := if callerArgs.Some? then callerArgs.value else map[];
      var path := route;
      if parsed.Some? {
        args := MergeQuery(args, parsed.value.query);
        path := parsed.value.path;
      } else {
        assert Merge(args, []) == args;
      }
      var name := RequestMethod.Name(m);
      if [name] !in routes {
        return false, NoMethod, None;
      }
      outcome := Descend([name], Split(path), args);
      if outcome.Reached? && routes[outcome.node].Some? {
        found, call := true, Some((routes[outcome.node].value, outcome.args));
      } else {
        found, call := false, None;
      }
    }

    /** The loop of `resolve` over the segments, from the node `start` on. */
    method Descend(start: Path, segs: seq<string>, args0: map<string, string>) returns (outcome: Outcome)
      requires start in routes
      ensures Walk(routes, start, segs, args0, outcome)
      ensures outcome.Reached? ==> outcome.node in routes
    {
      var ptr := start;
      var args := args0;
      var j := 0;
      while j < |segs|
        invariant 0 <= j <= |segs| && ptr in routes
        invariant forall r :: Walk(routes, ptr, segs[j..], args, r) ==> Walk(routes, start, segs, args0, r)
      {
        var s := segs[j];
        assert segs[j..] == [s] + segs[j + 1..];
        var key := ChildFor(ptr, s);
        if key.None? {
          NoChildStep(routes, ptr, s, segs[j + 1..], args, NoChild);
          return NoChild;
        }
        var k := key.value;
        TakesWalks(routes, ptr, s, k, segs[j + 1..], args);
        if k != s {
          args := args[ParamKey(k) := s];
        }
        ptr := ptr + [k];
        j := j + 1;
      }
      assert segs[j..] == [];
      return Reached(ptr, args);
    }
  }

  /** Registering a route makes the walk along that very route under the same method end at the action stored. */
  lemma RegisteredResolves<A>(t: map<Path, Option<A>>, m: RequestMethod.Method, route: string, a: A, args: map<string, string>, r: Outcome)
    ensures var t' := Grow(t, [], [RequestMethod.Name(m)] + Split(route), a);
      && [RequestMethod.Name(m)] in t'
      && [RequestMethod.Name(m)] + Split(route) in t' && t'[[RequestMethod.Name(m)] + Split(route)] == Some(a)
      && (Walk(t', [RequestMethod.Name(m)], Split(route), args, r) <==> r == Reached([RequestMethod.Name(m)] + Split(route), args))
  {
    var name := RequestMethod.Name(m);
    var segs := [name] + Split(route);
    var t' := Grow(t, [], segs, a);
    GrowReaches(t, [], segs, a);
    assert [] + segs[..1] == [name];
    assert [] + segs == segs;
    forall i | 0 < i <= |Split(route)|
      ensures [name] + Split(route)[..i] in t'
    {
      assert [name] + Split(route)[..i] == [] + segs[..i + 1];
    }
    WalkExact(t', [name], Split(route), args, r);
  }

  /** A new router, one route registered, and that route resolved: the action is called with the caller's arguments and the query. */
  method RegisterThenResolve<A>(m: RequestMethod.Method, route: string, a: A, parsed: Option<Url>, callerArgs: Option<map<string, string>>)
    returns (found: bool, call: Option<(A, map<string, string>)>)
    requires parsed.Some? ==> parsed.value.path == route
    ensures found
    ensures call == Some((a, Merge(if callerArgs.Some? then callerArgs.value else map[], if parsed.Some? then parsed.value.query else [])))
  {
    var router := new Router<A>();
    router.Register(m, route, a);
    var outcome;
    var args := Merge(if callerArgs.Some? then callerArgs.value else map[], if parsed.Some? then parsed.value.query else []);
    found, outcome, call := router.Resolve(m, route, parsed, callerArgs);
    RegisteredResolves(map[[] := None], m, route, a, args, outcome);
  }

  /** Exact children all along `pre`: the walk goes through `pre` and binds nothing on the way. */
  lemma {:induction false} WalkThrough<A>(t: map<Path, Option<A>>, p: Path, pre: seq<string>, rest: seq<string>, args: map<string, string>, r: Outcome)
    requires forall i :: 0 < i <= |pre| ==> p + pre[..i] in t
    ensures Walk(t, p, pre + rest, args, r) <==> Walk(t, p + pre, rest, args, r)
    decreases |pre|
  {
    if pre == [] {
      assert pre + rest == rest && p + pre == p;
    } else {
      var q := p + [pre[0]];
      assert p + pre[..1] == q;
      forall i | 0 < i <= |pre| - 1
        ensures q + pre[1..][..i] in t
      {
        assert q + pre[1..][..i] == p + pre[..i + 1];
      }
      WalkThrough(t, q, pre[1..], rest, args, r);
      assert pre + rest == [pre[0]] + (pre[1..] + rest);
      ExactStep(t, p, pre[0], pre[1..] + rest, args, r);
      assert q + pre[1..] == p + pre;
    }
  }

  /**
   * A new router with the one route `pre/<key>` under a method: a lookup of
   * `pre/v` for any other last segment `v` takes the parameter and binds
   * `key` to `v`.
   */
  lemma ParamCapture<A>(name: string, pre: seq<string>, k: string, v: string, a: A, args: map<string, string>, r: Outcome)
    requires IsParam(k) && v != k
    ensures var t := Grow(map[[] := None], [], [name] + pre + [k], a);
      Walk(t, [name], pre + [v], args, r) <==> r == Reached([name] + pre + [k], args[ParamKey(k) := v])
  {
    var segs := [name] + pre + [k];
    var t0: map<Path, Option<A>> := map[[] := None];
    var t := Grow(t0, [], segs, a);
    var p := [name] + pre;
    GrowReaches(t0, [], segs, a);
    GrowOnly(t0, [], segs, a);
    forall i | 0 < i <= |pre|
      ensures [name] + pre[..i] in t
    {
      assert [name] + pre[..i] == [] + segs[..i + 1];
    }
    WalkThrough(t, [name], pre, [v], args, r);
    assert p + [k] == [] + segs;
    assert ParamChild(t, p, k);
    forall q | q in t && |q| == |segs|
      ensures q == segs
    {
      var i :| 0 <= i <= |segs| && q == [] + segs[..i];
      assert segs[..|segs|] == segs;
    }
    assert |p + [v]| == |segs| && (p + [v])[|p|] == v && segs[|p|] == k;
    assert p + [v] != segs;
    forall k' | ParamChild(t, p, k')
      ensures k' == k
    {
      assert |p + [k']| == |segs| && (p + [k'])[|p|] == k';
    }
    ParamStep(t, p, v, k, [], args, r);
    assert [v] + [] == [v] && p + [k] == segs;
  }

  /** `/u/k` in pieces, for pieces without slashes. */
  lemma TwoPieces(u: string, k: string)
    requires NoSlash(u) && NoSlash(k)
    ensures Split("/" + u + "/" + k) == ["", u, k]
  {
    assert "/" + u + "/" + k == "" + "/" + (u + "/" + k);
    assert NoSlash("");
    SplitPrefix("", u + "/" + k);
    SplitPrefix(u, k);
    SplitNoSlash(k);
  }

  /** `/u/<key>` registered under `m` in a new router, `/u/v` looked up: the parameter binds `key` to `v`. */
  lemma TwoPieceParam<A>(m: RequestMethod.Method, u: string, k: string, v: string, a: A, args: map<string, string>, r: Outcome)
    requires NoSlash(u) && NoSlash(k) && NoSlash(v) && IsParam(k) && v != k
    ensures var route := [RequestMethod.Name(m)] + Split("/" + u + "/" + k);
      var t := Grow(map[[] := None], [], route, a);
      && [RequestMethod.Name(m)] in t && route in t && t[route] == Some(a)
      && (Walk(t, [RequestMethod.Name(m)], Split("/" + u + "/" + v), args, r) <==> r == Reached(route, args[ParamKey(k) := v]))
  {
    TwoPieces(u, k);
    TwoPieces(u, v);
    var name := RequestMethod.Name(m);
    assert [name] + ["", u, k] == [name] + ["", u] + [k];
    assert ["", u, v] == ["", u] + [v];
    RegisteredResolves(map[[] := None], m, "/" + u + "/" + k, a, args, r);
    ParamCapture(name, ["", u], k, v, a, args, r);
  }

  /**
   * A new router with `/u/<key>` registered: looking up `/u/v` finds the
   * action and calls it with `key` bound to `v` over the caller's arguments
   * (with `/users/<id>` and `/users/7`, `id` is `7`).
   */
  method ParamExample<A>(m: RequestMethod.Method, u: string, k: string, v: string, a: A, callerArgs: map<string, string>)
    returns (found: bool, call: Option<(A, map<string, string>)>)
    requires NoSlash(u) && NoSlash(k) && NoSlash(v) && IsParam(k) && v != k
    ensures found && call == Some((a, callerArgs[ParamKey(k) := v]))
  {
    var router := new Router<A>();
    router.Register(m, "/" + u + "/" + k, a);
    var outcome;
    found, outcome, call := router.Resolve(m, "/" + u + "/" + v, Some(Url("/" + u + "/" + v, [])), Some(callerArgs));
    assert Merge(callerArgs, []) == callerArgs;
    TwoPieceParam(m, u, k, v, a, callerArgs, outcome);
  }
}
