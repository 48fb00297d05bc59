/**
 * `to_snake_case` of `rocal_core/src/utils.rs`: every upper-case character is
 * lowered with `to_ascii_lowercase` and, unless it is the first character,
 * preceded by `_`.
 *
 * `char::is_uppercase` follows Unicode; the model takes the non-ASCII
 * upper-case characters as a set `wide`, since `to_ascii_lowercase` leaves
 * them as they are.
 */
module SnakeCase {
  /** The characters `wide` may hold: outside ASCII. */
  predicate Wide(wide: set<char>) {
    forall c :: c in wide ==> c as int >= 128
  }

  /** `char::is_uppercase`: `A`–`Z`, or one of the non-ASCII upper-case characters. */
  predicate IsUpper(c: char, wide: set<char>) {
    'A' <= c <= 'Z' || c in wide
  }

  /** `char::to_ascii_lowercase`. */
  function AsciiLower(c: char): (l: char)
    ensures 'A' <= c <= 'Z' ==> 'a' <= l <= 'z' && l as int - c as int == 'a' as int - 'A' as int
    ensures !('A' <= c <= 'Z') ==> l == c
  {
    if 'A' <= c <= 'Z' then (c as int - 'A' as int + 'a' as int) as char else c
  }

  /** What the character at index `i` becomes. */
  function Piece(i: nat, c: char, wide: set<char>): (r: string)
    ensures IsUpper(c, wide) && i > 0 ==> r == ['_', AsciiLower(c)]
    ensures IsUpper(c, wide) && i == 0 ==> r == [AsciiLower(c)]
    ensures !IsUpper(c, wide) ==> r == [c]
  {
    if IsUpper(c, wide) then (if i > 0 then "_" else "") + [AsciiLower(c)] else [c]
  }

  /** The pieces of all characters, in order. */
  function Snake(s: string, wide: set<char>): string
    decreases |s|
  {
    if s == [] then [] else Snake(s[..|s| - 1], wide) + Piece(|s| - 1, s[|s| - 1], wide)
  }

  /** `to_snake_case`: the enumerate loop pushing into `result`. */
  method ToSnakeCase(input: string, wide: set<char>) returns (result: string)
    ensures result == Snake(input, wide)
  {
    result := "";
    for i := 0 to |input|
      invariant result == Snake(input[..i], wide)
    {
      assert input[..i + 1][..i] == input[..i];
      var c := input[i];
      if IsUpper(c, wide) {
        if i > 0 {
          result := result + "_";
        }
        result := result + [AsciiLower(c)];
      } else {
        result := result + [c];
      }
    }
    assert input[..|input|] == input;
  }

  /** The number of upper-case characters after the first. */
  function UpperAfterFirst(s: string, wide: set<char>): nat
    decreases |s|
  {
    if |s| <= 1 then 0
    else UpperAfterFirst(s[..|s| - 1], wide) + (if IsUpper(s[|s| - 1], wide) then 1 else 0)
  }

  /** One `_` per upper-case character after the first. */
  lemma {:induction false} SnakeLength(s: string, wide: set<char>)
    ensures |Snake(s, wide)| == |s| + UpperAfterFirst(s, wide)
    decreases |s|
  {
    if s != [] {
      SnakeLength(s[..|s| - 1], wide);
    }
  }

  /** A string without upper-case characters is left as it is. */
  lemma {:induction false} NoUpperUnchanged(s: string, wide: set<char>)
    requires forall i :: 0 <= i < |s| ==> !IsUpper(s[i], wide)
    ensures Snake(s, wide) == s
    decreases |s|
  {
    if s != [] {
      NoUpperUnchanged(s[..|s| - 1], wide);
      assert s == s[..|s| - 1] + [s[|s| - 1]];
    }
  }

  /** The result of an ASCII string is ASCII and has no upper-case character. */
  lemma {:induction false} SnakeAscii(s: string, wide: set<char>)
    requires Wide(wide) && forall i :: 0 <= i < |s| ==> s[i] as int < 128
    ensures forall i :: 0 <= i < |Snake(s, wide)| ==> Snake(s, wide)[i] as int < 128 && !IsUpper(Snake(s, wide)[i], wide)
    decreases |s|
  {
    if s != [] {
      SnakeAscii(s[..|s| - 1], wide);
    }
  }

  /** On ASCII input a second pass changes nothing. */
  lemma SnakeTwice(s: string, wide: set<char>)
    requires Wide(wide) && forall i :: 0 <= i < |s| ==> s[i] as int < 128
    ensures Snake(Snake(s, wide), wide) == Snake(s, wide)
  {
    SnakeAscii(s, wide);
    NoUpperUnchanged(Snake(s, wide), wide);
  }

  /** A non-ASCII upper-case letter stays upper case, so a second pass adds another `_`. */
  lemma WideTwice(c: char, wide: set<char>)
    requires Wide(wide) && c in wide
    ensures Snake(['a', c], wide) == ['a', '_', c]
    ensures Snake(Snake(['a', c], wide), wide) == ['a', '_', '_', c]
  {
    assert ['a', c][..1] == ['a'];
    assert ['a'][..0] == [];
    var once := ['a', '_', c];
    assert once[..2] == ['a', '_'];
    assert once[..2][..1] == ['a'];
  }

  /** The result of a prefix is a prefix of the result. */
  lemma {:induction false} SnakePrefix(s: string, j: nat, wide: set<char>)
    requires j <= |s|
    ensures Snake(s[..j], wide) <= Snake(s, wide)
    decreases |s| - j
  {
    if j < |s| {
      SnakePrefix(s, j + 1, wide);
      assert s[..j + 1][..j] == s[..j];
    } else {
      assert s[..j] == s;
    }
  }

  /** An upper-case first character is lowered without `_`. */
  lemma FirstUpper(s: string, wide: set<char>)
    requires |s| > 0 && IsUpper(s[0], wide)
    ensures |Snake(s, wide)| > 0 && Snake(s, wide)[0] == AsciiLower(s[0])
  {
    SnakePrefix(s, 1, wide);
    assert s[..1][..0] == [];
  }

  /** An upper-case character after the first becomes `_` and its lower-case form. */
  lemma LaterUpper(s: string, i: nat, wide: set<char>)
    requires 0 < i < |s| && IsUpper(s[i], wide)
    ensures Snake(s[..i + 1], wide) == Snake(s[..i], wide) + ['_', AsciiLower(s[i])]
  {
    assert s[..i + 1][..i] == s[..i];
  }
}
