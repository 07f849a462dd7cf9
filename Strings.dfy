/**
  The PHP string functions the backend uses on paths and tokens:
  `explode` with a one-character delimiter, `str_replace` of one character,
  `rtrim`/`ltrim`/`trim` of one character and the `strpos(...) === 0` prefix test.
  A PHP string is a `string` whose characters stand for bytes.
*/
module Strings {

  /** Number of occurrences of `c` in `s`. */
  function Occurrences(s: string, c: char): (n: nat)
    ensures n <= |s|
    ensures n == 0 <==> c !in s
  {
    if s == [] then 0 else (if s[0] == c then 1 else 0) + Occurrences(s[1..], c)
  }

  /** PHP `implode(sep, parts)`. */
  function Implode(parts: seq<string>, sep: char): string
  {
    if |parts| == 0 then ""
    else if |parts| == 1 then parts[0]
    else parts[0] + [sep] + Implode(parts[1..], sep)
  }

  /**
    PHP `explode(sep, s)` for a one-character `sep`: the maximal pieces between
    separators, empty pieces included, and `[""]` for the empty string.
  */
  function Explode(s: string, sep: char): (parts: seq<string>)
    ensures |parts| == Occurrences(s, sep) + 1
    ensures forall i :: 0 <= i < |parts| ==> sep !in parts[i]
    ensures Implode(parts, sep) == s
    decreases |s|
  {
    if s == [] then [""]
    else
      var rest := Explode(s[1..], sep);
      if s[0] == sep then
        assert s == [sep] + s[1..];
        [""] + rest
      else
        var r := [[s[0]] + rest[0]] + rest[1..];
        assert s == [s[0]] + s[1..];
        assert Implode(r, sep) == [s[0]] + Implode(rest, sep) by {
          if |rest| > 1 {
            assert r[1..] == rest[1..];
          }
        }
        r
  }

  lemma {:induction false} ExplodeWithout(a: string, sep: char)
    requires sep !in a
    ensures Explode(a, sep) == [a]
    decreases |a|
  {
    if a != [] {
      assert sep !in a[1..] by {
        forall c | c in a[1..] ensures c != sep { assert c in a; }
      }
      ExplodeWithout(a[1..], sep);
      assert [a[0]] + a[1..] == a;
    }
  }

  lemma {:induction false} ExplodeFirst(a: string, sep: char, t: string)
    requires sep !in a
    ensures Explode(a + [sep] + t, sep) == [a] + Explode(t, sep)
    decreases |a|
  {
    if a == [] {
      assert a + [sep] + t == [sep] + t;
      assert ([sep] + t)[1..] == t;
    } else {
      var s := a + [sep] + t;
      assert s[0] == a[0] && s[1..] == a[1..] + [sep] + t;
      assert sep !in a[1..] by {
        forall c | c in a[1..] ensures c != sep { assert c in a; }
      }
      ExplodeFirst(a[1..], sep, t);
      var rest := Explode(s[1..], sep);
      assert rest[0] == a[1..] && rest[1..] == Explode(t, sep);
      assert [a[0]] + a[1..] == a;
      assert Explode(s, sep) == [[s[0]] + rest[0]] + rest[1..];
    }
  }

  /** `explode` undoes `implode` when no piece contains the separator. */
  lemma {:induction false} ExplodeImplode(parts: seq<string>, sep: char)
    requires |parts| >= 1
    requires forall i :: 0 <= i < |parts| ==> sep !in parts[i]
    ensures Explode(Implode(parts, sep), sep) == parts
    decreases |parts|
  {
    if |parts| == 1 {
      ExplodeWithout(parts[0], sep);
    } else {
      ExplodeImplode(parts[1..], sep);
      ExplodeFirst(parts[0], sep, Implode(parts[1..], sep));
      assert [parts[0]] + parts[1..] == parts;
    }
  }

  /** Three pieces without the separator explode back into exactly those three pieces. */
  lemma ExplodeThree(a: string, b: string, c: string, sep: char)
    requires sep !in a && sep !in b && sep !in c
    ensures Explode(a + [sep] + b + [sep] + c, sep) == [a, b, c]
  {
    var parts := [a, b, c];
    assert parts[1..] == [b, c] && [b, c][1..] == [c];
    assert Implode([b, c], sep) == b + [sep] + c;
    assert Implode(parts, sep) == a + [sep] + (b + [sep] + c);
    assert a + [sep] + (b + [sep] + c) == a + [sep] + b + [sep] + c;
    ExplodeImplode(parts, sep);
  }

  /**
    PHP `str_replace(from, to, s)` for a one-character search string.
    Every character of the result is either a character of `s` other than `from`,
    or a character of the replacement.
  */
  function Replace(s: string, from: char, to: string): (r: string)
    ensures forall c :: c in r ==> (c in s && c != from) || c in to
    ensures from !in to ==> from !in r
  {
    if s == [] then ""
    else (if s[0] == from then to else [s[0]]) + Replace(s[1..], from, to)
  }

  lemma ReplaceSingle(c: char, from: char, to: string)
    ensures Replace([c], from, to) == if c == from then to else [c]
  {
    assert [c][1..] == [];
  }

  lemma {:induction false} ReplaceAppend(a: string, b: string, from: char, to: string)
    ensures Replace(a + b, from, to) == Replace(a, from, to) + Replace(b, from, to)
    decreases |a|
  {
    if a == [] {
      assert a + b == b;
    } else {
      assert (a + b)[0] == a[0] && (a + b)[1..] == a[1..] + b;
      ReplaceAppend(a[1..], b, from, to);
    }
  }

  /** `rtrim(s, c)`: `s` without its trailing run of `c`. */
  function RTrim(s: string, c: char): (r: string)
    ensures |r| <= |s| && r == s[..|r|]
    ensures r == [] || r[|r| - 1] != c
    ensures forall i :: |r| <= i < |s| ==> s[i] == c
  {
    if s != [] && s[|s| - 1] == c then RTrim(s[..|s| - 1], c) else s
  }

  /** `ltrim(s, c)`: `s` without its leading run of `c`. */
  function LTrim(s: string, c: char): (r: string)
    ensures |r| <= |s| && r == s[|s| - |r|..]
    ensures r == [] || r[0] != c
    ensures forall i :: 0 <= i < |s| - |r| ==> s[i] == c
  {
    if s != [] && s[0] == c then LTrim(s[1..], c) else s
  }

  /** `trim(s, c)`: both runs removed. */
  function Trim(s: string, c: char): (r: string)
  {
    LTrim(RTrim(s, c), c)
  }

  /** `strpos(s, prefix) === 0` for a non-empty `prefix`. */
  predicate StartsWith(s: string, prefix: string)
  {
    |prefix| <= |s| && s[..|prefix|] == prefix
  }
}
