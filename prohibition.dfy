/**
 * The prohibited-nature test: a nature code is cleaned of dots and spaces,
 * trimmed of surrounding white space, and looked up in the configured set.
 */
module Prohibition {

  /** `s` without any occurrence of `c` (python `s.replace(c, '')`). */
  function Remove(s: string, c: char): string {
    if s == [] then [] else (if s[0] == c then [] else [s[0]]) + Remove(s[1..], c)
  }

  /** The characters python's `str.isspace` accepts. */
  predicate IsSpace(c: char) {
    var k := c as int;
    (9 <= k <= 13) || (28 <= k <= 32) || k == 0x85 || k == 0xA0 || k == 0x1680
    || (0x2000 <= k <= 0x200A) || k == 0x2028 || k == 0x2029 || k == 0x202F
    || k == 0x205F || k == 0x3000
  }

  function StripLeft(s: string): string {
    if s != [] && IsSpace(s[0]) then StripLeft(s[1..]) else s
  }

  function StripRight(s: string): string {
    if s != [] && IsSpace(s[|s| - 1]) then StripRight(s[..|s| - 1]) else s
  }

  /** python `str.strip()` with no argument. */
  function Strip(s: string): string {
    StripRight(StripLeft(s))
  }

  /** The code as compared against the prohibited set. */
  function Normalise(code: string): string {
    Strip(Remove(Remove(code, '.'), ' '))
  }

  lemma {:induction false} RemoveSpec(s: string, c: char)
    ensures |Remove(s, c)| <= |s|
    ensures forall x :: x in Remove(s, c) <==> x in s && x != c
  {
    if s != [] {
      RemoveSpec(s[1..], c);
      assert s == [s[0]] + s[1..];
    }
  }

  /** Left stripping drops a prefix and leaves no leading white space. */
  lemma {:induction false} StripLeftSpec(s: string) returns (k: nat)
    ensures k <= |s| && StripLeft(s) == s[k..]
    ensures StripLeft(s) == [] || !IsSpace(StripLeft(s)[0])
  {
    if s != [] && IsSpace(s[0]) {
      var j := StripLeftSpec(s[1..]);
      k := j + 1;
      assert s[1..][j..] == s[k..];
    } else {
      k := 0;
    }
  }

  /** Right stripping keeps a prefix and leaves no trailing white space. */
  lemma {:induction false} StripRightSpec(s: string) returns (k: nat)
    ensures k <= |s| && StripRight(s) == s[..k]
    ensures StripRight(s) == [] || !IsSpace(StripRight(s)[|StripRight(s)| - 1])
  {
    if s != [] && IsSpace(s[|s| - 1]) {
      k := StripRightSpec(s[..|s| - 1]);
      assert s[..|s| - 1][..k] == s[..k];
    } else {
      k := |s|;
    }
  }

  /** Stripping leaves no surrounding white space and adds no character. */
  lemma StripSpec(s: string)
    ensures Strip(s) == [] || (!IsSpace(Strip(s)[0]) && !IsSpace(Strip(s)[|Strip(s)| - 1]))
    ensures forall x :: x in Strip(s) ==> x in s
  {
    var i := StripLeftSpec(s);
    var l := StripLeft(s);
    var j := StripRightSpec(l);
    assert Strip(s) == s[i..][..j];
    if Strip(s) != [] {
      assert Strip(s)[0] == l[0];
    }
  }

  /** A normalised code has no dot, no space and no surrounding white space. */
  lemma NormaliseClean(code: string)
    ensures '.' !in Normalise(code) && ' ' !in Normalise(code)
    ensures Normalise(code) == [] || (!IsSpace(Normalise(code)[0]) && !IsSpace(Normalise(code)[|Normalise(code)| - 1]))
  {
    RemoveSpec(code, '.');
    RemoveSpec(Remove(code, '.'), ' ');
    StripSpec(Remove(Remove(code, '.'), ' '));
  }

  /** natureza_eh_proibida */
  predicate IsProhibited(code: string, prohibited: set<string>) {
    Normalise(code) in prohibited
  }

  lemma {:induction false} RemoveConcat(a: string, b: string, c: char)
    ensures Remove(a + b, c) == Remove(a, c) + Remove(b, c)
  {
    if a != [] {
      assert (a + b)[1..] == a[1..] + b;
      RemoveConcat(a[1..], b, c);
    } else {
      assert a + b == b;
    }
  }

  lemma {:induction false} RemoveAbsent(s: string, c: char)
    requires c !in s
    ensures Remove(s, c) == s
  {
    if s != [] {
      RemoveAbsent(s[1..], c);
      assert s == [s[0]] + s[1..];
    }
  }

  lemma StripClean(s: string)
    requires s == [] || (!IsSpace(s[0]) && !IsSpace(s[|s| - 1]))
    ensures Strip(s) == s
  {
    assert StripLeft(s) == s;
  }

  lemma CleanConcat(x: string, y: string)
    ensures Remove(Remove(x + y, '.'), ' ') == Remove(Remove(x, '.'), ' ') + Remove(Remove(y, '.'), ' ')
  {
    RemoveConcat(x, y, '.');
    RemoveConcat(Remove(x, '.'), Remove(y, '.'), ' ');
  }

  /**
   * Dots and spaces anywhere in a code are ignored: removing one leaves
   * the prohibition verdict, and the compared key, unchanged.
   */
  lemma IgnoresDotsAndSpaces(a: string, b: string, c: char, prohibited: set<string>)
    requires c == '.' || c == ' '
    ensures Normalise(a + [c] + b) == Normalise(a + b)
    ensures IsProhibited(a + [c] + b, prohibited) <==> IsProhibited(a + b, prohibited)
  {
    CleanConcat(a + [c], b);
    CleanConcat(a, [c]);
    CleanConcat(a, b);
    assert Remove(Remove([c], '.'), ' ') == [];
    assert Remove(Remove(a + [c] + b, '.'), ' ') == Remove(Remove(a + b, '.'), ' ');
  }

  /** Normalising a normalised code changes nothing. */
  lemma NormaliseIdempotent(code: string)
    ensures Normalise(Normalise(code)) == Normalise(code)
  {
    var r := Normalise(code);
    NormaliseClean(code);
    RemoveAbsent(r, '.');
    RemoveAbsent(r, ' ');
    StripClean(r);
  }
}
