/**
 * Character classes and trimming as the page uses them.
 *
 * Python works on Unicode strings; this module keeps to the ASCII part of
 * Python's definitions: `IsSpace` is the ASCII subset of `str.isspace()`
 * (which is what `str.strip()` removes), `IsWordChar` is the ASCII subset of
 * the regular-expression class `\w`.
 */
module Text {

  /** ASCII characters for which Python's `str.isspace()` holds:
      space, \t \n \v \f \r (9..13) and the separators 28..31. */
  predicate IsSpace(c: char)
  {
    c == ' ' || (9 <= c as int <= 13) || (28 <= c as int <= 31)
  }

  predicate IsAsciiLetter(c: char)
  {
    ('a' <= c <= 'z') || ('A' <= c <= 'Z')
  }

  predicate IsAsciiDigit(c: char)
  {
    '0' <= c <= '9'
  }

  /** The ASCII part of the regular-expression class `\w`. */
  predicate IsWordChar(c: char)
  {
    IsAsciiLetter(c) || IsAsciiDigit(c) || c == '_'
  }

  predicate AllSpace(s: string)
  {
    forall k :: 0 <= k < |s| ==> IsSpace(s[k])
  }

  /** `s` has no whitespace at either end. */
  predicate Stripped(s: string)
  {
    s == [] || (!IsSpace(s[0]) && !IsSpace(s[|s| - 1]))
  }

  /** How many whitespace characters `s` starts with. */
  function LeadingSpace(s: string): (n: nat)
    ensures n <= |s|
    ensures forall k :: 0 <= k < n ==> IsSpace(s[k])
    ensures n < |s| ==> !IsSpace(s[n])
  {
    if s != [] && IsSpace(s[0]) then 1 + LeadingSpace(s[1..]) else 0
  }

  /** How many whitespace characters `s` ends with. */
  function TrailingSpace(s: string): (n: nat)
    ensures n <= |s|
    ensures forall k :: |s| - n <= k < |s| ==> IsSpace(s[k])
    ensures n < |s| ==> !IsSpace(s[|s| - n - 1])
  {
    if s != [] && IsSpace(s[|s| - 1]) then 1 + TrailingSpace(s[..|s| - 1]) else 0
  }

  /** Python's `s.strip()`: whitespace removed at both ends. */
  function Trim(s: string): (r: string)
    ensures Stripped(r) && |r| <= |s|
  {
    var t := s[LeadingSpace(s)..];
    t[..|t| - TrailingSpace(t)]
  }

  /** `s` is `m` with whitespace `a` before it and whitespace `b` after it. */
  ghost predicate Padded(s: string, a: string, m: string, b: string)
  {
    s == a + m + b && AllSpace(a) && AllSpace(b)
  }

  /** Cutting a string in three places and joining the pieces gives it back. */
  lemma Recombine(s: string, n: nat, k: nat)
    requires n <= |s| && k <= |s| - n
    ensures s == s[..n] + s[n..][..k] + s[n..][k..]
  {
    assert s[n..] == s[n..][..k] + s[n..][k..];
  }

  /** `Trim(s)` is what is left of `s` between a whitespace prefix and a whitespace suffix. */
  lemma TrimSlice(s: string)
    ensures exists a, b :: Padded(s, a, Trim(s), b)
  {
    var n := LeadingSpace(s);
    var t := s[n..];
    var k := |t| - TrailingSpace(t);
    Recombine(s, n, k);
    assert AllSpace(s[..n]) by {
      forall i | 0 <= i < n ensures IsSpace(s[..n][i]) { assert s[..n][i] == s[i]; }
    }
    assert AllSpace(t[k..]) by {
      forall i | 0 <= i < |t| - k ensures IsSpace(t[k..][i]) { assert t[k..][i] == t[k + i]; }
    }
    assert Padded(s, s[..n], Trim(s), t[k..]);
  }

  /** That decomposition is unique: whatever way `s` splits into whitespace,
      a stripped middle and whitespace, `Trim(s)` is that middle. */
  lemma TrimUnique(s: string, a: string, m: string, b: string)
    requires Padded(s, a, m, b) && Stripped(m)
    ensures Trim(s) == m
  {
    var n := LeadingSpace(s);
    if m != [] {
      assert s[|a|] == m[0];
      assert n == |a|;
      var t := s[n..];
      assert t == m + b;
      var e := TrailingSpace(t);
      assert t[|m| - 1] == m[|m| - 1];
      assert e == |b|;
    }
  }

  /** Stripping twice is stripping once. */
  lemma TrimIdempotent(s: string)
    ensures Trim(Trim(s)) == Trim(s)
  {
    var m := Trim(s);
    assert m == [] + m + [];
    TrimUnique(m, [], m, []);
  }

  /** A string strips to nothing exactly when it is all whitespace. */
  lemma TrimEmptyIff(s: string)
    ensures Trim(s) == [] <==> AllSpace(s)
  {
    if AllSpace(s) {
      assert s == s + [] + [];
      TrimUnique(s, s, [], []);
    } else {
      var n := LeadingSpace(s);
      var t := s[n..];
      assert n < |s|;
      assert t[0] == s[n];
    }
  }

  /** A stripped string is its own strip. */
  lemma TrimOfStripped(s: string)
    requires Stripped(s)
    ensures Trim(s) == s
  {
    assert s == [] + s + [];
    TrimUnique(s, [], s, []);
  }
}
