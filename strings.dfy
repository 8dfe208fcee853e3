/** The Python string operations the scanner is built from: `str.lower`,
    `str.endswith` with a tuple of suffixes, and the `in` test for a
    substring or a character. Strings are sequences of code points. */
module Strings {

  /** Lower-casing of one character, for the ASCII letters only. */
  function LowerChar(c: char): char {
    if 'A' <= c <= 'Z' then (c as int + 32) as char else c
  }

  /** `s.lower()`: every character lower-cased in place. */
  function Lower(s: string): string {
    seq(|s|, i requires 0 <= i < |s| => LowerChar(s[i]))
  }

  /** Lower-casing distributes over concatenation. */
  lemma LowerAppend(s: string, t: string)
    ensures Lower(s + t) == Lower(s) + Lower(t)
  {
    var l, r := Lower(s + t), Lower(s) + Lower(t);
    assert |l| == |r|;
    forall i | 0 <= i < |l| ensures l[i] == r[i] {
      if i < |s| { assert (s + t)[i] == s[i]; } else { assert (s + t)[i] == t[i - |s|]; }
    }
  }

  /** Lower-casing twice is lower-casing once. */
  lemma LowerIdempotent(s: string)
    ensures Lower(Lower(s)) == Lower(s)
  {
  }

  /** A string with no upper-case ASCII letter is its own lower-case form. */
  lemma LowerOfLower(s: string)
    requires forall i :: 0 <= i < |s| ==> !('A' <= s[i] <= 'Z')
    ensures Lower(s) == s
  {
  }

  /** `s.startswith(p)`. */
  predicate IsPrefix(p: string, s: string) {
    |p| <= |s| && s[..|p|] == p
  }

  /** `s.endswith(p)`. */
  predicate EndsWith(s: string, p: string) {
    |p| <= |s| && s[|s| - |p|..] == p
  }

  /** A string ends with the last character of every non-empty suffix it has. */
  lemma EndsWithLast(s: string, p: string)
    ensures 0 < |p| && EndsWith(s, p) ==> s[|s| - 1] == p[|p| - 1]
  {
    if 0 < |p| && EndsWith(s, p) {
      assert s[|s| - 1] == s[|s| - |p|..][|p| - 1];
    }
  }

  /** `s.endswith(suffixes)` for a tuple: tries each suffix in turn. */
  function EndsWithAny(s: string, suffixes: seq<string>): (r: bool)
    ensures r <==> exists k :: 0 <= k < |suffixes| && EndsWith(s, suffixes[k])
  {
    if suffixes == [] then false
    else if EndsWith(s, suffixes[0]) then true
    else
      var rest := EndsWithAny(s, suffixes[1..]);
      assert forall k :: 1 <= k < |suffixes| ==> suffixes[k] == suffixes[1..][k - 1];
      rest
  }

  /** `p in s` for strings: `p` occurs as a contiguous block of `s`,
      looked for from the left. */
  function Contains(s: string, p: string): bool
    decreases |s|
  {
    IsPrefix(p, s) || (s != [] && Contains(s[1..], p))
  }

  /** `p` occurs in `s` starting at position `i`. */
  predicate OccursAt(s: string, p: string, i: nat) {
    i + |p| <= |s| && s[i..i + |p|] == p
  }

  /** `p in s` holds exactly when `p` occurs in `s` at some position. */
  lemma {:induction false} ContainsIff(s: string, p: string)
    ensures Contains(s, p) <==> exists i: nat :: OccursAt(s, p, i)
    decreases |s|
  {
    assert IsPrefix(p, s) <==> OccursAt(s, p, 0);
    if s != [] {
      ContainsIff(s[1..], p);
      forall j: nat ensures OccursAt(s[1..], p, j) <==> OccursAt(s, p, j + 1) {
        if j + 1 + |p| <= |s| {
          assert s[1..][j..j + |p|] == s[j + 1..j + 1 + |p|];
        }
      }
      if i: nat :| OccursAt(s, p, i) && i > 0 {
        assert OccursAt(s[1..], p, i - 1);
      }
    }
  }

  /** `any(c in s for c in cs)`: some character of `cs` occurs in `s`. */
  function AnyOccurs(cs: seq<char>, s: string): (r: bool)
    ensures r <==> exists i :: 0 <= i < |s| && s[i] in cs
  {
    if cs == [] then false
    else cs[0] in s || AnyOccurs(cs[1..], s)
  }
}
