/**
  The handful of JavaScript string operations the application uses:
  `a || b` on optional strings, a global single-character `replace`,
  `includes` and `split(sep)[0]`.
 */
module Strings {
  import opened Types

  /**
    JavaScript's `s || fallback` where `s` may be undefined: both undefined
    and the empty string are falsy and give the fallback.
   */
  function OrElse(s: Option<string>, fallback: string): (r: string)
    ensures r == fallback || (s.Some? && r == s.value)
    ensures r == fallback <==> s.None? || s.value == "" || s.value == fallback
  {
    if s.Some? && s.value != "" then s.value else fallback
  }

  /** `s.replace(/from/g, to)`: every occurrence of one character replaced by another. */
  function ReplaceChar(s: string, from: char, to: char): (r: string)
    ensures |r| == |s|
    ensures forall i :: 0 <= i < |s| ==> r[i] == (if s[i] == from then to else s[i])
    ensures from != to ==> from !in r
    decreases |s|
  {
    if |s| == 0 then ""
    else [if s[0] == from then to else s[0]] + ReplaceChar(s[1..], from, to)
  }

  /** `p` occurs in `s` starting at position `i`. */
  predicate OccursAt(p: string, s: string, i: nat)
  {
    i + |p| <= |s| && s[i..i + |p|] == p
  }

  /** `s.includes(p)`: `p` is a prefix of `s` or of some suffix of it. */
  predicate Includes(s: string, p: string)
    decreases |s|
  {
    p <= s || (|s| > 0 && Includes(s[1..], p))
  }

  /** `Includes` holds exactly when `p` occurs at some position of `s`. */
  lemma {:induction false} IncludesIffOccurs(s: string, p: string)
    ensures Includes(s, p) <==> exists i :: 0 <= i <= |s| && OccursAt(p, s, i)
    decreases |s|
  {
    if p <= s {
      assert OccursAt(p, s, 0);
    } else if |s| == 0 {
      assert forall i :: 0 <= i <= |s| ==> !OccursAt(p, s, i);
    } else {
      IncludesIffOccurs(s[1..], p);
      if Includes(s[1..], p) {
        var i :| 0 <= i <= |s[1..]| && OccursAt(p, s[1..], i);
        assert s[1..][i..i + |p|] == s[i + 1..i + 1 + |p|];
        assert OccursAt(p, s, i + 1);
      } else {
        forall i | 0 <= i <= |s| ensures !OccursAt(p, s, i) {
          if i == 0 {
            assert !(p <= s);
          } else if OccursAt(p, s, i) {
            assert s[1..][i - 1..i - 1 + |p|] == s[i..i + |p|];
            assert OccursAt(p, s[1..], i - 1);
          }
        }
      }
    }
  }

  /** `s.split(sep)[0]`: the part of `s` before the first `sep`, or all of `s`. */
  function BeforeFirst(s: string, sep: char): (r: string)
    ensures r <= s
    ensures sep !in r
    ensures |r| < |s| ==> s[|r|] == sep
    decreases |s|
  {
    if |s| == 0 || s[0] == sep then ""
    else [s[0]] + BeforeFirst(s[1..], sep)
  }

  /** Before a separator-free prefix and the separator, `split(sep)[0]` is that prefix. */
  lemma {:induction false} BeforeFirstSplit(a: string, sep: char, b: string)
    requires sep !in a
    ensures BeforeFirst(a + [sep] + b, sep) == a
    decreases |a|
  {
    if |a| > 0 {
      assert (a + [sep] + b)[1..] == a[1..] + [sep] + b;
      BeforeFirstSplit(a[1..], sep, b);
    }
  }

  /** A string with a single occurrence of `from`, at `k`: only that position changes. */
  lemma ReplaceSingle(s: string, k: nat, from: char, to: char)
    requires k < |s| && s[k] == from
    requires forall i :: 0 <= i < |s| && i != k ==> s[i] != from
    ensures ReplaceChar(s, from, to) == s[k := to]
  {
  }
}
