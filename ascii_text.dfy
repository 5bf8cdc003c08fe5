/** ASCII case folding and substring search: the two string operations the
    violation detector is built from (`toLowerCase` and `includes`). */
module AsciiText {

  predicate IsUpperChar(c: char) {
    'A' <= c <= 'Z'
  }

  /** Lower-cases one ASCII letter; every other character is kept. */
  function LowerChar(c: char): (r: char)
    ensures !IsUpperChar(r)
    ensures !IsUpperChar(c) ==> r == c
    ensures IsUpperChar(c) ==> r as int - c as int == 'a' as int - 'A' as int
  {
    if IsUpperChar(c) then (c as int - 'A' as int + 'a' as int) as char else c
  }

  predicate IsLower(s: string) {
    forall i :: 0 <= i < |s| ==> !IsUpperChar(s[i])
  }

  /** `s.toLowerCase()`, restricted to ASCII. */
  function Lower(s: string): (r: string)
    ensures |r| == |s|
    ensures IsLower(r)
    ensures forall i :: 0 <= i < |s| ==> r[i] == LowerChar(s[i])
  {
    seq(|s|, i requires 0 <= i < |s| => LowerChar(s[i]))
  }

  /** Lower-casing is idempotent: a string that is already lower-case is kept. */
  lemma LowerOfLower(s: string)
    requires IsLower(s)
    ensures Lower(s) == s
  {
  }

  /** Lower-casing commutes with taking a slice. */
  lemma LowerSlice(s: string, i: int, j: int)
    requires 0 <= i <= j <= |s|
    ensures Lower(s)[i..j] == Lower(s[i..j])
  {
    assert forall k :: 0 <= k < j - i ==> Lower(s)[i..j][k] == Lower(s[i..j])[k];
  }

  /** `p` occurs in `t` starting at position `i`. */
  predicate OccursAt(p: string, t: string, i: int) {
    0 <= i && i + |p| <= |t| && t[i..i + |p|] == p
  }

  /** `t.includes(p)`: scan `t` from the left for a prefix equal to `p`. */
  predicate IsSubstring(p: string, t: string)
    decreases |t|
  {
    |p| <= |t| && (t[..|p|] == p || IsSubstring(p, t[1..]))
  }

  /** The scan finds `p` exactly when `p` occurs at some position of `t`. */
  lemma {:induction false} SubstringIffOccurs(p: string, t: string)
    ensures IsSubstring(p, t) <==> exists i :: OccursAt(p, t, i)
    decreases |t|
  {
    if |p| <= |t| {
      if t[..|p|] == p {
        assert OccursAt(p, t, 0);
      } else {
        SubstringIffOccurs(p, t[1..]);
        if i :| OccursAt(p, t[1..], i) {
          assert t[1..][i..i + |p|] == t[i + 1..i + 1 + |p|];
          assert OccursAt(p, t, i + 1);
        }
        if i :| OccursAt(p, t, i) {
          assert i != 0;
          assert t[1..][i - 1..i - 1 + |p|] == t[i..i + |p|];
          assert OccursAt(p, t[1..], i - 1);
        }
      }
    }
  }

  /** Where `p + x` occurs, its prefix `p` occurs too. */
  lemma PrefixOccurs(p: string, x: string, t: string, i: int)
    requires OccursAt(p + x, t, i)
    ensures OccursAt(p, t, i)
  {
    calc {
      t[i..i + |p|];
      t[i..i + |p + x|][..|p|];
      (p + x)[..|p|];
      p;
    }
  }

  /** `b` occurs in `a + b + c`, right after `a`. */
  lemma OccursInConcat(a: string, b: string, c: string)
    ensures OccursAt(b, a + b + c, |a|)
    ensures IsSubstring(b, a + b + c)
  {
    assert (a + b + c)[|a|..|a| + |b|] == b;
    assert OccursAt(b, a + b + c, |a|);
    SubstringIffOccurs(b, a + b + c);
  }

  /** A pattern holding a character the text lacks occurs nowhere in it. */
  lemma MissingCharNotSubstring(p: string, t: string, k: int)
    requires 0 <= k < |p|
    requires forall j :: 0 <= j < |t| ==> t[j] != p[k]
    ensures !IsSubstring(p, t)
  {
    forall i | 0 <= i <= |t| - |p|
      ensures !OccursAt(p, t, i)
    {
      assert t[i..i + |p|][k] == t[i + k] != p[k];
    }
    SubstringIffOccurs(p, t);
  }
}
