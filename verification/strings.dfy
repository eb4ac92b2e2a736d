/**
 * Text primitives shared by the scraper model: Python's substring test
 * (`k in t`), prefix test (`str.startswith`) and ASCII decimal digits.
 */
module Strings {

  datatype Option<+T> = None | Some(value: T)

  /** An ASCII decimal digit; the only kind of digit this model accepts for `\d`. */
  predicate IsDigit(c: char) {
    '0' <= c <= '9'
  }

  predicate AllDigits(s: string) {
    forall i :: 0 <= i < |s| ==> IsDigit(s[i])
  }

  /** The decimal value of a run of digits (leading zeros allowed). */
  function DecimalValue(s: string): nat
    requires AllDigits(s)
  {
    if s == [] then 0
    else DecimalValue(s[..|s| - 1]) * 10 + (s[|s| - 1] as int - '0' as int)
  }

  /** `k` occurs in `t` starting at index `i`. */
  predicate OccursAt(t: string, k: string, i: int) {
    0 <= i <= |t| - |k| && t[i..i + |k|] == k
  }

  /** Python's `k in t` on strings: `k` occurs in `t` as a contiguous piece. */
  predicate Contains(t: string, k: string) {
    exists i | 0 <= i <= |t| - |k| :: OccursAt(t, k, i)
  }

  /** Python's `s.startswith(p)`. */
  predicate StartsWith(s: string, p: string) {
    |p| <= |s| && s[..|p|] == p
  }

  /** A piece of a piece of `t` is a piece of `t`. */
  lemma ContainsTransitive(t: string, k: string, piece: string)
    requires Contains(t, k) && Contains(k, piece)
    ensures Contains(t, piece)
  {
    var i :| OccursAt(t, k, i);
    var j :| OccursAt(k, piece, j);
    assert 0 <= i <= |t| - |k| && t[i..i + |k|] == k by { assert OccursAt(t, k, i); }
    assert 0 <= j <= |k| - |piece| && k[j..j + |piece|] == piece by { assert OccursAt(k, piece, j); }
    forall x | 0 <= x < |piece|
      ensures t[i + j..i + j + |piece|][x] == piece[x]
    {
      assert piece[x] == k[j + x] == t[i + j + x];
    }
    assert OccursAt(t, piece, i + j);
  }
}
