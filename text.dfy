/**
 * Ordinal, case-insensitive string handling as `StringComparer.OrdinalIgnoreCase`
 * performs it: both strings are upper-cased character by character and then
 * compared by character code. Only ASCII letters are mapped here.
 */
module Text {

  /** Upper-cases one character (ASCII letters only). */
  function FoldChar(c: char): char {
    if 'a' <= c <= 'z' then (c as int - 32) as char else c
  }

  /** The upper-cased form of `s` that OrdinalIgnoreCase compares and hashes. */
  function Fold(s: string): (r: string)
    ensures |r| == |s|
    ensures forall i :: 0 <= i < |s| ==> r[i] == FoldChar(s[i])
  {
    seq(|s|, i requires 0 <= i < |s| => FoldChar(s[i]))
  }

  /** Ordinal equality ignoring case. */
  predicate EqualsIgnoreCase(a: string, b: string) {
    Fold(a) == Fold(b)
  }

  /** Some element of `xs` equals `s` ignoring case. */
  predicate ContainsIgnoreCase(xs: seq<string>, s: string) {
    exists x :: x in xs && Fold(x) == Fold(s)
  }

  /** A string without lower-case ASCII letters is its own fold. */
  lemma FoldOfUpper(s: string)
    requires forall i :: 0 <= i < |s| ==> !('a' <= s[i] <= 'z')
    ensures Fold(s) == s
  {
  }

  /** Ordinal lexicographic order on strings: a proper prefix comes first. */
  predicate OrdinalLeq(a: string, b: string)
    decreases |a|
  {
    if a == [] then true
    else if b == [] then false
    else if a[0] != b[0] then a[0] < b[0]
    else OrdinalLeq(a[1..], b[1..])
  }

  lemma {:induction false} OrdinalLeqReflexive(a: string)
    ensures OrdinalLeq(a, a)
    decreases |a|
  {
    if a != [] {
      OrdinalLeqReflexive(a[1..]);
    }
  }

  lemma {:induction false} OrdinalLeqTotal(a: string, b: string)
    ensures OrdinalLeq(a, b) || OrdinalLeq(b, a)
    decreases |a|
  {
    if a != [] && b != [] && a[0] == b[0] {
      OrdinalLeqTotal(a[1..], b[1..]);
    }
  }

  lemma {:induction false} OrdinalLeqAntisymmetric(a: string, b: string)
    requires OrdinalLeq(a, b) && OrdinalLeq(b, a)
    ensures a == b
    decreases |a|
  {
    if a != [] && b != [] {
      OrdinalLeqAntisymmetric(a[1..], b[1..]);
      assert a == [a[0]] + a[1..] && b == [b[0]] + b[1..];
    }
  }

  lemma {:induction false} OrdinalLeqTransitive(a: string, b: string, c: string)
    requires OrdinalLeq(a, b) && OrdinalLeq(b, c)
    ensures OrdinalLeq(a, c)
    decreases |a|
  {
    if a != [] && b != [] && c != [] && a[0] == b[0] && b[0] == c[0] {
      OrdinalLeqTransitive(a[1..], b[1..], c[1..]);
    }
  }
}
