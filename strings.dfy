/** Lexicographic order on strings and the canonical rotation of a cycle of ids.
    Rust orders `String`s by their UTF-8 bytes, which is the same order as
    comparing their code points one by one; Dafny's `char` is a Unicode scalar
    value, so comparing `char`s with `<` gives that order. */
module Strings {

  /** `a <= b` in lexicographic order: a proper prefix comes first. */
  predicate StrLe(a: string, b: string)
  {
    if |a| == 0 then true
    else if |b| == 0 then false
    else if a[0] < b[0] then true
    else if b[0] < a[0] then false
    else StrLe(a[1..], b[1..])
  }

  lemma {:induction false} StrLeReflexive(a: string)
    ensures StrLe(a, a)
  {
    if |a| > 0 { StrLeReflexive(a[1..]); }
  }

  lemma {:induction false} StrLeTotal(a: string, b: string)
    ensures StrLe(a, b) || StrLe(b, a)
  {
    if |a| > 0 && |b| > 0 && a[0] == b[0] { StrLeTotal(a[1..], b[1..]); }
  }

  lemma {:induction false} StrLeAntisymmetric(a: string, b: string)
    requires StrLe(a, b) && StrLe(b, a)
    ensures a == b
  {
    if |a| > 0 && |b| > 0 {
      StrLeAntisymmetric(a[1..], b[1..]);
      assert a == [a[0]] + a[1..] && b == [b[0]] + b[1..];
    }
  }

  lemma {:induction false} StrLeTransitive(a: string, b: string, c: string)
    requires StrLe(a, b) && StrLe(b, c)
    ensures StrLe(a, c)
  {
    if |a| > 0 && |b| > 0 && |c| > 0 && a[0] == b[0] && b[0] == c[0] {
      StrLeTransitive(a[1..], b[1..], c[1..]);
    }
  }

  /** The index of the first minimum, as Rust's `Iterator::min_by` picks it:
      equally small elements later in the sequence never replace an earlier one. */
  function FirstMinIndex(s: seq<string>): (m: nat)
    requires |s| > 0
    ensures m < |s|
    ensures forall j :: 0 <= j < |s| ==> StrLe(s[m], s[j])
    ensures forall j :: 0 <= j < m ==> !StrLe(s[j], s[m])
  {
    if |s| == 1 then
      StrLeReflexive(s[0]);
      0
    else
      var k := FirstMinIndex(s[..|s| - 1]);
      var last := s[|s| - 1];
      if StrLe(s[k], last) then
        assert forall j :: 0 <= j < |s| - 1 ==> s[j] == s[..|s| - 1][j];
        k
      else
        StrLeTotal(s[k], last);
        StrLeReflexive(last);
        assert forall j :: 0 <= j < |s| - 1 ==> StrLe(last, s[j]) by {
          forall j | 0 <= j < |s| - 1 ensures StrLe(last, s[j]) {
            assert s[j] == s[..|s| - 1][j];
            StrLeTransitive(last, s[k], s[j]);
          }
        }
        assert forall j :: 0 <= j < |s| - 1 ==> !StrLe(s[j], last) by {
          forall j | 0 <= j < |s| - 1 ensures !StrLe(s[j], last) {
            assert s[j] == s[..|s| - 1][j];
            if StrLe(s[j], last) {
              StrLeTransitive(s[k], s[j], last);
            }
          }
        }
        |s| - 1
  }

  /** `r` is `s` rotated left by some number of places. */
  ghost predicate IsRotation(s: seq<string>, r: seq<string>)
  {
    exists k :: 0 <= k <= |s| && r == s[k..] + s[..k]
  }

  /** Rotating `s` to start at a minimum puts that minimum first, and it is
      no larger than anything in the rotation. */
  lemma RotationAtMin(s: seq<string>, m: nat)
    requires m < |s| && forall j :: 0 <= j < |s| ==> StrLe(s[m], s[j])
    ensures var r := s[m..] + s[..m];
            |r| == |s| && r[0] == s[m] && forall j :: 0 <= j < |r| ==> StrLe(r[0], r[j])
  {
    var r := s[m..] + s[..m];
    forall j | 0 <= j < |r| ensures StrLe(r[0], r[j]) {
      if j < |s| - m { assert r[j] == s[m + j]; } else { assert r[j] == s[j - (|s| - m)]; }
    }
  }

  /** The cycle rotated so that it starts at the first occurrence of its
      smallest id; the empty cycle is left alone. */
  function Canonical(s: seq<string>): (r: seq<string>)
    ensures |r| == |s| && multiset(r) == multiset(s)
    ensures IsRotation(s, r)
    ensures |s| > 0 ==> r[0] == s[FirstMinIndex(s)]
    ensures |s| > 0 ==> r == s[FirstMinIndex(s)..] + s[..FirstMinIndex(s)]
    ensures forall j :: 0 <= j < |r| ==> StrLe(r[0], r[j])
  {
    if s == [] then
      assert s == s[0..] + s[..0];
      []
    else
      var m := FirstMinIndex(s);
      assert s == s[..m] + s[m..];
      RotationAtMin(s, m);
      s[m..] + s[..m]
  }

  /** Rotating an already canonical cycle leaves it unchanged. */
  lemma CanonicalIdempotent(s: seq<string>)
    ensures Canonical(Canonical(s)) == Canonical(s)
  {
    var r := Canonical(s);
    if r != [] {
      var m := FirstMinIndex(r);
      assert m == 0;
      assert r[0..] + r[..0] == r;
    }
  }
}
