/**
 * Generic facts about sequences used by the station queries: an
 * order-preserving filter (the shape of a loop that appends every matching
 * element to a fresh list), the subsequence relation, and the substring test
 * behind Python's `in` on strings.
 */
module Secuencias {

  /** The elements of `s` that satisfy `p`, in their original order and with
      their repetitions. Defined from the back, as a loop that appends builds it. */
  function Filtra<T(==)>(s: seq<T>, p: T -> bool): (r: seq<T>)
    ensures |r| <= |s|
    ensures forall i :: 0 <= i < |r| ==> r[i] in s && p(r[i])
    ensures forall i :: 0 <= i < |s| && p(s[i]) ==> s[i] in r
  {
    if |s| == 0 then []
    else
      assert s == s[..|s| - 1] + [s[|s| - 1]];
      Filtra(s[..|s| - 1], p) + (if p(s[|s| - 1]) then [s[|s| - 1]] else [])
  }

  /** `idx` lists, in strictly increasing order, positions of `s` that spell out `r`. */
  ghost predicate IndicesDe<T>(idx: seq<int>, r: seq<T>, s: seq<T>)
  {
    && |idx| == |r|
    && (forall k :: 0 <= k < |idx| ==> 0 <= idx[k] < |s| && r[k] == s[idx[k]])
    && (forall k, l :: 0 <= k < l < |idx| ==> idx[k] < idx[l])
  }

  /** `r` is obtained from `s` by deleting elements, keeping the order of the rest. */
  ghost predicate EsSubsecuencia<T>(r: seq<T>, s: seq<T>)
  {
    exists idx :: IndicesDe(idx, r, s)
  }

  /** Filtering never reorders: the result is a subsequence of the input. */
  lemma {:induction false} FiltraSubsecuencia<T>(s: seq<T>, p: T -> bool)
    ensures EsSubsecuencia(Filtra(s, p), s)
  {
    if |s| == 0 {
      assert IndicesDe([], Filtra(s, p), s);
    } else {
      var n := |s| - 1;
      FiltraSubsecuencia(s[..n], p);
      var idx :| IndicesDe(idx, Filtra(s[..n], p), s[..n]);
      if p(s[n]) {
        assert IndicesDe(idx + [n], Filtra(s, p), s);
      } else {
        assert IndicesDe(idx, Filtra(s, p), s);
      }
    }
  }

  /** Filtering keeps every occurrence of a matching element and drops every
      occurrence of a non-matching one: no duplicates are lost. */
  lemma {:induction false} FiltraMultiset<T>(s: seq<T>, p: T -> bool)
    ensures forall x :: multiset(Filtra(s, p))[x] == if p(x) then multiset(s)[x] else 0
  {
    if |s| > 0 {
      var n := |s| - 1;
      FiltraMultiset(s[..n], p);
      assert s == s[..n] + [s[n]];
    }
  }

  /** Appending one element extends the filtered sequence by that element
      exactly when it matches. */
  lemma FiltraAgrega<T>(s: seq<T>, x: T, p: T -> bool)
    ensures Filtra(s + [x], p) == Filtra(s, p) + (if p(x) then [x] else [])
  {
    assert (s + [x])[..|s|] == s;
  }

  /** Filtering distributes over concatenation. */
  lemma {:induction false} FiltraConcatena<T>(a: seq<T>, b: seq<T>, p: T -> bool)
    ensures Filtra(a + b, p) == Filtra(a, p) + Filtra(b, p)
  {
    if |b| == 0 {
      assert a + b == a;
    } else {
      var n := |b| - 1;
      FiltraConcatena(a, b[..n], p);
      assert a + b == (a + b[..n]) + [b[n]];
      assert b == b[..n] + [b[n]];
      FiltraAgrega(a + b[..n], b[n], p);
      FiltraAgrega(b[..n], b[n], p);
    }
  }

  /** Two predicates that agree everywhere select the same elements. */
  lemma {:induction false} FiltraExtensional<T>(s: seq<T>, p: T -> bool, q: T -> bool)
    requires forall x :: p(x) == q(x)
    ensures Filtra(s, p) == Filtra(s, q)
  {
    if |s| > 0 {
      FiltraExtensional(s[..|s| - 1], p, q);
    }
  }

  /** Filtering by a stronger predicate after a weaker one is the same as
      filtering by the stronger one alone. */
  lemma {:induction false} FiltraAnidado<T>(s: seq<T>, p: T -> bool, q: T -> bool)
    requires forall x :: q(x) ==> p(x)
    ensures Filtra(Filtra(s, p), q) == Filtra(s, q)
  {
    if |s| > 0 {
      var n := |s| - 1;
      FiltraAnidado(s[..n], p, q);
      var ultimo := if p(s[n]) then [s[n]] else [];
      FiltraConcatena(Filtra(s[..n], p), ultimo, q);
      if p(s[n]) {
        assert Filtra(ultimo, q) == Filtra([], q) + (if q(s[n]) then [s[n]] else []) by {
          assert ultimo[..0] == [];
        }
      } else {
        assert Filtra(ultimo, q) == [];
      }
    }
  }

  /** Python's `p in t` on strings: `p` occurs as a contiguous block of `t`.
      The empty sequence occurs in every sequence. */
  predicate EsSubcadena<T(==)>(p: seq<T>, t: seq<T>)
    ensures EsSubcadena(p, t) ==> |p| <= |t|
    ensures EsSubcadena(p, t) && |p| == |t| ==> p == t
    ensures |p| == 0 ==> EsSubcadena(p, t)
    decreases |t|
  {
    p <= t || (|t| > 0 && EsSubcadena(p, t[1..]))
  }

  /** `p` occurs in `t` starting at position `k`. */
  ghost predicate ApareceEn<T>(p: seq<T>, t: seq<T>, k: int)
  {
    0 <= k && k + |p| <= |t| && t[k..k + |p|] == p
  }

  /** The recursive substring test agrees with the positional definition. */
  lemma {:induction false} EsSubcadenaSii<T>(p: seq<T>, t: seq<T>)
    ensures EsSubcadena(p, t) <==> exists k :: ApareceEn(p, t, k)
    decreases |t|
  {
    if p <= t {
      assert ApareceEn(p, t, 0);
    } else if |t| == 0 {
      assert !exists k :: ApareceEn(p, t, k);
    } else {
      EsSubcadenaSii(p, t[1..]);
      if EsSubcadena(p, t[1..]) {
        var k :| ApareceEn(p, t[1..], k);
        assert t[k + 1..k + 1 + |p|] == t[1..][k..k + |p|];
        assert ApareceEn(p, t, k + 1);
      }
      if k :| ApareceEn(p, t, k) {
        if k == 0 {
          assert false;
        }
        assert t[1..][k - 1..k - 1 + |p|] == t[k..k + |p|];
        assert ApareceEn(p, t[1..], k - 1);
      }
    }
  }
}
