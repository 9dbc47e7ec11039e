/**
 * Facts about sequences that the PHP array model needs: keeping the first
 * occurrence of each value (what `array_unique` and the pre-send
 * de-duplication do) and selecting elements by position.
 */
module Sequences {

  /** No value occurs twice in `xs`. */
  predicate NoDuplicates<T(==)>(xs: seq<T>)
  {
    forall i, j :: 0 <= i < j < |xs| ==> xs[i] != xs[j]
  }

  predicate StrictlyIncreasing(ps: seq<nat>)
  {
    forall i, j :: 0 <= i < j < |ps| ==> ps[i] < ps[j]
  }

  /** The positions of `ks` where a value appears for the first time, in increasing order. */
  function FirstPositions<K(==)>(ks: seq<K>): (ps: seq<nat>)
    ensures forall i :: 0 <= i < |ps| ==> ps[i] < |ks|
    ensures StrictlyIncreasing(ps)
  {
    if |ks| == 0 then []
    else
      var prefix := FirstPositions(ks[..|ks| - 1]);
      if ks[|ks| - 1] in ks[..|ks| - 1] then prefix else prefix + [|ks| - 1]
  }

  /** The elements of `xs` at the positions `ps`, in the order of `ps`. */
  function Pick<T>(xs: seq<T>, ps: seq<nat>): (r: seq<T>)
    requires forall i :: 0 <= i < |ps| ==> ps[i] < |xs|
  {
    seq(|ps|, i requires 0 <= i < |ps| => xs[ps[i]])
  }

  /** `xs` with every value kept only where it first occurs (PHP's `array_unique` on a list). */
  function Unique<T(==)>(xs: seq<T>): seq<T>
  {
    Pick(xs, FirstPositions(xs))
  }

  /** Appending one element adds its position exactly when its value is new. */
  lemma FirstPositionsSnoc<K>(ks: seq<K>, k: K)
    ensures FirstPositions(ks + [k]) == if k in ks then FirstPositions(ks) else FirstPositions(ks) + [|ks|]
  {
    assert (ks + [k])[..|ks|] == ks;
  }

  lemma PickSnoc<T>(xs: seq<T>, x: T, ps: seq<nat>)
    requires forall i :: 0 <= i < |ps| ==> ps[i] < |xs|
    ensures Pick(xs + [x], ps) == Pick(xs, ps)
    ensures Pick(xs + [x], ps + [|xs|]) == Pick(xs, ps) + [x]
  {
  }

  /** `Unique` grows exactly by the values not seen before. */
  lemma UniqueSnoc<T>(xs: seq<T>, x: T)
    ensures Unique(xs + [x]) == if x in xs then Unique(xs) else Unique(xs) + [x]
  {
    FirstPositionsSnoc(xs, x);
    PickSnoc(xs, x, FirstPositions(xs));
  }

  /** A position is kept exactly when its value does not occur earlier. */
  lemma {:induction false} FirstPositionsCharacterized<K>(ks: seq<K>, j: nat)
    requires j < |ks|
    ensures j in FirstPositions(ks) <==> ks[j] !in ks[..j]
  {
    var n := |ks| - 1;
    var prefix := ks[..n];
    assert ks == prefix + [ks[n]];
    FirstPositionsSnoc(prefix, ks[n]);
    if j < n {
      FirstPositionsCharacterized(prefix, j);
      assert prefix[..j] == ks[..j];
    } else {
      assert ks[..j] == prefix;
    }
  }

  /** The values at the first positions are pairwise distinct. */
  lemma UniqueNoDuplicates<T>(xs: seq<T>)
    ensures NoDuplicates(Unique(xs))
  {
    var ps := FirstPositions(xs);
    forall i, j | 0 <= i < j < |ps| ensures xs[ps[i]] != xs[ps[j]] {
      FirstPositionsCharacterized(xs, ps[j]);
      assert ps[j] in ps;
      assert xs[..ps[j]][ps[i]] == xs[ps[i]];
    }
  }

  /** `Unique` loses no value and adds none. */
  lemma {:induction false} UniqueSameElements<T>(xs: seq<T>)
    ensures forall x :: x in Unique(xs) <==> x in xs
  {
    if |xs| > 0 {
      var n := |xs| - 1;
      assert xs == xs[..n] + [xs[n]];
      UniqueSameElements(xs[..n]);
      UniqueSnoc(xs[..n], xs[n]);
    }
  }

  /** `Unique` is `xs` itself when `xs` has no repeated value. */
  lemma {:induction false} UniqueOfDistinct<T>(xs: seq<T>)
    requires NoDuplicates(xs)
    ensures Unique(xs) == xs
  {
    if |xs| > 0 {
      var n := |xs| - 1;
      assert xs == xs[..n] + [xs[n]];
      UniqueOfDistinct(xs[..n]);
      UniqueSnoc(xs[..n], xs[n]);
    }
  }
}
