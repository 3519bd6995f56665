/**
 * JavaScript's `Set` as the application uses it: distinct elements, iterated
 * in insertion order. A set is the duplicate-free sequence of its elements
 * in that order, so `Array.from(set)` is the sequence itself and `set.size`
 * its length.
 */
module OrderedSet {

  predicate NoDup<T(==)>(s: seq<T>) {
    forall i, j :: 0 <= i < j < |s| ==> s[i] != s[j]
  }

  /** `set.add(x)`: a new element goes last; a present one changes nothing. */
  function Add<T(==, !new)>(s: seq<T>, x: T): (r: seq<T>)
    ensures NoDup(s) ==> NoDup(r)
    ensures forall y :: y in r <==> y in s || y == x
    ensures |s| <= |r| <= |s| + 1 && r[..|s|] == s
    ensures x in s ==> r == s
  {
    if x in s then s else s + [x]
  }

  /** `new Set(xs)`: the elements of `xs` added one after the other. */
  function FromSeq<T(==, !new)>(xs: seq<T>): (r: seq<T>)
    ensures NoDup(r)
    ensures forall y :: y in r <==> y in xs
    ensures |r| <= |xs|
  {
    if xs == [] then [] else Add(FromSeq(xs[..|xs| - 1]), xs[|xs| - 1])
  }

  /** Where `x` first occurs in `xs`. */
  function FirstIndex<T(==)>(xs: seq<T>, x: T): (i: nat)
    requires x in xs
    ensures i < |xs| && xs[i] == x && x !in xs[..i]
  {
    if xs[0] == x then 0 else 1 + FirstIndex(xs[1..], x)
  }

  /** The first occurrence is the only index with nothing equal before it. */
  lemma FirstIndexUnique<T>(xs: seq<T>, x: T, i: nat)
    requires i < |xs| && xs[i] == x && x !in xs[..i]
    ensures FirstIndex(xs, x) == i
  {
  }

  /** Appending does not move a first occurrence. */
  lemma FirstIndexAppend<T>(xs: seq<T>, x: T, y: T)
    requires y in xs
    ensures FirstIndex(xs + [x], y) == FirstIndex(xs, y)
  {
    var i := FirstIndex(xs, y);
    assert (xs + [x])[..i] == xs[..i];
    FirstIndexUnique(xs + [x], y, i);
  }

  /** Adding an element twice is adding it once. */
  lemma AddIdempotent<T(!new)>(s: seq<T>, x: T)
    ensures Add(Add(s, x), x) == Add(s, x)
  {
  }

  /** Adding `x` to the set of `ys` keeps the order of first appearance. */
  lemma FirstAppearanceStep<T(!new)>(ys: seq<T>, x: T, i: nat, j: nat)
    requires var r := FromSeq(ys);
      forall i, j :: 0 <= i < j < |r| ==> FirstIndex(ys, r[i]) < FirstIndex(ys, r[j])
    requires i < j < |Add(FromSeq(ys), x)|
    ensures var r := Add(FromSeq(ys), x);
      FirstIndex(ys + [x], r[i]) < FirstIndex(ys + [x], r[j])
  {
    var r', r := FromSeq(ys), Add(FromSeq(ys), x);
    FirstIndexAppend(ys, x, r[i]);
    if j < |r'| {
      FirstIndexAppend(ys, x, r[j]);
    } else {
      assert (ys + [x])[..|ys|] == ys;
      FirstIndexUnique(ys + [x], x, |ys|);
    }
  }

  /**
   * `new Set(xs)` lists the distinct elements in order of first appearance
   * in `xs`.
   */
  lemma {:induction false} FromSeqFirstAppearance<T(!new)>(xs: seq<T>)
    ensures var r := FromSeq(xs);
      forall i, j :: 0 <= i < j < |r| ==> FirstIndex(xs, r[i]) < FirstIndex(xs, r[j])
  {
    if xs != [] {
      var ys, x := xs[..|xs| - 1], xs[|xs| - 1];
      assert xs == ys + [x];
      FromSeqFirstAppearance(ys);
      forall i, j | 0 <= i < j < |FromSeq(xs)|
        ensures FirstIndex(xs, FromSeq(xs)[i]) < FirstIndex(xs, FromSeq(xs)[j])
      {
        FirstAppearanceStep(ys, x, i, j);
      }
    }
  }

  /** A duplicate-free sequence has as many elements as its set. */
  lemma {:induction false} NoDupCardinality<T>(s: seq<T>)
    requires NoDup(s)
    ensures |set x | x in s| == |s|
  {
    if s != [] {
      var init := s[..|s| - 1];
      NoDupCardinality(init);
      assert (set x | x in s) == (set x | x in init) + {s[|s| - 1]};
      assert s[|s| - 1] !in init;
    }
  }

  /** Any sequence has at least as many elements as its set. */
  lemma {:induction false} Cardinality<T>(s: seq<T>)
    ensures |set x | x in s| <= |s|
  {
    if s != [] {
      var init := s[..|s| - 1];
      Cardinality(init);
      assert (set x | x in s) == (set x | x in init) + {s[|s| - 1]};
    }
  }

  /** A duplicate-free sequence inside another is no longer than it. */
  lemma IncludedNoLonger<T>(s: seq<T>, t: seq<T>)
    requires NoDup(s) && forall x :: x in s ==> x in t
    ensures |s| <= |t|
  {
    NoDupCardinality(s);
    Cardinality(t);
    var a, b := set x | x in s, set x | x in t;
    assert b == a + (b - a) && a * (b - a) == {};
  }
}
