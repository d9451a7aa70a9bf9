/** Sequence operations the macro's transformations are built from. */
module Seqs {

  /** The elements of `s` that satisfy `keep`, in their original order. */
  function Filter<T>(s: seq<T>, keep: T -> bool): (r: seq<T>)
    ensures |r| <= |s|
  {
    if s == [] then []
    else if keep(s[0]) then [s[0]] + Filter(s[1..], keep)
    else Filter(s[1..], keep)
  }

  /** Each element of `s` passed through `f`. */
  function Map<T, U>(s: seq<T>, f: T -> U): (r: seq<U>)
    ensures |r| == |s|
    ensures forall i :: 0 <= i < |s| ==> r[i] == f(s[i])
  {
    seq(|s|, i requires 0 <= i < |s| => f(s[i]))
  }

  /** The concatenation of what `render` gives for each item, in order. */
  function Flatten<T, U>(items: seq<T>, render: T -> seq<U>): seq<U>
  {
    if items == [] then [] else render(items[0]) + Flatten(items[1..], render)
  }

  /** Every index of `xs` moved one place up. */
  function Shift(xs: seq<nat>): (r: seq<nat>)
    ensures |r| == |xs|
    ensures forall k :: 0 <= k < |xs| ==> r[k] == xs[k] + 1
  {
    seq(|xs|, k requires 0 <= k < |xs| => xs[k] + 1)
  }

  /** The positions in `s` of the elements `Filter(s, keep)` keeps. */
  ghost function KeptIndices<T>(s: seq<T>, keep: T -> bool): seq<nat>
  {
    if s == [] then []
    else if keep(s[0]) then [0] + Shift(KeptIndices(s[1..], keep))
    else Shift(KeptIndices(s[1..], keep))
  }

  /** A test no element satisfies keeps nothing. */
  lemma {:induction false} FilterNone<T>(s: seq<T>, keep: T -> bool)
    requires forall i :: 0 <= i < |s| ==> !keep(s[i])
    ensures Filter(s, keep) == []
  {
    if s != [] {
      FilterNone(s[1..], keep);
    }
  }

  /** A test every element satisfies keeps everything. */
  lemma {:induction false} FilterAll<T>(s: seq<T>, keep: T -> bool)
    requires forall i :: 0 <= i < |s| ==> keep(s[i])
    ensures Filter(s, keep) == s
  {
    if s != [] {
      FilterAll(s[1..], keep);
      assert [s[0]] + s[1..] == s;
    }
  }

  /** Filtering distributes over concatenation. */
  lemma {:induction false} FilterAppend<T>(a: seq<T>, b: seq<T>, keep: T -> bool)
    ensures Filter(a + b, keep) == Filter(a, keep) + Filter(b, keep)
  {
    if a == [] {
      assert a + b == b;
    } else {
      assert (a + b)[0] == a[0];
      assert (a + b)[1..] == a[1..] + b;
      FilterAppend(a[1..], b, keep);
      if keep(a[0]) {
        assert Filter(a + b, keep) == [a[0]] + Filter(a[1..] + b, keep);
        assert Filter(a, keep) == [a[0]] + Filter(a[1..], keep);
      }
    }
  }

  /** Two tests that agree on every element of `s` keep the same elements. */
  lemma {:induction false} FilterCongruent<T>(s: seq<T>, f: T -> bool, g: T -> bool)
    requires forall i :: 0 <= i < |s| ==> f(s[i]) == g(s[i])
    ensures Filter(s, f) == Filter(s, g)
  {
    if s != [] {
      FilterCongruent(s[1..], f, g);
    }
  }

  /** Every kept position is in range and `Filter` holds that position's element. */
  lemma {:induction false} KeptIndicesSelect<T>(s: seq<T>, keep: T -> bool)
    ensures |KeptIndices(s, keep)| == |Filter(s, keep)|
    ensures forall k :: 0 <= k < |KeptIndices(s, keep)| ==>
              KeptIndices(s, keep)[k] < |s| && Filter(s, keep)[k] == s[KeptIndices(s, keep)[k]]
  {
    if s != [] {
      var t := s[1..];
      KeptIndicesSelect(t, keep);
      var ti := KeptIndices(t, keep);
      var tr := Filter(t, keep);
      var n := if keep(s[0]) then 1 else 0;
      var idx := KeptIndices(s, keep);
      var r := Filter(s, keep);
      assert |idx| == |r| == |ti| + n;
      forall k | n <= k < |idx|
        ensures idx[k] < |s| && r[k] == s[idx[k]]
      {
        var j := ti[k - n];
        assert idx[k] == Shift(ti)[k - n] == j + 1;
        assert r[k] == tr[k - n] == t[j] == s[j + 1];
      }
    }
  }

  /** The kept elements are elements of `s` that satisfy `keep`, and every such element is kept. */
  lemma FilterMembers<T>(s: seq<T>, keep: T -> bool)
    ensures forall k :: 0 <= k < |Filter(s, keep)| ==> Filter(s, keep)[k] in s && keep(Filter(s, keep)[k])
    ensures forall i :: 0 <= i < |s| && keep(s[i]) ==> s[i] in Filter(s, keep)
  {
    var idx, r := KeptIndices(s, keep), Filter(s, keep);
    KeptIndicesSelect(s, keep);
    KeptIndicesExact(s, keep);
    forall i | 0 <= i < |s| && keep(s[i])
      ensures s[i] in r
    {
      var k :| 0 <= k < |idx| && idx[k] == i;
      assert r[k] == s[i];
    }
  }

  /** The kept positions are strictly increasing. */
  lemma {:induction false} KeptIndicesIncreasing<T>(s: seq<T>, keep: T -> bool)
    ensures forall k1, k2 :: 0 <= k1 < k2 < |KeptIndices(s, keep)| ==>
              KeptIndices(s, keep)[k1] < KeptIndices(s, keep)[k2]
  {
    if s != [] {
      KeptIndicesIncreasing(s[1..], keep);
      var ti := KeptIndices(s[1..], keep);
      var n := if keep(s[0]) then 1 else 0;
      var idx := KeptIndices(s, keep);
      forall k1, k2 | 0 <= k1 < k2 < |idx|
        ensures idx[k1] < idx[k2]
      {
        assert idx[k2] == ti[k2 - n] + 1;
        if k1 >= n {
          assert idx[k1] == ti[k1 - n] + 1;
        }
      }
    }
  }

  /** A position is in `Shift(xs)` exactly when the position below it is in `xs`. */
  lemma ShiftMembers(xs: seq<nat>, i: nat)
    ensures i in Shift(xs) <==> i >= 1 && i - 1 in xs
  {
    if i in Shift(xs) {
      var k :| 0 <= k < |xs| && Shift(xs)[k] == i;
      assert xs[k] == i - 1;
    }
    if i >= 1 && i - 1 in xs {
      var k :| 0 <= k < |xs| && xs[k] == i - 1;
      assert Shift(xs)[k] == i;
    }
  }

  /** A position is kept exactly when its element satisfies `keep`. */
  lemma {:induction false} KeptIndicesExact<T>(s: seq<T>, keep: T -> bool)
    ensures forall i :: 0 <= i < |s| ==> (i in KeptIndices(s, keep) <==> keep(s[i]))
  {
    if s != [] {
      var t := s[1..];
      KeptIndicesExact(t, keep);
      var ti := KeptIndices(t, keep);
      var idx := KeptIndices(s, keep);
      forall i | 0 <= i < |s|
        ensures i in idx <==> keep(s[i])
      {
        ShiftMembers(ti, i);
        assert i in idx <==> (keep(s[0]) && i == 0) || i in Shift(ti);
        if i > 0 {
          assert s[i] == t[i - 1];
        }
      }
    }
  }

  /**
    `Filter(s, keep)` is exactly the elements of `s` at the kept positions,
    which are increasing and are precisely the positions whose element satisfies `keep`.
   */
  lemma FilterKeepsOrder<T>(s: seq<T>, keep: T -> bool)
    ensures |KeptIndices(s, keep)| == |Filter(s, keep)|
    ensures forall k :: 0 <= k < |KeptIndices(s, keep)| ==>
              KeptIndices(s, keep)[k] < |s| && Filter(s, keep)[k] == s[KeptIndices(s, keep)[k]]
    ensures forall k1, k2 :: 0 <= k1 < k2 < |KeptIndices(s, keep)| ==>
              KeptIndices(s, keep)[k1] < KeptIndices(s, keep)[k2]
    ensures forall i :: 0 <= i < |s| ==> (i in KeptIndices(s, keep) <==> keep(s[i]))
  {
    KeptIndicesSelect(s, keep);
    KeptIndicesIncreasing(s, keep);
    KeptIndicesExact(s, keep);
  }

  /** Flattening distributes over concatenation. */
  lemma {:induction false} FlattenAppend<T, U>(a: seq<T>, b: seq<T>, render: T -> seq<U>)
    ensures Flatten(a + b, render) == Flatten(a, render) + Flatten(b, render)
  {
    if a == [] {
      assert a + b == b;
    } else {
      assert (a + b)[0] == a[0];
      assert (a + b)[1..] == a[1..] + b;
      FlattenAppend(a[1..], b, render);
    }
  }
}
