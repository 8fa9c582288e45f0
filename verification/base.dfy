/** Generic building blocks shared by the modules of the model: an optional
    value and the array operations JavaScript code uses everywhere
    (`filter`, `slice(0, n)`, `[...new Set(xs)]`). */
module Base {

  datatype Option<T> = None | Some(value: T)

  lemma AppendAssoc<T>(a: seq<T>, b: seq<T>, c: seq<T>)
    ensures (a + b) + c == a + (b + c)
  {
  }

  /** `xs.filter(keep)`: the elements that satisfy `keep`, in their order. */
  function Filter<T>(xs: seq<T>, keep: T -> bool): (r: seq<T>)
    ensures |r| <= |xs|
    ensures forall i :: 0 <= i < |r| ==> keep(r[i])
  {
    if |xs| == 0 then []
    else if keep(xs[0]) then [xs[0]] + Filter(xs[1..], keep)
    else Filter(xs[1..], keep)
  }

  /** What `Filter` keeps comes from the list, and every element that
      passes the test is kept. */
  lemma {:induction false} FilterMembers<T>(xs: seq<T>, keep: T -> bool)
    ensures forall x :: x in Filter(xs, keep) ==> x in xs
    ensures forall i :: 0 <= i < |xs| && keep(xs[i]) ==> xs[i] in Filter(xs, keep)
  {
    if |xs| > 0 {
      FilterMembers(xs[1..], keep);
      assert forall i :: 1 <= i < |xs| ==> xs[i] == xs[1..][i - 1];
    }
  }

  lemma {:induction false} FilterAppend<T>(xs: seq<T>, ys: seq<T>, keep: T -> bool)
    ensures Filter(xs + ys, keep) == Filter(xs, keep) + Filter(ys, keep)
  {
    if |xs| == 0 {
      assert xs + ys == ys;
    } else {
      assert (xs + ys)[1..] == xs[1..] + ys;
      FilterAppend(xs[1..], ys, keep);
    }
  }

  /** Filtering out at least one element shortens the list. */
  lemma {:induction false} FilterShrinks<T>(xs: seq<T>, keep: T -> bool, k: int)
    requires 0 <= k < |xs| && !keep(xs[k])
    ensures |Filter(xs, keep)| < |xs|
  {
    if k > 0 {
      FilterShrinks(xs[1..], keep, k - 1);
    }
  }

  /** Filtering with a predicate every element already satisfies changes nothing. */
  lemma {:induction false} FilterAll<T>(xs: seq<T>, keep: T -> bool)
    requires forall i :: 0 <= i < |xs| ==> keep(xs[i])
    ensures Filter(xs, keep) == xs
  {
    if |xs| > 0 {
      FilterAll(xs[1..], keep);
    }
  }

  /** Filtering with a predicate no element satisfies leaves nothing. */
  lemma {:induction false} FilterNone<T>(xs: seq<T>, keep: T -> bool)
    requires forall i :: 0 <= i < |xs| ==> !keep(xs[i])
    ensures Filter(xs, keep) == []
  {
    if |xs| > 0 {
      FilterNone(xs[1..], keep);
    }
  }

  /** Filtering keeps the relative order of the elements it keeps: it is a
      subsequence, witnessed by a strictly increasing index map. */
  lemma {:induction false} FilterIsSubsequence<T>(xs: seq<T>, keep: T -> bool)
    ensures IsSubsequence(Filter(xs, keep), xs)
  {
    if |xs| > 0 {
      FilterIsSubsequence(xs[1..], keep);
      SubsequenceCons(Filter(xs[1..], keep), xs[1..], xs[0], keep(xs[0]));
      assert xs == [xs[0]] + xs[1..];
    } else {
      assert IndexMap([], Filter(xs, keep), xs);
    }
  }

  /** `idx` maps each position of `ys` to a position of `xs` holding the
      same element, strictly increasing. */
  ghost predicate IndexMap<T>(idx: seq<nat>, ys: seq<T>, xs: seq<T>)
  {
    |idx| == |ys|
    && (forall i :: 0 <= i < |idx| ==> idx[i] < |xs| && ys[i] == xs[idx[i]])
    && (forall i, j :: 0 <= i < j < |idx| ==> idx[i] < idx[j])
  }

  /** `ys` can be obtained from `xs` by deleting elements. */
  ghost predicate IsSubsequence<T>(ys: seq<T>, xs: seq<T>)
  {
    exists idx: seq<nat> :: IndexMap(idx, ys, xs)
  }

  /** Shifting every index by one maps into `[x] + xs`. */
  lemma ShiftedIndexMap<T>(idx: seq<nat>, ys: seq<T>, xs: seq<T>, x: T)
    requires IndexMap(idx, ys, xs)
    ensures IndexMap(seq(|idx|, i requires 0 <= i < |idx| => idx[i] + 1), ys, [x] + xs)
  {
    var shifted := seq(|idx|, i requires 0 <= i < |idx| => idx[i] + 1);
    forall i | 0 <= i < |shifted| ensures shifted[i] < |[x] + xs| && ys[i] == ([x] + xs)[shifted[i]] {
      assert ([x] + xs)[idx[i] + 1] == xs[idx[i]];
    }
  }

  lemma SubsequenceCons<T>(ys: seq<T>, xs: seq<T>, x: T, take: bool)
    requires IsSubsequence(ys, xs)
    ensures take ==> IsSubsequence([x] + ys, [x] + xs)
    ensures !take ==> IsSubsequence(ys, [x] + xs)
  {
    var idx: seq<nat> :| IndexMap(idx, ys, xs);
    ShiftedIndexMap(idx, ys, xs, x);
    var shifted := seq(|idx|, i requires 0 <= i < |idx| => idx[i] + 1);
    if take {
      ConsIndexMap(shifted, ys, xs, x);
    }
  }

  /** Prepending the same element to both lists extends a map into
      `[x] + xs` with position 0. */
  lemma ConsIndexMap<T>(shifted: seq<nat>, ys: seq<T>, xs: seq<T>, x: T)
    requires IndexMap(shifted, ys, [x] + xs)
    requires forall i :: 0 <= i < |shifted| ==> shifted[i] > 0
    ensures IndexMap([0] + shifted, [x] + ys, [x] + xs)
  {
    var idx' := [0] + shifted;
    forall i | 0 <= i < |idx'| ensures idx'[i] < |[x] + xs| && ([x] + ys)[i] == ([x] + xs)[idx'[i]] {
      if i > 0 {
        assert idx'[i] == shifted[i - 1];
        assert ([x] + ys)[i] == ys[i - 1];
      }
    }
    forall i, j | 0 <= i < j < |idx'| ensures idx'[i] < idx'[j] {
      if i > 0 {
        assert idx'[i] == shifted[i - 1] && idx'[j] == shifted[j - 1];
      } else {
        assert idx'[j] == shifted[j - 1];
      }
    }
  }

  /** `xs.findIndex(p)`: the first position whose element satisfies `p`,
      or None when there is none. */
  function FindFirst<T>(xs: seq<T>, p: T -> bool): (found: Option<nat>)
    ensures found.Some? ==> found.value < |xs| && p(xs[found.value])
                            && forall k :: 0 <= k < found.value ==> !p(xs[k])
    ensures found.None? <==> forall k :: 0 <= k < |xs| ==> !p(xs[k])
  {
    if |xs| == 0 then None
    else if p(xs[0]) then Some(0)
    else
      var r := FindFirst(xs[1..], p);
      assert forall k :: 1 <= k < |xs| ==> xs[k] == xs[1..][k - 1];
      if r.None? then None else Some(r.value + 1)
  }

  /** `xs.slice(0, n)`: at most the first `n` elements. */
  function Take<T>(xs: seq<T>, n: nat): (r: seq<T>)
    ensures |r| == if |xs| < n then |xs| else n
    ensures r <= xs
  {
    if |xs| <= n then xs else xs[..n]
  }

  /** Number of occurrences of `x` in `xs`. */
  function Occurrences<T(==)>(xs: seq<T>, x: T): nat
  {
    if |xs| == 0 then 0
    else Occurrences(xs[..|xs| - 1], x) + (if xs[|xs| - 1] == x then 1 else 0)
  }

  /** Filtering keeps every copy of a kept element. */
  lemma {:induction false} FilterOccurrences<T>(xs: seq<T>, keep: T -> bool, x: T)
    requires keep(x)
    ensures Occurrences(Filter(xs, keep), x) == Occurrences(xs, x)
    decreases |xs|
  {
    if |xs| > 0 {
      var init, last := xs[..|xs| - 1], xs[|xs| - 1];
      assert xs == init + [last];
      FilterAppend(init, [last], keep);
      FilterOccurrences(init, keep, x);
      var f := Filter(init, keep);
      if keep(last) {
        assert Filter([last], keep) == [last] by { assert [last][1..] == []; }
        assert (f + [last])[..|f|] == f;
      } else {
        assert Filter([last], keep) == [] by { assert [last][1..] == []; }
        assert f + [] == f;
      }
    }
  }

  predicate NoDuplicates<T(==)>(xs: seq<T>)
  {
    forall i, j :: 0 <= i < j < |xs| ==> xs[i] != xs[j]
  }

  /** `[...new Set(xs)]`: each distinct element once, in order of first occurrence. */
  function Distinct<T(==)>(xs: seq<T>): seq<T>
  {
    if |xs| == 0 then []
    else
      var d := Distinct(xs[..|xs| - 1]);
      if xs[|xs| - 1] in d then d else d + [xs[|xs| - 1]]
  }

  lemma {:induction false} DistinctProperties<T>(xs: seq<T>)
    ensures NoDuplicates(Distinct(xs))
    ensures forall i :: 0 <= i < |xs| ==> xs[i] in Distinct(xs)
    ensures forall i :: 0 <= i < |Distinct(xs)| ==> Distinct(xs)[i] in xs
    ensures |Distinct(xs)| <= |xs|
  {
    if |xs| > 0 {
      var init := xs[..|xs| - 1];
      DistinctProperties(init);
      assert xs == init + [xs[|xs| - 1]];
    }
  }

  /** An element of `Distinct(xs)` appears there at the position it first
      reaches: everything before it in `Distinct(xs)` occurs in `xs` before
      its first occurrence. Stated as: a prefix of `xs` yields a prefix of
      `Distinct(xs)`. */
  lemma {:induction false} DistinctPrefix<T>(xs: seq<T>, n: nat)
    requires n <= |xs|
    ensures Distinct(xs[..n]) <= Distinct(xs)
  {
    if n < |xs| {
      var init := xs[..|xs| - 1];
      assert xs[..n] == init[..n];
      DistinctPrefix(init, n);
    } else {
      assert xs[..n] == xs;
    }
  }

  /** On a list without repetitions `Distinct` is the identity. */
  lemma {:induction false} DistinctOfDistinct<T>(xs: seq<T>)
    requires NoDuplicates(xs)
    ensures Distinct(xs) == xs
  {
    if |xs| > 0 {
      var init := xs[..|xs| - 1];
      DistinctOfDistinct(init);
      DistinctProperties(init);
      assert xs[|xs| - 1] !in init;
      assert xs == init + [xs[|xs| - 1]];
    }
  }

  /** Filtering out the one element equal to `x` of a list without
      repetitions shortens it by exactly one. */
  lemma {:induction false} FilterDropsOne<T>(xs: seq<T>, keep: T -> bool, x: T, k: int)
    requires forall y :: keep(y) <==> y != x
    requires NoDuplicates(xs) && 0 <= k < |xs| && xs[k] == x
    ensures |Filter(xs, keep)| == |xs| - 1
  {
    if k == 0 {
      FilterAll(xs[1..], keep);
    } else {
      FilterDropsOne(xs[1..], keep, x, k - 1);
    }
  }

  /** A subsequence of a list without repetitions has none either. */
  lemma SubsequenceNoDuplicates<T>(ys: seq<T>, xs: seq<T>)
    requires IsSubsequence(ys, xs) && NoDuplicates(xs)
    ensures NoDuplicates(ys)
  {
    var idx: seq<nat> :| IndexMap(idx, ys, xs);
    forall i, j | 0 <= i < j < |ys| ensures ys[i] != ys[j] {
      assert ys[i] == xs[idx[i]] && ys[j] == xs[idx[j]];
    }
  }

  /** A value occurs at most once in a list without repetitions. */
  lemma {:induction false} NoDuplicatesCount<T>(xs: seq<T>, x: T)
    requires NoDuplicates(xs)
    ensures multiset(xs)[x] <= 1
  {
    if |xs| > 0 {
      assert xs == [xs[0]] + xs[1..];
      NoDuplicatesCount(xs[1..], x);
      if xs[0] == x {
        assert x !in xs[1..];
      }
    }
  }

  /** A value at two positions occurs at least twice. */
  lemma RepeatCount<T>(xs: seq<T>, i: int, j: int)
    requires 0 <= i < j < |xs| && xs[i] == xs[j]
    ensures multiset(xs)[xs[i]] >= 2
  {
    assert xs == xs[..j] + xs[j..];
    assert xs[i] in xs[..j];
    assert xs[j..][0] == xs[j];
  }

  /** A permutation of a list without repetitions has none either. */
  lemma PermutationNoDuplicates<T>(ys: seq<T>, xs: seq<T>)
    requires multiset(ys) == multiset(xs) && NoDuplicates(xs)
    ensures NoDuplicates(ys)
  {
    forall i, j | 0 <= i < j < |ys| ensures ys[i] != ys[j] {
      if ys[i] == ys[j] {
        RepeatCount(ys, i, j);
        NoDuplicatesCount(xs, ys[i]);
      }
    }
  }

  /** A prefix of a subsequence is a subsequence. */
  lemma PrefixIsSubsequence<T>(zs: seq<T>, ys: seq<T>, xs: seq<T>)
    requires zs <= ys && IsSubsequence(ys, xs)
    ensures IsSubsequence(zs, xs)
  {
    var idx: seq<nat> :| IndexMap(idx, ys, xs);
    var p := idx[..|zs|];
    assert forall i :: 0 <= i < |p| ==> p[i] < |xs| && zs[i] == xs[p[i]];
    assert IndexMap(p, zs, xs);
  }
}
