/** Counting style labels the way the quiz code does with a plain
    JavaScript object used as a dictionary: `counts[style] = (counts[style]
    || 0) + 1`, then read back with `Object.entries`/`Object.keys`.
    Such an object enumerates its keys in insertion order as long as no key
    looks like an array index; style labels are words, so the model is an
    association list kept in order of first insertion. */
module StyleTally {
  import opened Base

  datatype Entry = Entry(key: string, count: nat)

  function Keys(t: seq<Entry>): (ks: seq<string>)
    ensures |ks| == |t|
    ensures forall i :: 0 <= i < |t| ==> ks[i] == t[i].key
  {
    seq(|t|, i requires 0 <= i < |t| => t[i].key)
  }

  /** The count recorded for `k`, or 0 when `k` has no entry. */
  function Lookup(t: seq<Entry>, k: string): nat
  {
    if |t| == 0 then 0 else if t[0].key == k then t[0].count else Lookup(t[1..], k)
  }

  /** `counts[k] = (counts[k] || 0) + 1`: bump an existing entry in place,
      or append a new entry at the end. */
  function Bump(t: seq<Entry>, k: string): (r: seq<Entry>)
    ensures |r| == |t| || |r| == |t| + 1
  {
    if |t| == 0 then [Entry(k, 1)]
    else if t[0].key == k then [Entry(k, t[0].count + 1)] + t[1..]
    else [t[0]] + Bump(t[1..], k)
  }

  /** The dictionary after counting `ks` from left to right. */
  function TallyOf(ks: seq<string>): seq<Entry>
  {
    if |ks| == 0 then [] else Bump(TallyOf(ks[..|ks| - 1]), ks[|ks| - 1])
  }

  lemma KeysCons(e: Entry, t: seq<Entry>)
    ensures Keys([e] + t) == [e.key] + Keys(t)
  {
  }

  lemma KeysTail(t: seq<Entry>)
    requires |t| > 0
    ensures Keys(t) == [t[0].key] + Keys(t[1..])
  {
    assert t == [t[0]] + t[1..];
    KeysCons(t[0], t[1..]);
  }

  lemma {:induction false} BumpKeys(t: seq<Entry>, k: string)
    ensures Keys(Bump(t, k)) == if k in Keys(t) then Keys(t) else Keys(t) + [k]
  {
    if |t| == 0 {
      assert Keys(Bump(t, k)) == [k];
    } else if t[0].key == k {
      KeysTail(t);
      KeysCons(Entry(k, t[0].count + 1), t[1..]);
    } else {
      BumpKeys(t[1..], k);
      BumpKeysPast(t, k);
    }
  }

  lemma BumpKeysPast(t: seq<Entry>, k: string)
    requires |t| > 0 && t[0].key != k
    requires Keys(Bump(t[1..], k)) == if k in Keys(t[1..]) then Keys(t[1..]) else Keys(t[1..]) + [k]
    ensures Keys(Bump(t, k)) == if k in Keys(t) then Keys(t) else Keys(t) + [k]
  {
    var rest := Keys(t[1..]);
    KeysTail(t);
    KeysCons(t[0], Bump(t[1..], k));
    assert k in Keys(t) <==> k in rest;
    if k !in rest {
      assert [t[0].key] + (rest + [k]) == ([t[0].key] + rest) + [k];
    }
  }

  lemma {:induction false} BumpLookup(t: seq<Entry>, k: string, j: string)
    ensures Lookup(Bump(t, k), j) == Lookup(t, j) + (if j == k then 1 else 0)
  {
    if |t| > 0 && t[0].key != k {
      BumpLookup(t[1..], k, j);
    }
  }

  lemma {:induction false} BumpPositive(t: seq<Entry>, k: string)
    requires forall i :: 0 <= i < |t| ==> t[i].count > 0
    ensures forall i :: 0 <= i < |Bump(t, k)| ==> Bump(t, k)[i].count > 0
  {
    if |t| > 0 && t[0].key != k {
      BumpPositive(t[1..], k);
    }
  }

  /** The keys of the tally are the distinct counted labels in order of
      first occurrence; every count is positive and equals the number of
      occurrences of its key. */
  lemma {:induction false} TallyOfProperties(ks: seq<string>)
    ensures Keys(TallyOf(ks)) == Distinct(ks)
    ensures forall k :: Lookup(TallyOf(ks), k) == Occurrences(ks, k)
    ensures forall i :: 0 <= i < |TallyOf(ks)| ==> TallyOf(ks)[i].count > 0
  {
    if |ks| > 0 {
      var init := ks[..|ks| - 1];
      var last := ks[|ks| - 1];
      TallyOfProperties(init);
      BumpKeys(TallyOf(init), last);
      BumpPositive(TallyOf(init), last);
      forall k ensures Lookup(TallyOf(ks), k) == Occurrences(ks, k) {
        BumpLookup(TallyOf(init), last, k);
      }
    }
  }

  /** Entry `i` holds the largest count and no earlier entry reaches it:
      the entry a left-to-right scan with a strict `>` ends on. */
  predicate FirstMaxAt(t: seq<Entry>, i: int)
  {
    0 <= i < |t|
    && (forall j :: 0 <= j < |t| ==> t[j].count <= t[i].count)
    && (forall j :: 0 <= j < i ==> t[j].count < t[i].count)
  }

  lemma FirstMaxUnique(t: seq<Entry>, i: int, j: int)
    requires FirstMaxAt(t, i) && FirstMaxAt(t, j)
    ensures i == j
  {
    var ci, cj := t[i].count, t[j].count;
    assert ci <= cj && cj <= ci;
  }

  /** The loop of the quiz's local fallback:
      `if (count > maxCount) { maxCount = count; dominantStyle = style; }`
      over the entries, starting from `''` and `0`. */
  method FindDominant(t: seq<Entry>) returns (dominant: string, maxCount: nat)
    ensures (forall j :: 0 <= j < |t| ==> t[j].count == 0) ==> dominant == "" && maxCount == 0
    ensures (exists j :: 0 <= j < |t| && t[j].count > 0) ==>
              exists i :: FirstMaxAt(t, i) && dominant == t[i].key && maxCount == t[i].count
    ensures (forall j :: 0 <= j < |t| ==> t[j].count > 0) ==> dominant == DominantOf(t)
  {
    dominant, maxCount := "", 0;
    ghost var w := -1;
    var i := 0;
    while i < |t|
      invariant 0 <= i <= |t|
      invariant w == -1 ==> dominant == "" && maxCount == 0 && forall j :: 0 <= j < i ==> t[j].count == 0
      invariant w != -1 ==> FirstMaxAt(t[..i], w) && dominant == t[w].key && maxCount == t[w].count > 0
    {
      if t[i].count > maxCount {
        maxCount := t[i].count;
        dominant := t[i].key;
        w := i;
      }
      i := i + 1;
    }
    assert t[..i] == t;
    if w != -1 {
      FirstMaxIsSortHead(t, w);
    }
  }

  predicate NonIncreasing(t: seq<Entry>)
  {
    forall i, j :: 0 <= i < j < |t| ==> t[i].count >= t[j].count
  }

  /** Insert `e` into a list sorted by decreasing count, after every entry
      whose count is larger and before the rest. */
  function Insert(e: Entry, s: seq<Entry>): seq<Entry>
  {
    if |s| == 0 || s[0].count <= e.count then [e] + s else [s[0]] + Insert(e, s[1..])
  }

  /** `Object.entries(counts).sort((a, b) => b[1] - a[1])`: a stable sort by
      decreasing count (the JavaScript array sort is stable). */
  function SortByCountDesc(t: seq<Entry>): seq<Entry>
  {
    if |t| == 0 then [] else Insert(t[0], SortByCountDesc(t[1..]))
  }

  lemma {:induction false} InsertBound(e: Entry, s: seq<Entry>, c: nat)
    requires e.count <= c
    requires forall i :: 0 <= i < |s| ==> s[i].count <= c
    ensures forall i :: 0 <= i < |Insert(e, s)| ==> Insert(e, s)[i].count <= c
  {
    if |s| > 0 && s[0].count > e.count {
      InsertBound(e, s[1..], c);
    }
  }

  lemma {:induction false} InsertMultiset(e: Entry, s: seq<Entry>)
    ensures multiset(Insert(e, s)) == multiset(s) + multiset{e}
    ensures |Insert(e, s)| == |s| + 1
  {
    if |s| > 0 && s[0].count > e.count {
      InsertMultiset(e, s[1..]);
      assert s == [s[0]] + s[1..];
    }
  }

  lemma {:induction false} InsertProperties(e: Entry, s: seq<Entry>)
    requires NonIncreasing(s)
    ensures NonIncreasing(Insert(e, s))
    ensures multiset(Insert(e, s)) == multiset(s) + multiset{e}
    ensures |Insert(e, s)| == |s| + 1
  {
    InsertMultiset(e, s);
    if |s| > 0 && s[0].count > e.count {
      var r := Insert(e, s[1..]);
      assert NonIncreasing(s[1..]);
      InsertProperties(e, s[1..]);
      InsertBound(e, s[1..], s[0].count);
      var x := Insert(e, s);
      assert x == [s[0]] + r;
      forall i, j | 0 <= i < j < |x| ensures x[i].count >= x[j].count {
        if i > 0 {
          assert x[i] == r[i - 1] && x[j] == r[j - 1];
        } else {
          assert x[j] == r[j - 1];
        }
      }
    } else {
      assert Insert(e, s) == [e] + s;
    }
  }

  /** The sort is a permutation and its result is ordered by decreasing count. */
  lemma {:induction false} SortProperties(t: seq<Entry>)
    ensures NonIncreasing(SortByCountDesc(t))
    ensures multiset(SortByCountDesc(t)) == multiset(t)
    ensures |SortByCountDesc(t)| == |t|
  {
    if |t| > 0 {
      SortProperties(t[1..]);
      InsertProperties(t[0], SortByCountDesc(t[1..]));
      assert t == [t[0]] + t[1..];
    }
  }

  /** Every two entries of `s` with equal counts come from `t` in the same
      order: the defining property of a stable sort. */
  ghost predicate StableFrom(s: seq<Entry>, t: seq<Entry>)
  {
    forall p, q :: 0 <= p < q < |s| && s[p].count == s[q].count ==>
      exists a, b :: 0 <= a < b < |t| && t[a] == s[p] && t[b] == s[q]
  }

  lemma {:induction false} InsertMembers(e: Entry, s: seq<Entry>)
    ensures forall x :: x in Insert(e, s) ==> x == e || x in s
  {
    InsertMultiset(e, s);
    forall x | x in Insert(e, s) ensures x == e || x in s {
      assert x in multiset(Insert(e, s));
    }
  }

  /** Inserting the first entry of a list in front of every entry with no
      larger count keeps a stable order stable. */
  lemma {:induction false} InsertStable(e: Entry, s: seq<Entry>, u: seq<Entry>)
    requires StableFrom(s, u)
    requires forall i :: 0 <= i < |s| ==> s[i] in u
    ensures StableFrom(Insert(e, s), [e] + u)
    decreases |s|
  {
    if |s| == 0 || s[0].count <= e.count {
      assert Insert(e, s) == [e] + s;
      StableCons(e, s, u);
    } else {
      StableTail(s, u);
      InsertStable(e, s[1..], u);
      InsertMembers(e, s[1..]);
      assert Insert(e, s) == [s[0]] + Insert(e, s[1..]);
      StableSkip(e, s, u, Insert(e, s[1..]));
    }
  }

  /** Dropping the head keeps a stable order stable. */
  lemma StableTail(s: seq<Entry>, u: seq<Entry>)
    requires |s| > 0 && StableFrom(s, u)
    ensures StableFrom(s[1..], u)
  {
    var s' := s[1..];
    forall p, q | 0 <= p < q < |s'| && s'[p].count == s'[q].count
      ensures exists a, b :: 0 <= a < b < |u| && u[a] == s'[p] && u[b] == s'[q]
    {
      assert s'[p] == s[p + 1] && s'[q] == s[q + 1];
    }
  }

  /** `e` put in front of `s`, both taken from `[e] + u` in that order. */
  lemma StableCons(e: Entry, s: seq<Entry>, u: seq<Entry>)
    requires StableFrom(s, u)
    requires forall i :: 0 <= i < |s| ==> s[i] in u
    ensures StableFrom([e] + s, [e] + u)
  {
    var eu := [e] + u;
    var r := [e] + s;
    forall p, q | 0 <= p < q < |r| && r[p].count == r[q].count
      ensures exists a, b :: 0 <= a < b < |eu| && eu[a] == r[p] && eu[b] == r[q]
    {
      assert r[q] == s[q - 1];
      if p == 0 {
        var b :| 0 <= b < |u| && u[b] == s[q - 1];
        assert eu[0] == r[p] && eu[b + 1] == r[q];
      } else {
        assert r[p] == s[p - 1];
        var a, b :| 0 <= a < b < |u| && u[a] == s[p - 1] && u[b] == s[q - 1];
        assert eu[a + 1] == r[p] && eu[b + 1] == r[q];
      }
    }
  }

  /** The head of `s` outranks `e` and stays in front of the insertion into
      the rest. */
  lemma StableSkip(e: Entry, s: seq<Entry>, u: seq<Entry>, rest: seq<Entry>)
    requires |s| > 0 && s[0].count > e.count && StableFrom(s, u)
    requires StableFrom(rest, [e] + u)
    requires forall x :: x in rest ==> x == e || x in s[1..]
    ensures StableFrom([s[0]] + rest, [e] + u)
  {
    var eu := [e] + u;
    var r := [s[0]] + rest;
    forall p, q | 0 <= p < q < |r| && r[p].count == r[q].count
      ensures exists a, b :: 0 <= a < b < |eu| && eu[a] == r[p] && eu[b] == r[q]
    {
      assert r[q] == rest[q - 1];
      if p == 0 {
        assert r[q] != e && r[q] in rest;
        var j :| 0 <= j < |s[1..]| && s[1..][j] == r[q];
        StableSkipHead(e, s, u, j + 1);
      } else {
        assert r[p] == rest[p - 1];
      }
    }
  }

  /** An entry tied with the head of `s` and taken from its tail comes
      after the head in `[e] + u`. */
  lemma StableSkipHead(e: Entry, s: seq<Entry>, u: seq<Entry>, j: int)
    requires 0 < j < |s| && s[0].count == s[j].count && StableFrom(s, u)
    ensures exists a, b :: 0 <= a < b < |[e] + u| && ([e] + u)[a] == s[0] && ([e] + u)[b] == s[j]
  {
    var a, b :| 0 <= a < b < |u| && u[a] == s[0] && u[b] == s[j];
    assert ([e] + u)[a + 1] == s[0] && ([e] + u)[b + 1] == s[j];
  }

  /** The sort is stable: entries with equal counts keep their relative
      order, as the JavaScript array sort guarantees. */
  lemma {:induction false} SortStable(t: seq<Entry>)
    ensures StableFrom(SortByCountDesc(t), t)
  {
    if |t| > 0 {
      var rest := t[1..];
      SortStable(rest);
      SortProperties(rest);
      forall i | 0 <= i < |SortByCountDesc(rest)| ensures SortByCountDesc(rest)[i] in rest {
        assert SortByCountDesc(rest)[i] in multiset(SortByCountDesc(rest));
      }
      InsertStable(t[0], SortByCountDesc(rest), rest);
      assert [t[0]] + rest == t;
    }
  }

  /** For a tally, whose entries are distinct: of two entries with equal
      counts, the one counted first comes first in the sorted list. */
  lemma SortKeepsTieOrder(t: seq<Entry>, i: int, j: int)
    requires NoDuplicates(t) && 0 <= i < j < |t| && t[i].count == t[j].count
    ensures exists p, q :: 0 <= p < q < |SortByCountDesc(t)|
              && SortByCountDesc(t)[p] == t[i] && SortByCountDesc(t)[q] == t[j]
  {
    var s := SortByCountDesc(t);
    SortProperties(t);
    assert t[i] in multiset(s) && t[j] in multiset(s);
    var p :| 0 <= p < |s| && s[p] == t[i];
    var q :| 0 <= q < |s| && s[q] == t[j];
    SortStable(t);
    StableOrder(s, t, i, j, p, q);
  }

  /** In a stable reordering of a duplicate-free `t`, two tied entries keep
      their relative order. */
  lemma StableOrder(s: seq<Entry>, t: seq<Entry>, i: int, j: int, p: int, q: int)
    requires NoDuplicates(t) && StableFrom(s, t)
    requires 0 <= i < j < |t| && t[i].count == t[j].count
    requires 0 <= p < |s| && 0 <= q < |s| && s[p] == t[i] && s[q] == t[j]
    ensures p < q
  {
    assert t[i] != t[j];
  }

  /** The head of the sorted tally is the entry a strict left-to-right
      maximum scan finds: ties go to the label counted first. */
  lemma {:induction false} SortHeadIsFirstMax(t: seq<Entry>)
    requires |t| > 0
    ensures exists i :: FirstMaxAt(t, i) && SortByCountDesc(t)[0] == t[i]
  {
    if |t| == 1 {
      assert FirstMaxAt(t, 0);
    } else {
      var rest := t[1..];
      SortHeadIsFirstMax(rest);
      var i' :| FirstMaxAt(rest, i') && SortByCountDesc(rest)[0] == rest[i'];
      SortProperties(rest);
      var i := FirstMaxStep(t, i');
    }
  }

  /** One step of the induction: the first maximum of `t` is either its
      head or the first maximum of its tail, as `Insert` decides. */
  lemma FirstMaxStep(t: seq<Entry>, i': int) returns (i: int)
    requires |t| > 1 && FirstMaxAt(t[1..], i')
    requires |SortByCountDesc(t[1..])| == |t| - 1 && SortByCountDesc(t[1..])[0] == t[1..][i']
    ensures FirstMaxAt(t, i) && SortByCountDesc(t)[0] == t[i]
  {
    var rest := t[1..];
    var s := SortByCountDesc(rest);
    assert forall j :: 1 <= j < |t| ==> t[j] == rest[j - 1];
    if s[0].count > t[0].count {
      i := i' + 1;
    } else {
      i := 0;
    }
  }

  /** The key a tally's stable sort by decreasing count puts first, or ""
      for an empty tally. */
  function DominantOf(t: seq<Entry>): string
  {
    if |t| == 0 then "" else SortByCountDesc(t)[0].key
  }

  /** The first entry with the largest count is the one the stable sort
      puts in front. */
  lemma FirstMaxIsSortHead(t: seq<Entry>, i: int)
    requires FirstMaxAt(t, i)
    ensures SortByCountDesc(t)[0] == t[i]
  {
    SortHeadIsFirstMax(t);
    var j :| FirstMaxAt(t, j) && SortByCountDesc(t)[0] == t[j];
    FirstMaxUnique(t, i, j);
  }

  lemma {:induction false} LookupAt(t: seq<Entry>, j: int)
    requires NoDuplicates(Keys(t)) && 0 <= j < |t|
    ensures Lookup(t, t[j].key) == t[j].count
  {
    if j > 0 {
      assert Keys(t)[0] != Keys(t)[j];
      assert Keys(t[1..]) == Keys(t)[1..];
      LookupAt(t[1..], j - 1);
    }
  }

  lemma {:induction false} LookupAbsent(t: seq<Entry>, k: string)
    requires forall j :: 0 <= j < |t| ==> t[j].key != k
    ensures Lookup(t, k) == 0
  {
    if |t| > 0 {
      LookupAbsent(t[1..], k);
    }
  }

  /** The label a tally's stable sort puts first occurs at least as often
      as any other label, and among the labels that occur that often it is
      the one seen first. */
  lemma MostFrequent(ks: seq<string>)
    requires |ks| > 0
    ensures var d := DominantOf(TallyOf(ks));
            d in ks
            && (forall s :: Occurrences(ks, s) <= Occurrences(ks, d))
            && exists i :: 0 <= i < |Distinct(ks)| && Distinct(ks)[i] == d
                 && forall j :: 0 <= j < i ==> Occurrences(ks, Distinct(ks)[j]) < Occurrences(ks, d)
  {
    var t := TallyOf(ks);
    TallyOfProperties(ks);
    DistinctProperties(ks);
    assert ks[0] in Distinct(ks);
    assert |t| > 0;
    SortHeadIsFirstMax(t);
    var i :| FirstMaxAt(t, i) && SortByCountDesc(t)[0] == t[i];
    var d := t[i].key;
    assert d == Distinct(ks)[i];
    LookupAt(t, i);
    forall s ensures Occurrences(ks, s) <= Occurrences(ks, d) {
      if j :| 0 <= j < |t| && t[j].key == s {
        LookupAt(t, j);
      } else {
        LookupAbsent(t, s);
      }
    }
    forall j | 0 <= j < i ensures Occurrences(ks, Distinct(ks)[j]) < Occurrences(ks, d) {
      LookupAt(t, j);
    }
  }

  /** Entries with distinct keys are distinct entries. */
  lemma DistinctKeysDistinctEntries(t: seq<Entry>)
    requires NoDuplicates(Keys(t))
    ensures NoDuplicates(t)
  {
    forall i, j | 0 <= i < j < |t| ensures t[i] != t[j] {
      assert Keys(t)[i] != Keys(t)[j];
    }
  }

  /** The sorted tally holds the same entries, its keys still distinct and
      each count still the count recorded for its key. */
  lemma SortedEntries(t: seq<Entry>)
    requires NoDuplicates(Keys(t))
    ensures NoDuplicates(Keys(SortByCountDesc(t)))
    ensures forall i :: 0 <= i < |t| ==> t[i] in SortByCountDesc(t)
    ensures forall i :: 0 <= i < |SortByCountDesc(t)| ==>
              SortByCountDesc(t)[i] in t
              && SortByCountDesc(t)[i].count == Lookup(t, SortByCountDesc(t)[i].key)
  {
    var s := SortByCountDesc(t);
    SortProperties(t);
    DistinctKeysDistinctEntries(t);
    PermutationNoDuplicates(s, t);
    forall i | 0 <= i < |t| ensures t[i] in s {
      assert t[i] in multiset(t);
    }
    forall i | 0 <= i < |s| ensures s[i] in t && s[i].count == Lookup(t, s[i].key) {
      assert s[i] in multiset(s);
      var a :| 0 <= a < |t| && t[a] == s[i];
      LookupAt(t, a);
    }
    forall i, j | 0 <= i < j < |s| ensures s[i].key != s[j].key {
      var a :| 0 <= a < |t| && t[a] == s[i];
      var b :| 0 <= b < |t| && t[b] == s[j];
      if a != b {
        assert Keys(t)[a] != Keys(t)[b];
      }
    }
  }
}
