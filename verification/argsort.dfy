/** `np.argsort(x)[::-1]`: the index permutation that lists `x` from its
    greatest to its smallest entry. The ascending sort is a stable insertion
    sort, so equal entries keep their index order and, after the reversal,
    come out latest index first. */
module Argsort {

  /** `ind` lists `0 .. n-1`, each exactly once. */
  ghost predicate IsPermutation(ind: seq<nat>, n: nat)
  {
    multiset(ind) == multiset(Range(n))
  }

  function Range(n: nat): (r: seq<nat>)
    ensures |r| == n
    ensures forall i :: 0 <= i < n ==> r[i] == i
  {
    seq(n, i requires 0 <= i < n => i)
  }

  predicate InBounds(ind: seq<nat>, n: nat)
  {
    forall k :: 0 <= k < |ind| ==> ind[k] < n
  }

  /** `key` read through `ind` is non-decreasing. */
  predicate AscendingBy(ind: seq<nat>, key: seq<real>)
    requires InBounds(ind, |key|)
  {
    forall j, k :: 0 <= j < k < |ind| ==> key[ind[j]] <= key[ind[k]]
  }

  /** `key` read through `ind` is non-increasing. */
  predicate DescendingBy(ind: seq<nat>, key: seq<real>)
    requires InBounds(ind, |key|)
  {
    forall j, k :: 0 <= j < k < |ind| ==> key[ind[j]] >= key[ind[k]]
  }

  /** `x[ind]`: the entries of `x` in the order `ind` names them. */
  function Gather<T>(x: seq<T>, ind: seq<nat>): (r: seq<T>)
    requires InBounds(ind, |x|)
    ensures |r| == |ind|
    ensures forall k :: 0 <= k < |ind| ==> r[k] == x[ind[k]]
  {
    seq(|ind|, k requires 0 <= k < |ind| => x[ind[k]])
  }

  function Reverse<T>(s: seq<T>): (r: seq<T>)
    ensures |r| == |s|
    ensures forall k :: 0 <= k < |s| ==> r[k] == s[|s| - 1 - k]
  {
    seq(|s|, k requires 0 <= k < |s| => s[|s| - 1 - k])
  }

  /** Where `Insert` puts index `i`: after every entry whose key is not
      greater than `key[i]`, before the first one whose key is. */
  function Position(s: seq<nat>, i: nat, key: seq<real>): (p: nat)
    requires i < |key| && InBounds(s, |key|)
    ensures p <= |s|
    ensures forall j :: 0 <= j < p ==> key[s[j]] <= key[i]
    ensures p < |s| ==> key[i] < key[s[p]]
    decreases |s|
  {
    if |s| == 0 || key[i] < key[s[0]] then 0
    else 1 + Position(s[1..], i, key)
  }

  /** One step of the stable insertion sort. */
  function Insert(s: seq<nat>, i: nat, key: seq<real>): (r: seq<nat>)
    requires i < |key| && InBounds(s, |key|)
    ensures |r| == |s| + 1
    ensures InBounds(r, |key|)
  {
    var p := Position(s, i, key);
    s[..p] + [i] + s[p..]
  }

  /** Inserting adds exactly `i` to the indices and `key[i]` to the keys
      read through them. */
  lemma InsertMultiset(s: seq<nat>, i: nat, key: seq<real>)
    requires i < |key| && InBounds(s, |key|)
    ensures multiset(Insert(s, i, key)) == multiset(s) + multiset{i}
    ensures multiset(Gather(key, Insert(s, i, key))) == multiset(Gather(key, s)) + multiset{key[i]}
  {
    var p := Position(s, i, key);
    InsertSplits(s, i, key, p);
    InsertedKeys(key, s[..p], i, s[p..]);
  }

  lemma InsertSplits(s: seq<nat>, i: nat, key: seq<real>, p: nat)
    requires i < |key| && InBounds(s, |key|)
    requires p == Position(s, i, key)
    ensures s == s[..p] + s[p..]
    ensures Insert(s, i, key) == s[..p] + [i] + s[p..]
    ensures multiset(Insert(s, i, key)) == multiset(s) + multiset{i}
  {
    assert s == s[..p] + s[p..];
    SplitMultiset(s[..p], [i], s[p..]);
  }

  /** The keys read through `front + [i] + back` are those read through
      `front + back` and `key[i]`. */
  lemma InsertedKeys(key: seq<real>, front: seq<nat>, i: nat, back: seq<nat>)
    requires i < |key| && InBounds(front, |key|) && InBounds(back, |key|)
    ensures InBounds(front + [i] + back, |key|) && InBounds(front + back, |key|)
    ensures multiset(Gather(key, front + [i] + back)) == multiset(Gather(key, front + back)) + multiset{key[i]}
  {
    GatherAppend(key, front, [i]);
    GatherAppend(key, front + [i], back);
    GatherAppend(key, front, back);
    SplitMultiset(Gather(key, front), [key[i]], Gather(key, back));
  }

  /** Moving a middle piece to the end keeps the multiset. */
  lemma SplitMultiset<T>(a: seq<T>, m: seq<T>, b: seq<T>)
    ensures multiset(a + m + b) == multiset(a + b) + multiset(m)
  {
    assert a + m + b == (a + m) + b;
  }

  /** Gathering through two index lists one after the other. */
  lemma GatherAppend<T>(x: seq<T>, u: seq<nat>, v: seq<nat>)
    requires InBounds(u, |x|) && InBounds(v, |x|)
    ensures InBounds(u + v, |x|)
    ensures Gather(x, u + v) == Gather(x, u) + Gather(x, v)
  {
    assert forall k :: 0 <= k < |u + v| ==> (u + v)[k] == if k < |u| then u[k] else v[k - |u|];
  }

  /** Inserting keeps indices that were ascending by key ascending. */
  lemma InsertAscending(s: seq<nat>, i: nat, key: seq<real>, r: seq<nat>)
    requires i < |key| && InBounds(s, |key|)
    requires AscendingBy(s, key)
    requires r == Insert(s, i, key)
    ensures AscendingBy(r, key)
  {
    forall j, k | 0 <= j < k < |r|
      ensures key[r[j]] <= key[r[k]]
    {
      InsertPair(s, i, key, j, k);
    }
  }

  lemma InsertPair(s: seq<nat>, i: nat, key: seq<real>, j: nat, k: nat)
    requires i < |key| && InBounds(s, |key|)
    requires AscendingBy(s, key)
    requires j < k < |s| + 1
    ensures key[Insert(s, i, key)[j]] <= key[Insert(s, i, key)[k]]
  {
    var p := Position(s, i, key);
    var r := Insert(s, i, key);
    if k < p {
      assert r[j] == s[j] && r[k] == s[k];
    } else if j > p {
      assert r[j] == s[j - 1] && r[k] == s[k - 1];
    } else if j == p {
      assert r[j] == i && r[k] == s[k - 1];
      assert key[i] < key[s[p]];
    } else if k == p {
      assert r[j] == s[j] && r[k] == i;
    } else {
      assert r[j] == s[j] && r[k] == s[k - 1];
    }
  }

  /** Insertion sort of the indices `0 .. n-1` by `key`. */
  function SortPrefix(key: seq<real>, n: nat): (ind: seq<nat>)
    requires n <= |key|
    ensures InBounds(ind, |key|)
    ensures |ind| == n
  {
    if n == 0 then [] else Insert(SortPrefix(key, n - 1), n - 1, key)
  }

  /** The sort lists each of `0 .. n-1` exactly once. */
  lemma {:induction false} SortPrefixPermutes(key: seq<real>, n: nat)
    requires n <= |key|
    ensures multiset(SortPrefix(key, n)) == multiset(Range(n))
  {
    if n > 0 {
      var prev := SortPrefix(key, n - 1);
      SortPrefixPermutes(key, n - 1);
      InsertMultiset(prev, n - 1, key);
      assert SortPrefix(key, n) == Insert(prev, n - 1, key);
      RangeSnoc(n);
    }
  }

  /** Read through the sort, `key` yields its first `n` entries again. */
  lemma {:induction false} SortPrefixKeys(key: seq<real>, n: nat)
    requires n <= |key|
    ensures multiset(Gather(key, SortPrefix(key, n))) == multiset(key[..n])
  {
    if n > 0 {
      var prev := SortPrefix(key, n - 1);
      SortPrefixKeys(key, n - 1);
      InsertMultiset(prev, n - 1, key);
      assert SortPrefix(key, n) == Insert(prev, n - 1, key);
      PrefixSnoc(key, n);
    }
  }

  lemma PrefixSnoc(key: seq<real>, n: nat)
    requires 0 < n <= |key|
    ensures multiset(key[..n]) == multiset(key[..n - 1]) + multiset{key[n - 1]}
  {
    assert key[..n] == key[..n - 1] + [key[n - 1]];
  }

  lemma RangeSnoc(n: nat)
    requires n > 0
    ensures Range(n) == Range(n - 1) + [n - 1]
  {
  }

  /** The sorted indices are ascending by key. */
  lemma {:induction false} SortPrefixAscending(key: seq<real>, n: nat)
    requires n <= |key|
    ensures AscendingBy(SortPrefix(key, n), key)
  {
    if n > 0 {
      SortPrefixAscending(key, n - 1);
      InsertAscending(SortPrefix(key, n - 1), n - 1, key, SortPrefix(key, n));
    }
  }

  /** `np.argsort(key)[::-1]`. */
  function ArgsortDescending(key: seq<real>): (ind: seq<nat>)
    ensures InBounds(ind, |key|)
    ensures IsPermutation(ind, |key|)
    ensures DescendingBy(ind, key)
    ensures multiset(Gather(key, ind)) == multiset(key)
  {
    var up := SortPrefix(key, |key|);
    SortPrefixPermutes(key, |key|);
    SortPrefixKeys(key, |key|);
    SortPrefixAscending(key, |key|);
    ReversedDescending(up, key);
    ReverseMultiset(up);
    ReversedGather(key, up);
    ReverseMultiset(Gather(key, up));
    assert key[..|key|] == key;
    Reverse(up)
  }

  /** Reversing indices ascending by key makes them descending by key. */
  lemma ReversedDescending(up: seq<nat>, key: seq<real>)
    requires InBounds(up, |key|) && AscendingBy(up, key)
    ensures InBounds(Reverse(up), |key|)
    ensures DescendingBy(Reverse(up), key)
  {
    var down := Reverse(up);
    forall j, k | 0 <= j < k < |down|
      ensures key[down[j]] >= key[down[k]]
    {
      assert down[j] == up[|up| - 1 - j] && down[k] == up[|up| - 1 - k];
    }
  }

  /** Gathering through reversed indices is the reversed gather. */
  lemma ReversedGather<T>(x: seq<T>, ind: seq<nat>)
    requires InBounds(ind, |x|)
    ensures InBounds(Reverse(ind), |x|)
    ensures Gather(x, Reverse(ind)) == Reverse(Gather(x, ind))
  {
  }

  lemma {:induction false} ReverseMultiset<T>(s: seq<T>)
    ensures multiset(Reverse(s)) == multiset(s)
    decreases |s|
  {
    if |s| > 0 {
      var n := |s| - 1;
      ReverseMultiset(s[1..]);
      assert Reverse(s) == Reverse(s[1..]) + [s[0]];
      assert s == [s[0]] + s[1..];
    }
  }

  /** A permutation of `0 .. n-1` names every index once: its entries are in
      range and pairwise distinct. */
  lemma PermutationDistinct(ind: seq<nat>, n: nat)
    requires IsPermutation(ind, n)
    ensures |ind| == n
    ensures InBounds(ind, n)
    ensures forall j, k :: 0 <= j < k < |ind| ==> ind[j] != ind[k]
  {
    assert |multiset(ind)| == |multiset(Range(n))|;
    forall k | 0 <= k < |ind|
      ensures ind[k] < n
    {
      assert ind[k] in multiset(ind);
      assert ind[k] in Range(n);
    }
    forall j, k | 0 <= j < k < |ind|
      ensures ind[j] != ind[k]
    {
      if ind[j] == ind[k] {
        var x := ind[j];
        assert x in multiset(ind);
        assert x in Range(n);
        RangeCountOne(n, x);
        MultisetCountAtLeastTwo(ind, j, k);
        assert false;
      }
    }
  }

  lemma {:induction false} RangeCountOne(n: nat, x: nat)
    requires x < n
    ensures multiset(Range(n))[x] == 1
  {
    if n - 1 == x {
      assert Range(n) == Range(n - 1) + [n - 1];
      RangeMissing(n - 1, x);
    } else {
      assert Range(n) == Range(n - 1) + [n - 1];
      RangeCountOne(n - 1, x);
    }
  }

  lemma {:induction false} RangeMissing(n: nat, x: nat)
    requires n <= x
    ensures multiset(Range(n))[x] == 0
  {
    if n > 0 {
      assert Range(n) == Range(n - 1) + [n - 1];
      RangeMissing(n - 1, x);
    }
  }

  lemma MultisetCountAtLeastTwo<T>(s: seq<T>, j: nat, k: nat)
    requires j < k < |s| && s[j] == s[k]
    ensures multiset(s)[s[j]] >= 2
  {
    assert s == s[..j] + [s[j]] + s[j + 1..k] + [s[k]] + s[k + 1..];
  }
}
