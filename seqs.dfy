/** Table operations that the dashboard takes from its data-frame library,
    stated over sequences of rows: boolean-mask selection, filtering by a row
    predicate, `sort_values(..., ascending=False)`, `nlargest`/`nsmallest` and
    column sums. */
module Seqs {

  /** `a` is an order-preserving subsequence of `b`. */
  ghost predicate IsSubsequence<T>(a: seq<T>, b: seq<T>)
    decreases |b|
  {
    if a == [] then true
    else if b == [] then false
    else (a[|a| - 1] == b[|b| - 1] && IsSubsequence(a[..|a| - 1], b[..|b| - 1]))
         || IsSubsequence(a, b[..|b| - 1])
  }

  /** `t[keep]`: the rows whose mask entry is true, in table order. */
  function Mask<T>(t: seq<T>, keep: seq<bool>): (r: seq<T>)
    requires |keep| == |t|
    ensures |r| <= |t|
    decreases |t|
  {
    if t == [] then []
    else Mask(t[..|t| - 1], keep[..|t| - 1]) + (if keep[|t| - 1] then [t[|t| - 1]] else [])
  }

  /** `t[t.apply(f)]`: the rows satisfying `f`, in table order. */
  function Filter<T>(t: seq<T>, f: T -> bool): (r: seq<T>)
    ensures |r| <= |t|
    decreases |t|
  {
    if t == [] then []
    else Filter(t[..|t| - 1], f) + (if f(t[|t| - 1]) then [t[|t| - 1]] else [])
  }

  /** `t.apply(f)`: `f` of every row, in table order. With a row test for
      `f` this is the mask that tests every row. */
  function Map<A, B>(t: seq<A>, f: A -> B): (r: seq<B>)
    ensures |r| == |t|
    ensures forall i :: 0 <= i < |t| ==> r[i] == f(t[i])
  {
    seq(|t|, i requires 0 <= i < |t| => f(t[i]))
  }

  /** The applied table holds exactly the images of the table's rows. */
  lemma MapMembers<A, B>(t: seq<A>, f: A -> B)
    ensures forall y :: y in Map(t, f) <==> exists x :: x in t && f(x) == y
  {
    forall y | y in Map(t, f) ensures exists x :: x in t && f(x) == y {
      var i :| 0 <= i < |t| && Map(t, f)[i] == y;
      assert t[i] in t;
    }
    forall x | x in t ensures f(x) in Map(t, f) {
      var i :| 0 <= i < |t| && t[i] == x;
      assert Map(t, f)[i] == f(x);
    }
  }

  lemma MapAppend<A, B>(a: seq<A>, b: seq<A>, f: A -> B)
    ensures Map(a + b, f) == Map(a, f) + Map(b, f)
  {
  }

  /** Applying `f` to the selected rows selects from the applied table. */
  lemma {:induction false} MapMask<A, B>(t: seq<A>, keep: seq<bool>, f: A -> B)
    requires |keep| == |t|
    ensures Map(Mask(t, keep), f) == Mask(Map(t, f), keep)
    decreases |t|
  {
    if t != [] {
      var n := |t|;
      MapMask(t[..n - 1], keep[..n - 1], f);
      assert Map(t, f)[..n - 1] == Map(t[..n - 1], f);
      MapAppend(Mask(t[..n - 1], keep[..n - 1]), if keep[n - 1] then [t[n - 1]] else [], f);
    }
  }

  /** Mask entries conjoined with a row predicate. */
  function AndMask<T>(t: seq<T>, keep: seq<bool>, f: T -> bool): (m: seq<bool>)
    requires |keep| == |t|
    ensures |m| == |t|
    ensures forall i :: 0 <= i < |t| ==> m[i] == (keep[i] && f(t[i]))
  {
    seq(|t|, i requires 0 <= i < |t| => keep[i] && f(t[i]))
  }

  /** Selecting with a mask keeps the order of the table. */
  lemma {:induction false} MaskSubsequence<T>(t: seq<T>, keep: seq<bool>)
    requires |keep| == |t|
    ensures IsSubsequence(Mask(t, keep), t)
    decreases |t|
  {
    if t != [] {
      var n := |t|;
      MaskSubsequence(t[..n - 1], keep[..n - 1]);
      var r := Mask(t, keep);
      if keep[n - 1] {
        assert r[..|r| - 1] == Mask(t[..n - 1], keep[..n - 1]);
      } else {
        assert r == Mask(t[..n - 1], keep[..n - 1]);
        SubsequenceOfPrefix(r, t);
      }
    }
  }

  lemma SubsequenceOfPrefix<T>(a: seq<T>, b: seq<T>)
    requires b != [] && IsSubsequence(a, b[..|b| - 1])
    ensures IsSubsequence(a, b)
  {
  }

  /** Each selected row is a row of the table. */
  lemma {:induction false} MaskMembers<T>(t: seq<T>, keep: seq<bool>)
    requires |keep| == |t|
    ensures forall x :: x in Mask(t, keep) ==> x in t
    decreases |t|
  {
    if t != [] {
      MaskMembers(t[..|t| - 1], keep[..|t| - 1]);
    }
  }

  /** Membership in a filtered table: exactly the rows of the table that pass. */
  lemma {:induction false} FilterMembers<T>(t: seq<T>, f: T -> bool)
    ensures forall x :: x in Filter(t, f) <==> x in t && f(x)
    decreases |t|
  {
    if t != [] {
      FilterMembers(t[..|t| - 1], f);
      assert t == t[..|t| - 1] + [t[|t| - 1]];
    }
  }

  /** Filtering keeps the order of the table. */
  lemma {:induction false} FilterSubsequence<T>(t: seq<T>, f: T -> bool)
    ensures IsSubsequence(Filter(t, f), t)
    decreases |t|
  {
    if t != [] {
      var n := |t|;
      FilterSubsequence(t[..n - 1], f);
      var r := Filter(t, f);
      if f(t[n - 1]) {
        assert r[..|r| - 1] == Filter(t[..n - 1], f);
      } else {
        assert r == Filter(t[..n - 1], f);
        SubsequenceOfPrefix(r, t);
      }
    }
  }

  /** Filtering by a predicate is masking with that predicate's mask. */
  lemma {:induction false} FilterIsMask<T>(t: seq<T>, f: T -> bool)
    ensures Filter(t, f) == Mask(t, Map(t, f))
    decreases |t|
  {
    if t != [] {
      var n := |t|;
      FilterIsMask(t[..n - 1], f);
      assert Map(t, f)[..n - 1] == Map(t[..n - 1], f);
    }
  }

  /** Filtering a masked table is masking with the conjoined mask. */
  lemma {:induction false} FilterOfMask<T>(t: seq<T>, keep: seq<bool>, f: T -> bool)
    requires |keep| == |t|
    ensures Filter(Mask(t, keep), f) == Mask(t, AndMask(t, keep, f))
    decreases |t|
  {
    if t != [] {
      var n := |t|;
      var t', k' := t[..n - 1], keep[..n - 1];
      FilterOfMask(t', k', f);
      assert AndMask(t, keep, f)[..n - 1] == AndMask(t', k', f);
      FilterAppend(Mask(t', k'), if keep[n - 1] then [t[n - 1]] else [], f);
    }
  }

  lemma {:induction false} FilterAppend<T>(a: seq<T>, b: seq<T>, f: T -> bool)
    requires |b| <= 1
    ensures Filter(a + b, f) == Filter(a, f) + Filter(b, f)
  {
    if |b| == 1 {
      assert (a + b)[..|a + b| - 1] == a;
      assert Filter(b, f) == (if f(b[0]) then [b[0]] else []) by {
        assert b[..0] == [];
      }
    } else {
      assert a + b == a;
    }
  }

  /** Two successive filters are one filter by the conjunction. */
  lemma {:induction false} FilterFilter<T>(t: seq<T>, f: T -> bool, g: T -> bool, h: T -> bool)
    requires forall x :: h(x) == (f(x) && g(x))
    ensures Filter(Filter(t, f), g) == Filter(t, h)
    decreases |t|
  {
    if t != [] {
      var n := |t|;
      FilterFilter(t[..n - 1], f, g, h);
      FilterAppend(Filter(t[..n - 1], f), if f(t[n - 1]) then [t[n - 1]] else [], g);
    }
  }

  /** Masking with exactly one selected position yields that row alone. */
  lemma {:induction false} MaskSingle<T>(t: seq<T>, keep: seq<bool>, k: nat)
    requires |keep| == |t| && k < |t|
    requires forall i :: 0 <= i < |t| ==> (keep[i] <==> i == k)
    ensures Mask(t, keep) == [t[k]]
    decreases |t|
  {
    var n := |t|;
    if k < n - 1 {
      MaskSingle(t[..n - 1], keep[..n - 1], k);
    } else {
      MaskNone(t[..n - 1], keep[..n - 1]);
    }
  }

  lemma {:induction false} MaskNone<T>(t: seq<T>, keep: seq<bool>)
    requires |keep| == |t|
    requires forall i :: 0 <= i < |t| ==> !keep[i]
    ensures Mask(t, keep) == []
    decreases |t|
  {
    if t != [] {
      MaskNone(t[..|t| - 1], keep[..|t| - 1]);
    }
  }

  /** `keys` is in non-increasing order under `key`. */
  ghost predicate SortedDesc<T>(s: seq<T>, key: T -> real) {
    forall i, j :: 0 <= i < j < |s| ==> key(s[i]) >= key(s[j])
  }

  /** Insert `x` after every element whose key is at least `x`'s. */
  function InsertDesc<T(==)>(s: seq<T>, x: T, key: T -> real): (r: seq<T>)
    requires SortedDesc(s, key)
    ensures SortedDesc(r, key)
    ensures multiset(r) == multiset(s) + multiset{x}
    decreases |s|
  {
    if s == [] then [x]
    else
      HeadBound(s, key);
      if key(x) > key(s[0]) then
        ConsSorted(x, s, key);
        [x] + s
      else
        var rest := InsertDesc(s[1..], x, key);
        InsertBehindHead(s, x, rest, key);
        [s[0]] + rest
  }

  /** Inserting behind a head whose key is at least `x`'s. */
  lemma InsertBehindHead<T>(s: seq<T>, x: T, rest: seq<T>, key: T -> real)
    requires s != [] && key(x) <= key(s[0])
    requires forall y :: y in s ==> key(y) <= key(s[0])
    requires SortedDesc(rest, key) && multiset(rest) == multiset(s[1..]) + multiset{x}
    ensures SortedDesc([s[0]] + rest, key)
    ensures multiset([s[0]] + rest) == multiset(s) + multiset{x}
  {
    assert forall y :: y in s[1..] ==> y in s;
    BoundedAbove(s[1..], x, rest, key, key(s[0]));
    ConsSorted(s[0], rest, key);
    assert s == [s[0]] + s[1..];
  }

  /** The head of a descending sequence has the largest key. */
  lemma HeadBound<T>(s: seq<T>, key: T -> real)
    requires SortedDesc(s, key) && s != []
    ensures forall y :: y in s ==> key(y) <= key(s[0])
  {
    forall y | y in s ensures key(y) <= key(s[0]) {
      var j :| 0 <= j < |s| && s[j] == y;
    }
  }

  /** Putting a largest element in front keeps a sequence descending. */
  lemma ConsSorted<T>(h: T, r: seq<T>, key: T -> real)
    requires SortedDesc(r, key) && forall y :: y in r ==> key(y) <= key(h)
    ensures SortedDesc([h] + r, key)
  {
    forall i, j | 0 <= i < j < |r| + 1 ensures key(([h] + r)[i]) >= key(([h] + r)[j]) {
      assert ([h] + r)[j] == r[j - 1];
      assert r[j - 1] in r;
      if i > 0 {
        assert ([h] + r)[i] == r[i - 1];
      }
    }
  }

  lemma BoundedAbove<T>(s: seq<T>, x: T, r: seq<T>, key: T -> real, b: real)
    requires multiset(r) == multiset(s) + multiset{x}
    requires key(x) <= b && forall y :: y in s ==> key(y) <= b
    ensures forall y :: y in r ==> key(y) <= b
  {
    forall y | y in r ensures key(y) <= b {
      assert y in multiset(r);
      assert y in multiset(s) || y == x;
    }
  }

  /** `sort_values(key, ascending=False)`: an insertion sort that keeps equal
      keys in table order. */
  function SortDesc<T(==)>(s: seq<T>, key: T -> real): (r: seq<T>)
    ensures SortedDesc(r, key)
    ensures multiset(r) == multiset(s)
    decreases |s|
  {
    if s == [] then []
    else
      assert s == s[..|s| - 1] + [s[|s| - 1]];
      InsertDesc(SortDesc(s[..|s| - 1], key), s[|s| - 1], key)
  }

  /** `nlargest(n, key)`: the `n` rows with the largest keys, largest first. */
  function NLargest<T(==)>(s: seq<T>, n: nat, key: T -> real): (r: seq<T>)
    ensures |r| == if n < |s| then n else |s|
    ensures SortedDesc(r, key)
    ensures multiset(r) <= multiset(s)
    ensures forall x, y :: x in multiset(s) - multiset(r) && y in r ==> key(x) <= key(y)
  {
    var sorted := SortDesc(s, key);
    var k := if n < |s| then n else |s|;
    assert |sorted| == |s| by {
      assert |multiset(sorted)| == |multiset(s)|;
    }
    SortedPrefix(sorted, s, k, key);
    sorted[..k]
  }

  /** A prefix of a descending permutation of `s` is a sub-multiset of `s`
      whose keys bound those of the rest of `s`. */
  lemma SortedPrefix<T>(sorted: seq<T>, s: seq<T>, k: nat, key: T -> real)
    requires SortedDesc(sorted, key) && multiset(sorted) == multiset(s) && k <= |sorted|
    ensures SortedDesc(sorted[..k], key)
    ensures multiset(sorted[..k]) <= multiset(s)
    ensures forall x, y :: x in multiset(s) - multiset(sorted[..k]) && y in sorted[..k] ==> key(x) <= key(y)
  {
    PrefixRest(sorted, k);
    PrefixBound(sorted, k, key);
    forall x, y | x in multiset(s) - multiset(sorted[..k]) && y in sorted[..k] ensures key(x) <= key(y) {
      assert x in multiset(sorted[k..]);
    }
  }

  lemma PrefixRest<T>(t: seq<T>, k: nat)
    requires k <= |t|
    ensures multiset(t[..k]) <= multiset(t)
    ensures multiset(t) - multiset(t[..k]) == multiset(t[k..])
  {
    assert t == t[..k] + t[k..];
  }

  /** In a descending sequence the keys of a prefix bound those after it. */
  lemma PrefixBound<T>(t: seq<T>, k: nat, key: T -> real)
    requires SortedDesc(t, key) && k <= |t|
    ensures forall x, y :: x in t[k..] && y in t[..k] ==> key(x) <= key(y)
  {
    forall x, y | x in t[k..] && y in t[..k] ensures key(x) <= key(y) {
      var a :| 0 <= a < |t| - k && t[k..][a] == x;
      var b :| 0 <= b < k && t[..k][b] == y;
      assert t[k + a] == x && t[b] == y;
    }
  }

  /** The key negated: ascending order under `key` is descending under it. */
  function Negated<T>(key: T -> real): T -> real {
    x => -key(x)
  }

  /** `nsmallest(n, key)`: the `n` rows with the smallest keys, smallest first. */
  function NSmallest<T(==)>(s: seq<T>, n: nat, key: T -> real): (r: seq<T>)
    ensures |r| == if n < |s| then n else |s|
    ensures forall i, j :: 0 <= i < j < |r| ==> key(r[i]) <= key(r[j])
    ensures multiset(r) <= multiset(s)
    ensures forall x, y :: x in multiset(s) - multiset(r) && y in r ==> key(y) <= key(x)
  {
    NLargest(s, n, Negated(key))
  }

  /** `column.sum()`. */
  function Sum<T>(t: seq<T>, key: T -> real): real
    decreases |t|
  {
    if t == [] then 0.0 else Sum(t[..|t| - 1], key) + key(t[|t| - 1])
  }

  /** Filtering with pointwise equal predicates gives the same rows. */
  lemma {:induction false} FilterExt<T>(t: seq<T>, f: T -> bool, g: T -> bool)
    requires forall x :: f(x) == g(x)
    ensures Filter(t, f) == Filter(t, g)
    decreases |t|
  {
    if t != [] {
      FilterExt(t[..|t| - 1], f, g);
    }
  }

  /** A filter every row passes changes nothing. */
  lemma {:induction false} FilterAll<T>(t: seq<T>, f: T -> bool)
    requires forall x :: f(x)
    ensures Filter(t, f) == t
    decreases |t|
  {
    if t != [] {
      FilterAll(t[..|t| - 1], f);
    }
  }

  /** No value occurs twice. */
  ghost predicate Distinct<T>(s: seq<T>) {
    forall i, j :: 0 <= i < j < |s| ==> s[i] != s[j]
  }

  lemma {:induction false} DistinctCount<T>(s: seq<T>, x: T)
    requires Distinct(s)
    ensures multiset(s)[x] <= 1
    decreases |s|
  {
    if s != [] {
      var n := |s|;
      assert s == s[..n - 1] + [s[n - 1]];
      assert Distinct(s[..n - 1]);
      DistinctCount(s[..n - 1], x);
      if x == s[n - 1] {
        assert x !in s[..n - 1];
      }
    }
  }

  /** Reordering a repetition-free sequence leaves it repetition-free. */
  lemma PermutationDistinct<T>(a: seq<T>, b: seq<T>)
    requires multiset(a) == multiset(b) && Distinct(a)
    ensures Distinct(b)
  {
    forall i, j | 0 <= i < j < |b| ensures b[i] != b[j] {
      if b[i] == b[j] {
        assert b == b[..i] + [b[i]] + b[i + 1..j] + [b[j]] + b[j + 1..];
        assert multiset(b)[b[i]] >= 2;
        DistinctCount(a, b[i]);
      }
    }
  }

  lemma {:induction false} SumAppend<T>(u: seq<T>, v: seq<T>, key: T -> real)
    ensures Sum(u + v, key) == Sum(u, key) + Sum(v, key)
    decreases |v|
  {
    if v != [] {
      var n := |v|;
      assert (u + v)[..|u + v| - 1] == u + v[..n - 1];
      SumAppend(u, v[..n - 1], key);
    } else {
      assert u + v == u;
    }
  }

  /** The sum does not depend on the order of the rows. */
  lemma {:induction false} SumPermutation<T>(a: seq<T>, b: seq<T>, key: T -> real)
    requires multiset(a) == multiset(b)
    ensures Sum(a, key) == Sum(b, key)
    decreases |a|
  {
    if a == [] {
      assert |b| == |multiset(b)| == 0;
    } else {
      var n := |a|;
      var x := a[n - 1];
      assert a == a[..n - 1] + [x];
      assert x in multiset(b);
      var i :| 0 <= i < |b| && b[i] == x;
      var rest := b[..i] + b[i + 1..];
      assert b == b[..i] + [x] + b[i + 1..];
      assert multiset(b) == multiset(b[..i]) + multiset{x} + multiset(b[i + 1..]);
      assert multiset(rest) == multiset(b[..i]) + multiset(b[i + 1..]);
      assert multiset(rest) == multiset(b) - multiset{x};
      assert multiset(a) == multiset(a[..n - 1]) + multiset{x};
      assert multiset(a[..n - 1]) == multiset(a) - multiset{x};
      SumPermutation(a[..n - 1], rest, key);
      SumAppend(b[..i], b[i + 1..], key);
      SumAppend(b[..i] + [x], b[i + 1..], key);
      SumAppend(b[..i], [x], key);
      assert Sum([x], key) == key(x) by {
        assert [x][..0] == [];
      }
    }
  }

  /** A property of every element survives reordering. */
  lemma PermutationPreserves<T>(a: seq<T>, b: seq<T>, f: T -> bool)
    requires multiset(a) == multiset(b)
    requires forall i :: 0 <= i < |a| ==> f(a[i])
    ensures forall i :: 0 <= i < |b| ==> f(b[i])
  {
    forall i | 0 <= i < |b| ensures f(b[i]) {
      assert b[i] in multiset(a);
      var j :| 0 <= j < |a| && a[j] == b[i];
    }
  }
}
