/** Sequence operations shared by the screens: `Array.prototype.filter`,
    `slice`, `splice` at one index, and the `indexOf` / `splice` / `push`
    toggle that the quiz screens use for multi-select answers. */
module Lists {

  /** No element occurs twice. */
  predicate NoDup<T(==)>(s: seq<T>) {
    forall i, j :: 0 <= i < j < |s| ==> s[i] != s[j]
  }

  /** `r` can be obtained from `s` by deleting elements, keeping their order. */
  predicate IsSubsequence<T(==)>(r: seq<T>, s: seq<T>)
    decreases |s|
  {
    if r == [] then true
    else if s == [] then false
    else (r[0] == s[0] && IsSubsequence(r[1..], s[1..])) || IsSubsequence(r, s[1..])
  }

  /** `s.filter(p)`: the elements of `s` that satisfy `p`, in order. */
  function Filter<T(!new)>(s: seq<T>, p: T -> bool): (r: seq<T>)
    ensures |r| <= |s|
    ensures forall x :: x in r <==> x in s && p(x)
  {
    if s == [] then []
    else (if p(s[0]) then [s[0]] else []) + Filter(s[1..], p)
  }

  /** Filtering keeps the order of the kept elements. */
  lemma {:induction false} FilterIsSubsequence<T(!new)>(s: seq<T>, p: T -> bool)
    ensures IsSubsequence(Filter(s, p), s)
  {
    if s != [] {
      FilterIsSubsequence(s[1..], p);
      if p(s[0]) {
        assert Filter(s, p) == [s[0]] + Filter(s[1..], p);
      } else {
        assert Filter(s, p) == Filter(s[1..], p);
      }
    }
  }

  /** Every occurrence count is kept for the elements that pass and dropped
      for the others: the filter loses and invents nothing. */
  lemma {:induction false} FilterCounts<T(!new)>(s: seq<T>, p: T -> bool, x: T)
    ensures multiset(Filter(s, p))[x] == if p(x) then multiset(s)[x] else 0
  {
    if s != [] {
      FilterCounts(s[1..], p, x);
      assert s == [s[0]] + s[1..];
      assert multiset(s) == multiset([s[0]]) + multiset(s[1..]);
      assert Filter(s, p) == (if p(s[0]) then [s[0]] else []) + Filter(s[1..], p);
    }
  }

  /** A filter that keeps every element changes nothing. */
  lemma {:induction false} FilterAll<T(!new)>(s: seq<T>, p: T -> bool)
    requires forall k :: 0 <= k < |s| ==> p(s[k])
    ensures Filter(s, p) == s
  {
    if s != [] {
      FilterAll(s[1..], p);
    }
  }

  /** Filtering a concatenation filters each part. */
  lemma {:induction false} FilterAppend<T(!new)>(a: seq<T>, b: seq<T>, p: T -> bool)
    ensures Filter(a + b, p) == Filter(a, p) + Filter(b, p)
  {
    if a != [] {
      FilterAppend(a[1..], b, p);
      assert (a + b)[1..] == a[1..] + b;
    } else {
      assert a + b == b;
    }
  }

  /** Filtering a sequence without repeats keeps it without repeats. */
  lemma {:induction false} FilterNoDup<T(!new)>(s: seq<T>, p: T -> bool)
    requires NoDup(s)
    ensures NoDup(Filter(s, p))
  {
    if s != [] {
      FilterNoDup(s[1..], p);
      var rest := Filter(s[1..], p);
      assert s[0] !in rest by {
        assert s[0] !in s[1..];
      }
    }
  }

  /** Removing every copy of an element that occurs once shortens the
      sequence by one. */
  lemma {:induction false} FilterOutOne<T(!new)>(s: seq<T>, x: T, p: T -> bool)
    requires NoDup(s) && x in s
    requires forall y :: p(y) <==> y != x
    ensures |Filter(s, p)| == |s| - 1
  {
    if s[0] == x {
      assert x !in s[1..];
      FilterAll(s[1..], p);
    } else {
      FilterOutOne(s[1..], x, p);
    }
  }

  /** The test `y => y !== x`. */
  function Except<T(==)>(x: T): T -> bool {
    y => y != x
  }

  /** `s.filter(y => y !== x)`: every copy of `x` goes, the rest stays in
      order. */
  function RemoveAll<T(==,!new)>(s: seq<T>, x: T): (r: seq<T>)
    ensures x !in r
    ensures forall y :: y != x ==> (y in r <==> y in s)
    ensures x !in s ==> r == s
  {
    if x !in s then
      FilterAll(s, Except(x));
      Filter(s, Except(x))
    else Filter(s, Except(x))
  }

  /** On a sequence without repeats, removing a present element shortens
      it by one and keeps it without repeats. */
  lemma RemoveAllNoDup<T(!new)>(s: seq<T>, x: T)
    requires NoDup(s)
    ensures NoDup(RemoveAll(s, x))
    ensures x in s ==> |RemoveAll(s, x)| == |s| - 1
  {
    FilterNoDup(s, Except(x));
    if x in s {
      FilterOutOne(s, x, Except(x));
    }
  }

  /** Removing what was just appended gives back the sequence. */
  lemma RemoveAllAppended<T(!new)>(s: seq<T>, x: T)
    requires x !in s
    ensures RemoveAll(s + [x], x) == s
  {
    FilterAppend(s, [x], Except(x));
    FilterAll(s, Except(x));
  }

  /** `s.slice(0, n)`. */
  function Take<T>(s: seq<T>, n: nat): (r: seq<T>)
    ensures |r| == if |s| < n then |s| else n
    ensures r <= s
  {
    if |s| <= n then s else s[..n]
  }

  /** `s.splice(i, 1)` for an index inside the sequence. */
  function RemoveAt<T>(s: seq<T>, i: nat): (r: seq<T>)
    requires i < |s|
    ensures |r| == |s| - 1
    ensures forall k :: 0 <= k < i ==> r[k] == s[k]
    ensures forall k :: i <= k < |r| ==> r[k] == s[k + 1]
  {
    s[..i] + s[i + 1..]
  }

  lemma RemoveAtMultiset<T>(s: seq<T>, i: nat)
    requires i < |s|
    ensures multiset(RemoveAt(s, i)) == multiset(s) - multiset{s[i]}
  {
    assert s == s[..i] + [s[i]] + s[i + 1..];
  }

  lemma RemoveAtNoDup<T>(s: seq<T>, i: nat)
    requires i < |s| && NoDup(s)
    ensures NoDup(RemoveAt(s, i))
    ensures s[i] !in RemoveAt(s, i)
    ensures forall y :: y != s[i] ==> (y in RemoveAt(s, i) <==> y in s)
  {
    var r := RemoveAt(s, i);
    forall y | y in s && y != s[i] ensures y in r {
      var k :| 0 <= k < |s| && s[k] == y;
      if k < i { assert r[k] == y; } else { assert r[k - 1] == y; }
    }
  }

  /** `filter((_, j) => j !== i)`: drop the element at index `i`; an index
      outside the sequence matches nothing and drops nothing. */
  function WithoutIndex<T>(s: seq<T>, i: int): (r: seq<T>)
    ensures 0 <= i < |s| ==> |r| == |s| - 1 && r[..i] == s[..i] && r[i..] == s[i + 1..]
    ensures !(0 <= i < |s|) ==> r == s
  {
    if 0 <= i < |s| then RemoveAt(s, i) else s
  }

  /** `s.indexOf(x)`: the first index holding `x`, or -1. */
  method IndexOf<T(==)>(s: seq<T>, x: T) returns (k: int)
    ensures -1 <= k < |s|
    ensures k == -1 <==> x !in s
    ensures 0 <= k ==> s[k] == x && x !in s[..k]
  {
    k := 0;
    while k < |s|
      invariant 0 <= k <= |s|
      invariant x !in s[..k]
    {
      if s[k] == x {
        return;
      }
      k := k + 1;
    }
    assert s[..k] == s;
    k := -1;
  }

  /** `i = s.indexOf(x); if (i > -1) s.splice(i, 1) else s.push(x)`:
      removes the first occurrence of a present element, appends an
      absent one. On a duplicate-free sequence this flips membership of `x`
      and leaves every other element alone. */
  method Toggle<T(==)>(s: seq<T>, x: T) returns (r: seq<T>)
    ensures x !in s ==> r == s + [x]
    ensures x in s ==> exists i :: 0 <= i < |s| && s[i] == x && x !in s[..i] && r == RemoveAt(s, i)
    ensures forall y :: y != x ==> (y in r <==> y in s)
    ensures NoDup(s) ==> NoDup(r) && (x in r <==> x !in s)
  {
    var i := IndexOf(s, x);
    if i > -1 {
      r := RemoveAt(s, i);
      forall y | y != x && y in s ensures y in r {
        var k :| 0 <= k < |s| && s[k] == y;
        if k < i { assert r[k] == y; } else { assert k != i; assert r[k - 1] == y; }
      }
      if NoDup(s) {
        RemoveAtNoDup(s, i);
      }
    } else {
      r := s + [x];
    }
  }

  /** The indices `0, 1, ..., n - 1` in order. */
  function Range(n: nat): (r: seq<int>)
    ensures |r| == n && forall k :: 0 <= k < n ==> r[k] == k
  {
    seq(n, k requires 0 <= k < n => k)
  }

  /** `perm` lists the indices of a sequence of length `n`, each once, in
      some order. */
  predicate IsIndexPermutation(perm: seq<int>, n: nat) {
    multiset(perm) == multiset(Range(n))
  }

  /** Every entry of `idx` is an index into a sequence of length `n`. */
  predicate InRange(idx: seq<int>, n: int) {
    forall k :: 0 <= k < |idx| ==> 0 <= idx[k] < n
  }

  /** The entries of `s` read in the order `idx` gives. */
  function Pick<T>(s: seq<T>, idx: seq<int>): (r: seq<T>)
    requires InRange(idx, |s|)
    ensures |r| == |idx| && forall k :: 0 <= k < |idx| ==> r[k] == s[idx[k]]
  {
    seq(|idx|, k requires 0 <= k < |idx| => s[idx[k]])
  }

  lemma PermutationInRange(perm: seq<int>, n: nat)
    requires IsIndexPermutation(perm, n)
    ensures |perm| == n && InRange(perm, n)
  {
    assert |multiset(perm)| == |multiset(Range(n))|;
    forall k | 0 <= k < |perm| ensures 0 <= perm[k] < n {
      assert perm[k] in multiset(perm);
      assert perm[k] in Range(n);
    }
  }

  lemma PickAppend<T>(s: seq<T>, a: seq<int>, b: seq<int>)
    requires InRange(a, |s|) && InRange(b, |s|)
    ensures InRange(a + b, |s|)
    ensures Pick(s, a + b) == Pick(s, a) + Pick(s, b)
  {
  }

  lemma PickMiddle<T>(s: seq<T>, a: seq<int>, v: int, b: seq<int>)
    requires InRange(a, |s|) && InRange(b, |s|) && 0 <= v < |s|
    ensures InRange(a + [v] + b, |s|) && InRange(a + b, |s|)
    ensures multiset(Pick(s, a + [v] + b)) == multiset(Pick(s, a + b)) + multiset{s[v]}
  {
    PickAppend(s, a, [v]);
    PickAppend(s, a + [v], b);
    PickAppend(s, a, b);
  }

  lemma InRangeSplit(y: seq<int>, j: nat, n: int)
    requires InRange(y, n) && j < |y|
    ensures InRange(y[..j], n) && InRange(y[j + 1..], n) && y == y[..j] + [y[j]] + y[j + 1..]
  {
  }

  /** Deleting the same value from two sequences with equal multisets
      leaves equal multisets. */
  lemma RemoveMatching(x: seq<int>, y: seq<int>, j: nat)
    requires x != [] && multiset(x) == multiset(y) && j < |y| && y[j] == x[0]
    ensures multiset(x[1..]) == multiset(y[..j] + y[j + 1..])
  {
    assert y == y[..j] + [y[j]] + y[j + 1..];
    assert x == [x[0]] + x[1..];
    var m := multiset(x) - multiset{x[0]};
    assert multiset(x[1..]) == m;
  }

  /** Picking by two index sequences that hold the same indices gives two
      sequences with the same elements. */
  lemma {:induction false} PickMultiset<T>(s: seq<T>, x: seq<int>, y: seq<int>)
    requires InRange(x, |s|) && InRange(y, |s|)
    requires multiset(x) == multiset(y)
    ensures multiset(Pick(s, x)) == multiset(Pick(s, y))
    decreases |x|
  {
    assert |x| == |multiset(x)| == |multiset(y)| == |y|;
    if x != [] {
      assert x[0] in multiset(y);
      var j :| 0 <= j < |y| && y[j] == x[0];
      RemoveMatching(x, y, j);
      InRangeSplit(y, j, |s|);
      InRangeSplit(x, 0, |s|);
      var a, b := y[..j], y[j + 1..];
      assert [] + x[1..] == x[1..];
      PickMiddle(s, a, x[0], b);
      PickMiddle(s, [], x[0], x[1..]);
      PickMultiset(s, x[1..], a + b);
    }
  }

  /** Rearranging by an index permutation keeps every element and its
      number of occurrences. */
  lemma PermuteMultiset<T>(s: seq<T>, perm: seq<int>)
    requires IsIndexPermutation(perm, |s|)
    ensures InRange(perm, |s|)
    ensures multiset(Pick(s, perm)) == multiset(s)
  {
    PermutationInRange(perm, |s|);
    PickMultiset(s, perm, Range(|s|));
    assert Pick(s, Range(|s|)) == s;
  }

  /** `[items[i], items[j]] = [items[j], items[i]]`. */
  function Swap<T>(s: seq<T>, i: nat, j: nat): (r: seq<T>)
    requires i < |s| && j < |s|
    ensures |r| == |s| && r[i] == s[j] && r[j] == s[i]
    ensures forall k :: 0 <= k < |s| && k != i && k != j ==> r[k] == s[k]
    ensures multiset(r) == multiset(s)
  {
    s[i := s[j]][j := s[i]]
  }

  /** The distinct elements of `s`. */
  function Elements<T>(s: seq<T>): set<T> {
    set x | x in s
  }

  /** A duplicate-free sequence has as many distinct elements as entries. */
  lemma {:induction false} NoDupCard<T>(s: seq<T>)
    requires NoDup(s)
    ensures |Elements(s)| == |s|
  {
    if s != [] {
      NoDupCard(s[1..]);
      assert Elements(s) == {s[0]} + Elements(s[1..]);
      assert s[0] !in Elements(s[1..]);
    }
  }

  /** A subset as large as a finite set is that set. */
  lemma {:induction false} SubsetCardEqual<T>(a: set<T>, b: set<T>)
    requires a <= b && |a| == |b|
    ensures a == b
    decreases |a|
  {
    if a != {} {
      var x :| x in a;
      SubsetCardEqual(a - {x}, b - {x});
      assert a == (a - {x}) + {x};
      assert b == (b - {x}) + {x};
    } else {
      assert |b| == 0;
    }
  }
}

