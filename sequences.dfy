/** Sequence facts the outlier filter rests on: the sorted arrangement of a column's
    values (what a quantile reads), and order-preserving selection of rows by a
    boolean mask (what `df[mask]` returns). */
module Sequences {

  predicate IsSorted(s: seq<real>)
  {
    forall i, j :: 0 <= i < j < |s| ==> s[i] <= s[j]
  }

  /** Places `x` into an already sorted sequence. */
  function Insert(x: real, s: seq<real>): (r: seq<real>)
    requires IsSorted(s)
    ensures IsSorted(r)
    ensures multiset(r) == multiset(s) + multiset{x}
  {
    if s == [] || x <= s[0] then
      PrependSorted(x, s);
      [x] + s
    else
      SortedTail(s);
      var rest := Insert(x, s[1..]);
      InsertBehindHead(x, s, rest);
      [s[0]] + rest
  }

  /** A value no greater than the head of a sorted sequence can go in front. */
  lemma PrependSorted(x: real, s: seq<real>)
    requires IsSorted(s) && (s == [] || x <= s[0])
    ensures IsSorted([x] + s)
  {
  }

  /** Putting the head back in front of the tail with `x` inserted. */
  lemma InsertBehindHead(x: real, s: seq<real>, rest: seq<real>)
    requires |s| > 0 && IsSorted(s) && s[0] < x
    requires IsSorted(rest) && multiset(rest) == multiset(s[1..]) + multiset{x}
    ensures IsSorted([s[0]] + rest)
    ensures multiset([s[0]] + rest) == multiset(s) + multiset{x}
  {
    forall k | 0 <= k < |rest| ensures s[0] <= rest[k] {
      assert rest[k] in multiset(rest);
      if rest[k] != x {
        assert rest[k] in multiset(s);
        SortedHeadIsMin(s, rest[k]);
      }
    }
    MultisetTail(s);
  }

  lemma MultisetTail<T>(s: seq<T>)
    requires |s| > 0
    ensures multiset(s) == multiset{s[0]} + multiset(s[1..])
  {
    assert s == [s[0]] + s[1..];
  }

  lemma SortedTail(s: seq<real>)
    requires |s| > 0 && IsSorted(s)
    ensures IsSorted(s[1..])
  {
  }

  /** The first value of a sorted sequence is its least. */
  lemma SortedHeadIsMin(s: seq<real>, x: real)
    requires |s| > 0 && IsSorted(s) && x in multiset(s)
    ensures s[0] <= x
  {
    assert x in s;
    var i :| 0 <= i < |s| && s[i] == x;
  }

  /** The values of `s` in ascending order. */
  function SortedOf(s: seq<real>): (r: seq<real>)
    ensures IsSorted(r)
    ensures multiset(r) == multiset(s)
  {
    if s == [] then
      []
    else
      MultisetTail(s);
      Insert(s[0], SortedOf(s[1..]))
  }

  /** Two sorted arrangements of one multiset start alike and agree on the rest. */
  lemma SortedSameHead(a: seq<real>, b: seq<real>)
    requires |a| > 0 && |b| > 0 && IsSorted(a) && IsSorted(b)
    requires multiset(a) == multiset(b)
    ensures a[0] == b[0] && multiset(a[1..]) == multiset(b[1..])
  {
    assert a[0] in multiset(a) && b[0] in multiset(b);
    SortedHeadIsMin(a, b[0]);
    SortedHeadIsMin(b, a[0]);
    MultisetTail(a);
    MultisetTail(b);
    assert multiset(a[1..]) == multiset(a) - multiset{a[0]};
    assert multiset(b[1..]) == multiset(b) - multiset{b[0]};
  }

  /** A sorted arrangement of a multiset is unique. */
  lemma {:induction false} SortedUnique(a: seq<real>, b: seq<real>)
    requires IsSorted(a) && IsSorted(b)
    requires multiset(a) == multiset(b)
    ensures a == b
    decreases |a|
  {
    assert |a| == |multiset(a)| == |multiset(b)| == |b|;
    if |a| > 0 {
      SortedSameHead(a, b);
      SortedTail(a);
      SortedTail(b);
      SortedUnique(a[1..], b[1..]);
      assert a == [a[0]] + a[1..] && b == [b[0]] + b[1..];
    }
  }

  /** Rearranging the input does not change its sorted form. */
  lemma SortedOfPermutation(a: seq<real>, b: seq<real>)
    requires multiset(a) == multiset(b)
    ensures SortedOf(a) == SortedOf(b)
  {
    SortedUnique(SortedOf(a), SortedOf(b));
  }

  /** The positions of the `true` entries; there are as many as `Count` adds up. */
  function Flagged(flags: seq<bool>): (r: set<int>)
    ensures |r| == Count(flags)
  {
    FlaggedSize(flags);
    set j | 0 <= j < |flags| && flags[j]
  }

  lemma {:induction false} FlaggedSize(flags: seq<bool>)
    ensures |set j | 0 <= j < |flags| && flags[j]| == Count(flags)
  {
    if flags != [] {
      var k := |flags| - 1;
      FlaggedSize(flags[..k]);
      var before := set j | 0 <= j < k && flags[..k][j];
      assert (set j | 0 <= j < |flags| && flags[j]) == before + (if flags[k] then {k} else {});
      assert k !in before;
    }
  }

  /** Number of `true` entries, summed left to right. */
  function Count(flags: seq<bool>): (n: nat)
    ensures n <= |flags|
    ensures n == 0 <==> forall j :: 0 <= j < |flags| ==> !flags[j]
  {
    if flags == [] then
      0
    else
      var k := |flags| - 1;
      assert forall j :: 0 <= j < k ==> flags[..k][j] == flags[j];
      Count(flags[..k]) + (if flags[k] then 1 else 0)
  }

  /** Indices at which `mask` holds, ascending. */
  function Kept(mask: seq<bool>): (idx: seq<nat>)
    ensures forall k :: 0 <= k < |idx| ==> idx[k] < |mask| && mask[idx[k]]
    ensures forall k, l :: 0 <= k < l < |idx| ==> idx[k] < idx[l]
    ensures forall i :: 0 <= i < |mask| && mask[i] ==> i in idx
  {
    if mask == [] then
      []
    else
      var n := |mask| - 1;
      var init := Kept(mask[..n]);
      if mask[n] then init + [n] else init
  }

  /** The entries of `s` at which `mask` holds, in their original order:
      pandas' `df[mask]`. */
  function Select<T>(s: seq<T>, mask: seq<bool>): (r: seq<T>)
    requires |s| == |mask|
    ensures |r| == Count(mask)
  {
    if s == [] then
      []
    else
      var n := |s| - 1;
      var init := Select(s[..n], mask[..n]);
      if mask[n] then init + [s[n]] else init
  }

  /** The selection is `s` read at the ascending indices where the mask holds. */
  lemma {:induction false} SelectKept<T>(s: seq<T>, mask: seq<bool>)
    requires |s| == |mask|
    ensures |Select(s, mask)| == |Kept(mask)|
    ensures forall k :: 0 <= k < |Kept(mask)| ==> Select(s, mask)[k] == s[Kept(mask)[k]]
  {
    if s != [] {
      var n := |s| - 1;
      SelectKept(s[..n], mask[..n]);
      var init, idx := Select(s[..n], mask[..n]), Kept(mask[..n]);
      var r, kept := Select(s, mask), Kept(mask);
      assert r == if mask[n] then init + [s[n]] else init;
      assert kept == if mask[n] then idx + [n] else idx;
      forall k | 0 <= k < |kept| ensures r[k] == s[kept[k]] {
        if k < |idx| {
          assert r[k] == init[k] == s[..n][idx[k]];
        }
      }
    }
  }

  /** A mask that keeps everything keeps the sequence as it is. */
  lemma {:induction false} SelectAll<T>(s: seq<T>, mask: seq<bool>)
    requires |s| == |mask|
    requires forall i :: 0 <= i < |mask| ==> mask[i]
    ensures Select(s, mask) == s
  {
    if s != [] {
      var n := |s| - 1;
      SelectAll(s[..n], mask[..n]);
      assert s == s[..n] + [s[n]];
    }
  }

  /** When the mask is a property `p` of each entry, the selection holds each value
      exactly as often as the input does if `p` holds of it, and never otherwise. */
  lemma {:induction false} SelectCount<T>(s: seq<T>, mask: seq<bool>, p: T -> bool, x: T)
    requires |s| == |mask|
    requires forall i :: 0 <= i < |s| ==> mask[i] == p(s[i])
    ensures multiset(Select(s, mask))[x] == if p(x) then multiset(s)[x] else 0
  {
    if s != [] {
      var n := |s| - 1;
      assert forall i :: 0 <= i < n ==> mask[..n][i] == p(s[..n][i]);
      SelectCount(s[..n], mask[..n], p, x);
      assert mask[n] == p(s[n]);
      assert s == s[..n] + [s[n]];
      var init := Select(s[..n], mask[..n]);
      assert Select(s, mask) == if mask[n] then init + [s[n]] else init;
      assert multiset(s) == multiset(s[..n]) + multiset{s[n]};
      assert multiset(init + [s[n]]) == multiset(init) + multiset{s[n]};
    }
  }

  /** Selecting by a property of each entry commutes with rearranging the input. */
  lemma SelectPermutation<T>(a: seq<T>, ma: seq<bool>, b: seq<T>, mb: seq<bool>, p: T -> bool)
    requires |a| == |ma| && |b| == |mb|
    requires forall i :: 0 <= i < |a| ==> ma[i] == p(a[i])
    requires forall i :: 0 <= i < |b| ==> mb[i] == p(b[i])
    requires multiset(a) == multiset(b)
    ensures multiset(Select(a, ma)) == multiset(Select(b, mb))
  {
    var sa, sb := multiset(Select(a, ma)), multiset(Select(b, mb));
    forall x | true ensures sa[x] == sb[x] {
      SelectCount(a, ma, p, x);
      SelectCount(b, mb, p, x);
    }
    MultisetEqual(sa, sb);
  }

  lemma MultisetEqual<T>(m: multiset<T>, n: multiset<T>)
    requires forall x :: m[x] == n[x]
    ensures m == n
  {
  }

  /** Takes one occurrence of `a[0]` out of a rearrangement `b` of `a`. */
  lemma PermutationHead<T>(a: seq<T>, b: seq<T>) returns (k: nat)
    requires |a| > 0 && multiset(a) == multiset(b)
    ensures k < |b| && b[k] == a[0]
    ensures multiset(a[1..]) == multiset(b[..k] + b[k + 1..])
  {
    assert a[0] in multiset(b);
    k :| 0 <= k < |b| && b[k] == a[0];
    MultisetTail(a);
    MultisetRemove(b, k);
    assert multiset(a[1..]) == multiset(a) - multiset{a[0]};
  }

  /** Removing the entry at `k` removes one occurrence of it. */
  lemma MultisetRemove<T>(b: seq<T>, k: nat)
    requires k < |b|
    ensures multiset(b) == multiset{b[k]} + multiset(b[..k] + b[k + 1..])
  {
    assert b == b[..k] + ([b[k]] + b[k + 1..]);
    assert multiset(b) == multiset(b[..k]) + (multiset{b[k]} + multiset(b[k + 1..]));
  }
}
