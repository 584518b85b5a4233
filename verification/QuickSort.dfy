/** `qsort`: partition around a hole, recursion into the smaller half only. */
module QuickSort {

  /** `cmp` is the sign of a total preorder. */
  ghost predicate Comparison<T(!new)>(cmp: (T, T) -> int) {
    && (forall x, y :: cmp(x, y) > 0 <==> cmp(y, x) < 0)
    && (forall x, y, z :: cmp(x, y) <= 0 && cmp(y, z) <= 0 ==> cmp(x, z) <= 0)
  }

  /** `t` is `s` with the elements of [lo, hi] rearranged. */
  ghost predicate Rearranged<T>(s: seq<T>, t: seq<T>, lo: int, hi: int) {
    && |s| == |t|
    && multiset(s) == multiset(t)
    && forall k :: 0 <= k < |s| && !(lo <= k <= hi) ==> s[k] == t[k]
  }

  ghost predicate Sorted<T>(s: seq<T>, lo: int, hi: int, cmp: (T, T) -> int) {
    forall k, m :: 0 <= k < m < |s| && lo <= k && m <= hi ==> cmp(s[k], s[m]) <= 0
  }

  function Pow2(n: nat): (r: nat)
    ensures r >= 1
  {
    if n == 0 then 1 else 2 * Pow2(n - 1)
  }

  /** With `p` back in the hole at `i`, `s` is a rearrangement of `orig`. */
  ghost predicate HoleAt<T>(s: seq<T>, i: nat, p: T, orig: seq<T>) {
    i < |s| && multiset(s[i := p]) == multiset(orig)
  }

  /** Moving an element from place `j` into the hole at `i` moves the hole to `j`. */
  lemma MoveHole<T>(s: seq<T>, i: nat, j: nat, p: T)
    requires i < |s| && j < |s|
    ensures multiset(s[i := s[j]][j := p]) == multiset(s[i := p])
  {
    var u := s[i := p];
    if i != j {
      assert u[j] == s[j];
      assert s[i := s[j]][j := p] == u[i := u[j]][j := u[i]];
    }
  }

  /** The scan from the right has no bound of its own: the element at `stop` ends it. */
  method ScanDown<T(!new)>(a: array<T>, lo: nat, from: nat, p: T, cmp: (T, T) -> int, ghost stop: nat) returns (j: nat)
    requires lo <= stop <= from < a.Length && cmp(a[stop], p) <= 0
    ensures stop <= j <= from && cmp(a[j], p) <= 0
    ensures forall k :: j < k <= from ==> cmp(a[k], p) > 0
  {
    j := from;
    while cmp(a[j], p) > 0
      invariant stop <= j <= from
      invariant forall k :: j < k <= from ==> cmp(a[k], p) > 0
      decreases j
    {
      j := j - 1;
    }
  }

  method ScanUp<T(!new)>(a: array<T>, from: nat, j: nat, p: T, cmp: (T, T) -> int) returns (i: nat)
    requires from < a.Length && j < a.Length
    ensures from <= i && (i <= j || i == from) && (i < j ==> cmp(a[i], p) > 0)
    ensures forall k :: from <= k < i ==> cmp(a[k], p) <= 0
  {
    i := from;
    while i < j && cmp(a[i], p) <= 0
      invariant from <= i && (i <= j || i == from)
      invariant forall k :: from <= k < i ==> cmp(a[k], p) <= 0
    {
      i := i + 1;
    }
  }

  /** The element at `j` goes into the hole at `i`. */
  method Fill<T>(a: array<T>, i: nat, j: nat, p: T, ghost orig: seq<T>)
    requires i < a.Length && j < a.Length && HoleAt(a[..], i, p, orig)
    modifies a
    ensures HoleAt(a[..], j, p, orig) && a[i] == old(a[j])
    ensures forall k :: 0 <= k < a.Length && k != i ==> a[k] == old(a[k])
  {
    MoveHole(a[..], i, j, p);
    ghost var s := a[..];
    a[i] := a[j];
    assert a[..] == s[i := s[j]];
  }

  /** Both ends of the part not yet split: what lies left is not above `p`, what lies right is above it. */
  ghost predicate Split<T>(s: seq<T>, lo: nat, hi: nat, i: nat, j: int, p: T, cmp: (T, T) -> int) {
    && lo <= i <= hi < |s| && i - 1 <= j <= hi
    && cmp(s[if i == lo then i else i - 1], p) <= 0
    && (forall k :: lo <= k < i ==> cmp(s[k], p) <= 0)
    && (forall k :: j < k <= hi && k != i ==> cmp(s[k], p) > 0)
  }

  /** One turn of the partition loop. */
  method Turn<T(!new)>(a: array<T>, lo: nat, hi: nat, i0: nat, j0: nat, p: T, cmp: (T, T) -> int, ghost orig: seq<T>)
    returns (i: nat, j: nat)
    requires Split(a[..], lo, hi, i0, j0, p, cmp) && i0 < j0 && HoleAt(a[..], i0, p, orig)
    modifies a
    ensures Split(a[..], lo, hi, i, j, p, cmp) && HoleAt(a[..], i, p, orig)
    ensures j as int - i as int < j0 - i0
    ensures forall k :: 0 <= k < a.Length && !(lo <= k <= hi) ==> a[k] == old(a[k])
  {
    hide HoleAt;
    j := ScanDown(a, lo, j0, p, cmp, if i0 == lo then i0 else i0 - 1);
    Fill(a, i0, j, p, orig);
    i := ScanUp(a, i0, j, p, cmp);
    Fill(a, j, i, p, orig);
  }

  /** The middle element changes places with the first, where the hole then is. */
  method TakePivot<T(!new)>(a: array<T>, lo: nat, hi: nat, cmp: (T, T) -> int) returns (p: T)
    requires lo < hi < a.Length && Comparison(cmp)
    modifies a
    ensures Split(a[..], lo, hi, lo, hi, p, cmp) && HoleAt(a[..], lo, p, old(a[..]))
    ensures forall k :: 0 <= k < a.Length && !(lo <= k <= hi) ==> a[k] == old(a[k])
  {
    var t := (lo + hi) / 2;
    ghost var s := a[..];
    p := a[t];
    a[t] := a[lo];
    a[lo] := p;
    Swapped(s, a[..], t, lo);
    assert cmp(p, p) > 0 <==> cmp(p, p) < 0;
  }

  lemma Swapped<T>(s: seq<T>, u: seq<T>, t: nat, lo: nat)
    requires t < |s| && lo < |s| && u == s[t := s[lo]][lo := s[t]]
    ensures HoleAt(u, lo, s[t], s)
  {
    MoveHole(s, t, lo, s[t]);
    assert s[t := s[t]] == s && u[lo := s[t]] == u;
  }

  lemma PutBack<T>(s: seq<T>, t: seq<T>, orig: seq<T>, lo: nat, hi: nat, i: nat, p: T)
    requires HoleAt(s, i, p, orig) && t == s[i := p] && lo <= i <= hi
    requires |s| == |orig| && forall k :: 0 <= k < |s| && !(lo <= k <= hi) ==> s[k] == orig[k]
    ensures Rearranged(orig, t, lo, hi)
  {
  }

  lemma SplitDone<T>(s: seq<T>, lo: nat, hi: nat, i: nat, j: int, p: T, cmp: (T, T) -> int)
    requires Split(s, lo, hi, i, j, p, cmp) && i >= j
    ensures forall k :: lo <= k < i ==> cmp(s[k], p) <= 0
    ensures forall k :: i < k <= hi ==> cmp(s[k], p) > 0
  {
  }

  lemma SplitBounds<T>(s: seq<T>, lo: nat, hi: nat, i: nat, j: int, p: T, cmp: (T, T) -> int)
    requires Split(s, lo, hi, i, j, p, cmp)
    ensures lo <= i <= hi < |s|
  {
  }

  /** The body of the outer loop up to the choice of the half to recurse into. */
  method Partition<T(!new)>(a: array<T>, lo: nat, hi: nat, cmp: (T, T) -> int) returns (i: nat)
    requires lo < hi < a.Length && Comparison(cmp)
    modifies a
    ensures lo <= i <= hi && Rearranged(old(a[..]), a[..], lo, hi)
    ensures forall k :: lo <= k < i ==> cmp(a[k], a[i]) <= 0
    ensures forall k :: i < k <= hi ==> cmp(a[k], a[i]) > 0
  {
    hide HoleAt, Split, Rearranged, Comparison;
    ghost var orig := a[..];
    var p := TakePivot(a, lo, hi, cmp);
    var j := hi;
    i := lo;
    while i < j
      invariant Split(a[..], lo, hi, i, j, p, cmp) && HoleAt(a[..], i, p, orig)
      invariant forall k :: 0 <= k < a.Length && !(lo <= k <= hi) ==> a[k] == orig[k]
      decreases j as int - i as int
    {
      i, j := Turn(a, lo, hi, i, j, p, cmp, orig);
    }
    ghost var s := a[..];
    SplitBounds(s, lo, hi, i, j, p, cmp);
    SplitDone(s, lo, hi, i, j, p, cmp);
    a[i] := p;
    PutBack(s, a[..], orig, lo, hi, i, p);
  }

  // ----- putting the halves together

  lemma PartSame<T>(s: seq<T>, t: seq<T>, lo: nat, hi: int)
    requires Rearranged(s, t, lo, hi) && lo <= hi < |s|
    ensures multiset(s[lo..hi + 1]) == multiset(t[lo..hi + 1])
  {
    assert s[..lo] == t[..lo];
    TailSame(s, t, hi + 1);
    Cut(s, lo, hi + 1);
    Cut(t, lo, hi + 1);
    Cancel(multiset(s[..lo]), multiset(s[lo..hi + 1]), multiset(t[lo..hi + 1]), multiset(s[hi + 1..]));
  }

  lemma InBoth<T>(u: seq<T>, v: seq<T>, m: nat)
    requires multiset(u) == multiset(v) && m < |v|
    ensures exists j :: 0 <= j < |u| && u[j] == v[m]
  {
    assert v[m] in multiset(v);
  }

  /** A rearranged part holds the elements it held. */
  lemma FromPart<T>(s: seq<T>, t: seq<T>, lo: nat, hi: int, m: nat)
    requires Rearranged(s, t, lo, hi) && lo <= m <= hi < |s|
    ensures exists j :: lo <= j <= hi && s[j] == t[m]
  {
    hide Rearranged;
    PartSame(s, t, lo, hi);
    SameLength(s, t, lo, hi);
    var u, v := s[lo..hi + 1], t[lo..hi + 1];
    InBoth(u, v, m - lo);
    var j :| 0 <= j < |u| && u[j] == v[m - lo];
    assert s[lo + j] == t[m];
  }

  lemma SameLength<T>(s: seq<T>, t: seq<T>, lo: int, hi: int)
    requires Rearranged(s, t, lo, hi)
    ensures |s| == |t|
  {
  }

  lemma Cancel<T>(a: multiset<T>, u: multiset<T>, v: multiset<T>, b: multiset<T>)
    requires a + u + b == a + v + b
    ensures u == v
  {
    assert forall x :: (a + u + b)[x] == a[x] + u[x] + b[x];
    assert forall x :: (a + v + b)[x] == a[x] + v[x] + b[x];
    assert forall x :: u[x] == v[x];
  }

  lemma TailSame<T>(s: seq<T>, t: seq<T>, n: nat)
    requires n <= |s| == |t| && forall k :: n <= k < |s| ==> s[k] == t[k]
    ensures s[n..] == t[n..]
  {
  }

  lemma Cut<T>(s: seq<T>, a: nat, b: nat)
    requires a <= b <= |s|
    ensures multiset(s) == multiset(s[..a]) + multiset(s[a..b]) + multiset(s[b..])
  {
    assert s == s[..a] + s[a..b] + s[b..];
  }

  lemma RearrangedTrans<T>(s: seq<T>, t: seq<T>, u: seq<T>, lo: int, hi: int, lo': int, hi': int)
    requires Rearranged(s, t, lo, hi) && Rearranged(t, u, lo', hi') && lo <= lo' && hi' <= hi
    ensures Rearranged(s, u, lo, hi)
  {
  }

  /** In order wherever one of two places of [lo0, hi0] lies outside [lo, hi]. */
  ghost predicate OuterSorted<T>(s: seq<T>, lo0: int, hi0: int, lo: int, hi: int, cmp: (T, T) -> int) {
    forall k, m :: 0 <= k < m < |s| && lo0 <= k && m <= hi0 && (k < lo || hi < m) ==> cmp(s[k], s[m]) <= 0
  }

  lemma OuterKept<T>(s: seq<T>, t: seq<T>, lo0: int, hi0: int, lo: nat, hi: int, cmp: (T, T) -> int)
    requires OuterSorted(s, lo0, hi0, lo, hi, cmp) && Rearranged(s, t, lo, hi) && lo0 <= lo && hi <= hi0 < |s|
    ensures OuterSorted(t, lo0, hi0, lo, hi, cmp)
  {
    hide Rearranged;
    SameOutside(s, t, lo, hi);
    forall k, m | 0 <= k < m < |t| && lo0 <= k && m <= hi0 && (k < lo || hi < m) ensures cmp(t[k], t[m]) <= 0 {
      if lo <= m <= hi { FromPart(s, t, lo, hi, m); }
      if lo <= k <= hi { FromPart(s, t, lo, hi, k); }
    }
  }

  lemma SameOutside<T>(s: seq<T>, t: seq<T>, lo: int, hi: int)
    requires Rearranged(s, t, lo, hi)
    ensures |s| == |t| && forall k :: 0 <= k < |s| && !(lo <= k <= hi) ==> s[k] == t[k]
  {
  }

  /** `i` holds an element with nothing above it on its left and only larger ones on its right. */
  ghost predicate Pivoted<T>(s: seq<T>, lo: int, i: int, hi: int, cmp: (T, T) -> int) {
    && 0 <= lo <= i <= hi < |s|
    && (forall k :: lo <= k < i ==> cmp(s[k], s[i]) <= 0)
    && (forall k :: i < k <= hi ==> cmp(s[k], s[i]) > 0)
  }

  lemma PivotedKept<T>(s: seq<T>, t: seq<T>, lo: nat, i: nat, hi: int, lo': nat, hi': int, cmp: (T, T) -> int)
    requires Pivoted(s, lo, i, hi, cmp) && Rearranged(s, t, lo', hi')
    requires lo <= lo' && hi' <= hi && (hi' < i || i < lo')
    ensures Pivoted(t, lo, i, hi, cmp)
  {
    hide Rearranged;
    SameOutside(s, t, lo', hi');
    forall k | lo <= k <= hi && k != i ensures k < i ==> cmp(t[k], t[i]) <= 0 ensures k > i ==> cmp(t[k], t[i]) > 0 {
      if lo' <= k <= hi' { FromPart(s, t, lo', hi', k); }
    }
  }

  /** One half sorted: only the other half is left to do. */
  lemma HalfDone<T(!new)>(s: seq<T>, lo0: int, hi0: int, lo: nat, i: nat, hi: int, left: bool, cmp: (T, T) -> int)
    requires Comparison(cmp) && OuterSorted(s, lo0, hi0, lo, hi, cmp) && Pivoted(s, lo, i, hi, cmp)
    requires lo0 <= lo && hi <= hi0 < |s|
    requires if left then Sorted(s, lo, i - 1, cmp) else Sorted(s, i + 1, hi, cmp)
    ensures if left then OuterSorted(s, lo0, hi0, i + 1, hi, cmp) else OuterSorted(s, lo0, hi0, lo, i - 1, cmp)
  {
    forall k, m | 0 <= k < m < |s| && lo0 <= k && m <= hi0 && (if left then k < i + 1 || hi < m else k < lo || i - 1 < m)
      ensures cmp(s[k], s[m]) <= 0
    {
      if lo <= k <= i <= m <= hi { InOrder(s, lo, i, hi, k, m, cmp); }
    }
  }

  lemma InOrder<T(!new)>(s: seq<T>, lo: nat, i: nat, hi: int, k: nat, m: nat, cmp: (T, T) -> int)
    requires Comparison(cmp) && Pivoted(s, lo, i, hi, cmp) && lo <= k < m <= hi
    requires k < i < m || k == i || m == i
    ensures cmp(s[k], s[m]) <= 0
  {
    assert m > i ==> cmp(s[m], s[i]) > 0;
    assert m > i ==> cmp(s[i], s[m]) < 0;
  }

  /**
   * `_lqsort` (and `_wqsort`, `_nqsort`, the same algorithm at other element widths). `depth` is the deepest nesting
   * of recursive calls.
   */
  method Sort<T(!new)>(a: array<T>, first: int, last: int, cmp: (T, T) -> int) returns (ghost depth: nat)
    requires 0 <= first <= last + 1 <= a.Length && Comparison(cmp)
    modifies a
    ensures Rearranged(old(a[..]), a[..], first, last)
    ensures Sorted(a[..], first, last, cmp)
    ensures depth > 0 ==> Pow2(depth) <= last - first + 1
    decreases last - first + 1
  {
    hide Rearranged, Sorted, OuterSorted, Pivoted, Comparison;
    var lo, hi := first, last;
    ghost var orig := a[..];
    depth := 0;
    SortStart(orig, first, last, cmp);
    while hi > lo
      invariant first <= lo <= hi + 1 && hi <= last
      invariant Rearranged(orig, a[..], first, last)
      invariant OuterSorted(a[..], first, last, lo, hi, cmp)
      invariant depth > 0 ==> Pow2(depth) <= last - first + 1
      decreases hi - lo + 1
    {
      lo, hi, depth := Round(a, first, last, lo, hi, cmp, depth, orig);
    }
    SortDone(a[..], first, last, lo, hi, cmp);
  }

  lemma SortStart<T>(s: seq<T>, first: int, last: int, cmp: (T, T) -> int)
    ensures Rearranged(s, s, first, last) && OuterSorted(s, first, last, first, last, cmp)
  {
  }

  lemma SortDone<T>(s: seq<T>, first: int, last: int, lo: int, hi: int, cmp: (T, T) -> int)
    requires OuterSorted(s, first, last, lo, hi, cmp) && lo >= hi
    ensures Sorted(s, first, last, cmp)
  {
  }

  /** One turn of the outer loop: partition, sort the smaller half by a call, go on with the larger one. */
  method Round<T(!new)>(a: array<T>, first: int, last: int, lo: int, hi: int, cmp: (T, T) -> int, ghost depth: nat,
      ghost orig: seq<T>) returns (lo': int, hi': int, ghost depth': nat)
    requires 0 <= first <= lo < hi <= last < a.Length && Comparison(cmp)
    requires Rearranged(orig, a[..], first, last)
    requires OuterSorted(a[..], first, last, lo, hi, cmp)
    requires depth > 0 ==> Pow2(depth) <= last - first + 1
    modifies a
    ensures first <= lo' <= hi' + 1 && hi' <= last && hi' - lo' < hi - lo
    ensures Rearranged(orig, a[..], first, last)
    ensures OuterSorted(a[..], first, last, lo', hi', cmp)
    ensures depth' > 0 ==> Pow2(depth') <= last - first + 1
    decreases last - first + 1, 0
  {
    hide Rearranged, Sorted, OuterSorted, Pivoted, Comparison;
    ghost var s0 := a[..];
    var i := Partition(a, lo, hi, cmp);
    ghost var s1 := a[..];
    PivotedIs(s1, lo, i, hi, cmp);
    OuterKept(s0, s1, first, last, lo, hi, cmp);
    RearrangedTrans(orig, s0, s1, first, last, lo, hi);
    var left := i - lo < hi - i;
    ghost var d: nat;
    if left {
      d := Sort(a, lo, i - 1, cmp);
      HalfSorted(orig, s1, a[..], first, last, lo, i, hi, true, cmp);
      lo', hi' := i + 1, hi;
    } else {
      d := Sort(a, i + 1, hi, cmp);
      HalfSorted(orig, s1, a[..], first, last, lo, i, hi, false, cmp);
      lo', hi' := lo, i - 1;
    }
    depth' := if d + 1 > depth then d + 1 else depth;
  }

  lemma PivotedIs<T>(s: seq<T>, lo: nat, i: nat, hi: nat, cmp: (T, T) -> int)
    requires lo <= i <= hi < |s|
    requires forall k :: lo <= k < i ==> cmp(s[k], s[i]) <= 0
    requires forall k :: i < k <= hi ==> cmp(s[k], s[i]) > 0
    ensures Pivoted(s, lo, i, hi, cmp)
  {
  }

  lemma HalfSorted<T(!new)>(orig: seq<T>, s: seq<T>, t: seq<T>, first: int, last: int, lo: nat, i: nat, hi: nat,
      left: bool, cmp: (T, T) -> int)
    requires Comparison(cmp) && Rearranged(orig, s, first, last) && OuterSorted(s, first, last, lo, hi, cmp)
    requires Pivoted(s, lo, i, hi, cmp) && first <= lo <= i <= hi <= last < |s| == |t|
    requires if left then Rearranged(s, t, lo, i - 1) else Rearranged(s, t, i + 1, hi)
    requires if left then Sorted(t, lo, i - 1, cmp) else Sorted(t, i + 1, hi, cmp)
    ensures Rearranged(orig, t, first, last)
    ensures if left then OuterSorted(t, first, last, i + 1, hi, cmp) else OuterSorted(t, first, last, lo, i - 1, cmp)
  {
    hide Rearranged, Sorted, OuterSorted, Pivoted, Comparison;
    var lo', hi' := if left then lo else i + 1, if left then i - 1 else hi;
    RearrangedTrans(orig, s, t, first, last, lo', hi');
    PivotedKept(s, t, lo, i, hi, lo', hi', cmp);
    Widen(s, t, lo, hi, lo', hi');
    OuterKept(s, t, first, last, lo, hi, cmp);
    HalfDone(t, first, last, lo, i, hi, left, cmp);
  }

  lemma Widen<T>(s: seq<T>, t: seq<T>, lo: int, hi: int, lo': int, hi': int)
    requires Rearranged(s, t, lo', hi') && lo <= lo' && hi' <= hi
    ensures Rearranged(s, t, lo, hi)
  {
  }

  /** `qsort` */
  method QSort<T(!new)>(a: array<T>, cmp: (T, T) -> int)
    requires Comparison(cmp)
    modifies a
    ensures multiset(a[..]) == multiset(old(a[..]))
    ensures forall k, m :: 0 <= k < m < a.Length ==> cmp(a[k], a[m]) <= 0
  {
    ghost var depth := Sort(a, 0, a.Length - 1, cmp);
  }
}
