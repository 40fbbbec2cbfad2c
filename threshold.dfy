/** The hard-thresholding part of the sparse dictionary step: an ascending
    argsort of each row's magnitudes, the number of leading positions the
    slice `index[:, 0:s_k]` selects, and the zeroing of those positions. */
module Threshold {
  import opened LinAlg
  import opened Validation

  /** The order lists positions of `key` by non-decreasing magnitude. */
  predicate SortedBy(key: Vector, order: seq<nat>)
    requires forall p :: 0 <= p < |order| ==> order[p] < |key|
  {
    forall p, q :: 0 <= p < q < |order| ==> Abs(key[order[p]]) <= Abs(key[order[q]])
  }

  /** `order` is a valid `np.argsort(np.abs(row))`: a permutation of the
      positions of `key`, ascending in magnitude. Ties may come in any order. */
  predicate IsArgSort(key: Vector, order: seq<nat>) {
    IsPermutation(order, |key|) && SortedBy(key, order)
  }

  /** Puts position `i` into the ascending `order`, after every position of
      no larger magnitude. */
  function Insert(key: Vector, i: nat, order: seq<nat>): (r: seq<nat>)
    requires i < |key| && forall p :: 0 <= p < |order| ==> order[p] < |key|
    ensures |r| == |order| + 1 && multiset(r) == multiset(order) + multiset{i}
    ensures forall p :: 0 <= p < |r| ==> r[p] == i || r[p] in order
    ensures forall p :: 0 <= p < |r| ==> r[p] < |key|
    decreases |order|
  {
    if order == [] then [i]
    else if Abs(key[i]) < Abs(key[order[0]]) then [i] + order
    else
      assert order == [order[0]] + order[1..];
      [order[0]] + Insert(key, i, order[1..])
  }

  /** In an ascending order, the head is no larger than anything after it. */
  lemma HeadSmallest(key: Vector, order: seq<nat>)
    requires order != [] && forall p :: 0 <= p < |order| ==> order[p] < |key|
    requires SortedBy(key, order)
    ensures forall x :: x in order[1..] ==> Abs(key[order[0]]) <= Abs(key[x])
  {
    forall x | x in order[1..] ensures Abs(key[order[0]]) <= Abs(key[x]) {
      var p :| 0 <= p < |order[1..]| && order[1..][p] == x;
      assert order[p + 1] == x;
    }
  }

  lemma {:induction false} InsertSorted(key: Vector, i: nat, order: seq<nat>)
    requires i < |key| && forall p :: 0 <= p < |order| ==> order[p] < |key|
    requires SortedBy(key, order)
    ensures SortedBy(key, Insert(key, i, order))
    decreases |order|
  {
    if order != [] && Abs(key[order[0]]) <= Abs(key[i]) {
      var tail := order[1..];
      assert SortedBy(key, tail) by {
        forall p, q | 0 <= p < q < |tail| ensures Abs(key[tail[p]]) <= Abs(key[tail[q]]) {
          assert tail[p] == order[p + 1] && tail[q] == order[q + 1];
        }
      }
      InsertSorted(key, i, tail);
      HeadSmallest(key, order);
      var rest := Insert(key, i, tail);
      assert Insert(key, i, order) == [order[0]] + rest;
    }
  }

  /** A stable ascending argsort of the magnitudes of the first `n` entries. */
  function ArgSortPrefix(key: Vector, n: nat): (r: seq<nat>)
    requires n <= |key|
    ensures |r| == n && multiset(r) == multiset(Range(n))
    ensures forall p :: 0 <= p < n ==> r[p] < n
  {
    if n == 0 then []
    else
      var r := Insert(key, n - 1, ArgSortPrefix(key, n - 1));
      assert Range(n) == Range(n - 1) + [n - 1];
      r
  }

  function ArgSort(key: Vector): seq<nat> {
    ArgSortPrefix(key, |key|)
  }

  lemma {:induction false} ArgSortPrefixSorted(key: Vector, n: nat)
    requires n <= |key|
    ensures SortedBy(key, ArgSortPrefix(key, n))
  {
    if n > 0 {
      ArgSortPrefixSorted(key, n - 1);
      ArgSortPrefixStep(key, n);
    } else {
      assert ArgSortPrefix(key, n) == [];
    }
  }

  /** Inserting entry n - 1 into a sorted argsort of the first n - 1 entries
      keeps it sorted. */
  lemma ArgSortPrefixStep(key: Vector, n: nat)
    requires 0 < n <= |key| && SortedBy(key, ArgSortPrefix(key, n - 1))
    ensures SortedBy(key, ArgSortPrefix(key, n))
  {
    var prev := ArgSortPrefix(key, n - 1);
    assert ArgSortPrefix(key, n) == Insert(key, n - 1, prev);
    InsertSorted(key, n - 1, prev);
  }

  /** The argsort used by the model is a valid `np.argsort` of the magnitudes. */
  lemma ArgSortCorrect(key: Vector)
    ensures IsArgSort(key, ArgSort(key))
  {
    ArgSortPrefixSorted(key, |key|);
  }

  /** How many leading positions of each row's argsort are zeroed, for a row
      of `cols` entries and s_k = `count`. `np.repeat` refuses a negative
      count; otherwise the slice `0:s_k` keeps min(s_k, cols) positions, and
      the (K, s_k) row indices must broadcast against those (K, min) columns. */
  function ZeroCount(cols: nat, count: int): (r: Result<nat>)
    ensures r.Success? ==> r.value <= cols
    ensures 0 <= count <= cols ==> r == Success(count)
    ensures count < 0 <==> r == Failure(NegativeRepeat(count))
    ensures count > cols ==> (r.Success? <==> cols == 1 || (cols == 0 && count == 1))
    ensures count > cols && r.Success? ==> r.value == cols
  {
    if count < 0 then Failure(NegativeRepeat(count))
    else
      var selected := if count < cols then count else cols;
      if count == selected || selected == 1 || count == 1 then Success(selected)
      else Failure(IndexShapeMismatch)
  }

  /** With s_k = D - k_sparse over rows of D entries: 0 <= k_sparse <= D zeroes
      D - k_sparse entries (none when k_sparse == D), and k_sparse > D fails
      in `np.repeat`. */
  lemma ZeroCountForSparsity(d: nat, kSparse: int)
    ensures 0 <= kSparse <= d ==> ZeroCount(d, d - kSparse) == Success(d - kSparse as nat)
    ensures kSparse == d ==> ZeroCount(d, d - kSparse) == Success(0)
    ensures kSparse > d ==> ZeroCount(d, d - kSparse).Failure?
  {
  }

  /** `new_dictionary[index_x, index_y] = 0.` for one row: the first `z`
      positions of `order` become 0, the others keep their value. */
  function HardThreshold(row: Vector, order: seq<nat>, z: nat): (r: Vector)
    requires z <= |order|
    ensures |r| == |row|
  {
    seq(|row|, i requires 0 <= i < |row| => if i in order[..z] then 0.0 else row[i])
  }

  lemma {:induction false} RangeCount(n: nat, x: nat)
    ensures multiset(Range(n))[x] <= 1
    ensures x >= n ==> multiset(Range(n))[x] == 0
  {
    if n > 0 {
      assert Range(n) == Range(n - 1) + [n - 1];
      RangeCount(n - 1, x);
    }
  }

  /** A permutation never lists a position twice. */
  lemma PermutationDistinct(p: seq<nat>, n: nat, a: nat, b: nat)
    requires IsPermutation(p, n) && a < b < n
    ensures p[a] != p[b]
  {
    var q := p[..a] + p[a + 1..];
    RemoveAt(p, a);
    assert q[b - 1] == p[b];
    assert p[b] in multiset(q);
    RangeCount(n, p[a]);
  }

  /** Every position below `n` appears in a permutation of 0..n-1. */
  lemma PermutationCovers(p: seq<nat>, n: nat, i: nat) returns (at: nat)
    requires IsPermutation(p, n) && i < n
    ensures at < n && p[at] == i
  {
    assert Range(n)[i] == i;
    assert i in multiset(Range(n));
    assert i in multiset(p);
    at :| 0 <= at < n && p[at] == i;
  }

  /** Along the order, the first `z` positions are zeroed and the rest keep
      the values they had. */
  lemma ThresholdAlongOrder(row: Vector, order: seq<nat>, z: nat)
    requires IsPermutation(order, |row|) && z <= |row|
    ensures forall p :: 0 <= p < z ==> HardThreshold(row, order, z)[order[p]] == 0.0
    ensures forall p :: z <= p < |row| ==> HardThreshold(row, order, z)[order[p]] == row[order[p]]
  {
    var r := HardThreshold(row, order, z);
    forall p | z <= p < |row| ensures r[order[p]] == row[order[p]] {
      forall q | 0 <= q < z ensures order[q] != order[p] {
        PermutationDistinct(order, |row|, q, p);
      }
    }
  }

  /** A position keeps its value exactly when it lies outside the first `z`
      of the order. */
  lemma ThresholdKept(row: Vector, order: seq<nat>, z: nat, i: nat) returns (at: nat)
    requires IsPermutation(order, |row|) && z <= |row| && i < |row|
    ensures at < |row| && order[at] == i
    ensures i in order[..z] <==> at < z
  {
    at := PermutationCovers(order, |row|, i);
    if i in order[..z] {
      var q :| 0 <= q < z && order[q] == i;
      if q != at {
        if q < at { PermutationDistinct(order, |row|, q, at); } else { PermutationDistinct(order, |row|, at, q); }
      }
    }
  }

  function Elements(s: seq<nat>): set<nat> {
    set x | x in s
  }

  /** The positions of the nonzero entries of `v`. */
  function Support(v: Vector): set<nat> {
    set i: nat | i < |v| && v[i] != 0.0
  }

  /** Every row of `m` has at most `bound` nonzero entries. */
  predicate RowsAtMost(m: Matrix, bound: int) {
    forall k :: 0 <= k < |m| ==> |Support(m[k])| <= bound
  }

  lemma {:induction false} ElementsSize(s: seq<nat>)
    ensures |Elements(s)| <= |s|
  {
    if s != [] {
      var init, last := s[..|s| - 1], s[|s| - 1];
      ElementsSize(init);
      assert s == init + [last];
      assert Elements(s) == Elements(init) + {last};
      if last in Elements(init) {
        assert Elements(s) == Elements(init);
      }
    }
  }

  lemma {:induction false} SubsetSize(a: set<nat>, b: set<nat>)
    requires a <= b
    ensures |a| <= |b|
    decreases a
  {
    if a != {} {
      var x :| x in a;
      SubsetSize(a - {x}, b - {x});
    }
  }

  /** After thresholding, at most |row| - z entries are nonzero: with
      z = D - k_sparse, at most k_sparse. */
  lemma ThresholdSparsity(row: Vector, order: seq<nat>, z: nat)
    requires IsPermutation(order, |row|) && z <= |row|
    ensures |Support(HardThreshold(row, order, z))| <= |row| - z
  {
    var r := HardThreshold(row, order, z);
    var kept := order[z..];
    forall i | i in Support(r) ensures i in Elements(kept) {
      var at := ThresholdKept(row, order, z, i);
      assert kept[at - z] == i;
    }
    SubsetSize(Support(r), Elements(kept));
    ElementsSize(kept);
  }

  /** For a valid argsort, every zeroed position has a magnitude no larger than
      every position that keeps its value. */
  lemma ThresholdDropsSmallest(row: Vector, order: seq<nat>, z: nat, i: nat, j: nat)
    requires IsArgSort(row, order) && z <= |row| && i < |row| && j < |row|
    requires i in order[..z] && j !in order[..z]
    ensures HardThreshold(row, order, z)[i] == 0.0 && HardThreshold(row, order, z)[j] == row[j]
    ensures Abs(row[i]) <= Abs(row[j])
  {
    var p := ThresholdKept(row, order, z, i);
    var q := ThresholdKept(row, order, z, j);
  }

  /** Zeroing no positions leaves the row as it is. */
  lemma ThresholdNothing(row: Vector, order: seq<nat>)
    ensures HardThreshold(row, order, 0) == row
  {
  }
}
