/** Dense real linear algebra shared by every step of the model: vectors,
    matrices and order-3 tensors as nested sequences of reals, finite sums,
    and permutations of an index range. */
module LinAlg {

  type Vector = seq<real>
  type Matrix = seq<seq<real>>
  type Tensor = seq<Matrix>

  /** `m` has shape (rows, cols). */
  predicate IsMatrix(m: Matrix, rows: nat, cols: nat) {
    |m| == rows && forall i :: 0 <= i < rows ==> |m[i]| == cols
  }

  /** `x` has shape (a, b, c). */
  predicate IsTensor(x: Tensor, a: nat, b: nat, c: nat) {
    |x| == a && forall i :: 0 <= i < a ==> IsMatrix(x[i], b, c)
  }

  function Abs(x: real): (r: real)
    ensures 0.0 <= r && (r == x || r == -x)
  {
    if x < 0.0 then -x else x
  }

  /** The sum of all entries, added from the front. */
  function Sum(s: seq<real>): real {
    if s == [] then 0.0 else Sum(s[..|s| - 1]) + s[|s| - 1]
  }

  function Square(x: real): real {
    x * x
  }

  function Squares(v: Vector): (r: Vector)
    ensures |r| == |v| && forall i :: 0 <= i < |v| ==> r[i] == Square(v[i])
  {
    seq(|v|, i requires 0 <= i < |v| => Square(v[i]))
  }

  /** Squared Euclidean norm. */
  function SumSquares(v: Vector): real {
    Sum(Squares(v))
  }

  function DivideBy(v: Vector, n: real): (r: Vector)
    requires n != 0.0
    ensures |r| == |v| && forall i :: 0 <= i < |v| ==> r[i] == v[i] / n
  {
    seq(|v|, i requires 0 <= i < |v| => v[i] / n)
  }

  /** Column `c` of `m`, as a vector with one entry per row. */
  function Column(m: Matrix, c: nat): (r: Vector)
    requires forall i :: 0 <= i < |m| ==> c < |m[i]|
    ensures |r| == |m| && forall i :: 0 <= i < |m| ==> r[i] == m[i][c]
  {
    seq(|m|, i requires 0 <= i < |m| => m[i][c])
  }

  /** The transpose of a rows x cols matrix. */
  function Transpose(m: Matrix, rows: nat, cols: nat): (r: Matrix)
    requires IsMatrix(m, rows, cols)
    ensures IsMatrix(r, cols, rows)
    ensures forall i, j :: 0 <= i < cols && 0 <= j < rows ==> r[i][j] == m[j][i]
  {
    seq(cols, i requires 0 <= i < cols => seq(rows, j requires 0 <= j < rows => m[j][i]))
  }

  /** The indices 0, 1, ..., n - 1 in order. */
  function Range(n: nat): (r: seq<nat>)
    ensures |r| == n && forall i :: 0 <= i < n ==> r[i] == i
  {
    seq(n, i requires 0 <= i < n => i as nat)
  }

  /** `p` lists every index below `n` exactly once. */
  predicate IsPermutation(p: seq<nat>, n: nat) {
    |p| == n && (forall k :: 0 <= k < n ==> p[k] < n) && multiset(p) == multiset(Range(n))
  }

  lemma {:induction false} SumConcat(a: seq<real>, b: seq<real>)
    ensures Sum(a + b) == Sum(a) + Sum(b)
  {
    if b == [] {
      assert a + b == a;
    } else {
      assert (a + b)[..|a + b| - 1] == a + b[..|b| - 1];
      SumConcat(a, b[..|b| - 1]);
    }
  }

  lemma {:induction false} SumNonnegative(s: seq<real>)
    requires forall i :: 0 <= i < |s| ==> 0.0 <= s[i]
    ensures 0.0 <= Sum(s)
  {
    if s != [] {
      SumNonnegative(s[..|s| - 1]);
    }
  }

  /** A sum of non-negative terms is zero exactly when every term is zero. */
  lemma {:induction false} SumZero(s: seq<real>)
    requires forall i :: 0 <= i < |s| ==> 0.0 <= s[i]
    ensures Sum(s) == 0.0 <==> forall i :: 0 <= i < |s| ==> s[i] == 0.0
  {
    if s != [] {
      var init := s[..|s| - 1];
      SumZero(init);
      SumNonnegative(init);
      if Sum(s) == 0.0 {
        forall i | 0 <= i < |s| ensures s[i] == 0.0 {
          if i < |s| - 1 { assert s[i] == init[i]; }
        }
      }
    }
  }

  /** A square is non-negative, and positive away from zero. */
  lemma SquareSign(x: real)
    ensures 0.0 <= Square(x)
    ensures x != 0.0 ==> 0.0 < Square(x)
  {
    if x > 0.0 {
      calc { Square(x); x * x; > { assert x * x > 0.0; } 0.0; }
    } else if x < 0.0 {
      calc { Square(x); x * x; (-x) * (-x); > { assert (-x) * (-x) > 0.0; } 0.0; }
    }
  }

  /** A squared norm is non-negative, and zero exactly on the zero vector. */
  lemma SumSquaresZero(v: Vector)
    ensures 0.0 <= SumSquares(v)
    ensures SumSquares(v) == 0.0 <==> forall i :: 0 <= i < |v| ==> v[i] == 0.0
  {
    var q := Squares(v);
    forall i | 0 <= i < |v| ensures 0.0 <= q[i] && (v[i] != 0.0 ==> 0.0 < q[i]) {
      SquareSign(v[i]);
    }
    SumNonnegative(q);
    SumZero(q);
  }

  lemma {:induction false} SumSquaresDivided(v: Vector, n: real)
    requires n != 0.0
    ensures SumSquares(DivideBy(v, n)) * Square(n) == SumSquares(v)
  {
    if v != [] {
      var m := |v|;
      var w := DivideBy(v, n);
      var w' := DivideBy(v[..m - 1], n);
      forall i | 0 <= i < m - 1 ensures Squares(w)[i] == Squares(w')[i] {
        assert w[i] == w'[i];
      }
      assert Squares(w)[..m - 1] == Squares(w');
      forall i | 0 <= i < m - 1 ensures Squares(v)[i] == Squares(v[..m - 1])[i] {
        assert v[i] == v[..m - 1][i];
      }
      assert Squares(v)[..m - 1] == Squares(v[..m - 1]);
      SumSquaresDivided(v[..m - 1], n);
      QuotientSquared(v[m - 1], n);
      var sw, lw := SumSquares(w'), Square(w[m - 1]);
      assert (sw + lw) * Square(n) == sw * Square(n) + lw * Square(n);
    }
  }

  lemma SquareOfProduct(a: real, n: real)
    ensures Square(a * n) == Square(a) * Square(n)
  {
    calc {
      Square(a * n);
      (a * n) * (a * n);
      (a * a) * (n * n);
      Square(a) * Square(n);
    }
  }

  lemma QuotientSquared(x: real, n: real)
    requires n != 0.0
    ensures Square(x / n) * Square(n) == Square(x)
  {
    var a := x / n;
    assert a * n == x;
    SquareOfProduct(a, n);
  }

  /** `a * c == c` with `c` nonzero forces `a == 1`. */
  lemma OneFromProduct(a: real, c: real)
    requires c != 0.0 && a * c == c
    ensures a == 1.0
  {
    assert (a - 1.0) * c == 0.0;
  }

  lemma RangeBound(n: nat, x: nat)
    requires x in multiset(Range(n))
    ensures x < n
  {
    assert x in Range(n);
  }

  /** Taking out the element at `j` removes one copy of it from the multiset. */
  lemma RemoveAt(p: seq<nat>, j: nat)
    requires j < |p|
    ensures multiset(p[..j] + p[j + 1..]) == multiset(p) - multiset{p[j]}
  {
    assert p == p[..j] + [p[j]] + p[j + 1..];
  }

  /** Where a permutation of `0..n-1` puts `n - 1`, and what is left without it. */
  lemma FindLast(p: seq<nat>, n: nat) returns (j: nat)
    requires n > 0 && IsPermutation(p, n)
    ensures j < n && p[j] == n - 1
    ensures IsPermutation(p[..j] + p[j + 1..], n - 1)
    ensures forall k :: 0 <= k < n && k != j ==> p[k] < n - 1
  {
    j := LastPosition(p, n);
    var q := p[..j] + p[j + 1..];
    WithoutLast(p, n, j);
    RemovalBound(p, j, q, n - 1);
  }

  lemma LastPosition(p: seq<nat>, n: nat) returns (j: nat)
    requires n > 0 && IsPermutation(p, n)
    ensures j < n && p[j] == n - 1
  {
    var last: nat := n - 1;
    assert Range(n)[last] == last;
    assert last in multiset(Range(n));
    assert last in multiset(p);
    j :| 0 <= j < n && p[j] == last;
  }

  lemma WithoutLast(p: seq<nat>, n: nat, j: nat)
    requires n > 0 && IsPermutation(p, n) && j < n && p[j] == n - 1
    ensures IsPermutation(p[..j] + p[j + 1..], n - 1)
  {
    RemoveAt(p, j);
    Shrink(multiset(p), p[..j] + p[j + 1..], n, p[j]);
  }

  /** A sequence holding the multiset of `0..n-1` less `x` = n-1 is a
      permutation of `0..n-2`. */
  lemma Shrink(whole: multiset<nat>, q: seq<nat>, n: nat, x: nat)
    requires whole == multiset(Range(n)) && x + 1 == n && multiset(q) == whole - multiset{x}
    ensures IsPermutation(q, x)
  {
    DropLast(whole, multiset(q), n, x);
    PermutationOfRange(q, x);
  }

  /** Removing `x` = n-1 from the multiset of `0..n-1` leaves that of `0..n-2`. */
  lemma DropLast(whole: multiset<nat>, rest: multiset<nat>, n: nat, x: nat)
    requires whole == multiset(Range(n)) && x + 1 == n && rest == whole - multiset{x}
    ensures rest == multiset(Range(x))
  {
    RangeLast(x);
  }

  /** A sequence with the multiset of `0..n-1` is a permutation of it. */
  lemma PermutationOfRange(q: seq<nat>, n: nat)
    requires multiset(q) == multiset(Range(n))
    ensures IsPermutation(q, n)
  {
    assert |q| == |multiset(q)| == |multiset(Range(n))| == |Range(n)|;
    MultisetBound(q, n);
  }

  /** A sequence with the multiset of `0..n-1` has every element below `n`. */
  lemma MultisetBound(q: seq<nat>, n: nat)
    requires multiset(q) == multiset(Range(n))
    ensures forall k :: 0 <= k < |q| ==> q[k] < n
  {
    forall k | 0 <= k < |q| ensures q[k] < n {
      assert q[k] in multiset(q);
      RangeBound(n, q[k]);
    }
  }

  /** Taking `n` out of the indices 0..n leaves the indices 0..n-1. */
  lemma RangeLast(n: nat)
    ensures multiset(Range(n + 1)) - multiset{n} == multiset(Range(n))
  {
    assert Range(n + 1) == Range(n) + [n];
  }

  lemma RemovalBound(p: seq<nat>, j: nat, q: seq<nat>, b: nat)
    requires j < |p| && q == p[..j] + p[j + 1..]
    requires forall k :: 0 <= k < |q| ==> q[k] < b
    ensures forall k :: 0 <= k < |p| && k != j ==> p[k] < b
  {
    forall k | 0 <= k < |p| && k != j ensures p[k] < b {
      if k < j { assert p[k] == q[k]; } else { assert p[k] == q[k - 1]; }
    }
  }

  /** Dropping position `j` from both the order and the terms keeps them matched. */
  lemma DropMatched(t: seq<real>, p: seq<nat>, u: seq<real>, j: nat)
    requires |p| == |t| == |u| && j < |u|
    requires forall k :: 0 <= k < |p| && k != j ==> p[k] < |t| - 1
    requires forall k :: 0 <= k < |u| ==> p[k] < |t| && u[k] == t[p[k]]
    ensures var q, u' := p[..j] + p[j + 1..], u[..j] + u[j + 1..];
      forall k :: 0 <= k < |u'| ==> q[k] < |t| - 1 && u'[k] == t[..|t| - 1][q[k]]
  {
    var q, u' := p[..j] + p[j + 1..], u[..j] + u[j + 1..];
    forall k | 0 <= k < |u'| ensures q[k] < |t| - 1 && u'[k] == t[..|t| - 1][q[k]] {
      if k < j {
        assert u'[k] == u[k] && q[k] == p[k];
      } else {
        assert u'[k] == u[k + 1] && q[k] == p[k + 1];
      }
    }
  }

  /** A permutation of `0..n-1` and a sequence matching `t` through it. */
  lemma Reindexed(t: seq<real>, q: seq<nat>, u: seq<real>, n: nat)
    requires IsPermutation(q, n) && |t| == n && |u| == n
    requires forall k :: 0 <= k < |u| ==> u[k] == t[q[k]]
    ensures Reindexes(t, q, u)
  {
  }

  /** `u` lists the terms of `t` in the order `p`. */
  predicate Reindexes(t: seq<real>, p: seq<nat>, u: seq<real>) {
    IsPermutation(p, |t|) && |u| == |t| && forall k :: 0 <= k < |u| ==> u[k] == t[p[k]]
  }

  /** Summing the terms of `t` in the order `p` gives the same total. */
  lemma {:induction false} SumReindex(t: seq<real>, p: seq<nat>, u: seq<real>)
    requires Reindexes(t, p, u)
    ensures Sum(u) == Sum(t)
    decreases |t|
  {
    if |t| > 0 {
      var j := DropLastTerm(t, p, u);
      SumReindex(t[..|t| - 1], p[..j] + p[j + 1..], u[..j] + u[j + 1..]);
      SumStep(t, u, j);
    } else {
      assert u == [] && t == [];
    }
  }

  /** Where `u` holds the term that `p` maps to the last of `t`; without it,
      `u` lists `t` without its last term in the order `p` without `n - 1`. */
  lemma DropLastTerm(t: seq<real>, p: seq<nat>, u: seq<real>) returns (j: nat)
    requires 0 < |t| && Reindexes(t, p, u)
    ensures j < |u| && u[j] == t[|t| - 1]
    ensures Reindexes(t[..|t| - 1], p[..j] + p[j + 1..], u[..j] + u[j + 1..])
  {
    j := FindLast(p, |t|);
    DropMatched(t, p, u, j);
    Reindexed(t[..|t| - 1], p[..j] + p[j + 1..], u[..j] + u[j + 1..], |t| - 1);
  }

  /** If `u` without its term at `j` sums like `t` without its last term,
      and that term of `u` is the last of `t`, the two sums agree. */
  lemma SumStep(t: seq<real>, u: seq<real>, j: nat)
    requires 0 < |t| && j < |u| && u[j] == t[|t| - 1]
    requires Sum(u[..j] + u[j + 1..]) == Sum(t[..|t| - 1])
    ensures Sum(u) == Sum(t)
  {
    SumSplit(u, j);
  }

  /** Taking out the term at `j` lowers the sum by that term. */
  lemma SumSplit(u: seq<real>, j: nat)
    requires j < |u|
    ensures Sum(u) == Sum(u[..j] + u[j + 1..]) + u[j]
  {
    var front := u[..j + 1];
    assert front + u[j + 1..] == u;
    SumConcat(front, u[j + 1..]);
    assert front[..j] == u[..j];
    SumConcat(u[..j], u[j + 1..]);
  }
}
