/** Rectangular assignment by padding to a square: what an optimal permutation of
    the padded matrix says about the real cells. */
module Solve {
  import opened Common
  import opened Assignment
  import Hungarian

  const PADDING := 1_000_000.0

  /** Every row is at least as long as the first; the solver reads no further. */
  predicate Rectangular(c: Matrix) {
    forall i | 0 <= i < |c| :: |c[i]| >= |c[0]|
  }

  function Width(c: Matrix): nat {
    if c == [] then 0 else |c[0]|
  }

  function Size(c: Matrix): nat {
    Max(|c|, Width(c))
  }

  /** The cell of the padded matrix. */
  function Cell(c: Matrix, i: nat, j: nat, pad: real): real
    requires Rectangular(c)
  {
    if i < |c| && j < Width(c) then c[i][j] else pad
  }

  ghost predicate Padded(c: Matrix, square: Matrix, pad: real)
    requires Rectangular(c)
  {
    && Square(square, Size(c))
    && forall i, j | 0 <= i < Size(c) && 0 <= j < Size(c) :: square[i][j] == Cell(c, i, j, pad)
  }

  type Partial = seq<Option<nat>>

  /** Each row of c has at most one of its columns, each column at most one row. */
  ghost predicate PartialAssignment(c: Matrix, t: Partial) {
    && |t| == |c|
    && (forall i | 0 <= i < |t| && t[i].Some? :: t[i].value < Width(c))
    && (forall i, j | 0 <= i < j < |t| && t[i].Some? && t[j].Some? :: t[i].value != t[j].value)
  }

  function Count(t: Partial): nat {
    if t == [] then 0 else Count(t[..|t| - 1]) + if t[|t| - 1].Some? then 1 else 0
  }

  /** The cost of the real cells that t uses. */
  function PartialCost(c: Matrix, t: Partial): real
    requires |t| <= |c| && Rectangular(c)
    requires forall i | 0 <= i < |t| && t[i].Some? :: t[i].value < Width(c)
  {
    if t == [] then 0.0
    else
      var k := |t| - 1;
      assert |c[k]| >= |c[0]| == Width(c);
      assert t[k].Some? ==> t[k].value < Width(c);
      PartialCost(c, t[..k]) + if t[k].Some? then c[k][t[k].value] else 0.0
  }

  /** The result of `Solve` as its documentation promises it. */
  ghost predicate OptimalPartial(c: Matrix, t: Partial)
    requires Rectangular(c)
  {
    && PartialAssignment(c, t)
    && Count(t) == Min(|c|, Width(c))
    && forall s | PartialAssignment(c, s) && Count(s) == Count(t) :: PartialCost(c, t) <= PartialCost(c, s)
  }

  /** The first n rows of s, with padding columns dropped. */
  function Unpad(s: seq<nat>, n: nat, m: nat): (t: Partial)
    requires n <= |s|
    ensures |t| == n
  {
    seq(n, i requires 0 <= i < n => if s[i] < m then Some(s[i]) else None)
  }

  lemma UnpadPrefix(s: seq<nat>, n: nat, m: nat)
    requires 1 <= n <= |s|
    ensures Unpad(s, n, m)[..n - 1] == Unpad(s, n - 1, m)
  {
  }

  function Times(pad: real, k: nat): real {
    if k == 0 then 0.0 else Times(pad, k - 1) + pad
  }

  /** Over k rows, the padded cost is the real cost plus one padding constant for
      every row that has no real cell. */
  lemma {:induction false} PaddedTotal(c: Matrix, square: Matrix, pad: real, s: seq<nat>, k: nat)
    requires Rectangular(c) && Padded(c, square, pad) && |s| == Size(c) && Below(s, Size(c)) && k <= |s|
    ensures var n := Min(k, |c|);
            var t := Unpad(s, n, Width(c));
            Count(t) <= k && Total(square, s[..k]) == PartialCost(c, t) + Times(pad, k - Count(t))
  {
    if k > 0 {
      PaddedTotal(c, square, pad, s, k - 1);
      assert s[..k][..k - 1] == s[..k - 1];
      assert square[k - 1][s[k - 1]] == Cell(c, k - 1, s[k - 1], pad);
      if k <= |c| {
        UnpadPrefix(s, k, Width(c));
      }
    }
  }

  /** Counting the rows with a real column is summing an indicator over columns. */
  lemma {:induction false} CountIsGather(s: seq<nat>, n: nat, m: nat, ones: seq<real>)
    requires n <= |s| && Below(s, |ones|)
    requires forall j | 0 <= j < |ones| :: ones[j] == if j < m then 1.0 else 0.0
    ensures Count(Unpad(s, n, m)) as real == Gather(ones, s[..n])
  {
    if n > 0 {
      CountIsGather(s, n - 1, m, ones);
      UnpadPrefix(s, n, m);
      assert s[..n][..n - 1] == s[..n - 1];
    }
  }

  lemma {:induction false} SumOfOnes(m: nat, ones: seq<real>)
    requires forall j | 0 <= j < |ones| :: ones[j] == if j < m then 1.0 else 0.0
    ensures Sum(ones) == Min(m, |ones|) as real
  {
    if ones != [] {
      SumOfOnes(m, ones[..|ones| - 1]);
    }
  }

  /** Every permutation of the padded square uses the same number of real cells. */
  lemma RealCells(s: seq<nat>, n: nat, m: nat)
    requires Permutation(s, Max(n, m))
    ensures Count(Unpad(s, n, m)) == Min(n, m)
  {
    var size := Max(n, m);
    var ones := seq(size, j requires 0 <= j < size => if j < m then 1.0 else 0.0);
    CountIsGather(s, n, m, ones);
    if n == size {
      assert s[..n] == s;
      GatherPermutation(ones, s);
      SumOfOnes(m, ones);
    } else {
      AllReal(s, n, m);
    }
  }

  lemma {:induction false} AllReal(s: seq<nat>, n: nat, m: nat)
    requires n <= |s| && Below(s, m)
    ensures Count(Unpad(s, n, m)) == n
  {
    if n > 0 {
      AllReal(s, n - 1, m);
      UnpadPrefix(s, n, m);
    }
  }

  lemma UnpadIsPartial(c: Matrix, s: seq<nat>)
    requires Permutation(s, Size(c))
    ensures PartialAssignment(c, Unpad(s, |c|, Width(c)))
  {
  }

  /** s completes t: it agrees with t wherever t has a column. */
  ghost predicate Completes(s: seq<nat>, t: Partial) {
    |t| <= |s| && forall i | 0 <= i < |t| && t[i].Some? :: s[i] == t[i].value
  }

  /** Columns taken by the first k rows of s or by the later rows of t. */
  lemma {:induction false} Complete(t: Partial, n: nat, k: nat, s: seq<nat>) returns (r: seq<nat>)
    requires |t| <= n && k == |s| <= n
    requires forall i | 0 <= i < |t| && t[i].Some? :: t[i].value < n
    requires forall i, j | 0 <= i < j < |t| && t[i].Some? && t[j].Some? :: t[i].value != t[j].value
    requires Distinct(s) && Below(s, n)
    requires forall i | 0 <= i < k && i < |t| && t[i].Some? :: s[i] == t[i].value
    requires forall i, j | 0 <= i < k && k <= j < |t| && t[j].Some? :: s[i] != t[j].value
    ensures Permutation(r, n) && Completes(r, t)
    decreases n - k
  {
    if k == n {
      r := s;
    } else if k < |t| && t[k].Some? {
      r := Complete(t, n, k + 1, s + [t[k].value]);
    } else {
      var x := FreshColumn(t, n, k, s);
      r := Complete(t, n, k + 1, s + [x]);
    }
  }

  /** The columns of the rows k.. of t, in order. */
  function Rest(t: Partial, k: nat): seq<nat>
    decreases |t| - k
  {
    if k >= |t| then [] else (if t[k].Some? then [t[k].value] else []) + Rest(t, k + 1)
  }

  lemma {:induction false} RestIs(t: Partial, n: nat, k: nat)
    requires forall i | 0 <= i < |t| && t[i].Some? :: t[i].value < n
    requires forall i, j | 0 <= i < j < |t| && t[i].Some? && t[j].Some? :: t[i].value != t[j].value
    ensures |Rest(t, k)| <= if k < |t| then |t| - k else 0
    ensures Distinct(Rest(t, k)) && Below(Rest(t, k), n)
    ensures forall x | x in Rest(t, k) :: exists i | k <= i < |t| :: t[i] == Some(x)
    ensures forall i | k <= i < |t| && t[i].Some? :: t[i].value in Rest(t, k)
    decreases |t| - k
  {
    if k < |t| {
      RestIs(t, n, k + 1);
    }
  }

  lemma FreshColumn(t: Partial, n: nat, k: nat, s: seq<nat>) returns (x: nat)
    requires |t| <= n && k == |s| < n
    requires forall i | 0 <= i < |t| && t[i].Some? :: t[i].value < n
    requires forall i, j | 0 <= i < j < |t| && t[i].Some? && t[j].Some? :: t[i].value != t[j].value
    requires k < |t| ==> t[k].None?
    ensures x < n && x !in s
    ensures forall j | k <= j < |t| && t[j].Some? :: t[j].value != x
  {
    RestIs(t, n, k + 1);
    var taken := s + Rest(t, k + 1);
    x := Missing(taken, n);
  }

  /** Fewer than n numbers leave one below n out. */
  lemma {:induction false} Missing(s: seq<nat>, n: nat) returns (x: nat)
    requires |s| < n
    ensures x < n && x !in s
  {
    if k :| 0 <= k < |s| && s[k] == n - 1 {
      x := Missing(Without(s, k), n - 1);
    } else {
      x := n - 1;
    }
  }

  /** A completion that has no more real cells than t has the same ones. */
  lemma {:induction false} SameCells(c: Matrix, t: Partial, r: Partial, k: nat)
    requires Rectangular(c) && |t| == |r| == |c| && k <= |c|
    requires forall i | 0 <= i < |c| && t[i].Some? :: r[i] == t[i] && t[i].value < Width(c)
    requires forall i | 0 <= i < |c| && r[i].Some? :: r[i].value < Width(c)
    ensures Count(t[..k]) <= Count(r[..k])
    ensures Count(t[..k]) == Count(r[..k]) ==> PartialCost(c, t[..k]) == PartialCost(c, r[..k])
  {
    if k > 0 {
      SameCells(c, t, r, k - 1);
      assert t[..k][..k - 1] == t[..k - 1] && r[..k][..k - 1] == r[..k - 1];
    }
  }

  /** Dropping the padding from an optimal permutation leaves an assignment of
      min(n, m) rows that no other such assignment beats, whatever the padding costs. */
  lemma UnpadIsOptimal(c: Matrix, square: Matrix, pad: real, s: seq<nat>)
    requires Rectangular(c) && Padded(c, square, pad) && Optimal(square, s)
    ensures OptimalPartial(c, Unpad(s, |c|, Width(c)))
  {
    var n, m := |c|, Width(c);
    var t := Unpad(s, n, m);
    UnpadIsPartial(c, s);
    RealCells(s, n, m);
    PaddedTotal(c, square, pad, s, |s|);
    assert s[..|s|] == s;
    forall q | PartialAssignment(c, q) && Count(q) == Count(t) ensures PartialCost(c, t) <= PartialCost(c, q) {
      var r := CompleteCost(c, square, pad, q);
    }
  }

  /** Any assignment of min(n, m) rows costs what its completion costs, less the padding. */
  lemma CompleteCost(c: Matrix, square: Matrix, pad: real, q: Partial) returns (r: seq<nat>)
    requires Rectangular(c) && Padded(c, square, pad)
    requires PartialAssignment(c, q) && Count(q) == Min(|c|, Width(c))
    ensures Permutation(r, Size(c))
    ensures Total(square, r) == PartialCost(c, q) + Times(pad, Size(c) - Count(q))
  {
    hide Count, Total, PartialCost, Times;
    var n, m := |c|, Width(c);
    r := Complete(q, Size(c), 0, []);
    var t := Unpad(r, n, m);
    RealCells(r, n, m);
    PaddedTotal(c, square, pad, r, |r|);
    assert r[..|r|] == r;
    SameCells(c, q, t, n);
    assert q[..n] == q && t[..n] == t;
  }

  /** Optimal assignment of the rows of a rectangular matrix to its columns. */
  method Solve(costMatrix: Matrix) returns (result: Partial)
    requires Rectangular(costMatrix)
    ensures OptimalPartial(costMatrix, result)
  {
    var n := |costMatrix|;
    if n == 0 {
      return [];
    }
    var m := |costMatrix[0]|;
    if m == 0 {
      result := seq(n, _ => None);
      AllNone(costMatrix, result);
      return;
    }
    var size := Max(n, m);
    var matrix := seq(size, i requires 0 <= i < size =>
      seq(size, j requires 0 <= j < size => Cell(costMatrix, i, j, PADDING)));
    var assignment := Hungarian.Hungarian(matrix);
    result := [];
    for i := 0 to n
      invariant result == Unpad(assignment, i, m)
    {
      if assignment[i] < m {
        result := result + [Some(assignment[i])];
      } else {
        result := result + [None];
      }
    }
    UnpadIsOptimal(costMatrix, matrix, PADDING, assignment);
  }

  lemma {:induction false} NoneCosts(c: Matrix, t: Partial)
    requires Rectangular(c) && |t| <= |c| && forall i | 0 <= i < |t| :: t[i].None?
    ensures Count(t) == 0 && PartialCost(c, t) == 0.0
  {
    if t != [] {
      NoneCosts(c, t[..|t| - 1]);
    }
  }

  lemma AllNone(c: Matrix, t: Partial)
    requires Rectangular(c) && Width(c) == 0 && |t| == |c|
    requires forall i | 0 <= i < |t| :: t[i].None?
    ensures OptimalPartial(c, t)
  {
    NoneCosts(c, t);
    forall s | PartialAssignment(c, s) && Count(s) == Count(t) ensures PartialCost(c, t) <= PartialCost(c, s) {
      NoneCosts(c, s);
    }
  }
}
