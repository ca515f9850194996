/** Square cost matrices, permutations and the linear-programming bound that
    makes a feasible pair of potentials a certificate of optimality. */
module Assignment {

  type Matrix = seq<seq<real>>

  predicate Square(c: Matrix, n: nat) {
    |c| == n && forall i | 0 <= i < n :: |c[i]| == n
  }

  predicate Distinct(s: seq<nat>) {
    forall i, j | 0 <= i < j < |s| :: s[i] != s[j]
  }

  predicate Below(s: seq<nat>, n: nat) {
    forall i | 0 <= i < |s| :: s[i] < n
  }

  predicate Permutation(s: seq<nat>, n: nat) {
    |s| == n && Below(s, n) && Distinct(s)
  }

  /** The cost of giving column s[i] to row i, over the first |s| rows. */
  function Total(c: Matrix, s: seq<nat>): real
    requires |s| <= |c|
    requires forall i | 0 <= i < |s| :: s[i] < |c[i]|
  {
    if s == [] then 0.0
    else Total(c, s[..|s| - 1]) + c[|s| - 1][s[|s| - 1]]
  }

  function Sum(v: seq<real>): real {
    if v == [] then 0.0 else Sum(v[..|v| - 1]) + v[|v| - 1]
  }

  /** The sum of v over the indices listed in s. */
  function Gather(v: seq<real>, s: seq<nat>): real
    requires Below(s, |v|)
  {
    if s == [] then 0.0 else Gather(v, s[..|s| - 1]) + v[s[|s| - 1]]
  }

  function Without(s: seq<nat>, k: nat): seq<nat>
    requires k < |s|
  {
    s[..k] + s[k + 1..]
  }

  lemma {:induction false} GatherWithout(v: seq<real>, s: seq<nat>, k: nat)
    requires Below(s, |v|) && k < |s|
    ensures Below(Without(s, k), |v|)
    ensures Gather(v, s) == Gather(v, Without(s, k)) + v[s[k]]
  {
    if k == |s| - 1 {
      assert Without(s, k) == s[..|s| - 1];
    } else {
      var front, w := s[..|s| - 1], Without(s, k);
      GatherWithout(v, front, k);
      assert w[..|w| - 1] == Without(front, k);
    }
  }

  lemma {:induction false} GatherPrefix(v: seq<real>, s: seq<nat>, n: nat)
    requires n <= |v| && Below(s, n)
    ensures Gather(v, s) == Gather(v[..n], s)
  {
    if s != [] {
      GatherPrefix(v, s[..|s| - 1], n);
    }
  }

  /** No more than n distinct numbers lie below n. */
  lemma {:induction false} Pigeonhole(s: seq<nat>, n: nat)
    requires Distinct(s) && Below(s, n)
    ensures |s| <= n
    decreases n
  {
    if s != [] {
      assert s[0] < n;
      if k :| 0 <= k < |s| && s[k] == n - 1 {
        Pigeonhole(Without(s, k), n - 1);
      } else {
        Pigeonhole(s, n - 1);
      }
    }
  }

  lemma {:induction false} PermutationIsOnto(s: seq<nat>, n: nat, j: nat)
    requires Permutation(s, n) && j < n
    ensures j in s
  {
    if j !in s {
      Pigeonhole(s + [j], n);
    }
  }

  /** Summing along a permutation visits every entry once. */
  lemma {:induction false} GatherPermutation(v: seq<real>, s: seq<nat>)
    requires Permutation(s, |v|)
    ensures Gather(v, s) == Sum(v)
  {
    if v != [] {
      var n := |v|;
      PermutationIsOnto(s, n, n - 1);
      var k :| 0 <= k < |s| && s[k] == n - 1;
      var t := Without(s, k);
      GatherWithout(v, s, k);
      assert Permutation(t, n - 1);
      GatherPrefix(v, t, n - 1);
      GatherPermutation(v[..n - 1], t);
    }
  }

  /** Potentials are feasible when no cell costs less than its row's plus its column's. */
  predicate Feasible(c: Matrix, u: seq<real>, v: seq<real>) {
    forall i, j | 0 <= i < |c| && 0 <= j < |c[i]| && i < |u| && j < |v| :: u[i] + v[j] <= c[i][j]
  }

  lemma {:induction false} TotalBound(c: Matrix, u: seq<real>, v: seq<real>, s: seq<nat>)
    requires |s| == |u| <= |c| && Below(s, |v|)
    requires forall i | 0 <= i < |s| :: s[i] < |c[i]|
    requires Feasible(c, u, v)
    ensures Sum(u) + Gather(v, s) <= Total(c, s)
  {
    if s != [] {
      var k := |s| - 1;
      TotalBound(c, u[..k], v, s[..k]);
    }
  }

  lemma {:induction false} TotalTight(c: Matrix, u: seq<real>, v: seq<real>, s: seq<nat>)
    requires |s| == |u| <= |c| && Below(s, |v|)
    requires forall i | 0 <= i < |s| :: s[i] < |c[i]| && c[i][s[i]] == u[i] + v[s[i]]
    ensures Total(c, s) == Sum(u) + Gather(v, s)
  {
    if s != [] {
      var k := |s| - 1;
      TotalTight(c, u[..k], v, s[..k]);
    }
  }

  ghost predicate Optimal(c: Matrix, s: seq<nat>)
    requires Square(c, |c|)
  {
    && Permutation(s, |c|)
    && forall t: seq<nat> | Permutation(t, |c|) :: Total(c, s) <= Total(c, t)
  }

  /** Weak duality: feasible potentials that are tight along a permutation
      prove that no other permutation is cheaper. */
  lemma TightIsOptimal(c: Matrix, u: seq<real>, v: seq<real>, s: seq<nat>)
    requires Square(c, |c|) && |u| == |v| == |c| && Permutation(s, |c|)
    requires Feasible(c, u, v)
    requires forall i | 0 <= i < |c| :: c[i][s[i]] == u[i] + v[s[i]]
    ensures Optimal(c, s)
  {
    TotalTight(c, u, v, s);
    GatherPermutation(v, s);
    forall t: seq<nat> | Permutation(t, |c|) ensures Total(c, s) <= Total(c, t) {
      TotalBound(c, u, v, t);
      GatherPermutation(v, t);
    }
  }
}
