/** The O(n^3) assignment solver. Rows and columns are numbered from 1 inside
    the solver, as in the source; index 0 is the root of the search tree. */
module Hungarian {
  import opened Assignment

  /** An f64 slack, which starts at infinity. */
  datatype Slack = Infinite | Finite(value: real) {
    predicate LessThan(other: Slack) {
      Finite? && (other.Infinite? || value < other.value)
    }

    function Minus(delta: real): Slack {
      if Infinite? then Infinite else Finite(value - delta)
    }
  }

  function At(m: Matrix, r: nat, j: nat): real
    requires Square(m, |m|) && 1 <= r <= |m| && 1 <= j <= |m|
  {
    m[r - 1][j - 1]
  }

  /** Sizes of the working vectors for an n-by-n matrix. */
  ghost predicate Sized(m: Matrix, u: seq<real>, v: seq<real>, p: seq<nat>) {
    && Square(m, |m|)
    && |u| == |v| == |p| == |m| + 1
    && Below(p, |m| + 1)
  }

  ghost predicate Holds(p: seq<nat>, r: nat) {
    exists j | 1 <= j < |p| :: p[j] == r
  }

  /** p gives the rows 1..rows to distinct real columns, one each. */
  ghost predicate Matching(p: seq<nat>, rows: nat) {
    && (forall j | 1 <= j < |p| :: p[j] <= rows)
    && (forall j, k | 1 <= j < k < |p| && p[j] != 0 :: p[j] != p[k])
    && (forall r | 1 <= r <= rows :: Holds(p, r))
  }

  ghost predicate DualFeasible(m: Matrix, u: seq<real>, v: seq<real>, rows: nat)
    requires Square(m, |m|) && |u| == |v| == |m| + 1 && rows <= |m|
  {
    forall r, j | 1 <= r <= rows && 1 <= j <= |m| :: u[r] + v[j] <= At(m, r, j)
  }

  ghost predicate MatchedTight(m: Matrix, u: seq<real>, v: seq<real>, p: seq<nat>)
    requires Sized(m, u, v, p)
  {
    forall j | 1 <= j <= |m| && p[j] != 0 :: u[p[j]] + v[j] == At(m, p[j], j)
  }

  /** What holds between two rounds of the row loop: rows 1..rows are matched,
      the potentials are feasible for them and tight along the matching. */
  ghost predicate Invariant(m: Matrix, u: seq<real>, v: seq<real>, p: seq<nat>, rows: nat) {
    && Sized(m, u, v, p)
    && rows <= |m|
    && Matching(p, rows)
    && DualFeasible(m, u, v, rows)
    && MatchedTight(m, u, v, p)
  }

  /** The edge that `way` gives column j: it leads to a tree column of smaller
      rank, and the cell it crosses has no slack. */
  ghost predicate Edge(m: Matrix, u: seq<real>, v: seq<real>, p: seq<nat>, way: seq<nat>,
                       tree: set<nat>, rank: map<nat, nat>, j: nat)
    requires Sized(m, u, v, p) && |way| == |p| && 1 <= j < |p|
  {
    && way[j] in tree && way[j] < |p| && p[way[j]] != 0
    && way[j] in rank
    && u[p[way[j]]] + v[j] == At(m, p[way[j]], j)
  }

  /** The alternating tree: its columns are matched (or the root), and every
      one but the root hangs by a tight edge from a column of smaller rank. */
  ghost predicate Tree(m: Matrix, u: seq<real>, v: seq<real>, p: seq<nat>, way: seq<nat>,
                       tree: set<nat>, rank: map<nat, nat>)
    requires Sized(m, u, v, p) && |way| == |p|
  {
    && (forall j | j in tree :: j < |p| && p[j] != 0 && j in rank)
    && (forall j {:trigger way[j]} | j in tree && j != 0 ::
          Edge(m, u, v, p, way, tree, rank, j) && rank[way[j]] < rank[j])
  }

  /** minv[j] is the least reduced cost from a tree row to the outside column j,
      and way[j] is a tree column where it is reached. */
  ghost predicate Slacks(m: Matrix, u: seq<real>, v: seq<real>, p: seq<nat>, way: seq<nat>,
                         minv: seq<Slack>, tree: set<nat>)
    requires Sized(m, u, v, p) && |way| == |p| == |minv|
    requires forall k | k in tree :: k < |p| && p[k] != 0
  {
    forall j {:trigger minv[j]} | 1 <= j < |p| && j !in tree ::
      && minv[j].Finite?
      && way[j] in tree
      && minv[j].value == At(m, p[way[j]], j) - u[p[way[j]]] - v[j]
      && forall k | k in tree :: minv[j].value <= At(m, p[k], j) - u[p[k]] - v[j]
  }

  /** u, v and minv after delta has been moved across the tree. */
  ghost predicate Shifted(p: seq<nat>, tree: set<nat>, delta: real,
                          u: seq<real>, v: seq<real>, minv: seq<Slack>,
                          u': seq<real>, v': seq<real>, minv': seq<Slack>)
    requires |u| == |u'| == |v| == |v'| == |minv| == |minv'| == |p| && Below(p, |p|)
  {
    && (forall j | 0 <= j < |p| && j in tree :: u'[p[j]] == u[p[j]] + delta && v'[j] == v[j] - delta)
    && (forall j | 0 <= j < |p| && j !in tree :: v'[j] == v[j] && minv'[j] == minv[j].Minus(delta))
    && (forall r | 0 <= r < |u| && (forall j | 0 <= j < |p| && j in tree :: p[j] != r) :: u'[r] == u[r])
  }

  /** Some column is still free while fewer than n rows are matched. */
  lemma FreeColumn(p: seq<nat>, rows: nat) returns (j: nat)
    requires Matching(p, rows) && |p| >= 1 && rows < |p| - 1
    ensures 1 <= j < |p| && p[j] == 0
  {
    if forall k | 1 <= k < |p| :: p[k] != 0 {
      var s := seq(|p| - 1, k requires 0 <= k < |p| - 1 => (p[k + 1] - 1) as nat);
      Pigeonhole(s, rows);
    }
    j :| 1 <= j < |p| && p[j] == 0;
  }

  lemma ShiftKeepsFeasible(m: Matrix, p: seq<nat>, way: seq<nat>, tree: set<nat>, delta: real,
                           u: seq<real>, v: seq<real>, minv: seq<Slack>,
                           u': seq<real>, v': seq<real>, minv': seq<Slack>, i: nat)
    requires Sized(m, u, v, p) && Sized(m, u', v', p) && |way| == |minv| == |minv'| == |p|
    requires 1 <= i <= |m| && p[0] == i && 0 in tree
    requires forall k | k in tree :: k < |p| && p[k] != 0
    requires DualFeasible(m, u, v, i - 1)
    requires tree == {0} || (delta >= 0.0 && DualFeasible(m, u, v, i))
    requires Slacks(m, u, v, p, way, minv, tree)
    requires forall j | 1 <= j < |p| && j !in tree :: delta <= minv[j].value
    requires Shifted(p, tree, delta, u, v, minv, u', v', minv')
    ensures DualFeasible(m, u', v', i)
  {
    forall r, j | 1 <= r <= i && 1 <= j <= |m| ensures u'[r] + v'[j] <= At(m, r, j) {
      if k :| k in tree && p[k] == r {
        if j !in tree {
          assert minv[j].value <= At(m, p[k], j) - u[p[k]] - v[j];
        }
      } else {
        assert r != i by { assert p[0] == i; }
        assert u'[r] == u[r];
      }
    }
  }

  lemma ShiftKeepsTight(m: Matrix, p: seq<nat>, tree: set<nat>, delta: real,
                        u: seq<real>, v: seq<real>, minv: seq<Slack>,
                        u': seq<real>, v': seq<real>, minv': seq<Slack>, i: nat)
    requires Sized(m, u, v, p) && Sized(m, u', v', p) && |minv| == |minv'| == |p|
    requires 1 <= i <= |m| && p[0] == i
    requires Matching(p, i - 1)
    requires forall k | k in tree :: k < |p| && p[k] != 0
    requires MatchedTight(m, u, v, p)
    requires Shifted(p, tree, delta, u, v, minv, u', v', minv')
    ensures MatchedTight(m, u', v', p)
  {
    forall j | 1 <= j <= |m| && p[j] != 0 ensures u'[p[j]] + v'[j] == At(m, p[j], j) {
      if j !in tree {
        forall k | 0 <= k < |p| && k in tree ensures p[k] != p[j] {}
        assert u'[p[j]] == u[p[j]];
      }
    }
  }

  lemma ShiftKeepsTree(m: Matrix, p: seq<nat>, way: seq<nat>, tree: set<nat>, rank: map<nat, nat>, delta: real,
                       u: seq<real>, v: seq<real>, minv: seq<Slack>,
                       u': seq<real>, v': seq<real>, minv': seq<Slack>)
    requires Sized(m, u, v, p) && Sized(m, u', v', p) && |way| == |minv| == |minv'| == |p|
    requires Tree(m, u, v, p, way, tree, rank)
    requires Slacks(m, u, v, p, way, minv, tree)
    requires Shifted(p, tree, delta, u, v, minv, u', v', minv')
    ensures Tree(m, u', v', p, way, tree, rank)
    ensures Slacks(m, u', v', p, way, minv', tree)
  {
    forall j | j in tree && j != 0 ensures Edge(m, u', v', p, way, tree, rank, j) {
      assert Edge(m, u, v, p, way, tree, rank, j);
    }
  }

  /** minv' and way' are minv and way tightened with the row of column j0. */
  ghost predicate Tightened(m: Matrix, u: seq<real>, v: seq<real>, p: seq<nat>, tree: set<nat>, j0: nat,
                            way: seq<nat>, minv: seq<Slack>, way': seq<nat>, minv': seq<Slack>)
    requires Sized(m, u, v, p) && |way| == |minv| == |way'| == |minv'| == |p|
    requires j0 < |p| && p[j0] != 0
  {
    forall j {:trigger minv'[j]} | 1 <= j < |p| && j !in tree && j != j0 ::
      var cur := Finite(At(m, p[j0], j) - u[p[j0]] - v[j]);
      if cur.LessThan(minv[j]) then minv'[j] == cur && way'[j] == j0
      else minv'[j] == minv[j] && way'[j] == way[j]
  }

  /** The scan over the free columns: tighten their slacks with row p[j0] and
      pick a column of least slack. */
  method Relax(ghost m: Matrix, cost: array2<real>, u: array<real>, v: array<real>, p: array<nat>,
               way: array<nat>, minv: array<Slack>, used: array<bool>, ghost tree: set<nat>, j0: nat)
    returns (delta: Slack, j1: nat)
    requires Sized(m, u[..], v[..], p[..]) && way.Length == minv.Length == used.Length == p.Length && way != p
    requires cost.Length0 == cost.Length1 == p.Length
    requires forall r, j | 1 <= r <= |m| && 1 <= j <= |m| :: cost[r, j] == At(m, r, j)
    requires j0 < p.Length && p[j0] != 0
    requires forall j | 0 <= j < p.Length :: used[j] <==> j in tree || j == j0
    requires exists j :: 1 <= j < p.Length && !used[j]
    modifies way, minv
    ensures Tightened(m, u[..], v[..], p[..], tree, j0, old(way[..]), old(minv[..]), way[..], minv[..])
    ensures forall j {:trigger way[j]} | 0 <= j < p.Length && used[j] :: way[j] == old(way[j])
    ensures 1 <= j1 < p.Length && !used[j1] && delta.Finite? && minv[j1] == delta
    ensures forall j | 1 <= j < p.Length && !used[j] :: !minv[j].LessThan(delta)
  {
    ghost var way0, minv0 := way[..], minv[..];
    var i0 := p[j0];
    delta := Infinite;
    j1 := 0;
    for j := 1 to p.Length
      invariant forall k | 0 <= k < p.Length && (used[k] || k >= j) :: way[k] == way0[k] && minv[k] == minv0[k]
      invariant forall k {:trigger minv[k]} | 1 <= k < j && !used[k] ::
                  var cur := Finite(At(m, i0, k) - u[i0] - v[k]);
                  if cur.LessThan(minv0[k]) then minv[k] == cur && way[k] == j0
                  else minv[k] == minv0[k] && way[k] == way0[k]
      invariant delta.Infinite? ==> forall k | 1 <= k < j :: used[k]
      invariant delta.Finite? ==> 1 <= j1 < j && !used[j1] && minv[j1] == delta
      invariant forall k | 1 <= k < j && !used[k] :: !minv[k].LessThan(delta)
    {
      if !used[j] {
        var cur := Finite(cost[i0, j] - u[i0] - v[j]);
        if cur.LessThan(minv[j]) {
          minv[j] := cur;
          way[j] := j0;
        }
        if minv[j].LessThan(delta) {
          delta := minv[j];
          j1 := j;
        }
      }
    }
  }

  /** The dual update: delta moves from the tree columns to the tree rows. */
  method Shift(u: array<real>, v: array<real>, p: array<nat>, minv: array<Slack>, used: array<bool>,
               ghost tree: set<nat>, delta: real)
    requires u != v && u.Length == v.Length == minv.Length == used.Length == p.Length
    requires Below(p[..], p.Length)
    requires forall j | 0 <= j < p.Length :: used[j] <==> j in tree
    requires forall j, k | 0 <= j < k < p.Length && used[j] && used[k] :: p[j] != p[k]
    modifies u, v, minv
    ensures Shifted(p[..], tree, delta, old(u[..]), old(v[..]), old(minv[..]), u[..], v[..], minv[..])
  {
    for j := 0 to p.Length
      invariant forall k | 0 <= k < j && used[k] :: u[p[k]] == old(u[p[k]]) + delta && v[k] == old(v[k]) - delta
      invariant forall k | 0 <= k < j && !used[k] :: v[k] == old(v[k]) && minv[k] == old(minv[k]).Minus(delta)
      invariant forall k | j <= k < p.Length && used[k] :: u[p[k]] == old(u[p[k]])
      invariant forall k | j <= k < p.Length :: v[k] == old(v[k]) && minv[k] == old(minv[k])
      invariant forall r | 0 <= r < u.Length && (forall k | 0 <= k < p.Length && used[k] :: p[k] != r) ::
                  u[r] == old(u[r])
    {
      if used[j] {
        u[p[j]] := u[p[j]] + delta;
        v[j] := v[j] - delta;
      } else {
        minv[j] := minv[j].Minus(delta);
      }
    }
  }

  /** Slacks, before the first column has joined the tree as well as after. */
  ghost predicate SlacksOrFresh(m: Matrix, u: seq<real>, v: seq<real>, p: seq<nat>, way: seq<nat>,
                                minv: seq<Slack>, tree: set<nat>)
    requires Sized(m, u, v, p) && |way| == |p| == |minv|
    requires forall k | k in tree :: k < |p| && p[k] != 0
  {
    if tree == {} then forall j | 0 <= j < |p| :: minv[j].Infinite?
    else Slacks(m, u, v, p, way, minv, tree)
  }

  /** Scanning with column j0's row extends the slacks to a tree that has j0. */
  lemma RelaxExtends(m: Matrix, u: seq<real>, v: seq<real>, p: seq<nat>, tree: set<nat>, j0: nat,
                     way: seq<nat>, minv: seq<Slack>, way': seq<nat>, minv': seq<Slack>)
    requires Sized(m, u, v, p) && |way| == |minv| == |way'| == |minv'| == |p|
    requires forall k | k in tree :: k < |p| && p[k] != 0
    requires SlacksOrFresh(m, u, v, p, way, minv, tree)
    requires j0 < |p| && p[j0] != 0
    requires Tightened(m, u, v, p, tree, j0, way, minv, way', minv')
    ensures Slacks(m, u, v, p, way', minv', tree + {j0})
  {
    var tree' := tree + {j0};
    forall j: nat | 1 <= j < |p| && j !in tree'
      ensures minv'[j].Finite? && way'[j] in tree'
      ensures minv'[j].value == At(m, p[way'[j]], j) - u[p[way'[j]]] - v[j]
      ensures forall k | k in tree' :: minv'[j].value <= At(m, p[k], j) - u[p[k]] - v[j]
    {
      assert minv[j] == minv[j];
    }
  }

  /** The state of the search for row i, with column j0 about to join the tree. */
  ghost predicate Searching(m: Matrix, u: seq<real>, v: seq<real>, p: seq<nat>, way: seq<nat>, minv: seq<Slack>,
                            tree: set<nat>, rank: map<nat, nat>, i: nat) {
    && Sized(m, u, v, p) && |way| == |minv| == |p|
    && 1 <= i <= |m| && p[0] == i && Matching(p, i - 1)
    && MatchedTight(m, u, v, p)
    && rank.Keys == tree && (forall j | j in tree :: rank[j] < |tree|)
    && Tree(m, u, v, p, way, tree, rank)
    && SlacksOrFresh(m, u, v, p, way, minv, tree)
    && DualFeasible(m, u, v, if tree == {} then i - 1 else i)
    && (tree != {} ==> 0 in tree && forall j | 1 <= j < |p| && j !in tree :: minv[j].value >= 0.0)
  }

  /** Column j0 is next: the root at first, later a column reached without slack. */
  ghost predicate Next(p: seq<nat>, minv: seq<Slack>, tree: set<nat>, j0: nat)
    requires |minv| == |p|
  {
    && j0 < |p| && j0 !in tree
    && (if tree == {} then j0 == 0 else minv[j0] == Finite(0.0))
  }

  /** Column j0 joins the tree by its own tight edge. */
  lemma JoinTree(m: Matrix, u: seq<real>, v: seq<real>, p: seq<nat>, tree: set<nat>, rank: map<nat, nat>, j0: nat,
                 way: seq<nat>, way': seq<nat>)
    requires Sized(m, u, v, p) && |way| == |way'| == |p|
    requires Tree(m, u, v, p, way, tree, rank)
    requires rank.Keys == tree && (forall j | j in tree :: rank[j] < |tree|)
    requires j0 < |p| && j0 !in tree && p[j0] != 0
    requires j0 != 0 ==> Edge(m, u, v, p, way, tree, rank, j0)
    requires forall j {:trigger way'[j]} | 0 <= j < |p| && (j in tree || j == j0) :: way'[j] == way[j]
    ensures Tree(m, u, v, p, way', tree + {j0}, rank[j0 := |tree|])
  {
    var tree', rank' := tree + {j0}, rank[j0 := |tree|];
    forall j | j in tree' && j != 0
      ensures Edge(m, u, v, p, way', tree', rank', j) && rank'[way'[j]] < rank'[j]
    {
      assert way'[j] == way[j];
      assert Edge(m, u, v, p, way, tree, rank, j);
      assert way[j] in rank && way[j] != j0;
    }
    assert forall j | j in tree' :: j < |p| && p[j] != 0 && j in rank';
  }

  /** The slacks, tightened with row p[j0], stay nonnegative once row i is feasible. */
  lemma JoinSlacks(m: Matrix, u: seq<real>, v: seq<real>, p: seq<nat>, tree: set<nat>, i: nat, j0: nat,
                   way: seq<nat>, minv: seq<Slack>, way': seq<nat>, minv': seq<Slack>)
    requires Sized(m, u, v, p) && |way| == |minv| == |way'| == |minv'| == |p|
    requires forall k | k in tree :: k < |p| && p[k] != 0
    requires SlacksOrFresh(m, u, v, p, way, minv, tree)
    requires j0 < |p| && 1 <= p[j0] <= i <= |m|
    requires tree != {} ==> DualFeasible(m, u, v, i)
    requires tree != {} ==> forall j | 1 <= j < |p| && j !in tree :: minv[j].value >= 0.0
    requires Tightened(m, u, v, p, tree, j0, way, minv, way', minv')
    ensures Slacks(m, u, v, p, way', minv', tree + {j0})
    ensures tree != {} ==> forall j | 1 <= j < |p| && j !in tree + {j0} :: minv'[j].value >= 0.0
  {
    RelaxExtends(m, u, v, p, tree, j0, way, minv, way', minv');
  }

  /** The search state between the scan and the dual update: column j1 has the
      least slack, delta, among the columns outside the tree. */
  ghost predicate Joined(m: Matrix, u: seq<real>, v: seq<real>, p: seq<nat>, way: seq<nat>, minv: seq<Slack>,
                         tree: set<nat>, rank: map<nat, nat>, i: nat, delta: real, j1: nat) {
    && Sized(m, u, v, p) && |way| == |minv| == |p|
    && 1 <= i <= |m| && p[0] == i && Matching(p, i - 1) && 0 in tree
    && rank.Keys == tree && (forall j | j in tree :: rank[j] < |tree|)
    && Tree(m, u, v, p, way, tree, rank) && Slacks(m, u, v, p, way, minv, tree)
    && MatchedTight(m, u, v, p) && DualFeasible(m, u, v, i - 1)
    && (tree == {0} || (delta >= 0.0 && DualFeasible(m, u, v, i)))
    && 1 <= j1 < |p| && j1 !in tree && minv[j1].value == delta
    && (forall j | 1 <= j < |p| && j !in tree :: delta <= minv[j].value)
    && (forall j, k | 0 <= j < k < |p| && j in tree && k in tree :: p[j] != p[k])
  }

  /** Some column is neither in the tree nor about to join it. */
  lemma Room(p: seq<nat>, tree: set<nat>, i: nat, j0: nat)
    requires 1 <= i < |p| && Matching(p, i - 1)
    requires forall k | k in tree + {j0} :: k < |p| && p[k] != 0
    requires j0 !in tree
    ensures exists j :: 1 <= j < |p| && j !in tree && j != j0
    ensures |tree + {j0}| == |tree| + 1 <= |p|
  {
    var free := FreeColumn(p, i - 1);
    TreeIsSmall(tree + {j0}, |p|);
  }

  /** The root and the matched columns hold pairwise different rows. */
  lemma RowsDiffer(p: seq<nat>, tree: set<nat>, i: nat)
    requires 1 <= i < |p| && p[0] == i && Matching(p, i - 1)
    requires forall k | k in tree :: k < |p| && p[k] != 0
    ensures forall j, k | 0 <= j < k < |p| && j in tree && k in tree :: p[j] != p[k]
    ensures forall j | j in tree :: p[j] <= i
  {
  }

  /** A column that lost its slack hangs by a tight edge. */
  lemma NextEdge(m: Matrix, u: seq<real>, v: seq<real>, p: seq<nat>, way: seq<nat>, minv: seq<Slack>,
                 tree: set<nat>, rank: map<nat, nat>, j0: nat)
    requires Sized(m, u, v, p) && |way| == |minv| == |p| && tree != {}
    requires forall k | k in tree :: k < |p| && p[k] != 0 && k in rank
    requires Slacks(m, u, v, p, way, minv, tree)
    requires 1 <= j0 < |p| && j0 !in tree && minv[j0] == Finite(0.0)
    ensures Edge(m, u, v, p, way, tree, rank, j0)
  {
  }

  lemma TreeColumns(m: Matrix, u: seq<real>, v: seq<real>, p: seq<nat>, way: seq<nat>,
                    tree: set<nat>, rank: map<nat, nat>)
    requires Sized(m, u, v, p) && |way| == |p| && Tree(m, u, v, p, way, tree, rank)
    ensures forall k | k in tree :: k < |p| && p[k] != 0 && k in rank
  {
  }

  /** The search starts with an empty tree and the root next. */
  lemma Start(m: Matrix, u: seq<real>, v: seq<real>, p: seq<nat>, way: seq<nat>, minv: seq<Slack>, i: nat)
    requires Sized(m, u, v, p) && |way| == |minv| == |p|
    requires 1 <= i <= |m| && p[0] == i && Matching(p, i - 1)
    requires MatchedTight(m, u, v, p) && DualFeasible(m, u, v, i - 1)
    requires forall j | 0 <= j < |p| :: minv[j].Infinite?
    ensures Searching(m, u, v, p, way, minv, {}, map[], i) && Next(p, minv, {}, 0)
  {
  }

  /** Column j0 joins the tree, the slacks having been tightened with its row. */
  lemma Join(m: Matrix, u: seq<real>, v: seq<real>, p: seq<nat>, tree: set<nat>, rank: map<nat, nat>, i: nat, j0: nat,
             way: seq<nat>, minv: seq<Slack>, way': seq<nat>, minv': seq<Slack>, delta: Slack, j1: nat)
    requires Searching(m, u, v, p, way, minv, tree, rank, i) && Next(p, minv, tree, j0) && p[j0] != 0
    requires |way'| == |minv'| == |p|
    requires forall j {:trigger way'[j]} | 0 <= j < |p| && (j in tree || j == j0) :: way'[j] == way[j]
    requires Tightened(m, u, v, p, tree, j0, way, minv, way', minv')
    requires 1 <= j1 < |p| && j1 !in tree + {j0} && delta.Finite? && minv'[j1] == delta
    requires forall j | 1 <= j < |p| && j !in tree + {j0} :: !minv'[j].LessThan(delta)
    ensures Joined(m, u, v, p, way', minv', tree + {j0}, rank[j0 := |tree|], i, delta.value, j1)
    ensures |tree| < |tree + {j0}| <= |p|
  {
    hide Tree, Slacks, Matching, MatchedTight, DualFeasible, Edge;
    TreeColumns(m, u, v, p, way, tree, rank);
    Room(p, tree, i, j0);
    RowsDiffer(p, tree + {j0}, i);
    if j0 != 0 {
      NextEdge(m, u, v, p, way, minv, tree, rank, j0);
    }
    JoinTree(m, u, v, p, tree, rank, j0, way, way');
    JoinSlacks(m, u, v, p, tree, i, j0, way, minv, way', minv');
    if tree == {} {
      assert tree + {j0} == {0};
    } else {
      DualMonotone(m, u, v, i);
    }
  }

  lemma DualMonotone(m: Matrix, u: seq<real>, v: seq<real>, rows: nat)
    requires Square(m, |m|) && |u| == |v| == |m| + 1 && 1 <= rows <= |m| && DualFeasible(m, u, v, rows)
    ensures DualFeasible(m, u, v, rows - 1)
  {
  }

  /** Moving delta across the joined tree gives the next search state. */
  lemma Settle(m: Matrix, p: seq<nat>, way: seq<nat>, tree: set<nat>, rank: map<nat, nat>, delta: real, j1: nat,
               u: seq<real>, v: seq<real>, minv: seq<Slack>,
               u': seq<real>, v': seq<real>, minv': seq<Slack>, i: nat)
    requires Joined(m, u, v, p, way, minv, tree, rank, i, delta, j1)
    requires |u'| == |v'| == |minv'| == |p|
    requires Shifted(p, tree, delta, u, v, minv, u', v', minv')
    ensures Searching(m, u', v', p, way, minv', tree, rank, i) && Next(p, minv', tree, j1)
    ensures Edge(m, u', v', p, way, tree, rank, j1)
  {
    ShiftKeepsFeasible(m, p, way, tree, delta, u, v, minv, u', v', minv', i);
    ShiftKeepsTight(m, p, tree, delta, u, v, minv, u', v', minv', i);
    ShiftKeepsTree(m, p, way, tree, rank, delta, u, v, minv, u', v', minv');
  }

  /** First half of a pass of the search loop: column j0 joins the tree. */
  method Scan(ghost m: Matrix, cost: array2<real>, u: array<real>, v: array<real>, p: array<nat>, way: array<nat>,
              minv: array<Slack>, used: array<bool>, ghost tree: set<nat>, ghost rank: map<nat, nat>, ghost i: nat,
              j0: nat)
    returns (delta: Slack, j1: nat)
    requires u != v && p != way && used.Length == p.Length
    requires Searching(m, u[..], v[..], p[..], way[..], minv[..], tree, rank, i)
    requires Next(p[..], minv[..], tree, j0) && p[j0] != 0
    requires cost.Length0 == cost.Length1 == p.Length
    requires forall r, j | 1 <= r <= |m| && 1 <= j <= |m| :: cost[r, j] == At(m, r, j)
    requires forall j | 0 <= j < p.Length :: used[j] <==> j in tree
    modifies way, minv, used
    ensures forall j | 0 <= j < p.Length :: used[j] <==> j in tree + {j0}
    ensures delta.Finite?
    ensures Joined(m, u[..], v[..], p[..], way[..], minv[..], tree + {j0}, rank[j0 := |tree|], i, delta.value, j1)
    ensures |tree| < |tree + {j0}| <= p.Length
  {
    hide Tree, Slacks, SlacksOrFresh, Matching, DualFeasible, MatchedTight, Edge, Tightened;
    ghost var q, u0, v0, way0, minv0 := p[..], u[..], v[..], way[..], minv[..];
    TreeColumns(m, u0, v0, q, way0, tree, rank);
    Room(q, tree, i, j0);
    used[j0] := true;
    delta, j1 := Relax(m, cost, u, v, p, way, minv, used, tree, j0);
    assert p[..] == q && u[..] == u0 && v[..] == v0;
    Join(m, u0, v0, q, tree, rank, i, j0, way0, minv0, way[..], minv[..], delta, j1);
  }

  /** One pass of the search loop: column j0 joins the tree, delta is moved, and
      the column that lost its slack is returned. */
  method Grow(ghost m: Matrix, cost: array2<real>, u: array<real>, v: array<real>, p: array<nat>, way: array<nat>,
              minv: array<Slack>, used: array<bool>, ghost tree: set<nat>, ghost rank: map<nat, nat>, ghost i: nat,
              j0: nat)
    returns (j1: nat)
    requires u != v && p != way && used.Length == p.Length
    requires Searching(m, u[..], v[..], p[..], way[..], minv[..], tree, rank, i)
    requires Next(p[..], minv[..], tree, j0) && p[j0] != 0
    requires cost.Length0 == cost.Length1 == p.Length
    requires forall r, j | 1 <= r <= |m| && 1 <= j <= |m| :: cost[r, j] == At(m, r, j)
    requires forall j | 0 <= j < p.Length :: used[j] <==> j in tree
    modifies u, v, way, minv, used
    ensures forall j | 0 <= j < p.Length :: used[j] <==> j in tree + {j0}
    ensures Searching(m, u[..], v[..], p[..], way[..], minv[..], tree + {j0}, rank[j0 := |tree|], i)
    ensures 1 <= j1 && Next(p[..], minv[..], tree + {j0}, j1)
    ensures Edge(m, u[..], v[..], p[..], way[..], tree + {j0}, rank[j0 := |tree|], j1)
    ensures |tree| < |tree + {j0}| <= p.Length
  {
    hide Tree, Slacks, SlacksOrFresh, Matching, DualFeasible, MatchedTight, Edge, Tightened;
    var delta;
    delta, j1 := Scan(m, cost, u, v, p, way, minv, used, tree, rank, i, j0);
    ghost var q, u1, v1, way1, minv1 := p[..], u[..], v[..], way[..], minv[..];
    Shift(u, v, p, minv, used, tree + {j0}, delta.value);
    assert p[..] == q && way[..] == way1;
    Settle(m, q, way1, tree + {j0}, rank[j0 := |tree|], delta.value, j1, u1, v1, minv1, u[..], v[..], minv[..], i);
  }

  /** The search phase of one row: grow the alternating tree from column 0 until
      a free column hangs by a tight edge. */
  method Search(ghost m: Matrix, cost: array2<real>, u: array<real>, v: array<real>, p: array<nat>,
                way: array<nat>, ghost i: nat)
    returns (j0: nat, ghost tree: set<nat>, ghost rank: map<nat, nat>)
    requires u != v && p != way && way.Length == p.Length
    requires Sized(m, u[..], v[..], p[..]) && 1 <= i <= |m| && p[0] == i
    requires cost.Length0 == cost.Length1 == p.Length
    requires forall r, j | 1 <= r <= |m| && 1 <= j <= |m| :: cost[r, j] == At(m, r, j)
    requires Matching(p[..], i - 1) && DualFeasible(m, u[..], v[..], i - 1)
    requires MatchedTight(m, u[..], v[..], p[..])
    modifies u, v, way
    ensures Sized(m, u[..], v[..], p[..])
    ensures DualFeasible(m, u[..], v[..], i) && MatchedTight(m, u[..], v[..], p[..])
    ensures 1 <= j0 < p.Length && p[j0] == 0 && 0 in tree
    ensures Tree(m, u[..], v[..], p[..], way[..], tree, rank)
    ensures Edge(m, u[..], v[..], p[..], way[..], tree, rank, j0)
    ensures forall j | j in tree :: j in rank && rank[j] < |tree|
  {
    hide Tree, Matching, MatchedTight, DualFeasible, Edge;
    j0 := 0;
    tree, rank := {}, map[];
    var minv := new Slack[p.Length](_ => Infinite);
    var used := new bool[p.Length](_ => false);
    Start(m, u[..], v[..], p[..], way[..], minv[..], i);
    while true
      invariant Searching(m, u[..], v[..], p[..], way[..], minv[..], tree, rank, i)
      invariant Next(p[..], minv[..], tree, j0) && p[j0] != 0
      invariant forall j | 0 <= j < p.Length :: used[j] <==> j in tree
      decreases p.Length - |tree|
    {
      var j1 := Grow(m, cost, u, v, p, way, minv, used, tree, rank, i, j0);
      tree, rank := tree + {j0}, rank[j0 := |tree|];
      j0 := j1;
      if p[j0] == 0 {
        break;
      }
    }
  }

  lemma {:induction false} TreeIsSmall(s: set<nat>, n: nat)
    requires forall j | j in s :: j < n
    ensures |s| <= n
  {
    if n > 0 {
      var t := s - {n - 1};
      TreeIsSmall(t, n - 1);
      assert s <= t + {n - 1};
      assert |t + {n - 1}| <= |t| + 1;
    } else {
      assert s == {};
    }
  }

  /** Row r sits in a column other than the hole. */
  ghost predicate HoldsBut(p: seq<nat>, r: nat, hole: nat) {
    exists j | 0 <= j < |p| && j != hole :: p[j] == r
  }

  /** The columns other than the hole hold the rows 1..i, once each, and the real
      ones among them are tight. */
  ghost predicate Hole(m: Matrix, u: seq<real>, v: seq<real>, p: seq<nat>, i: nat, hole: nat) {
    && Sized(m, u, v, p) && hole < |p|
    && (forall j | 0 <= j < |p| :: p[j] <= i)
    && (forall j, k | 0 <= j < k < |p| && j != hole && k != hole && p[j] != 0 :: p[j] != p[k])
    && (forall r | 1 <= r <= i :: HoldsBut(p, r, hole))
    && (forall j | 1 <= j <= |m| && j != hole && p[j] != 0 :: u[p[j]] + v[j] == At(m, p[j], j))
  }

  lemma HoleMoves(m: Matrix, u: seq<real>, v: seq<real>, p: seq<nat>, i: nat, hole: nat, next: nat)
    requires Hole(m, u, v, p, i, hole) && 1 <= hole && next < |p| && next != hole
    requires p[next] != 0 && u[p[next]] + v[hole] == At(m, p[next], hole)
    ensures Hole(m, u, v, p[hole := p[next]], i, next)
  {
    var p' := p[hole := p[next]];
    forall r | 1 <= r <= i ensures HoldsBut(p', r, next) {
      assert HoldsBut(p, r, hole);
      var j :| 0 <= j < |p| && j != hole && p[j] == r;
      if j == next {
        assert p'[hole] == r;
      } else {
        assert p'[j] == r;
      }
    }
  }

  lemma HoleOpens(m: Matrix, u: seq<real>, v: seq<real>, p: seq<nat>, i: nat, hole: nat)
    requires Sized(m, u, v, p) && 1 <= i <= |m| && p[0] == i && Matching(p, i - 1) && MatchedTight(m, u, v, p)
    requires 1 <= hole < |p| && p[hole] == 0
    ensures Hole(m, u, v, p, i, hole)
  {
    forall r | 1 <= r <= i ensures HoldsBut(p, r, hole) {
      if r < i {
        assert Holds(p, r);
        var j :| 1 <= j < |p| && p[j] == r;
      } else {
        assert p[0] == r;
      }
    }
  }

  lemma HoleCloses(m: Matrix, u: seq<real>, v: seq<real>, p: seq<nat>, i: nat)
    requires Hole(m, u, v, p, i, 0)
    ensures Matching(p, i) && MatchedTight(m, u, v, p)
  {
    forall r | 1 <= r <= i ensures Holds(p, r) {
      assert HoldsBut(p, r, 0);
    }
  }

  /** The augmentation: starting at the free column j0, every column on the path
      to the root takes over the row of its predecessor. */
  method Augment(ghost m: Matrix, ghost u: seq<real>, ghost v: seq<real>, p: array<nat>, way: array<nat>,
                 ghost tree: set<nat>, ghost rank: map<nat, nat>, ghost i: nat, last: nat)
    requires p != way && way.Length == p.Length
    requires Sized(m, u, v, p[..]) && 1 <= i <= |m| && p[0] == i
    requires Matching(p[..], i - 1) && MatchedTight(m, u, v, p[..])
    requires 1 <= last < p.Length && p[last] == 0
    requires Tree(m, u, v, p[..], way[..], tree, rank) && Edge(m, u, v, p[..], way[..], tree, rank, last)
    requires forall j | j in tree :: rank[j] < |tree|
    modifies p
    ensures Sized(m, u, v, p[..]) && Matching(p[..], i) && MatchedTight(m, u, v, p[..])
  {
    var j0 := last;
    ghost var before, bound := p[..], |tree|;
    HoleOpens(m, u, v, p[..], i, j0);
    while true
      invariant 1 <= j0 && Hole(m, u, v, p[..], i, j0)
      invariant Edge(m, u, v, before, way[..], tree, rank, j0) && rank[way[j0]] < bound
      invariant j0 in tree ==> bound <= rank[j0]
      invariant forall j | j in tree && rank[j] < bound :: p[j] == before[j]
      decreases bound
    {
      var j1 := way[j0];
      HoleMoves(m, u, v, p[..], i, j0, j1);
      ghost var moved := p[..][j0 := p[j1]];
      p[j0] := p[j1];
      assert p[..] == moved;
      bound := rank[j1];
      j0 := j1;
      if j0 == 0 {
        break;
      }
    }
    HoleCloses(m, u, v, p[..], i);
  }

  /** The matching that p holds, read off by row. */
  ghost predicate Inverse(p: seq<nat>, result: seq<nat>)
    requires |p| == |result| + 1
  {
    forall j | 1 <= j < |p| && p[j] != 0 :: p[j] <= |result| && result[p[j] - 1] == j - 1
  }

  lemma ColumnOf(p: seq<nat>, result: seq<nat>, r: nat)
    requires |p| == |result| + 1 && Matching(p, |result|) && Inverse(p, result) && r < |result|
    ensures result[r] < |result| && p[result[r] + 1] == r + 1
  {
    assert Holds(p, r + 1);
    var j :| 1 <= j < |p| && p[j] == r + 1;
    assert result[p[j] - 1] == j - 1;
  }

  lemma InverseIsPermutation(p: seq<nat>, result: seq<nat>)
    requires |p| == |result| + 1 && Matching(p, |result|) && Inverse(p, result)
    ensures Permutation(result, |result|)
  {
    forall r | 0 <= r < |result| ensures result[r] < |result| {
      ColumnOf(p, result, r);
    }
    forall r, s | 0 <= r < s < |result| ensures result[r] != result[s] {
      ColumnOf(p, result, r);
      ColumnOf(p, result, s);
    }
  }

  lemma CompleteIsOptimal(m: Matrix, u: seq<real>, v: seq<real>, p: seq<nat>, result: seq<nat>)
    requires Invariant(m, u, v, p, |m|) && |result| == |m| && Inverse(p, result)
    ensures Optimal(m, result)
  {
    var n := |m|;
    InverseIsPermutation(p, result);
    var u', v' := u[1..], v[1..];
    forall r, j | 0 <= r < n && 0 <= j < n ensures u'[r] + v'[j] <= m[r][j] {
      assert u[r + 1] + v[j + 1] <= At(m, r + 1, j + 1);
    }
    forall r | 0 <= r < n ensures m[r][result[r]] == u'[r] + v'[result[r]] {
      ColumnOf(p, result, r);
      var j := result[r] + 1;
      assert u[p[j]] + v[j] == At(m, p[j], j);
    }
    TightIsOptimal(m, u', v', result);
  }

  /** The last loop: turn the column-to-row matching into a row-to-column one. */
  method ReadOff(p: array<nat>, size: nat) returns (result: seq<nat>)
    requires p.Length == size + 1 && Matching(p[..], size)
    ensures |result| == size && Inverse(p[..], result)
  {
    var rows := new nat[size](_ => 0);
    for j := 1 to size + 1
      invariant forall k | 1 <= k < j && p[k] != 0 :: p[k] <= size && rows[p[k] - 1] == k - 1
    {
      if p[j] > 0 {
        rows[p[j] - 1] := j - 1;
      }
    }
    result := rows[..];
  }

  lemma RootKeepsInvariant(m: Matrix, u: seq<real>, v: seq<real>, p: seq<nat>, p': seq<nat>, rows: nat)
    requires Invariant(m, u, v, p, rows) && rows < |m|
    requires |p'| == |p| && p'[0] == rows + 1 && forall j | 1 <= j < |p| :: p'[j] == p[j]
    ensures Invariant(m, u, v, p', rows)
  {
    forall r | 1 <= r <= rows ensures Holds(p', r) {
      assert Holds(p, r);
      var j :| 1 <= j < |p| && p[j] == r;
      assert p'[j] == r;
    }
  }

  /** One round of the row loop matches one more row. */
  method AssignRow(ghost m: Matrix, cost: array2<real>, u: array<real>, v: array<real>, p: array<nat>,
                   way: array<nat>, i: nat)
    requires u != v && p != way && way.Length == p.Length
    requires 1 <= i <= |m| && Invariant(m, u[..], v[..], p[..], i - 1)
    requires cost.Length0 == cost.Length1 == p.Length
    requires forall r, j | 1 <= r <= |m| && 1 <= j <= |m| :: cost[r, j] == At(m, r, j)
    modifies u, v, p, way
    ensures Invariant(m, u[..], v[..], p[..], i)
  {
    ghost var p0 := p[..];
    p[0] := i;
    RootKeepsInvariant(m, u[..], v[..], p0, p[..], i - 1);
    hide Tree, Matching, MatchedTight, DualFeasible, Edge;
    var j0, tree, rank := Search(m, cost, u, v, p, way, i);
    ghost var u1, v1 := u[..], v[..];
    Augment(m, u1, v1, p, way, tree, rank, i, j0);
    assert u[..] == u1 && v[..] == v1;
  }

  /** The solver on a square matrix returns an assignment no other permutation beats. */
  method Hungarian(matrix: Matrix) returns (result: seq<nat>)
    requires Square(matrix, |matrix|)
    ensures Optimal(matrix, result)
  {
    var size := |matrix|;
    if size == 0 {
      TightIsOptimal(matrix, [], [], []);
      return [];
    }
    var cost := new real[size + 1, size + 1]((i, j) =>
      if 1 <= i <= size && 1 <= j <= size then matrix[i - 1][j - 1] else 0.0);
    var u := new real[size + 1](_ => 0.0);
    var v := new real[size + 1](_ => 0.0);
    var p := new nat[size + 1](_ => 0);
    var way := new nat[size + 1](_ => 0);
    for i := 1 to size + 1
      invariant forall r, j | 1 <= r <= size && 1 <= j <= size :: cost[r, j] == At(matrix, r, j)
      invariant Invariant(matrix, u[..], v[..], p[..], i - 1)
    {
      AssignRow(matrix, cost, u, v, p, way, i);
    }
    result := ReadOff(p, size);
    CompleteIsOptimal(matrix, u[..], v[..], p[..], result);
  }
}
