/** Face-adjacency (6-connectivity) and reachability through the true voxels
    of a boolean mask: the notion of connected component that
    `label(mask, connectivity=1)` uses. */
module Connectivity {
  import opened Grids

  function Abs(x: int): nat {
    if x < 0 then -x else x
  }

  /** Two voxels share a face: they differ by one unit along exactly one axis. */
  predicate Adjacent(u: Voxel, w: Voxel) {
    Abs(u.i - w.i) + Abs(u.j - w.j) + Abs(u.k - w.k) == 1
  }

  /** The six face neighbours of a voxel. */
  function Neighbours(u: Voxel): (ns: set<Voxel>)
    ensures forall w :: w in ns <==> Adjacent(u, w)
  {
    var ns := {Voxel(u.i - 1, u.j, u.k), Voxel(u.i + 1, u.j, u.k),
               Voxel(u.i, u.j - 1, u.k), Voxel(u.i, u.j + 1, u.k),
               Voxel(u.i, u.j, u.k - 1), Voxel(u.i, u.j, u.k + 1)};
    assert forall w :: Adjacent(u, w) ==> w in ns by {
      forall w | Adjacent(u, w) ensures w in ns {
        assert w == Voxel(w.i, w.j, w.k);
      }
    }
    ns
  }

  /** `v` lies inside the mask and is true there. */
  predicate IsTrue(m: Grid<bool>, v: Voxel)
    requires m.Valid()
  {
    m.InBounds(v) && m.At(v)
  }

  /** The set of true voxels of a mask. */
  function TrueVoxels(m: Grid<bool>): (s: set<Voxel>)
    requires m.Valid()
    ensures forall v :: v in s <==> IsTrue(m, v)
  {
    var s := set i, j, k | 0 <= i < m.n0 && 0 <= j < m.n1 && 0 <= k < m.n2 && m.cells[i][j][k] :: Voxel(i, j, k);
    assert forall v :: IsTrue(m, v) ==> v in s by {
      forall v | IsTrue(m, v) ensures v in s {
        assert v == Voxel(v.i, v.j, v.k);
      }
    }
    s
  }

  /** The `n`-th step of `p` crosses a face. */
  ghost predicate StepAdjacent(p: seq<Voxel>, n: nat)
    requires n + 1 < |p|
  {
    Adjacent(p[n], p[n + 1])
  }

  /** A walk through true voxels from face to face. */
  ghost predicate IsPath(m: Grid<bool>, p: seq<Voxel>)
    requires m.Valid()
  {
    && |p| > 0
    && (forall n :: 0 <= n < |p| ==> IsTrue(m, p[n]))
    && (forall n: nat :: n + 1 < |p| ==> StepAdjacent(p, n))
  }

  /** `u` and `w` lie in the same 6-connected component of the true voxels. */
  ghost predicate Connected(m: Grid<bool>, u: Voxel, w: Voxel)
    requires m.Valid()
  {
    exists p :: IsPath(m, p) && p[0] == u && p[|p| - 1] == w
  }

  lemma ConnectedEndsTrue(m: Grid<bool>, u: Voxel, w: Voxel)
    requires m.Valid() && Connected(m, u, w)
    ensures IsTrue(m, u) && IsTrue(m, w)
  {
    var p :| IsPath(m, p) && p[0] == u && p[|p| - 1] == w;
    assert IsTrue(m, p[0]) && IsTrue(m, p[|p| - 1]);
  }

  lemma ConnectedRefl(m: Grid<bool>, u: Voxel)
    requires m.Valid() && IsTrue(m, u)
    ensures Connected(m, u, u)
  {
    assert IsPath(m, [u]);
  }

  /** One face step from a true voxel onto a component extends it. */
  lemma ConnectedStep(m: Grid<bool>, u: Voxel, w: Voxel, x: Voxel)
    requires m.Valid() && Connected(m, u, w) && Adjacent(w, x) && IsTrue(m, x)
    ensures Connected(m, u, x)
  {
    var p :| IsPath(m, p) && p[0] == u && p[|p| - 1] == w;
    var q := p + [x];
    assert forall n :: 0 <= n < |q| ==> IsTrue(m, q[n]) by {
      forall n | 0 <= n < |q| ensures IsTrue(m, q[n]) {
        if n < |p| { assert q[n] == p[n]; }
      }
    }
    assert forall n: nat :: n + 1 < |q| ==> StepAdjacent(q, n) by {
      forall n: nat | n + 1 < |q| ensures StepAdjacent(q, n) {
        if n + 1 < |p| { assert StepAdjacent(p, n); }
      }
    }
    assert IsPath(m, q) && q[0] == u && q[|q| - 1] == x;
  }

  lemma AdjacentSymmetric(u: Voxel, w: Voxel)
    ensures Adjacent(u, w) <==> Adjacent(w, u)
  {
  }

  lemma {:induction false} ConnectedSymmetric(m: Grid<bool>, u: Voxel, w: Voxel)
    requires m.Valid() && Connected(m, u, w)
    ensures Connected(m, w, u)
  {
    var p :| IsPath(m, p) && p[0] == u && p[|p| - 1] == w;
    var q := seq(|p|, n requires 0 <= n < |p| => p[|p| - 1 - n]);
    assert forall n: nat :: n + 1 < |q| ==> StepAdjacent(q, n) by {
      forall n: nat | n + 1 < |q| ensures StepAdjacent(q, n) {
        var a := |p| - 2 - n;
        assert StepAdjacent(p, a);
        AdjacentSymmetric(p[a], p[a + 1]);
      }
    }
    assert IsPath(m, q) && q[0] == w && q[|q| - 1] == u;
  }

  lemma {:induction false} ConnectedTransitive(m: Grid<bool>, u: Voxel, w: Voxel, x: Voxel)
    requires m.Valid() && Connected(m, u, w) && Connected(m, w, x)
    ensures Connected(m, u, x)
  {
    var p :| IsPath(m, p) && p[0] == u && p[|p| - 1] == w;
    var q :| IsPath(m, q) && q[0] == w && q[|q| - 1] == x;
    var r := p + q[1..];
    assert forall n :: 0 <= n < |r| ==> IsTrue(m, r[n]) by {
      forall n | 0 <= n < |r| ensures IsTrue(m, r[n]) {
        if n < |p| { assert r[n] == p[n]; } else { assert r[n] == q[n - |p| + 1]; }
      }
    }
    assert forall n: nat :: n + 1 < |r| ==> StepAdjacent(r, n) by {
      forall n: nat | n + 1 < |r| ensures StepAdjacent(r, n) {
        if n + 1 < |p| {
          assert StepAdjacent(p, n);
        } else {
          var a := n - |p| + 1;
          assert StepAdjacent(q, a);
          assert r[n] == q[a] && r[n + 1] == q[a + 1];
        }
      }
    }
    assert IsPath(m, r) && r[0] == u && r[|r| - 1] == x;
  }

  /** A set of true voxels that holds every true face neighbour of its members
      contains everything connected to any of its members. */
  lemma {:induction false} ClosedSetHoldsComponent(m: Grid<bool>, s: set<Voxel>, u: Voxel, w: Voxel)
    requires m.Valid()
    requires forall a, b :: a in s && Adjacent(a, b) && IsTrue(m, b) ==> b in s
    requires u in s && Connected(m, u, w)
    ensures w in s
  {
    var p :| IsPath(m, p) && p[0] == u && p[|p| - 1] == w;
    var n := 0;
    while n < |p| - 1
      invariant 0 <= n <= |p| - 1
      invariant p[n] in s
    {
      assert StepAdjacent(p, n) && IsTrue(m, p[n + 1]);
      n := n + 1;
    }
  }
}
