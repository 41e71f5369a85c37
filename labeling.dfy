/** Connected-component labelling of a boolean mask with face-adjacency, the
    job `label(mask, connectivity=1)` does for the filter. Which positive
    number a component receives is not specified; only that background gets
    0 and that two true voxels share a label exactly when they are connected. */
module Labeling {
  import opened Grids
  import opened Connectivity

  /** `labels` is a 6-connectivity labelling of `m`. */
  ghost predicate IsLabeling(m: Grid<bool>, labels: Grid<nat>)
    requires m.Valid()
  {
    && labels.Valid()
    && labels.SameShape(m)
    && (forall v :: m.InBounds(v) ==> (labels.At(v) == 0 <==> !m.At(v)))
    && (forall u, w :: IsTrue(m, u) && IsTrue(m, w) ==> (labels.At(u) == labels.At(w) <==> Connected(m, u, w)))
  }

  /** Flood fill from `seed`: the component of `seed`. */
  method Component(m: Grid<bool>, seed: Voxel) returns (c: set<Voxel>)
    requires m.Valid() && IsTrue(m, seed)
    ensures forall w :: w in c <==> Connected(m, seed, w)
  {
    ghost var all := TrueVoxels(m);
    var visited := {seed};
    var frontier := {seed};
    ConnectedRefl(m, seed);
    while frontier != {}
      invariant frontier <= visited <= all
      invariant seed in visited
      invariant forall w :: w in visited ==> Connected(m, seed, w)
      invariant forall a, b :: a in visited - frontier && Adjacent(a, b) && IsTrue(m, b) ==> b in visited
      decreases |all - visited|, |frontier|
    {
      var u :| u in frontier;
      var found := set w | w in Neighbours(u) && m.InBounds(w) && m.At(w) && w !in visited;
      forall w | w in found ensures Connected(m, seed, w) {
        ConnectedStep(m, seed, u, w);
      }
      if found != {} {
        assert all - (visited + found) < all - visited;
      }
      visited := visited + found;
      frontier := frontier - {u} + found;
    }
    c := visited;
    forall w | Connected(m, seed, w) ensures w in c {
      ClosedSetHoldsComponent(m, c, seed, w);
    }
  }

  /** The state of the labelling loop: `lab` gives labels below `next` to a
      union of whole components, one label per component. */
  ghost predicate PartialLabeling(m: Grid<bool>, lab: map<Voxel, nat>, next: nat)
    requires m.Valid()
  {
    && next >= 1
    && (forall v :: v in lab ==> IsTrue(m, v) && 1 <= lab[v] < next)
    && (forall u, w :: u in lab && Connected(m, u, w) ==> w in lab)
    && (forall u, w :: u in lab && w in lab ==> (lab[u] == lab[w] <==> Connected(m, u, w)))
  }

  /** Giving a fresh label to the whole component of an unlabelled true voxel
      keeps the loop state. */
  lemma AddComponent(m: Grid<bool>, lab: map<Voxel, nat>, next: nat, seed: Voxel, c: set<Voxel>)
    requires m.Valid() && PartialLabeling(m, lab, next)
    requires IsTrue(m, seed) && seed !in lab
    requires forall w :: w in c <==> Connected(m, seed, w)
    ensures c !! lab.Keys
    ensures PartialLabeling(m, lab + map w | w in c :: next, next + 1)
  {
    var lab' := lab + map w | w in c :: next;
    forall w | w in c ensures w !in lab {
      if w in lab {
        ConnectedSymmetric(m, seed, w);
      }
    }
    forall v | v in lab' ensures IsTrue(m, v) && 1 <= lab'[v] < next + 1 {
      if v in c { ConnectedEndsTrue(m, seed, v); }
    }
    forall u, w | u in lab' && Connected(m, u, w) ensures w in lab' {
      if u in c { ConnectedTransitive(m, seed, u, w); }
    }
    forall u, w | u in lab' && w in lab' ensures lab'[u] == lab'[w] <==> Connected(m, u, w) {
      if u in c && w in c {
        ConnectedSymmetric(m, seed, u);
        ConnectedTransitive(m, u, seed, w);
      } else if u in c {
        if Connected(m, u, w) {
          ConnectedSymmetric(m, u, w);
          ConnectedTransitive(m, w, u, seed);
          assert false;
        }
      } else if w in c {
        if Connected(m, u, w) {
          ConnectedTransitive(m, u, w, seed);
          ConnectedSymmetric(m, seed, w);
          assert false;
        }
      }
    }
  }

  /** Labels every component of the true voxels of `m`, visiting the voxels in
      an arbitrary order and flooding each unlabelled true voxel's component.
      The result maps exactly the true voxels; `next` is one above the last
      label used. */
  method LabelComponents(m: Grid<bool>) returns (lab: map<Voxel, nat>, next: nat)
    requires m.Valid()
    ensures PartialLabeling(m, lab, next)
    ensures forall v :: IsTrue(m, v) ==> v in lab
  {
    lab, next := map[], 1;
    var todo := set i, j, k | 0 <= i < m.n0 && 0 <= j < m.n1 && 0 <= k < m.n2 :: Voxel(i, j, k);
    while todo != {}
      invariant PartialLabeling(m, lab, next)
      invariant forall v :: IsTrue(m, v) && v !in todo ==> v in lab
      decreases |todo|
    {
      var v :| v in todo;
      if m.InBounds(v) && m.At(v) && v !in lab {
        var c := Component(m, v);
        ConnectedRefl(m, v);
        AddComponent(m, lab, next, v, c);
        ghost var before := lab;
        lab := lab + map w | w in c :: next;
        assert before.Keys <= lab.Keys && v in lab;
        next := next + 1;
      }
      todo := todo - {v};
    }
  }

  /** `label(mask, connectivity=1)`: a labelling of the 6-connected
      components of the true voxels. */
  method Label(m: Grid<bool>) returns (labels: Grid<nat>)
    requires m.Valid()
    ensures IsLabeling(m, labels)
  {
    var lab, next := LabelComponents(m);
    labels := LabelGrid(m, lab, next);
  }

  /** Once every true voxel is labelled, the map read as a grid (0 elsewhere)
      is a labelling. */
  function LabelGrid(m: Grid<bool>, lab: map<Voxel, nat>, next: nat): (labels: Grid<nat>)
    requires m.Valid() && PartialLabeling(m, lab, next)
    requires forall v :: IsTrue(m, v) ==> v in lab
    ensures IsLabeling(m, labels)
  {
    var labels := Tabulate(m.n0, m.n1, m.n2, v => if v in lab then lab[v] else 0);
    assert forall v :: m.InBounds(v) ==> (labels.At(v) == 0 <==> !m.At(v)) by {
      forall v | m.InBounds(v) ensures labels.At(v) == 0 <==> !m.At(v) {
        assert labels.InBounds(v);
        assert IsTrue(m, v) <==> v in lab;
      }
    }
    labels
  }
}
