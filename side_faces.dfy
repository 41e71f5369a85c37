/** `keep_components_touching_side_faces`: keep the true voxels whose
    6-connected component reaches one of the four side planes of the volume.
    The side planes are the first and last index of axis 0 and of axis 1 (the
    slices `labels[0,:,:]`, `labels[-1,:,:]`, `labels[:,0,:]`,
    `labels[:,-1,:]`); the two ends of axis 2 are not side planes. */
module SideFaces {
  import opened Grids
  import opened Connectivity
  import opened Labeling

  /** `v` lies in `g` on axis 0 at its first or last index, or on axis 1 at
      its first or last index. */
  predicate OnSidePlane<T>(g: Grid<T>, v: Voxel) {
    g.InBounds(v) && (v.i == 0 || v.i == g.n0 - 1 || v.j == 0 || v.j == g.n1 - 1)
  }

  /** `v` is connected, through true voxels, to a true voxel on a side plane. */
  ghost predicate ReachesSide(m: Grid<bool>, v: Voxel)
    requires m.Valid()
  {
    exists b :: OnSidePlane(m, b) && Connected(m, v, b)
  }

  /** What the filter is meant to return: `out[v] = mask[v] && v reaches a
      true voxel on a side plane`, with the shape of `mask`. */
  ghost function Retained(m: Grid<bool>): (r: Grid<bool>)
    requires m.Valid()
    ensures r.Valid() && r.SameShape(m)
    ensures forall v :: r.InBounds(v) ==> (r.At(v) <==> IsTrue(m, v) && ReachesSide(m, v))
  {
    Tabulate(m.n0, m.n1, m.n2, v => IsTrue(m, v) && ReachesSide(m, v))
  }

  // ---------------------------------------------------------------------------
  // The filter as written: label, collect the labels on the four side planes,
  // drop the background label, keep the voxels whose label was collected.
  // ---------------------------------------------------------------------------

  /** The four side planes of a label map, each raveled in C order and
      concatenated: `np.concatenate([labels[0,:,:].ravel(), labels[-1,:,:].ravel(),
      labels[:,0,:].ravel(), labels[:,-1,:].ravel()])`. */
  function SideLabels(labels: Grid<nat>): (s: seq<nat>)
    requires labels.Valid() && labels.n0 > 0 && labels.n1 > 0
    ensures |s| == 2 * labels.n1 * labels.n2 + 2 * labels.n0 * labels.n2
  {
    var n0, n1, n2 := labels.n0, labels.n1, labels.n2;
    ConcatUniformLength(AxisZeroSlice(labels, 0), n2);
    ConcatUniformLength(AxisZeroSlice(labels, n0 - 1), n2);
    ConcatUniformLength(AxisOneSlice(labels, 0), n2);
    ConcatUniformLength(AxisOneSlice(labels, n1 - 1), n2);
    Concat(AxisZeroSlice(labels, 0)) + Concat(AxisZeroSlice(labels, n0 - 1))
      + Concat(AxisOneSlice(labels, 0)) + Concat(AxisOneSlice(labels, n1 - 1))
  }

  /** `labels[a,:,:]`, a plane of shape (n1, n2). */
  function AxisZeroSlice(labels: Grid<nat>, a: nat): (p: seq<seq<nat>>)
    requires labels.Valid() && a < labels.n0
    ensures |p| == labels.n1 && forall j :: 0 <= j < labels.n1 ==> |p[j]| == labels.n2
    ensures forall j, k :: 0 <= j < labels.n1 && 0 <= k < labels.n2 ==> p[j][k] == labels.At(Voxel(a, j, k))
  {
    labels.cells[a]
  }

  /** `labels[:,b,:]`, a plane of shape (n0, n2). */
  function AxisOneSlice(labels: Grid<nat>, b: nat): (p: seq<seq<nat>>)
    requires labels.Valid() && b < labels.n1
    ensures |p| == labels.n0 && forall i :: 0 <= i < labels.n0 ==> |p[i]| == labels.n2
    ensures forall i, k :: 0 <= i < labels.n0 && 0 <= k < labels.n2 ==> p[i][k] == labels.At(Voxel(i, b, k))
  {
    seq(labels.n0, i requires 0 <= i < labels.n0 => labels.cells[i][b])
  }

  /** The distinct non-background labels on the side planes (`np.unique`
      followed by `touching_labels[touching_labels != 0]`): exactly the
      non-zero labels that some side-plane voxel carries. */
  function TouchingLabels(labels: Grid<nat>): (t: set<nat>)
    requires labels.Valid() && labels.n0 > 0 && labels.n1 > 0
    ensures forall x :: x in t <==> x != 0 && exists b :: OnSidePlane(labels, b) && labels.At(b) == x
  {
    var t := set x | x in SideLabels(labels) && x != 0;
    assert forall x :: x in t <==> x != 0 && exists b :: OnSidePlane(labels, b) && labels.At(b) == x by {
      forall x ensures x in t <==> x != 0 && exists b :: OnSidePlane(labels, b) && labels.At(b) == x {
        SideLabelsMembers(labels, x);
      }
    }
    t
  }

  /** The filter after labelling, given the label map of `mask`: the original
      mask when there is no component, all false when no component touches a
      side plane, otherwise membership of each voxel's label in the touching
      set (`np.isin`). */
  function KeepWithLabels(mask: Grid<bool>, labels: Grid<nat>): (r: Grid<bool>)
    requires mask.Valid() && mask.Size() > 0 && IsLabeling(mask, labels)
    ensures r.Valid() && r.SameShape(mask)
  {
    SizeZero(mask);
    if MaxOf(Ravel(labels)) == 0 then mask
    else
      var touching := TouchingLabels(labels);
      if |touching| == 0 then Tabulate(mask.n0, mask.n1, mask.n2, v => false)
      else Tabulate(mask.n0, mask.n1, mask.n2, v => labels.InBounds(v) && labels.At(v) in touching)
  }

  /** `keep_components_touching_side_faces(mask)`. */
  method KeepComponentsTouchingSideFaces(mask: Grid<bool>) returns (r: Grid<bool>)
    requires mask.Valid()
    ensures r == Retained(mask)
    ensures r.Valid() && r.SameShape(mask)
    ensures forall v :: r.InBounds(v) && r.At(v) ==> mask.At(v)
    ensures forall v :: IsTrue(mask, v) && OnSidePlane(mask, v) ==> r.At(v)
  {
    forall v | IsTrue(mask, v) && OnSidePlane(mask, v) ensures Retained(mask).At(v) {
      SideVoxelRetained(mask, v);
    }
    if mask.Size() == 0 {
      ZeroSizeUnchanged(mask);
      return mask;
    }
    var labels := Label(mask);
    r := KeepWithLabels(mask, labels);
    KeepWithLabelsIsRetained(mask, labels);
  }

  // ---------------------------------------------------------------------------
  // The filter as written computes the specification, whatever the numbering.
  // ---------------------------------------------------------------------------

  /** A label occurs on a side plane exactly when some side-plane voxel
      carries it. */
  lemma SideLabelsMembers(labels: Grid<nat>, x: nat)
    requires labels.Valid() && labels.n0 > 0 && labels.n1 > 0
    ensures x in SideLabels(labels) <==> exists b :: OnSidePlane(labels, b) && labels.At(b) == x
  {
    var c := labels.cells;
    var n0, n1 := labels.n0, labels.n1;
    var low := AxisOneSlice(labels, 0);
    var high := AxisOneSlice(labels, n1 - 1);
    if x in SideLabels(labels) {
      var a: nat, j: int;
      if x in Concat(c[0]) {
        ConcatMembers(c[0], x);
        a, j := 0, (var j :| 0 <= j < |c[0]| && x in c[0][j]; j);
      } else if x in Concat(c[n0 - 1]) {
        ConcatMembers(c[n0 - 1], x);
        a, j := n0 - 1, (var j :| 0 <= j < |c[n0 - 1]| && x in c[n0 - 1][j]; j);
      } else if x in Concat(low) {
        ConcatMembers(low, x);
        a, j := (var i :| 0 <= i < |low| && x in low[i]; i), 0;
      } else {
        ConcatMembers(high, x);
        a, j := (var i :| 0 <= i < |high| && x in high[i]; i), n1 - 1;
      }
      assert x in c[a][j];
      var k :| 0 <= k < |c[a][j]| && c[a][j][k] == x;
      assert OnSidePlane(labels, Voxel(a, j, k)) && labels.At(Voxel(a, j, k)) == x;
    }
    if exists b :: OnSidePlane(labels, b) && labels.At(b) == x {
      var b :| OnSidePlane(labels, b) && labels.At(b) == x;
      assert x in c[b.i][b.j];
      if b.i == 0 {
        ConcatMembers(c[0], x);
      } else if b.i == n0 - 1 {
        ConcatMembers(c[n0 - 1], x);
      } else if b.j == 0 {
        assert x in low[b.i];
        ConcatMembers(low, x);
      } else {
        assert x in high[b.i];
        ConcatMembers(high, x);
      }
    }
  }

  /** For a true voxel on a side plane, its component's label is among the
      touching labels; conversely a touching label belongs to a component
      that reaches a side plane. */
  lemma RetainedByLabel(mask: Grid<bool>, labels: Grid<nat>, v: Voxel)
    requires mask.Valid() && mask.n0 > 0 && mask.n1 > 0 && IsLabeling(mask, labels)
    requires mask.InBounds(v)
    ensures Retained(mask).At(v) <==> labels.At(v) in TouchingLabels(labels)
  {
    var x := labels.At(v);
    if Retained(mask).At(v) {
      var b :| OnSidePlane(mask, b) && Connected(mask, v, b);
      ConnectedEndsTrue(mask, v, b);
      SideLabelsMembers(labels, labels.At(b));
      assert labels.At(b) == x;
    }
    if x in TouchingLabels(labels) {
      SideLabelsMembers(labels, x);
      var b :| OnSidePlane(labels, b) && labels.At(b) == x;
      assert IsTrue(mask, v) && IsTrue(mask, b);
      assert Connected(mask, v, b);
    }
  }

  /** Whatever positive numbers the labelling hands out, the filter returns
      exactly the voxels whose component reaches a side plane. */
  lemma KeepWithLabelsIsRetained(mask: Grid<bool>, labels: Grid<nat>)
    requires mask.Valid() && mask.Size() > 0 && IsLabeling(mask, labels)
    ensures KeepWithLabels(mask, labels) == Retained(mask)
  {
    SizeZero(mask);
    var r := KeepWithLabels(mask, labels);
    var spec := Retained(mask);
    forall v | mask.InBounds(v) ensures r.At(v) == spec.At(v) {
      RetainedByLabel(mask, labels, v);
      if MaxOf(Ravel(labels)) == 0 {
        RavelMembers(labels, labels.At(v));
      }
    }
    Extensionality(r, spec);
  }

  /** Label numbering is not observable: any two labellings give one result. */
  lemma LabelNumberingUnobservable(mask: Grid<bool>, labels1: Grid<nat>, labels2: Grid<nat>)
    requires mask.Valid() && mask.Size() > 0
    requires IsLabeling(mask, labels1) && IsLabeling(mask, labels2)
    ensures KeepWithLabels(mask, labels1) == KeepWithLabels(mask, labels2)
  {
    KeepWithLabelsIsRetained(mask, labels1);
    KeepWithLabelsIsRetained(mask, labels2);
  }

  // ---------------------------------------------------------------------------
  // Properties of the specification.
  // ---------------------------------------------------------------------------

  /** A zero-size mask is returned unchanged. */
  lemma ZeroSizeUnchanged(m: Grid<bool>)
    requires m.Valid() && m.Size() == 0
    ensures Retained(m) == m
  {
    SizeZero(m);
    Extensionality(Retained(m), m);
  }

  /** A mask without a true voxel is returned unchanged (all false). */
  lemma AllFalseUnchanged(m: Grid<bool>)
    requires m.Valid() && forall v :: m.InBounds(v) ==> !m.At(v)
    ensures Retained(m) == m
  {
    Extensionality(Retained(m), m);
  }

  /** Every true voxel on a side plane is kept. */
  lemma SideVoxelRetained(m: Grid<bool>, v: Voxel)
    requires m.Valid() && IsTrue(m, v) && OnSidePlane(m, v)
    ensures Retained(m).At(v)
  {
    ConnectedRefl(m, v);
  }

  /** Components are kept or dropped whole. */
  lemma {:induction false} ComponentKeptWhole(m: Grid<bool>, u: Voxel, w: Voxel)
    requires m.Valid() && Connected(m, u, w)
    ensures m.InBounds(u) && m.InBounds(w)
    ensures Retained(m).At(u) == Retained(m).At(w)
  {
    ConnectedEndsTrue(m, u, w);
    if Retained(m).At(w) {
      var b :| OnSidePlane(m, b) && Connected(m, w, b);
      ConnectedTransitive(m, u, w, b);
    }
    if Retained(m).At(u) {
      var b :| OnSidePlane(m, b) && Connected(m, u, b);
      ConnectedSymmetric(m, u, w);
      ConnectedTransitive(m, w, u, b);
    }
  }

  /** Two face-adjacent true voxels get the same output value. */
  lemma AdjacentVoxelsAgree(m: Grid<bool>, u: Voxel, w: Voxel)
    requires m.Valid() && IsTrue(m, u) && IsTrue(m, w) && Adjacent(u, w)
    ensures Retained(m).At(u) == Retained(m).At(w)
  {
    ConnectedRefl(m, u);
    ConnectedStep(m, u, u, w);
    ComponentKeptWhole(m, u, w);
  }

  /** A component whose voxels all lie strictly inside along axes 0 and 1 is
      removed entirely, whatever indices it reaches along axis 2 (including
      both ends of axis 2). */
  lemma UnreachedComponentRemoved(m: Grid<bool>, v: Voxel)
    requires m.Valid() && m.InBounds(v)
    requires forall w :: Connected(m, v, w) ==> 0 < w.i < m.n0 - 1 && 0 < w.j < m.n1 - 1
    ensures !Retained(m).At(v)
  {
  }

  /** When no true voxel lies on the four side planes the result is all false. */
  lemma NoSideVoxelAllFalse(m: Grid<bool>)
    requires m.Valid()
    requires forall b :: OnSidePlane(m, b) ==> !m.At(b)
    ensures forall v :: m.InBounds(v) ==> !Retained(m).At(v)
  {
    forall v, b | Connected(m, v, b) ensures IsTrue(m, b) {
      ConnectedEndsTrue(m, v, b);
    }
  }

  /** The suffix of a path from any of its voxels is a path to its end. */
  lemma PathSuffix(m: Grid<bool>, p: seq<Voxel>, n: nat)
    requires m.Valid() && IsPath(m, p) && n < |p|
    ensures Connected(m, p[n], p[|p| - 1])
  {
    var q := p[n..];
    assert forall a: nat :: a + 1 < |q| ==> StepAdjacent(q, a) by {
      forall a: nat | a + 1 < |q| ensures StepAdjacent(q, a) {
        assert StepAdjacent(p, n + a);
      }
    }
    assert IsPath(m, q) && q[0] == p[n] && q[|q| - 1] == p[|p| - 1];
  }

  /** Filtering twice is filtering once. */
  lemma Idempotent(m: Grid<bool>)
    requires m.Valid()
    ensures Retained(Retained(m)) == Retained(m)
  {
    var r := Retained(m);
    var rr := Retained(r);
    forall v | r.InBounds(v) ensures rr.At(v) == r.At(v) {
      if r.At(v) {
        var b :| OnSidePlane(m, b) && Connected(m, v, b);
        var p :| IsPath(m, p) && p[0] == v && p[|p| - 1] == b;
        forall n | 0 <= n < |p| ensures IsTrue(r, p[n]) {
          PathSuffix(m, p, n);
        }
        assert IsPath(r, p);
        assert OnSidePlane(r, b) && Connected(r, v, b);
      }
    }
    Extensionality(rr, r);
  }

  // ---------------------------------------------------------------------------
  // Worked cases: which boundary planes count.
  // ---------------------------------------------------------------------------

  /** An n×n×n mask whose only true voxel is `only`. */
  function SingleVoxel(n: nat, only: Voxel): (m: Grid<bool>)
    ensures m.Valid() && m.n0 == n && m.n1 == n && m.n2 == n
    ensures forall v :: m.InBounds(v) ==> (m.At(v) <==> v == only)
  {
    Tabulate(n, n, n, v => v == only)
  }

  /** In a 5×5×5 mask a lone true voxel at index 0 of axis 0 is kept. */
  lemma AxisZeroEndKept()
    ensures Retained(SingleVoxel(5, Voxel(0, 2, 2))) == SingleVoxel(5, Voxel(0, 2, 2))
  {
    var m := SingleVoxel(5, Voxel(0, 2, 2));
    SideVoxelRetained(m, Voxel(0, 2, 2));
    Extensionality(Retained(m), m);
  }

  /** In a 5×5×5 mask a lone true voxel at index 0 of axis 1 is kept. */
  lemma AxisOneEndKept()
    ensures Retained(SingleVoxel(5, Voxel(2, 0, 2))) == SingleVoxel(5, Voxel(2, 0, 2))
  {
    var m := SingleVoxel(5, Voxel(2, 0, 2));
    SideVoxelRetained(m, Voxel(2, 0, 2));
    Extensionality(Retained(m), m);
  }

  /** In a 5×5×5 mask a lone true voxel at index 0 of axis 2 is removed. */
  lemma AxisTwoEndRemoved()
    ensures forall v :: Retained(SingleVoxel(5, Voxel(2, 2, 0))).InBounds(v) ==>
              !Retained(SingleVoxel(5, Voxel(2, 2, 0))).At(v)
  {
    NoSideVoxelAllFalse(SingleVoxel(5, Voxel(2, 2, 0)));
  }

  /** In a 7×7×7 mask with an interior true voxel and a second one at index 0
      of axis 2 (not adjacent to each other), both are removed. */
  lemma InteriorAndAxisTwoEndRemoved()
    ensures var m := Tabulate(7, 7, 7, v => v == Voxel(3, 3, 3) || v == Voxel(3, 3, 0));
            forall v :: m.InBounds(v) ==> !Retained(m).At(v)
  {
    NoSideVoxelAllFalse(Tabulate(7, 7, 7, v => v == Voxel(3, 3, 3) || v == Voxel(3, 3, 0)));
  }
}
