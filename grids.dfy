/** Regular three-dimensional grids: the shape of a NumPy array with three
    axes and its elements in C order. Axis indices are named after the
    array's axes (axis 0, axis 1, axis 2), not after image directions. */
module Grids {

  /** A voxel position: its index along axis 0, axis 1 and axis 2. */
  datatype Voxel = Voxel(i: int, j: int, k: int)

  /** A grid of shape (n0, n1, n2). The shape is kept apart from the cells
      so that zero-sized grids of different shapes stay distinct. */
  datatype Grid<T> = Grid(n0: nat, n1: nat, n2: nat, cells: seq<seq<seq<T>>>) {

    /** The cells really have the declared shape. */
    predicate Valid() {
      && |cells| == n0
      && (forall i :: 0 <= i < n0 ==> |cells[i]| == n1)
      && (forall i, j :: 0 <= i < n0 && 0 <= j < n1 ==> |cells[i][j]| == n2)
    }

    predicate InBounds(v: Voxel) {
      0 <= v.i < n0 && 0 <= v.j < n1 && 0 <= v.k < n2
    }

    function At(v: Voxel): T
      requires Valid() && InBounds(v)
    {
      cells[v.i][v.j][v.k]
    }

    /** The number of elements (NumPy's `size`). */
    function Size(): nat {
      n0 * n1 * n2
    }

    predicate SameShape<U>(other: Grid<U>) {
      n0 == other.n0 && n1 == other.n1 && n2 == other.n2
    }
  }

  /** The grid of shape (n0, n1, n2) whose element at `v` is `f(v)`. */
  function Tabulate<T>(n0: nat, n1: nat, n2: nat, f: Voxel -> T): (g: Grid<T>)
    ensures g.Valid() && g.n0 == n0 && g.n1 == n1 && g.n2 == n2
    ensures forall v :: g.InBounds(v) ==> g.At(v) == f(v)
  {
    Grid(n0, n1, n2, seq(n0, i => seq(n1, j => seq(n2, k => f(Voxel(i, j, k))))))
  }

  /** A grid has no element exactly when one of its axes has length zero. */
  lemma SizeZero<T>(g: Grid<T>)
    ensures g.Size() == 0 <==> (g.n0 == 0 || g.n1 == 0 || g.n2 == 0)
    ensures g.Size() == 0 <==> forall v :: !g.InBounds(v)
  {
    if g.n0 > 0 && g.n1 > 0 && g.n2 > 0 {
      assert g.n0 * g.n1 >= 1;
      assert g.n0 * g.n1 * g.n2 >= 1;
      assert g.InBounds(Voxel(0, 0, 0));
    }
  }

  /** Two well-formed grids of one shape that agree at every voxel are equal. */
  lemma Extensionality<T>(a: Grid<T>, b: Grid<T>)
    requires a.Valid() && b.Valid() && a.SameShape(b)
    requires forall v :: a.InBounds(v) ==> a.At(v) == b.At(v)
    ensures a == b
  {
    forall i | 0 <= i < a.n0
      ensures a.cells[i] == b.cells[i]
    {
      forall j | 0 <= j < a.n1
        ensures a.cells[i][j] == b.cells[i][j]
      {
        forall k | 0 <= k < a.n2
          ensures a.cells[i][j][k] == b.cells[i][j][k]
        {
          assert a.InBounds(Voxel(i, j, k));
        }
      }
    }
  }

  /** Concatenation of a sequence of sequences, in order. */
  function Concat<T>(ss: seq<seq<T>>): seq<T> {
    if ss == [] then [] else ss[0] + Concat(ss[1..])
  }

  lemma {:induction false} ConcatMembers<T>(ss: seq<seq<T>>, x: T)
    ensures x in Concat(ss) <==> exists n :: 0 <= n < |ss| && x in ss[n]
  {
    if ss != [] {
      ConcatMembers(ss[1..], x);
      if x in Concat(ss[1..]) {
        var n :| 0 <= n < |ss[1..]| && x in ss[1..][n];
        assert x in ss[n + 1];
      }
      if exists n :: 0 <= n < |ss| && x in ss[n] {
        var n :| 0 <= n < |ss| && x in ss[n];
        if n > 0 {
          assert x in ss[1..][n - 1];
        }
      }
    }
  }

  /** Concatenating `|ss|` rows of width `w` gives `|ss| * w` elements. */
  lemma {:induction false} ConcatUniformLength<T>(ss: seq<seq<T>>, w: nat)
    requires forall n :: 0 <= n < |ss| ==> |ss[n]| == w
    ensures |Concat(ss)| == |ss| * w
  {
    if ss != [] {
      ConcatUniformLength(ss[1..], w);
      assert |ss| * w == w + (|ss| - 1) * w;
    }
  }

  /** The elements in C order (NumPy's `ravel`). */
  function Ravel<T>(g: Grid<T>): seq<T> {
    Concat(seq(|g.cells|, i requires 0 <= i < |g.cells| => Concat(g.cells[i])))
  }

  lemma RavelMembers<T>(g: Grid<T>, x: T)
    requires g.Valid()
    ensures x in Ravel(g) <==> exists v :: g.InBounds(v) && g.At(v) == x
  {
    var rows := seq(|g.cells|, i requires 0 <= i < |g.cells| => Concat(g.cells[i]));
    ConcatMembers(rows, x);
    if x in Ravel(g) {
      var i :| 0 <= i < |rows| && x in rows[i];
      ConcatMembers(g.cells[i], x);
      var j :| 0 <= j < |g.cells[i]| && x in g.cells[i][j];
      var k :| 0 <= k < |g.cells[i][j]| && g.cells[i][j][k] == x;
      assert g.InBounds(Voxel(i, j, k)) && g.At(Voxel(i, j, k)) == x;
    }
    if exists v :: g.InBounds(v) && g.At(v) == x {
      var v :| g.InBounds(v) && g.At(v) == x;
      assert x in g.cells[v.i][v.j];
      ConcatMembers(g.cells[v.i], x);
      assert x in rows[v.i];
    }
  }

  /** The largest element of a sequence of naturals, 0 for the empty one. */
  function MaxOf(s: seq<nat>): (r: nat)
    ensures forall x :: x in s ==> x <= r
    ensures s != [] ==> r in s
    ensures s == [] ==> r == 0
  {
    if s == [] then 0
    else
      var rest := MaxOf(s[1..]);
      assert forall x :: x in s ==> x == s[0] || x in s[1..];
      if s[0] >= rest then s[0] else rest
  }
}
