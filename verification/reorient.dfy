/**
 * Axis reorientation of the voxel array (`flip_numpy_array_dimensions`):
 * the array read in scanner order (z, y, x) is transposed to (x, y, z) and
 * the new axis 0 is mirrored. A numpy array of shape (a, b, c) is modelled
 * as a sequence of a matrices of b rows of c values; the shape is carried
 * explicitly so that an axis of length 0 keeps the lengths behind it.
 */
module Reorient {

  type Volume<T> = seq<seq<seq<T>>>

  predicate IsMatrix<T>(m: seq<seq<T>>, rows: nat, cols: nat)
  {
    |m| == rows && forall k :: 0 <= k < |m| ==> |m[k]| == cols
  }

  /** The array has shape (a, b, c). */
  predicate HasShape<T>(v: Volume<T>, a: nat, b: nat, c: nat)
  {
    |v| == a && forall i :: 0 <= i < |v| ==> IsMatrix(v[i], b, c)
  }

  /** The transpose that exchanges axes 0 and 2. */
  function Transpose<T>(v: Volume<T>, a: nat, b: nat, c: nat): (r: Volume<T>)
    requires HasShape(v, a, b, c)
    ensures HasShape(r, c, b, a)
    ensures forall i, j, k :: 0 <= i < c && 0 <= j < b && 0 <= k < a ==> r[i][j][k] == v[k][j][i]
  {
    seq(c, i requires 0 <= i < c =>
      seq(b, j requires 0 <= j < b =>
        seq(a, k requires 0 <= k < a => v[k][j][i])))
  }

  /** The mirror of axis 0: the order along it reversed. */
  function MirrorAxis0<T>(v: Volume<T>): (r: Volume<T>)
    ensures |r| == |v|
    ensures forall i :: 0 <= i < |v| ==> r[i] == v[|v| - 1 - i]
  {
    seq(|v|, i requires 0 <= i < |v| => v[|v| - 1 - i])
  }

  /**
   * `flip_numpy_array_dimensions`: an array of shape (Z, Y, X) becomes one of
   * shape (X, Y, Z) whose cell (i, j, k) is the input's cell (k, j, X-1-i).
   */
  function Flip<T>(v: Volume<T>, z: nat, y: nat, x: nat): (r: Volume<T>)
    requires HasShape(v, z, y, x)
    ensures HasShape(r, x, y, z)
    ensures forall i, j, k :: 0 <= i < x && 0 <= j < y && 0 <= k < z ==> r[i][j][k] == v[k][j][x - 1 - i]
  {
    MirrorAxis0(Transpose(v, z, y, x))
  }

  /** The inverse reorientation, from (x, y, z) back to scanner order (z, y, x). */
  function Unflip<T>(w: Volume<T>, x: nat, y: nat, z: nat): (r: Volume<T>)
    requires HasShape(w, x, y, z)
    ensures HasShape(r, z, y, x)
    ensures forall k, j, i :: 0 <= k < z && 0 <= j < y && 0 <= i < x ==> r[k][j][i] == w[x - 1 - i][j][k]
  {
    Transpose(MirrorAxis0(w), x, y, z)
  }

  /** Two arrays of the same shape that agree on every cell are equal. */
  lemma SameCells<T>(u: Volume<T>, v: Volume<T>, a: nat, b: nat, c: nat)
    requires HasShape(u, a, b, c) && HasShape(v, a, b, c)
    requires forall i, j, k :: 0 <= i < a && 0 <= j < b && 0 <= k < c ==> u[i][j][k] == v[i][j][k]
    ensures u == v
  {
    forall i | 0 <= i < a
      ensures u[i] == v[i]
    {
      forall j | 0 <= j < b
        ensures u[i][j] == v[i][j]
      {
        assert |u[i][j]| == c == |v[i][j]|;
      }
    }
  }

  /** The reorientation is a bijection on cells: Unflip undoes Flip and Flip undoes Unflip. */
  lemma FlipInverse<T>(v: Volume<T>, w: Volume<T>, z: nat, y: nat, x: nat)
    requires HasShape(v, z, y, x) && HasShape(w, x, y, z)
    ensures Unflip(Flip(v, z, y, x), x, y, z) == v
    ensures Flip(Unflip(w, x, y, z), z, y, x) == w
  {
    var f := Flip(v, z, y, x);
    var u := Unflip(f, x, y, z);
    forall k, j, i | 0 <= k < z && 0 <= j < y && 0 <= i < x
      ensures u[k][j][i] == v[k][j][i]
    {
      assert u[k][j][i] == f[x - 1 - i][j][k];
    }
    SameCells(u, v, z, y, x);
    var g := Unflip(w, x, y, z);
    var h := Flip(g, z, y, x);
    forall i, j, k | 0 <= i < x && 0 <= j < y && 0 <= k < z
      ensures h[i][j][k] == w[i][j][k]
    {
      assert h[i][j][k] == g[k][j][x - 1 - i];
    }
    SameCells(h, w, x, y, z);
  }

  // ---------------------------------------------------------------------------
  // The values of an array, in row-major order, and their multiplicities.

  function Flatten<T>(m: seq<seq<T>>): seq<T>
  {
    if m == [] then [] else m[0] + Flatten(m[1..])
  }

  /** Every cell of the array, in row-major order. */
  function Cells<T>(v: Volume<T>): seq<T>
  {
    if v == [] then [] else Flatten(v[0]) + Cells(v[1..])
  }

  lemma {:induction false} CellsAppend<T>(u: Volume<T>, v: Volume<T>)
    ensures Cells(u + v) == Cells(u) + Cells(v)
  {
    if u == [] {
      assert u + v == v;
    } else {
      assert (u + v)[1..] == u[1..] + v;
      CellsAppend(u[1..], v);
    }
  }

  /** Mirroring an axis keeps every value with its multiplicity. */
  lemma {:induction false} MirrorKeepsValues<T>(v: Volume<T>)
    ensures multiset(Cells(MirrorAxis0(v))) == multiset(Cells(v))
  {
    if v != [] {
      var m := MirrorAxis0(v);
      assert m == MirrorAxis0(v[1..]) + [v[0]];
      CellsAppend(MirrorAxis0(v[1..]), [v[0]]);
      assert Cells([v[0]]) == Flatten(v[0]) + Cells([]);
      MirrorKeepsValues(v[1..]);
    }
  }

  /** The first column of a matrix and the matrix without it. */
  function Column0<T>(m: seq<seq<T>>): (r: seq<T>)
    requires forall k :: 0 <= k < |m| ==> |m[k]| > 0
    ensures |r| == |m|
  {
    seq(|m|, k requires 0 <= k < |m| => m[k][0])
  }

  function DropColumn0<T>(m: seq<seq<T>>): (r: seq<seq<T>>)
    requires forall k :: 0 <= k < |m| ==> |m[k]| > 0
    ensures |r| == |m|
    ensures forall k :: 0 <= k < |m| ==> r[k] == m[k][1..]
  {
    seq(|m|, k requires 0 <= k < |m| => m[k][1..])
  }

  /** The matrix transpose, from rows x cols to cols x rows. */
  function Transpose2<T>(m: seq<seq<T>>, rows: nat, cols: nat): (r: seq<seq<T>>)
    requires IsMatrix(m, rows, cols)
    ensures IsMatrix(r, cols, rows)
    ensures forall j, k :: 0 <= j < cols && 0 <= k < rows ==> r[j][k] == m[k][j]
  {
    seq(cols, j requires 0 <= j < cols => seq(rows, k requires 0 <= k < rows => m[k][j]))
  }

  lemma {:induction false} FlattenEmptyRows<T>(m: seq<seq<T>>)
    requires IsMatrix(m, |m|, 0)
    ensures Flatten(m) == []
  {
    if m != [] {
      FlattenEmptyRows(m[1..]);
    }
  }

  lemma {:induction false} CellsEmptyRows<T>(v: Volume<T>, a: nat, b: nat)
    requires HasShape(v, a, b, 0)
    ensures Cells(v) == []
  {
    if v != [] {
      FlattenEmptyRows(v[0]);
      CellsEmptyRows(v[1..], a - 1, b);
    }
  }

  /** A matrix holds the values of its first column and of the rest. */
  lemma {:induction false} PeelColumn<T>(m: seq<seq<T>>, rows: nat, cols: nat)
    requires cols > 0 && IsMatrix(m, rows, cols)
    ensures multiset(Flatten(m)) == multiset(Column0(m)) + multiset(Flatten(DropColumn0(m)))
  {
    if m != [] {
      PeelColumn(m[1..], rows - 1, cols);
      assert Column0(m) == [m[0][0]] + Column0(m[1..]);
      assert DropColumn0(m)[1..] == DropColumn0(m[1..]);
      assert m[0] == [m[0][0]] + m[0][1..];
    }
  }

  lemma {:induction false} Transpose2KeepsValues<T>(m: seq<seq<T>>, rows: nat, cols: nat)
    requires IsMatrix(m, rows, cols)
    ensures multiset(Flatten(Transpose2(m, rows, cols))) == multiset(Flatten(m))
    decreases cols
  {
    if cols == 0 {
      FlattenEmptyRows(m);
    } else {
      var t := Transpose2(m, rows, cols);
      var rest := DropColumn0(m);
      var u := Transpose2(rest, rows, cols - 1);
      Transpose2KeepsValues(rest, rows, cols - 1);
      assert t[0] == Column0(m);
      forall j | 0 <= j < cols - 1
        ensures t[1..][j] == u[j]
      {
        forall k | 0 <= k < rows
          ensures t[1..][j][k] == u[j][k]
        {
          assert rest[k] == m[k][1..];
        }
      }
      assert t[1..] == u;
      PeelColumn(m, rows, cols);
    }
  }

  /** The matrix of every row's first value, and the array without them. */
  function Heads<T>(v: Volume<T>, a: nat, b: nat, c: nat): (r: seq<seq<T>>)
    requires c > 0 && HasShape(v, a, b, c)
    ensures IsMatrix(r, a, b)
    ensures forall k :: 0 <= k < a ==> r[k] == Column0(v[k])
  {
    seq(a, k requires 0 <= k < a => Column0(v[k]))
  }

  function Tails<T>(v: Volume<T>, a: nat, b: nat, c: nat): (r: Volume<T>)
    requires c > 0 && HasShape(v, a, b, c)
    ensures HasShape(r, a, b, c - 1)
    ensures forall k :: 0 <= k < a ==> r[k] == DropColumn0(v[k])
  {
    seq(a, k requires 0 <= k < a => DropColumn0(v[k]))
  }

  lemma ShapeOfRest<T>(v: Volume<T>, a: nat, b: nat, c: nat)
    requires a > 0 && HasShape(v, a, b, c)
    ensures HasShape(v[1..], a - 1, b, c)
  {
    forall i | 0 <= i < a - 1 ensures IsMatrix(v[1..][i], b, c) {
      assert v[1..][i] == v[i + 1];
    }
  }

  lemma HeadsOfRest<T>(v: Volume<T>, a: nat, b: nat, c: nat)
    requires a > 0 && c > 0 && HasShape(v, a, b, c)
    ensures HasShape(v[1..], a - 1, b, c)
    ensures Heads(v, a, b, c) == [Column0(v[0])] + Heads(v[1..], a - 1, b, c)
    ensures Tails(v, a, b, c) == [DropColumn0(v[0])] + Tails(v[1..], a - 1, b, c)
  {
    ShapeOfRest(v, a, b, c);
    var hs, hs' := Heads(v, a, b, c), Heads(v[1..], a - 1, b, c);
    var ts, ts' := Tails(v, a, b, c), Tails(v[1..], a - 1, b, c);
    forall k | 0 <= k < a - 1 ensures hs[k + 1] == hs'[k] && ts[k + 1] == ts'[k] {
      assert v[1..][k] == v[k + 1];
    }
    assert hs == [hs[0]] + hs[1..];
    assert ts == [ts[0]] + ts[1..];
  }

  lemma {:induction false} PeelInnermost<T>(v: Volume<T>, a: nat, b: nat, c: nat)
    requires c > 0 && HasShape(v, a, b, c)
    ensures multiset(Cells(v)) == multiset(Flatten(Heads(v, a, b, c))) + multiset(Cells(Tails(v, a, b, c)))
  {
    if v != [] {
      HeadsOfRest(v, a, b, c);
      PeelColumn(v[0], b, c);
      PeelInnermost(v[1..], a - 1, b, c);
      var hs, ts := Heads(v, a, b, c), Tails(v, a, b, c);
      assert hs[1..] == Heads(v[1..], a - 1, b, c);
      assert ts[1..] == Tails(v[1..], a - 1, b, c);
    }
  }

  /** The transpose starts with the transposed first column plane, followed by the transpose of the rest. */
  lemma TransposePeel<T>(v: Volume<T>, a: nat, b: nat, c: nat)
    requires c > 0 && HasShape(v, a, b, c)
    ensures Transpose(v, a, b, c) == [Transpose2(Heads(v, a, b, c), a, b)] + Transpose(Tails(v, a, b, c), a, b, c - 1)
  {
    var t := Transpose(v, a, b, c);
    var hs, ts := Heads(v, a, b, c), Tails(v, a, b, c);
    var h2, tt := Transpose2(hs, a, b), Transpose(ts, a, b, c - 1);
    forall j | 0 <= j < b ensures t[0][j] == h2[j] {
      forall k | 0 <= k < a ensures t[0][j][k] == h2[j][k] {
        assert hs[k] == Column0(v[k]);
      }
    }
    assert t[0] == h2;
    forall i, j, k | 0 <= i < c - 1 && 0 <= j < b && 0 <= k < a
      ensures t[1..][i][j][k] == tt[i][j][k]
    {
      assert ts[k] == DropColumn0(v[k]);
      assert ts[k][j] == v[k][j][1..];
    }
    SameCells(t[1..], tt, c - 1, b, a);
    assert t == [t[0]] + t[1..];
  }

  lemma {:induction false} TransposeKeepsValues<T>(v: Volume<T>, a: nat, b: nat, c: nat)
    requires HasShape(v, a, b, c)
    ensures multiset(Cells(Transpose(v, a, b, c))) == multiset(Cells(v))
    decreases c
  {
    if c == 0 {
      CellsEmptyRows(v, a, b);
    } else {
      var hs, ts := Heads(v, a, b, c), Tails(v, a, b, c);
      var t := Transpose(v, a, b, c);
      TransposePeel(v, a, b, c);
      TransposeKeepsValues(ts, a, b, c - 1);
      Transpose2KeepsValues(hs, a, b);
      PeelInnermost(v, a, b, c);
      assert Cells(t) == Flatten(t[0]) + Cells(t[1..]);
    }
  }

  /** Reorientation moves cells but keeps every value with its multiplicity. */
  lemma FlipKeepsValues<T>(v: Volume<T>, z: nat, y: nat, x: nat)
    requires HasShape(v, z, y, x)
    ensures multiset(Cells(Flip(v, z, y, x))) == multiset(Cells(v))
  {
    TransposeKeepsValues(v, z, y, x);
    MirrorKeepsValues(Transpose(v, z, y, x));
  }
}
