/** The whole-array operations of numpy that the vectorised stepper uses,
    on two-dimensional arrays of reals: `zeros`, `roll` along axis 0 or 1,
    elementwise `+` and `-`, multiplication by a scalar, and assignment of
    a scalar to a rectangular slice. Each returns a new array value. */
module NdArray {
  import opened Grids

  /** numpy's axis 0 (rows) and axis 1 (columns). */
  datatype Axis = Rows | Cols

  /** Where the element at position i of a rolled sequence comes from,
      with the shift reduced to k = shift mod n. */
  lemma RotateIndex(i: int, shift: int, n: int)
    requires 0 <= i < n
    ensures (i - shift) % n == if i < shift % n then n - shift % n + i else i - shift % n
  {
    var q, k := shift / n, shift % n;
    assert shift == q * n + k;
    if i < k {
      assert i - shift == (-q - 1) * n + (n - k + i);
      ModUnique(i - shift, n, -q - 1, n - k + i);
    } else {
      assert i - shift == (-q) * n + (i - k);
      ModUnique(i - shift, n, -q, i - k);
    }
  }

  /** Shifting by `shift` and then by `-shift` returns to the start. */
  lemma ShiftBack(i: int, shift: int, n: int)
    requires 0 <= i < n
    ensures ((i + shift) % n - shift) % n == i
  {
    var d := (i + shift) / n;
    assert i + shift == d * n + (i + shift) % n;
    assert (i + shift) % n - shift == (-d) * n + i;
    ModUnique((i + shift) % n - shift, n, -d, i);
  }

  /** `numpy.roll` of one axis: element i of the result is element
      (i - shift) mod n of the input. */
  function Rotate<T>(s: seq<T>, shift: int): (r: seq<T>)
    ensures |r| == |s|
  {
    seq(|s|, i requires 0 <= i < |s| => s[(i - shift) % |s|])
  }

  /** numpy builds a roll from two slices: the last `shift mod n` elements
      followed by the others. The index rule above gives the same sequence. */
  lemma RotateAsSlices<T>(s: seq<T>, shift: int)
    requires |s| > 0
    ensures Rotate(s, shift) == s[|s| - shift % |s|..] + s[..|s| - shift % |s|]
  {
    var n, k := |s|, shift % |s|;
    var r, slices := Rotate(s, shift), s[n - k..] + s[..n - k];
    forall i | 0 <= i < n
      ensures r[i] == slices[i]
    {
      RotateIndex(i, shift, n);
    }
  }

  /** Rolling a row keeps its sum: it is the same two slices in the other order. */
  lemma RotateSum(s: seq<real>, shift: int)
    ensures Sum(Rotate(s, shift)) == Sum(s)
  {
    if |s| > 0 {
      var n := |s|;
      var k := shift % n;
      RotateAsSlices(s, shift);
      assert s == s[..n - k] + s[n - k..];
      SumConcat(s[..n - k], s[n - k..]);
      SumConcat(s[n - k..], s[..n - k]);
    }
  }

  /** `numpy.roll(g, shift, axis)`: along axis 0 whole rows move, along
      axis 1 every row is rolled on its own. */
  function Roll(g: Grid, shift: int, axis: Axis): (r: Grid)
    ensures |r| == |g|
    ensures Rectangular(g) ==> IsShape(r, |g|, Width(g))
  {
    match axis
    case Rows => Rotate(g, shift)
    case Cols => seq(|g|, i requires 0 <= i < |g| => Rotate(g[i], shift))
  }

  /** Cell (i, j) of a rolled array: rolling along axis 0 by +1 brings
      row i - 1 (row n - 1 into row 0), by -1 row i + 1, and likewise
      along axis 1 for columns. */
  lemma RollAt(g: Grid, shift: int, axis: Axis, i: nat, j: nat)
    requires Rectangular(g) && i < |g| && j < |g[i]|
    ensures Roll(g, shift, axis)[i][j]
         == match axis
            case Rows => g[(i - shift) % |g|][j]
            case Cols => g[i][(j - shift) % |g[i]|]
  {
    match axis
    case Rows =>
    case Cols =>
  }

  /** Rolling one axis back by the same amount restores it. */
  lemma RotateInverse<T>(s: seq<T>, shift: int)
    ensures Rotate(Rotate(s, shift), -shift) == s
  {
    var there := Rotate(s, shift);
    var back := Rotate(there, -shift);
    forall i | 0 <= i < |s|
      ensures back[i] == s[i]
    {
      var k := (i - -shift) % |s|;
      assert back[i] == there[k];
      ShiftBack(i, shift, |s|);
      assert there[k] == s[(k - shift) % |s|];
    }
  }

  /** Rolling back by the same amount restores the array. */
  lemma RollInverse(g: Grid, shift: int, axis: Axis)
    ensures Roll(Roll(g, shift, axis), -shift, axis) == g
  {
    var back := Roll(Roll(g, shift, axis), -shift, axis);
    match axis
    case Rows =>
      RotateInverse(g, shift);
    case Cols =>
      forall i | 0 <= i < |g|
        ensures back[i] == g[i]
      {
        RotateInverse(g[i], shift);
      }
  }

  /** Rolling only moves cells: the array's total is unchanged. */
  lemma RollTotal(g: Grid, shift: int, axis: Axis)
    ensures Total(Roll(g, shift, axis)) == Total(g)
  {
    var r := Roll(g, shift, axis);
    match axis
    case Rows =>
      var sums, rotated := RowSums(r), Rotate(RowSums(g), shift);
      forall i | 0 <= i < |g|
        ensures sums[i] == rotated[i]
      {
      }
      assert sums == rotated;
      RotateSum(RowSums(g), shift);
    case Cols =>
      forall i | 0 <= i < |g|
        ensures Sum(r[i]) == Sum(g[i])
      {
        RotateSum(g[i], shift);
      }
      EqualRowSums(r, g);
  }

  /** `numpy.zeros((rows, cols))`. */
  function Zeros(rows: nat, cols: nat): (r: Grid)
    ensures IsShape(r, rows, cols)
    ensures forall i, j :: 0 <= i < rows && 0 <= j < cols ==> r[i][j] == 0.0
  {
    seq(rows, _ => seq(cols, _ => 0.0))
  }

  /** `a + b` on arrays of one shape. */
  function Add(a: Grid, b: Grid): (r: Grid)
    requires Rectangular(a) && IsShape(b, |a|, Width(a))
    ensures IsShape(r, |a|, Width(a))
  {
    seq(|a|, i requires 0 <= i < |a| => seq(Width(a), j requires 0 <= j < Width(a) => a[i][j] + b[i][j]))
  }

  /** `a - b` on arrays of one shape. */
  function Sub(a: Grid, b: Grid): (r: Grid)
    requires Rectangular(a) && IsShape(b, |a|, Width(a))
    ensures IsShape(r, |a|, Width(a))
  {
    seq(|a|, i requires 0 <= i < |a| => seq(Width(a), j requires 0 <= j < Width(a) => a[i][j] - b[i][j]))
  }

  /** `k * a` for a scalar k. */
  function Scale(k: real, a: Grid): (r: Grid)
    requires Rectangular(a)
    ensures IsShape(r, |a|, Width(a))
  {
    seq(|a|, i requires 0 <= i < |a| => seq(Width(a), j requires 0 <= j < Width(a) => k * a[i][j]))
  }

  /** The total of a sum of arrays is the sum of their totals. */
  lemma AddTotal(a: Grid, b: Grid)
    requires Rectangular(a) && IsShape(b, |a|, Width(a))
    ensures Total(Add(a, b)) == Total(a) + Total(b)
  {
    var r := Add(a, b);
    forall i | 0 <= i < |a|
      ensures Elem(RowSums(r), i) == Elem(RowSums(a), i) + Elem(RowSums(b), i)
    {
      SumFromAdd(r[i], a[i], b[i], 0);
    }
    SumFromAdd(RowSums(r), RowSums(a), RowSums(b), 0);
  }

  /** The total of a difference of arrays is the difference of their totals. */
  lemma SubTotal(a: Grid, b: Grid)
    requires Rectangular(a) && IsShape(b, |a|, Width(a))
    ensures Total(Sub(a, b)) == Total(a) - Total(b)
  {
    var r := Sub(a, b);
    forall i | 0 <= i < |a|
      ensures Elem(RowSums(r), i) == Elem(RowSums(a), i) - Elem(RowSums(b), i)
    {
      SumFromSub(r[i], a[i], b[i], 0);
    }
    SumFromSub(RowSums(r), RowSums(a), RowSums(b), 0);
  }

  /** Scaling an array scales its total. */
  lemma ScaleTotal(k: real, a: Grid)
    requires Rectangular(a)
    ensures Total(Scale(k, a)) == k * Total(a)
  {
    var r := Scale(k, a);
    forall i | 0 <= i < |a|
      ensures Elem(RowSums(r), i) == k * Elem(RowSums(a), i)
    {
      SumFromScale(r[i], k, a[i], 0);
    }
    SumFromScale(RowSums(r), k, RowSums(a), 0);
  }

  /** `g[rowLow:rowHigh, colLow:colHigh] = v` for non-negative bounds: the
      slices stop at the array's edge (a bound past it selects up to the
      edge, an empty range selects nothing), every selected cell becomes v
      and every other cell keeps its value. */
  function AssignBlock(g: Grid, rowLow: nat, rowHigh: nat, colLow: nat, colHigh: nat, v: real): (r: Grid)
    ensures |r| == |g|
    ensures forall i :: 0 <= i < |g| ==> |r[i]| == |g[i]|
    ensures forall i, j :: 0 <= i < |g| && 0 <= j < |g[i]| ==>
              r[i][j] == if rowLow <= i < rowHigh && colLow <= j < colHigh then v else g[i][j]
  {
    seq(|g|, i requires 0 <= i < |g| =>
      seq(|g[i]|, j requires 0 <= j < |g[i]| =>
        if rowLow <= i < rowHigh && colLow <= j < colHigh then v else g[i][j]))
  }
}
