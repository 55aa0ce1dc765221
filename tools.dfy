/**
 * Two helpers of the tools module: `diffImage`, the first difference of a
 * two-dimensional image along a chosen axis, and `flatten`, which
 * concatenates a list of lists.
 *
 * An image is a sequence of rows of equal length.
 */
module Tools {
  type Image = seq<seq<real>>

  /** The method of differentiation: an integer or a string. */
  datatype Dy = Int(n: int) | Str(s: string)

  predicate IsImage(im: Image)
  {
    forall i :: 0 <= i < |im| ==> |im[i]| == Width(im)
  }

  /** The number of columns; an image without rows has none. */
  function Width(im: Image): nat
  {
    if |im| == 0 then 0 else |im[0]|
  }

  function Max0(x: int): nat
  {
    if x < 0 then 0 else x
  }

  /** The `size` argument: left at its default None, or a string. */
  datatype Size = Unset | Given(s: string)

  predicate Same(size: Size)
  {
    size == Given("same")
  }

  // ---------------------------------------------------------------------
  // numpy building blocks

  /** np.diff of one row: the differences of consecutive entries. */
  function DiffRow(r: seq<real>): seq<real>
  {
    seq(Max0(|r| - 1), k requires 0 <= k < Max0(|r| - 1) => r[k + 1] - r[k])
  }

  /** np.diff(im, n=1, axis=1) */
  function DiffX(im: Image): Image
  {
    seq(|im|, i requires 0 <= i < |im| => DiffRow(im[i]))
  }

  /** np.diff(im, n=1, axis=0) */
  function DiffY(im: Image): Image
    requires IsImage(im)
  {
    seq(Max0(|im| - 1), i requires 0 <= i < Max0(|im| - 1) =>
      seq(Width(im), k requires 0 <= k < Width(im) => im[i + 1][k] - im[i][k]))
  }

  /** r[-1:]: the last entry, or nothing when r is empty */
  function LastSlice<T>(r: seq<T>): seq<T>
  {
    if |r| == 0 then [] else [r[|r| - 1]]
  }

  /** r[0:-1]: everything but the last entry, or nothing when r is empty */
  function DropLast<T>(r: seq<T>): seq<T>
  {
    if |r| == 0 then [] else r[..|r| - 1]
  }

  /** np.hstack((im, im[:, -1:])) */
  function AppendLastCol(im: Image): Image
  {
    seq(|im|, i requires 0 <= i < |im| => im[i] + LastSlice(im[i]))
  }

  /** np.vstack((im, im[-1:, :])) */
  function AppendLastRow(im: Image): Image
  {
    im + LastSlice(im)
  }

  /** im[:, 0:-1] */
  function DropLastCol(im: Image): Image
  {
    seq(|im|, i requires 0 <= i < |im| => DropLast(im[i]))
  }

  function Neg(im: Image): Image
  {
    seq(|im|, i requires 0 <= i < |im| => seq(|im[i]|, k requires 0 <= k < |im[i]| => -im[i][k]))
  }

  /** Elementwise sum of two images of the same shape. */
  function Add(a: Image, b: Image): Image
    requires |a| == |b| && forall i :: 0 <= i < |a| ==> |a[i]| == |b[i]|
  {
    seq(|a|, i requires 0 <= i < |a| => seq(|a[i]|, k requires 0 <= k < |a[i]| => a[i][k] + b[i][k]))
  }

  /**
   * diffImage(im, dy, size): dy 0 or "x" differentiates along the columns,
   * 1 or "y" along the rows, -1 along the rows with the sign flipped, and
   * 2 adds the two (trimmed to a common shape). With size "same" the first
   * three repeat the last column or row to restore the shape. Any other
   * dy returns the image unchanged.
   */
  function DiffImage(im: Image, dy: Dy, size: Size): (r: Image)
    requires IsImage(im)
    ensures IsImage(r)
  {
    if dy == Int(0) || dy == Str("x") then
      var d := DiffX(im);
      if Same(size) then AppendLastCol(d) else d
    else if dy == Int(1) || dy == Str("y") then
      var d := DiffY(im);
      if Same(size) then AppendLastRow(d) else d
    else if dy == Int(-1) then
      var d := Neg(DiffY(im));
      if Same(size) then AppendLastRow(d) else d
    else if dy == Int(2) then
      Add(DropLastRow(DiffX(im)), DropLastCol(DiffY(im)))
    else
      im
  }

  /** im[0:-1, :] */
  function DropLastRow(im: Image): Image
  {
    DropLast(im)
  }

  // ---------------------------------------------------------------------
  // Properties of diffImage

  /**
   * Along x: one row per input row; entry k is im[i][k + 1] - im[i][k];
   * the width shrinks by one, except that "same" keeps it (when there are
   * at least two columns) by repeating the last difference.
   */
  lemma DiffImageAlongX(im: Image, dy: Dy, size: Size)
    requires IsImage(im) && (dy == Int(0) || dy == Str("x"))
    ensures var r := DiffImage(im, dy, size);
      && |r| == |im|
      && (forall i :: 0 <= i < |r| ==>
            |r[i]| == if Same(size) && Width(im) >= 2 then Width(im) else Max0(Width(im) - 1))
      && (forall i, k :: 0 <= i < |r| && 0 <= k < Width(im) - 1 ==> r[i][k] == im[i][k + 1] - im[i][k])
      && (Same(size) && Width(im) >= 2 ==>
            forall i :: 0 <= i < |r| ==> r[i][Width(im) - 1] == r[i][Width(im) - 2])
  {
  }

  /**
   * Along y: row i is row i + 1 minus row i, of the input's width; the
   * height shrinks by one, except that "same" keeps it (when there are at
   * least two rows) by repeating the last difference row.
   */
  lemma DiffImageAlongY(im: Image, dy: Dy, size: Size)
    requires IsImage(im) && (dy == Int(1) || dy == Str("y"))
    ensures var r := DiffImage(im, dy, size);
      && |r| == (if Same(size) && |im| >= 2 then |im| else Max0(|im| - 1))
      && (forall i :: 0 <= i < |r| ==> |r[i]| == Width(im))
      && (forall i, k :: 0 <= i < |im| - 1 && 0 <= k < Width(im) ==> r[i][k] == im[i + 1][k] - im[i][k])
      && (Same(size) && |im| >= 2 ==> r[|im| - 1] == r[|im| - 2])
  {
  }

  /** dy = -1 is the negation of dy = 1, with or without "same". */
  lemma DiffImageReversedY(im: Image, size: Size)
    requires IsImage(im)
    ensures DiffImage(im, Int(-1), size) == Neg(DiffImage(im, Int(1), size))
  {
    var d := DiffY(im);
    if Same(size) && |d| > 0 {
      var nd := Neg(d);
      assert Neg(AppendLastRow(d)) == AppendLastRow(nd) by {
        assert |Neg(AppendLastRow(d))| == |AppendLastRow(nd)|;
        forall i | 0 <= i < |nd| + 1
          ensures Neg(AppendLastRow(d))[i] == AppendLastRow(nd)[i]
        {
          if i == |nd| {
            assert AppendLastRow(d)[i] == d[|d| - 1];
            assert AppendLastRow(nd)[i] == nd[|d| - 1];
          }
        }
      }
    }
  }

  /**
   * dy = 2: the sum of both differences at each point that has a right
   * and a lower neighbour; one row and one column fewer; size is ignored.
   */
  lemma DiffImageBoth(im: Image, size: Size)
    requires IsImage(im)
    ensures var r := DiffImage(im, Int(2), size);
      && r == DiffImage(im, Int(2), Unset)
      && |r| == Max0(|im| - 1)
      && (forall i :: 0 <= i < |r| ==> |r[i]| == Max0(Width(im) - 1))
      && forall i, k {:trigger r[i][k]} :: 0 <= i < |r| && 0 <= k < |r[i]| ==>
           r[i][k] == (im[i][k + 1] - im[i][k]) + (im[i + 1][k] - im[i][k])
  {
  }

  /** Any other method of differentiation leaves the image as it is. */
  lemma DiffImageOtherwise(im: Image, dy: Dy, size: Size)
    requires IsImage(im)
    requires dy !in {Int(0), Str("x"), Int(1), Str("y"), Int(-1), Int(2)}
    ensures DiffImage(im, dy, size) == im
  {
  }

  function Sum(s: seq<real>): real
  {
    if |s| == 0 then 0.0 else Sum(s[..|s| - 1]) + s[|s| - 1]
  }

  /**
   * Differentiation along x loses only the first column: summing the
   * first k differences of a row and adding its first entry gives back
   * entry k.
   */
  lemma {:induction false} DiffAlongXIntegrates(im: Image, size: Size, i: nat, k: nat)
    requires IsImage(im) && i < |im| && k < Width(im)
    ensures k <= |DiffImage(im, Int(0), size)[i]|
    ensures im[i][0] + Sum(DiffImage(im, Int(0), size)[i][..k]) == im[i][k]
  {
    DiffImageAlongX(im, Int(0), size);
    var row := DiffImage(im, Int(0), size)[i];
    if k > 0 {
      DiffAlongXIntegrates(im, size, i, k - 1);
      assert row[..k][..k - 1] == row[..k - 1];
      assert row[k - 1] == im[i][k] - im[i][k - 1];
    }
  }

  /** The entries of column k in rows 0 .. n - 1. */
  function Column(im: Image, k: nat, n: nat): seq<real>
    requires n <= |im| && forall i :: 0 <= i < n ==> k < |im[i]|
  {
    seq(n, i requires 0 <= i < n => im[i][k])
  }

  /**
   * Differentiation along y loses only the first row: summing the first
   * i differences of a column and adding its first entry gives back
   * entry i.
   */
  lemma {:induction false} DiffAlongYIntegrates(im: Image, size: Size, i: nat, k: nat)
    requires IsImage(im) && i < |im| && k < Width(im)
    ensures var r := DiffImage(im, Int(1), size);
      && i <= |r| && (forall a :: 0 <= a < i ==> k < |r[a]|)
      && im[0][k] + Sum(Column(r, k, i)) == im[i][k]
  {
    DiffImageAlongY(im, Int(1), size);
    var r := DiffImage(im, Int(1), size);
    if i > 0 {
      DiffAlongYIntegrates(im, size, i - 1, k);
      assert Column(r, k, i)[..i - 1] == Column(r, k, i - 1);
      assert r[i - 1][k] == im[i][k] - im[i - 1][k];
    }
  }

  // ---------------------------------------------------------------------
  // flatten

  /** flatten(lst): the lists of lst joined in order. */
  function Flatten<T>(lst: seq<seq<T>>): (r: seq<T>)
  {
    if |lst| == 0 then [] else lst[0] + Flatten(lst[1..])
  }

  /** The sum of the lengths of the inner lists. */
  function TotalLength<T>(lst: seq<seq<T>>): nat
  {
    if |lst| == 0 then 0 else |lst[0]| + TotalLength(lst[1..])
  }

  /** Flattening distributes over concatenation of the outer list. */
  lemma {:induction false} FlattenAppend<T>(a: seq<seq<T>>, b: seq<seq<T>>)
    ensures Flatten(a + b) == Flatten(a) + Flatten(b)
  {
    if |a| == 0 {
      assert a + b == b;
    } else {
      calc {
        Flatten(a + b);
        (a + b)[0] + Flatten((a + b)[1..]);
        { assert (a + b)[0] == a[0]; assert (a + b)[1..] == a[1..] + b; }
        a[0] + Flatten(a[1..] + b);
        { FlattenAppend(a[1..], b); }
        a[0] + (Flatten(a[1..]) + Flatten(b));
        Flatten(a) + Flatten(b);
      }
    }
  }

  /** The result holds every element of every inner list and nothing else, and its length is the sum of theirs. */
  lemma {:induction false} FlattenContents<T>(lst: seq<seq<T>>)
    ensures |Flatten(lst)| == TotalLength(lst)
    ensures forall x :: x in Flatten(lst) <==> exists i :: 0 <= i < |lst| && x in lst[i]
  {
    if |lst| > 0 {
      var rest := lst[1..];
      FlattenContents(rest);
      forall x
        ensures x in Flatten(lst) <==> exists i :: 0 <= i < |lst| && x in lst[i]
      {
        if x in lst[0] {
          assert 0 < |lst|;
        } else if x in Flatten(rest) {
          var j :| 0 <= j < |rest| && x in rest[j];
          assert lst[j + 1] == rest[j];
        } else {
          forall i | 0 <= i < |lst|
            ensures x !in lst[i]
          {
            if i > 0 {
              assert rest[i - 1] == lst[i];
            }
          }
        }
      }
    }
  }

  /** The example of the documentation: [[1, 2], [3, 4], [10]] flattens to [1, 2, 3, 4, 10]. */
  lemma FlattenExample()
    ensures Flatten([[1, 2], [3, 4], [10]]) == [1, 2, 3, 4, 10]
  {
    assert Flatten([[10]]) == [10];
    assert Flatten([[3, 4], [10]]) == [3, 4, 10];
  }
}
