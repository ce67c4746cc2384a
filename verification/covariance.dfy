/** Layout of the three 9-element covariance arrays of the message. Each array is
    a 3x3 matrix over the axes x, y, z stored row by row, so entry (row, col)
    sits at index 3 * row + col and the diagonal at indices 0, 4 and 8. */
module Covariance {

  /** Per-axis variances set up by the constructor. */
  const ACCEL_COVARIANCE: seq<real> := [0.00006753, 0.00006753, 0.00006753]
  const GYRO_COVARIANCE: seq<real> := [0.00000305, 0.00000305, 0.00000305]
  const QUAT_COVARIANCE: seq<real> := [0.0159, 0.0159, 0.0159]

  function Entry(m: seq<real>, row: nat, col: nat): real
    requires |m| == 9 && row < 3 && col < 3
  {
    m[3 * row + col]
  }

  ghost predicate IsSymmetric(m: seq<real>)
    requires |m| == 9
  {
    forall row: nat, col: nat :: row < 3 && col < 3 ==> Entry(m, row, col) == Entry(m, col, row)
  }

  ghost predicate IsDiagonal(m: seq<real>)
    requires |m| == 9
  {
    forall row: nat, col: nat :: row < 3 && col < 3 && row != col ==> Entry(m, row, col) == 0.0
  }

  /** The array the constructor's loop leaves behind, index by index: entry i
      is `variances[i / 3]` when `i % 3 == 0` and zero otherwise. */
  function Layout(variances: seq<real>): (m: seq<real>)
    requires |variances| == 3
    ensures |m| == 9
  {
    seq(9, i requires 0 <= i < 9 => if i % 3 == 0 then variances[i / 3] else 0.0)
  }

  /** The variances land at indices 0, 3 and 6, every other entry is zero: as a
      matrix they fill the first column, not the diagonal. */
  lemma LayoutIsFirstColumn(variances: seq<real>)
    requires |variances| == 3
    ensures Layout(variances)[0] == variances[0]
    ensures Layout(variances)[3] == variances[1]
    ensures Layout(variances)[6] == variances[2]
    ensures forall i :: 0 <= i < 9 && i != 0 && i != 3 && i != 6 ==> Layout(variances)[i] == 0.0
    ensures forall row: nat, col: nat :: row < 3 && col < 3 ==>
      Entry(Layout(variances), row, col) == if col == 0 then variances[row] else 0.0
  {
    var m := Layout(variances);
    forall row: nat, col: nat | row < 3 && col < 3
      ensures Entry(m, row, col) == if col == 0 then variances[row] else 0.0
    {
      assert (3 * row + col) % 3 == col && (3 * row + col) / 3 == row;
    }
  }

  /** The layout is a valid (symmetric) covariance matrix only when the y and z
      variances are zero, and then it is diagonal. */
  lemma LayoutSymmetricIff(variances: seq<real>)
    requires |variances| == 3
    ensures IsSymmetric(Layout(variances)) <==> variances[1] == 0.0 && variances[2] == 0.0
    ensures IsSymmetric(Layout(variances)) <==> IsDiagonal(Layout(variances))
  {
    LayoutIsFirstColumn(variances);
    var m := Layout(variances);
    assert Entry(m, 1, 0) == variances[1] && Entry(m, 0, 1) == 0.0;
    assert Entry(m, 2, 0) == variances[2] && Entry(m, 0, 2) == 0.0;
  }

  /** With the shipped constants none of the three arrays is symmetric. */
  lemma ShippedLayoutsNotSymmetric()
    ensures !IsSymmetric(Layout(ACCEL_COVARIANCE))
    ensures !IsSymmetric(Layout(GYRO_COVARIANCE))
    ensures !IsSymmetric(Layout(QUAT_COVARIANCE))
  {
    LayoutSymmetricIff(ACCEL_COVARIANCE);
    LayoutSymmetricIff(GYRO_COVARIANCE);
    LayoutSymmetricIff(QUAT_COVARIANCE);
  }

  /** The per-axis variances on the diagonal, indices 0, 4 and 8. */
  function DiagonalLayout(variances: seq<real>): (m: seq<real>)
    requires |variances| == 3
    ensures |m| == 9
  {
    seq(9, i requires 0 <= i < 9 => if i % 4 == 0 then variances[i / 4] else 0.0)
  }

  /** Each variance sits at its own axis' diagonal entry, the matrix is diagonal
      and therefore symmetric, whatever the variances. */
  lemma DiagonalLayoutCorrect(variances: seq<real>)
    requires |variances| == 3
    ensures forall row: nat, col: nat :: row < 3 && col < 3 ==>
      Entry(DiagonalLayout(variances), row, col) == if row == col then variances[row] else 0.0
    ensures IsDiagonal(DiagonalLayout(variances)) && IsSymmetric(DiagonalLayout(variances))
  {
    var m := DiagonalLayout(variances);
    forall row: nat, col: nat | row < 3 && col < 3
      ensures Entry(m, row, col) == if row == col then variances[row] else 0.0
    {
      if row == 0 && col == 0 { assert m[0] == variances[0]; }
      else if row == 1 && col == 1 { assert m[4] == variances[1]; }
      else if row == 2 && col == 2 { assert m[8] == variances[2]; }
      else { assert (3 * row + col) % 4 != 0; }
    }
  }
}
