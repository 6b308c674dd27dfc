/** Equally long rows laid end to end: the flat view of pages and of batched parameters. */
module Layout {
  function Flat<T>(rows: seq<seq<T>>): seq<T> {
    if rows == [] then [] else Flat(rows[..|rows| - 1]) + rows[|rows| - 1]
  }

  predicate Wide<T>(rows: seq<seq<T>>, width: nat) {
    forall i :: 0 <= i < |rows| ==> |rows[i]| == width
  }

  lemma {:induction false} FlatLength<T>(rows: seq<seq<T>>, width: nat)
    requires Wide(rows, width)
    ensures |Flat(rows)| == |rows| * width
  {
    if rows != [] {
      var n := |rows| - 1;
      FlatLength(rows[..n], width);
      assert n * width + width == (n + 1) * width;
    }
  }

  /** Cell j of row i lies at i * width + j. */
  lemma {:induction false} FlatAt<T>(rows: seq<seq<T>>, width: nat, i: nat, j: nat)
    requires Wide(rows, width) && i < |rows| && j < width
    ensures i * width + j < |Flat(rows)| && Flat(rows)[i * width + j] == rows[i][j]
    decreases |rows|
  {
    var init := rows[..|rows| - 1];
    FlatLength(init, width);
    if i < |rows| - 1 {
      FlatAt(init, width, i, j);
    }
  }

  lemma FlatAppend<T>(rows: seq<seq<T>>, r: seq<T>)
    ensures Flat(rows + [r]) == Flat(rows) + r
  {
    assert (rows + [r])[..|rows|] == rows;
  }
}
