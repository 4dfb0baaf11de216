/** The run-length compaction of a utilization array into rows
    (CollectUtilizationStatistics in topology-satellite-network.cc). */
module UtilizationCsv {
  import opened Integers

  // One row: [left, right) in ns and the utilization throughout it.
  datatype Row = Row(left: int, right: int, value: real)

  // The utilization of each interval, as a reader of the rows recovers it.
  function Expand(rows: seq<Row>, interval: int): seq<real>
    requires interval > 0
  {
    if rows == [] then []
    else
      var r := rows[|rows| - 1];
      Expand(rows[..|rows| - 1], interval) + seq(if r.right > r.left then (r.right - r.left) / interval else 0, _ => r.value)
  }

  // The rows follow each other without gap or overlap and cover [0, end).
  predicate Tiles(rows: seq<Row>, end: int) {
    && (forall i :: 0 <= i < |rows| ==> rows[i].left < rows[i].right)
    && (forall i :: 0 < i < |rows| ==> rows[i - 1].right == rows[i].left)
    && (if rows == [] then end == 0 else rows[0].left == 0 && rows[|rows| - 1].right == end)
  }

  // Every row ends at an interval boundary.
  predicate Aligned(rows: seq<Row>, interval: int)
    requires interval > 0
  {
    forall i :: 0 <= i < |rows| ==> rows[i].right % interval == 0
  }

  // No two neighbouring rows could have been one.
  predicate Maximal(rows: seq<Row>) {
    forall i :: 0 < i < |rows| ==> rows[i - 1].value != rows[i].value
  }

  // Intervals a, ..., b all have the same utilization.
  predicate Same(utilization: seq<real>, a: int, b: int) {
    0 <= a <= b < |utilization| && forall i :: a <= i <= b ==> utilization[i] == utilization[b]
  }

  // The rows cover the first `done` intervals, and the next one starts a new row.
  ghost predicate Covered(utilization: seq<real>, interval: int, rows: seq<Row>, done: int, left: int)
    requires interval > 0
  {
    && 0 <= done <= |utilization| && left == done * interval
    && Expand(rows, interval) == utilization[..done]
    && Tiles(rows, left) && Aligned(rows, interval) && Maximal(rows)
    && (rows != [] && done < |utilization| ==> rows[|rows| - 1].value != utilization[done])
  }

  lemma AddRow(utilization: seq<real>, interval: int, rows: seq<Row>, done: int, left: int, next: int, right: int)
    requires interval > 0 && Covered(utilization, interval, rows, done, left) && right == next * interval
    requires next > 0 && Same(utilization, done, next - 1)
    requires next < |utilization| ==> utilization[next - 1] != utilization[next]
    ensures Covered(utilization, interval, rows + [Row(left, right, utilization[next - 1])], next, right)
  {
    var row := Row(left, right, utilization[next - 1]);
    Width(done, next, interval);
    ExpandMore(utilization, interval, rows, done, row, next);
  }

  lemma ExpandMore(utilization: seq<real>, interval: int, rows: seq<Row>, done: int, row: Row, next: int)
    requires interval > 0 && 0 <= done < next <= |utilization| && Expand(rows, interval) == utilization[..done]
    requires row.left < row.right && (row.right - row.left) / interval == next - done
    requires row.value == utilization[next - 1] && Same(utilization, done, next - 1)
    ensures Expand(rows + [row], interval) == utilization[..next]
  {
    assert (rows + [row])[..|rows|] == rows;
    var same := seq(next - done, _ => row.value);
    assert utilization[..next] == utilization[..done] + same;
  }

  // Rows have been written for the first `done` intervals; the others before j have the
  // utilization of interval j, if there is one.
  ghost predicate Progress(utilization: seq<real>, interval: int, rows: seq<Row>, done: int, left: int, j: int)
    requires interval > 0
  {
    && Covered(utilization, interval, rows, done, left)
    && (done == j || Same(utilization, done, j))
  }

  lemma RowEnds(utilization: seq<real>, interval: int, rows: seq<Row>, done: int, left: int, j: int, right: int)
    requires interval > 0 && 0 <= j < |utilization| && Progress(utilization, interval, rows, done, left, j)
    requires j + 1 < |utilization| ==> utilization[j] != utilization[j + 1]
    requires right == (j + 1) * interval
    ensures Progress(utilization, interval, rows + [Row(left, right, utilization[j])], j + 1, right, j + 1)
  {
    assert Same(utilization, done, j);
    AddRow(utilization, interval, rows, done, left, j + 1, right);
  }

  lemma RowGoesOn(utilization: seq<real>, interval: int, rows: seq<Row>, done: int, left: int, j: int)
    requires interval > 0 && 0 <= j && j + 1 < |utilization| && Progress(utilization, interval, rows, done, left, j)
    requires utilization[j] == utilization[j + 1]
    ensures Progress(utilization, interval, rows, done, left, j + 1)
  {
    assert Same(utilization, done, j + 1);
  }

  method WriteRows(utilization: seq<real>, interval: int) returns (rows: seq<Row>)
    requires interval > 0
    ensures Expand(rows, interval) == utilization
    ensures Tiles(rows, |utilization| * interval)
    ensures Aligned(rows, interval) && Maximal(rows)
  {
    rows := [];
    var left := 0;
    ghost var done := 0;
    for j := 0 to |utilization|
      invariant Progress(utilization, interval, rows, done, left, j)
    {
      if j == |utilization| - 1 || utilization[j] != utilization[j + 1] {
        var right := (j + 1) * interval;
        RowEnds(utilization, interval, rows, done, left, j, right);
        rows := rows + [Row(left, right, utilization[j])];
        left := right;
        done := j + 1;
      } else {
        RowGoesOn(utilization, interval, rows, done, left, j);
      }
    }
    AllCovered(utilization, interval, rows, left);
  }

  lemma AllCovered(utilization: seq<real>, interval: int, rows: seq<Row>, left: int)
    requires interval > 0 && Covered(utilization, interval, rows, |utilization|, left)
    ensures Expand(rows, interval) == utilization
    ensures Tiles(rows, |utilization| * interval) && Aligned(rows, interval) && Maximal(rows)
  {
    assert utilization[..|utilization|] == utilization;
  }

  lemma Width(a: int, b: int, d: int)
    requires a < b && d > 0
    ensures a * d < b * d && (b * d - a * d) / d == b - a && (b * d) % d == 0
  {
    assert b * d - a * d == (b - a) * d;
    Quotient((b - a) * d, b - a, d);
    Quotient(b * d, b, d);
  }
}
