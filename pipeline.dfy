/**
  The tally in `run_validation`: the first hundred rows of the export are
  validated one by one, every row that fails adds one to `invalid_rows`, and
  the run fails exactly when that count is positive. Reading the file, the
  messages and the exit status are not part of this model; `failed` stands for
  the exit status 1.

  The counting facts hold of any per-row test; they are stated for a test
  `failing` and used with `IsInvalid(c, _)`, the validator's verdict.
*/
module Pipeline {
  import opened OrderModel

  /** `df.head(100)`: the number of rows the gate looks at. */
  const RowLimit: nat := 100

  /** The rows the gate looks at: the first `RowLimit`, or all of them if there are fewer. */
  function Head(rows: seq<Row>): (r: seq<Row>)
    ensures |r| == if |rows| < RowLimit then |rows| else RowLimit
    ensures forall i :: 0 <= i < |r| ==> r[i] == rows[i]
  {
    if |rows| <= RowLimit then rows else rows[..RowLimit]
  }

  /** `AmazonOrderModel(**row)` raises. */
  predicate IsInvalid(c: Coercion, row: Row) {
    ValidateRow(c, row).Invalid?
  }

  /** The number of rows for which `failing` holds, counted from the front. */
  function Count(failing: Row -> bool, rows: seq<Row>): (n: nat)
    ensures n <= |rows|
  {
    if |rows| == 0 then 0
    else Count(failing, rows[..|rows| - 1]) + (if failing(rows[|rows| - 1]) then 1 else 0)
  }

  /** The number of rows whose validation fails. */
  function CountInvalid(c: Coercion, rows: seq<Row>): nat {
    Count(row => IsInvalid(c, row), rows)
  }

  /** The positions of the rows for which `failing` holds. */
  ghost function Positions(failing: Row -> bool, rows: seq<Row>): set<int> {
    set i | 0 <= i < |rows| && failing(rows[i])
  }

  /** Adding a row adds its position exactly when it fails. */
  lemma PositionsStep(failing: Row -> bool, rows: seq<Row>)
    requires |rows| > 0
    ensures |Positions(failing, rows)| ==
      |Positions(failing, rows[..|rows| - 1])| + if failing(rows[|rows| - 1]) then 1 else 0
  {
    var n := |rows| - 1;
    var init := rows[..n];
    var before, now := Positions(failing, init), Positions(failing, rows);
    var added := if failing(rows[n]) then {n} else {};
    forall i: int
      ensures i in now <==> i in before + added
    {
      if 0 <= i < n {
        assert init[i] == rows[i];
      }
    }
    assert now == before + added;
    if failing(rows[n]) {
      assert n !in before;
      assert |now| == |before| + 1;
    } else {
      assert |now| == |before|;
    }
  }

  /** The count is the number of positions that hold a failing row. */
  lemma {:induction false} CountIsPositions(failing: Row -> bool, rows: seq<Row>)
    ensures Count(failing, rows) == |Positions(failing, rows)|
  {
    if |rows| == 0 {
      assert Positions(failing, rows) == {};
    } else {
      CountIsPositions(failing, rows[..|rows| - 1]);
      PositionsStep(failing, rows);
    }
  }

  /** The count is zero exactly when no row fails. */
  lemma {:induction false} CountZeroIffNoneFails(failing: Row -> bool, rows: seq<Row>)
    ensures Count(failing, rows) == 0 <==> forall i :: 0 <= i < |rows| ==> !failing(rows[i])
  {
    if |rows| > 0 {
      var init := rows[..|rows| - 1];
      CountZeroIffNoneFails(failing, init);
      assert forall i :: 0 <= i < |init| ==> init[i] == rows[i];
    }
  }

  /** The count of a batch is the sum of the counts of its parts. */
  lemma {:induction false} CountAppend(failing: Row -> bool, a: seq<Row>, b: seq<Row>)
    ensures Count(failing, a + b) == Count(failing, a) + Count(failing, b)
  {
    if |b| > 0 {
      CountAppend(failing, a, b[..|b| - 1]);
      assert (a + b)[..|a + b| - 1] == a + b[..|b| - 1];
    } else {
      assert a + b == a;
    }
  }

  /** The count does not depend on the order of the rows. */
  lemma {:induction false} CountIgnoresOrder(failing: Row -> bool, a: seq<Row>, b: seq<Row>)
    requires multiset(a) == multiset(b)
    ensures Count(failing, a) == Count(failing, b)
  {
    if |a| == 0 {
      assert |b| == |multiset(b)| == 0;
    } else {
      var x := a[|a| - 1];
      var init := a[..|a| - 1];
      assert a == init + [x];
      assert x in multiset(b);
      var k :| 0 <= k < |b| && b[k] == x;
      var rest := b[..k] + b[k + 1..];
      assert b == b[..k] + [x] + b[k + 1..];
      assert multiset(rest) == multiset(init) by {
        assert multiset(b) == multiset(b[..k]) + multiset{x} + multiset(b[k + 1..]);
        assert multiset(rest) == multiset(b[..k]) + multiset(b[k + 1..]);
        assert multiset(a) == multiset(init) + multiset{x};
        assert multiset(rest) == multiset(b) - multiset{x};
        assert multiset(init) == multiset(a) - multiset{x};
      }
      CountIgnoresOrder(failing, init, rest);
      CountAppend(failing, b[..k], [x]);
      CountAppend(failing, b[..k] + [x], b[k + 1..]);
      CountAppend(failing, b[..k], b[k + 1..]);
      CountAppend(failing, init, [x]);
    }
  }

  // ---------------------------------------------------------------------
  // The same facts for the validator's verdicts
  // ---------------------------------------------------------------------

  /** The tally is the number of positions whose row the validator rejects. */
  lemma CountInvalidIsInvalidPositions(c: Coercion, rows: seq<Row>)
    ensures CountInvalid(c, rows) == |set i | 0 <= i < |rows| && IsInvalid(c, rows[i])|
  {
    var failing := row => IsInvalid(c, row);
    CountIsPositions(failing, rows);
    assert Positions(failing, rows) == set i | 0 <= i < |rows| && IsInvalid(c, rows[i]);
  }

  /**
    Row independence: a row counts one in any batch exactly when it is
    rejected on its own, and the tally of a batch is the sum over its parts.
  */
  lemma CountInvalidSplits(c: Coercion, a: seq<Row>, row: Row, b: seq<Row>)
    ensures CountInvalid(c, a + [row] + b) ==
      CountInvalid(c, a) + (if ValidateRow(c, row).Invalid? then 1 else 0) + CountInvalid(c, b)
  {
    var failing := row => IsInvalid(c, row);
    CountAppend(failing, a + [row], b);
    CountAppend(failing, a, [row]);
    assert [row][..0] == [];
  }

  /** Extending the prefix by one row adds one exactly when that row is rejected. */
  lemma CountInvalidStep(c: Coercion, rows: seq<Row>, i: nat)
    requires i < |rows|
    ensures CountInvalid(c, rows[..i + 1]) ==
      CountInvalid(c, rows[..i]) + if ValidateRow(c, rows[i]).Invalid? then 1 else 0
  {
    assert rows[..i + 1][..i] == rows[..i];
  }

  /** The tally is zero exactly when every row is accepted. */
  lemma CountInvalidZeroIffAllValid(c: Coercion, rows: seq<Row>)
    ensures CountInvalid(c, rows) == 0 <==> forall i :: 0 <= i < |rows| ==> ValidateRow(c, rows[i]).Valid?
  {
    CountZeroIffNoneFails(row => IsInvalid(c, row), rows);
  }

  /** Validating the rows in another order gives the same tally. */
  lemma CountInvalidIgnoresOrder(c: Coercion, a: seq<Row>, b: seq<Row>)
    requires multiset(a) == multiset(b)
    ensures CountInvalid(c, a) == CountInvalid(c, b)
  {
    CountIgnoresOrder(row => IsInvalid(c, row), a, b);
  }

  /** Rows after the hundredth change nothing. */
  lemma RowsAfterLimitIgnored(c: Coercion, rows: seq<Row>, more: seq<Row>)
    requires |rows| >= RowLimit
    ensures CountInvalid(c, Head(rows + more)) == CountInvalid(c, Head(rows))
  {
    assert Head(rows + more) == Head(rows);
  }

  /**
    `run_validation` without its I/O: validate each of the first hundred rows,
    count the ones that fail, and fail the run exactly when the count is positive.
  */
  method RunValidation(c: Coercion, rows: seq<Row>) returns (invalidRows: nat, failed: bool)
    ensures invalidRows == CountInvalid(c, Head(rows))
    ensures invalidRows <= RowLimit
    ensures failed <==> invalidRows > 0
    ensures failed <==> exists i :: 0 <= i < |rows| && i < RowLimit && IsInvalid(c, rows[i])
  {
    var sample := Head(rows);
    invalidRows := 0;
    for i := 0 to |sample|
      invariant invalidRows == CountInvalid(c, sample[..i])
    {
      CountInvalidStep(c, sample, i);
      var verdict := ValidateRow(c, sample[i]);
      if verdict.Invalid? {
        invalidRows := invalidRows + 1;
      }
    }
    assert sample[..|sample|] == sample;
    CountInvalidZeroIffAllValid(c, sample);
    failed := invalidRows > 0;
  }
}
