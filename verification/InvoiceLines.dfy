/** Laws of the line upsert and of the zeroing of unmatched lines. */
module InvoiceLines {
  import opened Options
  import opened InvoiceCalculator
  import opened Ledgers

  ghost predicate UniqueLines(rows: seq<Line>) {
    forall i, j :: 0 <= i < j < |rows| ==> rows[i].enrollment != rows[j].enrollment
  }

  /** Sum of the amounts of the rows whose enrollment is in keep. */
  function SumWithin(rows: seq<Line>, keep: set<EnrollmentId>): int {
    var n := |rows|;
    if n == 0 then 0 else SumWithin(rows[..n-1], keep) + (if rows[n-1].enrollment in keep then rows[n-1].amount else 0)
  }

  lemma UpsertLineKeepsUnique(rows: seq<Line>, line: Line)
    requires UniqueLines(rows)
    ensures UniqueLines(UpsertLine(rows, line))
  {
  }

  lemma {:induction false} SumWithinNone(rows: seq<Line>, keep: set<EnrollmentId>, e: EnrollmentId)
    requires forall i :: 0 <= i < |rows| ==> rows[i].enrollment != e
    ensures SumWithin(rows, keep + {e}) == SumWithin(rows, keep)
  {
    if |rows| == 0 {
    } else {
      SumWithinNone(rows[..|rows|-1], keep, e);
    }
  }

  lemma {:induction false} SumWithinReplace(rows: seq<Line>, keep: set<EnrollmentId>, i: nat, line: Line)
    requires i < |rows| && rows[i].enrollment == line.enrollment
    requires UniqueLines(rows) && line.enrollment !in keep
    ensures SumWithin(rows[i := line], keep + {line.enrollment}) == SumWithin(rows, keep) + line.amount
  {
    var n := |rows|;
    if i == n - 1 {
      assert rows[i := line][..n-1] == rows[..n-1];
      SumWithinNone(rows[..n-1], keep, line.enrollment);
    } else {
      SumWithinReplace(rows[..n-1], keep, i, line);
      assert rows[i := line][..n-1] == rows[..n-1][i := line];
    }
  }

  lemma SumWithinUpsert(rows: seq<Line>, keep: set<EnrollmentId>, line: Line)
    requires UniqueLines(rows) && line.enrollment !in keep
    ensures SumWithin(UpsertLine(rows, line), keep + {line.enrollment}) == SumWithin(rows, keep) + line.amount
  {
    match LineIndex(rows, line.enrollment)
    case Some(i) => SumWithinReplace(rows, keep, i, line);
    case None =>
      SumWithinNone(rows, keep, line.enrollment);
      assert (rows + [line])[..|rows|] == rows;
  }

  lemma EnrollmentsOfLast(drafted: seq<Line>)
    requires |drafted| > 0
    ensures EnrollmentsOf(drafted) == EnrollmentsOf(drafted[..|drafted|-1]) + {drafted[|drafted|-1].enrollment}
  {
    assert drafted == drafted[..|drafted|-1] + [drafted[|drafted|-1]];
  }

  lemma {:induction false} NothingWithinNothing(rows: seq<Line>)
    ensures SumWithin(rows, {}) == 0
  {
    if |rows| == 0 {
    } else {
      NothingWithinNothing(rows[..|rows|-1]);
    }
  }

  lemma LastIsNew(drafted: seq<Line>)
    requires |drafted| > 0 && UniqueLines(drafted)
    ensures drafted[|drafted|-1].enrollment !in EnrollmentsOf(drafted[..|drafted|-1])
    ensures UniqueLines(drafted[..|drafted|-1])
  {
  }

  lemma {:induction false} UpsertLinesSum(rows: seq<Line>, drafted: seq<Line>)
    requires UniqueLines(rows) && UniqueLines(drafted)
    ensures UniqueLines(UpsertLines(rows, drafted))
    ensures SumWithin(UpsertLines(rows, drafted), EnrollmentsOf(drafted)) == SumAmounts(drafted)
  {
    var n := |drafted|;
    if n == 0 {
      NothingWithinNothing(rows);
      assert EnrollmentsOf(drafted) == {};
    } else {
      LastIsNew(drafted);
      UpsertLinesSum(rows, drafted[..n-1]);
      EnrollmentsOfLast(drafted);
      var before := UpsertLines(rows, drafted[..n-1]);
      UpsertLineKeepsUnique(before, drafted[n-1]);
      SumWithinUpsert(before, EnrollmentsOf(drafted[..n-1]), drafted[n-1]);
    }
  }

  lemma {:induction false} ZeroedSum(rows: seq<Line>, keep: set<EnrollmentId>)
    ensures SumAmounts(ZeroUnmatched(rows, keep)) == SumWithin(rows, keep)
  {
    var n := |rows|;
    if n == 0 {
    } else {
      ZeroedSum(rows[..n-1], keep);
      assert ZeroUnmatched(rows, keep)[..n-1] == ZeroUnmatched(rows[..n-1], keep);
    }
  }

  /** After a redraft the rows sum to exactly the newly computed charge, stale rows included. */
  lemma RedraftSum(rows: seq<Line>, drafted: seq<Line>)
    requires UniqueLines(rows) && UniqueLines(drafted)
    ensures UniqueLines(Redraft(rows, drafted))
    ensures SumAmounts(Redraft(rows, drafted)) == SumAmounts(drafted)
  {
    UpsertLinesSum(rows, drafted);
    ZeroedSum(UpsertLines(rows, drafted), EnrollmentsOf(drafted));
  }

  // ----- which rows a redraft holds ---------------------------------------

  /** Row r is either one of the drafted lines or an old row the draft does not mention. */
  ghost predicate FromEither(r: Line, rows: seq<Line>, drafted: seq<Line>) {
    r in drafted || (r in rows && r.enrollment !in EnrollmentsOf(drafted))
  }

  lemma UpsertMembers(rows: seq<Line>, line: Line, r: Line)
    requires UniqueLines(rows)
    ensures r in UpsertLine(rows, line) <==> r == line || (r in rows && r.enrollment != line.enrollment)
  {
    match LineIndex(rows, line.enrollment)
    case Some(i) =>
      var after := rows[i := line];
      assert after[i] == line;
      if r in rows && r.enrollment != line.enrollment {
        var j :| 0 <= j < |rows| && rows[j] == r;
        assert after[j] == r;
      }
    case None =>
  }

  lemma {:induction false} UpsertLinesMembers(rows: seq<Line>, drafted: seq<Line>, r: Line)
    requires UniqueLines(rows) && UniqueLines(drafted)
    ensures r in UpsertLines(rows, drafted) <==> FromEither(r, rows, drafted)
  {
    var n := |drafted|;
    if n == 0 {
    } else {
      LastIsNew(drafted);
      UpsertLinesMembers(rows, drafted[..n-1], r);
      UpsertLinesSum(rows, drafted[..n-1]);
      UpsertMembers(UpsertLines(rows, drafted[..n-1]), drafted[n-1], r);
      EnrollmentsOfLast(drafted);
      assert drafted == drafted[..n-1] + [drafted[n-1]];
    }
  }

  /** Every row after a redraft is a drafted line, or a stale row with everything zeroed. */
  lemma RedraftMembers(rows: seq<Line>, drafted: seq<Line>, r: Line)
    requires UniqueLines(rows) && UniqueLines(drafted)
    requires r in Redraft(rows, drafted)
    ensures r in drafted
      || (r.enrollment !in EnrollmentsOf(drafted) && r.billable == 0 && r.absent == 0 && r.amount == 0
          && exists o :: o in rows && o.enrollment == r.enrollment)
  {
    var up := UpsertLines(rows, drafted);
    var k :| 0 <= k < |up| && Redraft(rows, drafted)[k] == r;
    assert up[k] in up;
    UpsertLinesMembers(rows, drafted, up[k]);
  }

  lemma RedraftContains(rows: seq<Line>, drafted: seq<Line>, r: Line)
    requires UniqueLines(rows) && UniqueLines(drafted)
    requires r in drafted
    ensures r in Redraft(rows, drafted)
  {
    UpsertLinesMembers(rows, drafted, r);
    var up := UpsertLines(rows, drafted);
    var k :| 0 <= k < |up| && up[k] == r;
    assert Redraft(rows, drafted)[k] == r;
  }

  // ----- redrafting twice -------------------------------------------------

  lemma LineIndexUnique(rows: seq<Line>, i: nat)
    requires UniqueLines(rows) && i < |rows|
    ensures LineIndex(rows, rows[i].enrollment) == Some(i)
  {
  }

  lemma {:induction false} UpsertPresent(rows: seq<Line>, drafted: seq<Line>)
    requires UniqueLines(rows)
    requires forall r :: r in drafted ==> r in rows
    ensures UpsertLines(rows, drafted) == rows
  {
    var n := |drafted|;
    if n == 0 {
    } else {
      UpsertPresent(rows, drafted[..n-1]);
      assert drafted[n-1] in rows;
      var i :| 0 <= i < |rows| && rows[i] == drafted[n-1];
      LineIndexUnique(rows, i);
    }
  }

  /** A second redraft with the same computation leaves every row as it is. */
  lemma RedraftIdempotent(rows: seq<Line>, drafted: seq<Line>)
    requires UniqueLines(rows) && UniqueLines(drafted)
    ensures Redraft(Redraft(rows, drafted), drafted) == Redraft(rows, drafted)
  {
    var once := Redraft(rows, drafted);
    RedraftSum(rows, drafted);
    forall r | r in drafted ensures r in once { RedraftContains(rows, drafted, r); }
    UpsertPresent(once, drafted);
  }
}
