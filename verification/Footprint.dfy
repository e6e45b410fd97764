/** The monthly footprint: what was consumed and retired in a month, and the share that was compensated. */
module Footprint {
  import opened Collections
  import opened Rounding

  type Month = nat

  datatype Snapshot = Snapshot(consumed: real, retired: int, percent: real)

  /** The compensated share, at most 100 per cent, rounded to two places; 0 when nothing was consumed. */
  function Percent(retired: int, consumed: real): real {
    if consumed <= 0.0 then 0.0
    else
      var share := retired as real / consumed * 100.0;
      RoundTo(if share < 100.0 then share else 100.0, 100.0)
  }

  function Find(snapshots: map<Month, Snapshot>, month: Month): Option<Snapshot> {
    if month in snapshots then Some(snapshots[month]) else None
  }

  /** A month's row after the burn history has been read: a new row counts as compensated in full. */
  function Refreshed(row: Option<Snapshot>, retired: int): Snapshot {
    match row
    case None => Snapshot(retired as real, retired, 100.0)
    case Some(s) =>
      var consumed := if s.consumed <= 0.0 then retired as real else s.consumed;
      Snapshot(consumed, retired, Percent(retired, consumed))
  }

  /** A month's row after a simulated retirement. */
  function Simulated(row: Option<Snapshot>, amount: int, consumedKwh: real): Snapshot {
    var s := if row.Some? then row.value else Snapshot(0.0, 0, 0.0);
    var consumed := if consumedKwh > 0.0 then consumedKwh else s.consumed;
    Snapshot(consumed, s.retired + amount, Percent(s.retired + amount, consumed))
  }

  predicate SnapshotOk(s: Snapshot) {
    s.retired >= 0 && 0.0 <= s.percent <= 100.0
  }

  /** Shares stay between 0 and 100, and reach 100 exactly when the month is compensated but for 0.005 per cent. */
  lemma PercentMeaning(retired: int, consumed: real)
    requires retired >= 0
    ensures 0.0 <= Percent(retired, consumed) <= 100.0
    ensures Percent(retired, consumed) >= 100.0 <==> consumed > 0.0 && retired as real >= 0.99995 * consumed
  {
    if consumed > 0.0 {
      var share := retired as real / consumed * 100.0;
      var capped := if share < 100.0 then share else 100.0;
      assert retired as real / consumed >= 0.0;
      RoundKeepsBounds(capped);
      assert share >= 99.995 <==> retired as real >= 0.99995 * consumed by { Quotient(retired as real, consumed); }
      RoundsUpToHundred(capped);
    }
  }

  /** Below full compensation the share is a hundred times retired by consumed, to within half of the second decimal. */
  lemma PercentIs(retired: int, consumed: real)
    requires consumed > 0.0 && 0 <= retired && retired as real <= consumed
    ensures -consumed <= 200.0 * (Percent(retired, consumed) * consumed - 100.0 * retired as real) <= consumed
  {
    var share := retired as real / consumed * 100.0;
    ShareTimes(retired as real, consumed);
    RoundToNearest(share, 100.0);
    assert Percent(retired, consumed) == RoundTo(share, 100.0);
    hide Percent, RoundTo;
    NearQuotient(share, Percent(retired, consumed), consumed, 100.0 * retired as real, 200.0);
  }

  /** What a refresh and a simulation make of a month's row. */
  lemma RowsAre(row: Option<Snapshot>, retired: nat, consumedKwh: real)
    ensures Refreshed(None, retired) == Snapshot(retired as real, retired, 100.0)
    ensures row.Some? ==>
              var after, had := Refreshed(row, retired), row.value.consumed;
              && after.retired == retired && after.consumed == (if had > 0.0 then had else retired as real)
              && after.percent == Percent(retired, after.consumed)
    ensures var after := Simulated(row, retired, consumedKwh);
            var (had, before) := if row.Some? then (row.value.consumed, row.value.retired) else (0.0, 0);
            && after.retired == before + retired && after.consumed == (if consumedKwh > 0.0 then consumedKwh else had)
            && after.percent == Percent(after.retired, after.consumed)
    ensures forall r, c | c <= 0.0 :: Percent(r, c) == 0.0
  {
  }

  lemma Quotient(x: real, y: real)
    requires y > 0.0
    ensures x / y * 100.0 >= 99.995 <==> x >= 0.99995 * y
  {
    var q := x / y;
    assert q * y == x;
    if q >= 0.99995 {
      assert (q - 0.99995) * y >= 0.0;
    } else {
      assert (0.99995 - q) * y > 0.0;
    }
  }

  lemma RoundsUpToHundred(x: real)
    requires 0.0 <= x <= 100.0
    ensures RoundTo(x, 100.0) >= 100.0 <==> x >= 99.995
  {
    var n := RoundHalfEven(x * 100.0);
    assert n >= 10000 <==> x * 100.0 >= 9999.5;
    assert RoundTo(x, 100.0) == n as real / 100.0;
  }

  lemma RowsStayOk(row: Option<Snapshot>, retired: nat, consumedKwh: real)
    requires row.Some? ==> SnapshotOk(row.value)
    ensures SnapshotOk(Refreshed(row, retired)) && Refreshed(row, retired).retired == retired
    ensures SnapshotOk(Simulated(row, retired, consumedKwh))
  {
    if row.Some? {
      PercentMeaning(retired, if row.value.consumed <= 0.0 then retired as real else row.value.consumed);
      PercentMeaning(row.value.retired + retired, Simulated(row, retired, consumedKwh).consumed);
    } else {
      PercentMeaning(retired, Simulated(row, retired, consumedKwh).consumed);
    }
  }
}
