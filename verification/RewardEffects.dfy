/** What each reward request does to a consumer's rows, stated of the rows and amounts themselves. */
module RewardEffects {
  import opened Collections
  import opened Rounding
  import opened DnftTiers
  import opened Footprint
  import opened BurnStreak
  import opened ConsumerRewards

  // ---------------------------------------------------------------- amounts

  /** A burn counts as the nearest whole kWh, ties to even, and never as a negative number. */
  lemma MhecIsNearest(energy: int)
    ensures energy <= 0 ==> Mhec(energy) == 0
    ensures energy > 0 ==>
              && -5000 <= 10000 * Mhec(energy) - energy <= 5000
              && (energy % 10000 == 5000 ==> Mhec(energy) % 2 == 0)
  {
    RoundHalfEvenNearest(energy as real / 10000.0);
    NearTenThousandth(energy, RoundHalfEven(energy as real / 10000.0));
    hide RoundHalfEven;
    if energy % 10000 == 5000 {
      TieOnly(energy, RoundHalfEven(energy as real / 10000.0));
    }
  }

  lemma NearTenThousandth(energy: int, n: int)
    requires n as real - 0.5 <= energy as real / 10000.0 <= n as real + 0.5
    ensures -5000 <= 10000 * n - energy <= 5000
    ensures 10000 * n - energy == 5000 ==> energy as real / 10000.0 == n as real - 0.5
    ensures 10000 * n - energy == -5000 ==> energy as real / 10000.0 == n as real + 0.5
  {
    assert n as real * 10000.0 == (10000 * n) as real;
  }

  lemma TieOnly(energy: int, n: int)
    requires -5000 <= 10000 * n - energy <= 5000 && energy % 10000 == 5000
    ensures 10000 * n - energy == 5000 || 10000 * n - energy == -5000
  {
    var k := energy / 10000;
    assert energy == 10000 * k + 5000;
    assert n == k || n == k + 1;
  }

  /** The burn history replaces total and streak, and touches the rows of its months only. */
  lemma BurnSyncIs(a: Account, rows: seq<BurnRow>, today: int)
    ensures rows == [] ==> SyncBurns(a, rows, today) == a
    ensures rows != [] ==>
              var after := SyncBurns(a, rows, today);
              && after == a.(totalRetired := after.totalRetired, streak := after.streak, snapshots := after.snapshots)
              && after.totalRetired == Sum(rows, MhecOf())
              && after.streak == Streak(set r | r in rows && r.date.Some? :: r.date.value.day, today)
              && (forall m | m in a.snapshots && !(exists r | r in rows :: r.date.Some? && r.date.value.month == m) ::
                    m in after.snapshots && after.snapshots[m] == a.snapshots[m])
  {
    hide Mhec, Sum, Refreshed;
    if rows != [] {
      assert Days(rows) == set r | r in rows && r.date.Some? :: r.date.value.day;
      forall m | m in a.snapshots && !(exists r | r in rows :: r.date.Some? && r.date.value.month == m)
        ensures m !in Months(rows)
      {
      }
    }
  }

  // ---------------------------------------------------------------- achievements

  /** What a metric reads off the profile; an unknown one reads zero. */
  ghost predicate Reads(value: int, metric: Metric, a: Account, referrals: int, carbonZero: int) {
    && (metric == TotalRetired ==> value == a.totalRetired)
    && (metric == CurrentStreak ==> value == a.streak)
    && (metric == Referrals ==> value == referrals)
    && (metric == CarbonZeroMonths ==> value == carbonZero)
    && (metric == OtherMetric ==> value == 0)
  }

  lemma MetricReads(metric: Metric, a: Account, referrals: int, carbonZero: int)
    ensures Reads(MetricValue(MetricsOf(a, referrals, carbonZero), metric), metric, a, referrals, carbonZero)
  {
  }

  /**
   * After a pass, each listed achievement shows what its metric reads, and is unlocked if it was or if that has
   * reached its target.
   */
  lemma PassShows(a: Account, catalog: seq<Achievement>, referrals: int, carbonZero: int, i: nat)
    requires DistinctCodes(catalog) && i < |catalog|
    ensures var after, code := SyncAchievements(a, catalog, referrals, carbonZero), catalog[i].code;
            && code in after.progress
            && Reads(after.progress[code].value, catalog[i].metric, a, referrals, carbonZero)
            && (after.progress[code].unlocked <==>
                  Unlocked(a.progress, code) || after.progress[code].value >= catalog[i].target)
  {
    var m := MetricsOf(a, referrals, carbonZero);
    ProgressIsCurrent(a, catalog, m, i);
    MetricReads(catalog[i].metric, a, referrals, carbonZero);
    UnlockedExactly(a, catalog, referrals, carbonZero, catalog[i].code);
    hide VisitAll, MetricValue;
    assert catalog[i] in catalog;
    forall x | x in catalog && x.code == catalog[i].code ensures x == catalog[i] {
      var j :| 0 <= j < |catalog| && catalog[j] == x;
    }
  }

  /** A pass adds entries of achievements newly met, each with that achievement's points and no units. */
  lemma PassRewards(a: Account, catalog: seq<Achievement>, referrals: int, carbonZero: int)
    requires AccountOk(a) && DistinctCodes(catalog)
    ensures var after, gained := SyncAchievements(a, catalog, referrals, carbonZero),
                                 Gained(a.progress, catalog, MetricsOf(a, referrals, carbonZero));
            && after.points == a.points + Sum(gained, RewardOf())
            && |after.ledger| == |a.ledger| + |gained| && a.ledger <= after.ledger
            && (forall i | 0 <= i < |gained| ::
                  after.ledger[|a.ledger| + i] == Entry(FromAchievement(gained[i].code), gained[i].reward, 0))
            && after == a.(points := after.points, progress := after.progress, ledger := after.ledger)
  {
    PassGains(a, catalog, MetricsOf(a, referrals, carbonZero));
    hide AccountOk, DistinctCodes, VisitAll, Gained, Sum;
  }

  // ---------------------------------------------------------------- simulated retirements

  /**
   * A simulated retirement: its amount on the total, a day on the streak, a tenth in points, rounded down, with
   * an entry of its own, and the month's row; everything else the syncs do.
   */
  lemma SimulationIs(a: Account, s: Simulation, tiers: seq<Tier>, catalog: seq<Achievement>,
                     referrals: int, carbonZero: int)
    requires AccountOk(a) && DistinctCodes(catalog)
    ensures var after := Simulate(a, s, tiers, catalog, referrals, carbonZero);
            && after.totalRetired == a.totalRetired + s.amount && after.streak == a.streak + 1
            && a.ledger < after.ledger && after.ledger[|a.ledger|] == Entry(FromBurn, s.amount / 10, s.amount)
            && after.points - a.points == s.amount / 10 + Sum(after.ledger[|a.ledger| + 1..], PointsOf())
            && s.month in after.snapshots
            && (forall m | m in a.snapshots && m != s.month ::
                  m in after.snapshots && after.snapshots[m] == a.snapshots[m])
            && after.tier.Stored? && after.tier.shown.xp == after.totalRetired
            && after.tier.shown.progress == ProgressOf(after.totalRetired, tiers)
    ensures var row := Simulate(a, s, tiers, catalog, referrals, carbonZero).snapshots[s.month];
            var (had, before) := if s.month !in a.snapshots then (0.0, 0)
                                 else (a.snapshots[s.month].consumed, a.snapshots[s.month].retired);
            && row.retired == before + s.amount
            && row.consumed == (if s.consumedKwh > 0.0 then s.consumedKwh else had)
            && row.percent == Percent(row.retired, row.consumed)
  {
    BurnedKeepsAccount(a, s);
    var middle := SyncTier(Burned(a, s), tiers);
    TierKeepsAccount(Burned(a, s), tiers);
    SyncKeepsAccount(middle, catalog, referrals, carbonZero);
    PassRewards(middle, catalog, referrals, carbonZero);
    RowsAre(Find(a.snapshots, s.month), s.amount, s.consumedKwh);
    var after := Simulate(a, s, tiers, catalog, referrals, carbonZero);
    PointsAddUp(a, s, after);
    hide SyncAchievements, ProgressOf, AccountOk, Sum, Percent;
  }

  lemma PointsAddUp(a: Account, s: Simulation, after: Account)
    requires AccountOk(a) && AccountOk(after) && a.ledger < after.ledger
    requires after.ledger[|a.ledger|] == Entry(FromBurn, s.amount / 10, s.amount)
    ensures after.points - a.points == s.amount / 10 + Sum(after.ledger[|a.ledger| + 1..], PointsOf())
  {
    var n, entry := |a.ledger|, after.ledger[|a.ledger|];
    var rest := after.ledger[n + 1..];
    assert after.ledger == (a.ledger + [entry]) + rest;
    SumConcat(a.ledger + [entry], rest, PointsOf());
    SumAppend(a.ledger, entry, PointsOf());
  }
}
