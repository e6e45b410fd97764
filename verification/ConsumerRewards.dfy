/**
 * A consumer's rewards: achievements unlocked by metrics, the points they bring, the reward ledger and
 * the totals rebuilt from the burn history. `Account` is the value of one user's rows, `Consumer` the
 * object the request handlers update.
 */
module ConsumerRewards {
  import opened Collections
  import opened Rounding
  import opened DnftTiers
  import opened Footprint
  import opened BurnStreak

  /** Codes are unique in the catalogue, and so stand for its rows. */
  type Code = nat

  datatype Metric = TotalRetired | CurrentStreak | Referrals | CarbonZeroMonths | OtherMetric

  datatype Achievement = Achievement(code: Code, metric: Metric, target: int, reward: int)

  datatype Progress = Progress(value: int, unlocked: bool)

  datatype Source = FromAchievement(code: Code) | FromBurn

  datatype Entry = Entry(source: Source, points: int, mhec: int)

  datatype Account = Account(
    points: int, totalRetired: int, streak: int,
    progress: map<Code, Progress>, ledger: seq<Entry>, tier: TierState, snapshots: map<Month, Snapshot>)

  const NEW_ACCOUNT := Account(0, 0, 0, map[], [], NoState, map[])

  // ---------------------------------------------------------------- one pass over the catalogue

  /** The metrics a pass reads; referrals and carbon-zero months come from other tables. */
  datatype Metrics = Metrics(totalRetired: int, streak: int, referrals: int, carbonZero: int)

  function MetricValue(m: Metrics, metric: Metric): int {
    match metric
    case TotalRetired => m.totalRetired
    case CurrentStreak => m.streak
    case Referrals => m.referrals
    case CarbonZeroMonths => m.carbonZero
    case OtherMetric => 0
  }

  predicate Done(ach: Achievement, m: Metrics) {
    MetricValue(m, ach.metric) >= ach.target
  }

  predicate Unlocked(progress: map<Code, Progress>, code: Code) {
    code in progress && progress[code].unlocked
  }

  predicate Rewarded(ledger: seq<Entry>, code: Code) {
    exists e | e in ledger :: e.source == FromAchievement(code)
  }

  function Award(ach: Achievement): Entry {
    Entry(FromAchievement(ach.code), ach.reward, 0)
  }

  /** What a pass has done so far; entries it adds are not visible to its own ledger query. */
  datatype Pass = Pass(progress: map<Code, Progress>, added: seq<Entry>, codes: seq<Code>, delta: int)

  function Visit(stored: seq<Entry>, p: Pass, ach: Achievement, m: Metrics): Pass {
    var unlocks := Done(ach, m) && !Unlocked(p.progress, ach.code);
    var awards := unlocks && !Rewarded(stored, ach.code);
    Pass(p.progress[ach.code := Progress(MetricValue(m, ach.metric), unlocks || Unlocked(p.progress, ach.code))],
         if awards then p.added + [Award(ach)] else p.added,
         if unlocks then p.codes + [ach.code] else p.codes,
         if awards then p.delta + ach.reward else p.delta)
  }

  function VisitAll(a: Account, catalog: seq<Achievement>, m: Metrics): Pass {
    if catalog == [] then Pass(a.progress, [], [], 0)
    else
      var n := |catalog| - 1;
      Visit(a.ledger, VisitAll(a, catalog[..n], m), catalog[n], m)
  }

  function MetricsOf(a: Account, referrals: int, carbonZero: int): Metrics {
    Metrics(a.totalRetired, a.streak, referrals, carbonZero)
  }

  function SyncAchievements(a: Account, catalog: seq<Achievement>, referrals: int, carbonZero: int): Account {
    var p := VisitAll(a, catalog, MetricsOf(a, referrals, carbonZero));
    a.(points := a.points + p.delta, progress := p.progress, ledger := a.ledger + p.added)
  }

  // ---------------------------------------------------------------- burn history and simulation

  /** Days are counted from any fixed day on. */
  datatype BurnDate = BurnDate(day: int, month: Month)

  /** Energies are ten-thousandths of a kWh. */
  datatype BurnRow = BurnRow(date: Option<BurnDate>, energy: int) {
    function InMonth(): Option<Month> {
      if date.Some? then Some(date.value.month) else None
    }
  }

  function Mhec(energy: int): nat {
    var n := RoundHalfEven(energy as real / 10000.0);
    if n > 0 then n else 0
  }

  type MonthlyTotals = map<Month, int>

  function MhecOf(): BurnRow -> int { (r: BurnRow) => Mhec(r.energy) }

  function MhecOfMonth(month: nat): BurnRow -> int {
    (r: BurnRow) => if r.InMonth() == Some(month) then Mhec(r.energy) else 0
  }

  function Months(rows: seq<BurnRow>): set<Month> {
    set r | r in rows && r.InMonth().Some? :: r.InMonth().value
  }

  function Days(rows: seq<BurnRow>): set<int> {
    set r | r in rows && r.date.Some? :: r.date.value.day
  }

  /** Every month with a burn shows what was retired in it. */
  function RefreshAll(snapshots: map<Month, Snapshot>, rows: seq<BurnRow>): map<Month, Snapshot> {
    map m | m in snapshots.Keys + Months(rows) ::
      if m in Months(rows) then Refreshed(Find(snapshots, m), Sum(rows, MhecOfMonth(m))) else snapshots[m]
  }

  /** Without burns the profile is left alone; otherwise its total and streak are overwritten. */
  function SyncBurns(a: Account, rows: seq<BurnRow>, today: int): Account {
    if rows == [] then a
    else a.(totalRetired := Sum(rows, MhecOf()), streak := Streak(Days(rows), today),
            snapshots := RefreshAll(a.snapshots, rows))
  }

  function SyncTier(a: Account, tiers: seq<Tier>): Account {
    a.(tier := Sync(a.tier, Shown(ProgressOf(a.totalRetired, tiers), a.totalRetired)))
  }

  /** What a simulated retirement sends: the amount, the current month, and the month's consumption if known. */
  datatype Simulation = Simulation(amount: nat, month: Month, consumedKwh: real)

  /** The rows before the tier and the achievements are synchronised. */
  function Burned(a: Account, s: Simulation): Account {
    a.(points := a.points + s.amount / 10, totalRetired := a.totalRetired + s.amount, streak := a.streak + 1,
       snapshots := a.snapshots[s.month := Simulated(Find(a.snapshots, s.month), s.amount, s.consumedKwh)],
       ledger := a.ledger + [Entry(FromBurn, s.amount / 10, s.amount)])
  }

  function Simulate(a: Account, s: Simulation, tiers: seq<Tier>, catalog: seq<Achievement>,
                    referrals: int, carbonZero: int): Account {
    SyncAchievements(SyncTier(Burned(a, s), tiers), catalog, referrals, carbonZero)
  }

  // ---------------------------------------------------------------- runs

  /** A dashboard is a burn, a tier and an achievement sync; the other requests are some of these. */
  datatype Request =
    | BurnSync(rows: seq<BurnRow>, today: int)
    | TierSync(tiers: seq<Tier>)
    | AchievementSync(catalog: seq<Achievement>, referrals: int, carbonZero: int)
    | SimulatedRetirement(simulation: Simulation, tiers: seq<Tier>,
                          catalog: seq<Achievement>, referrals: int, carbonZero: int)

  function Handle(a: Account, r: Request): Account {
    match r
    case BurnSync(rows, today) => SyncBurns(a, rows, today)
    case TierSync(tiers) => SyncTier(a, tiers)
    case AchievementSync(catalog, referrals, carbonZero) => SyncAchievements(a, catalog, referrals, carbonZero)
    case SimulatedRetirement(simulation, tiers, catalog, referrals, carbonZero) =>
      Simulate(a, simulation, tiers, catalog, referrals, carbonZero)
  }

  function HandleAll(a: Account, requests: seq<Request>): Account {
    if requests == [] then a
    else Handle(HandleAll(a, requests[..|requests| - 1]), requests[|requests| - 1])
  }

  predicate DistinctCodes(catalog: seq<Achievement>) {
    forall i, j | 0 <= i < j < |catalog| :: catalog[i].code != catalog[j].code
  }

  /** The unique constraint on the catalogue's codes. */
  predicate UniqueCodes(r: Request) {
    match r
    case AchievementSync(catalog, _, _) => DistinctCodes(catalog)
    case SimulatedRetirement(_, _, catalog, _, _) => DistinctCodes(catalog)
    case _ => true
  }

  // ---------------------------------------------------------------- the invariant

  function PointsOf(): Entry -> int { (e: Entry) => e.points }

  function RewardOf(): Achievement -> int { (a: Achievement) => a.reward }

  predicate RewardedOnce(ledger: seq<Entry>) {
    forall i, j | 0 <= i < j < |ledger| && ledger[i].source.FromAchievement? :: ledger[i].source != ledger[j].source
  }

  /** Points are what the ledger says, unlocked is rewarded, exactly once, the tier log replays, shares are shares. */
  ghost predicate AccountOk(a: Account) {
    && a.points == Sum(a.ledger, PointsOf())
    && RewardedOnce(a.ledger)
    && (forall c: Code :: Unlocked(a.progress, c) <==> Rewarded(a.ledger, c))
    && LogOk(a.tier)
    && (forall m | m in a.snapshots :: SnapshotOk(a.snapshots[m]))
  }

  /** The reference: achievements that are done and were not unlocked, in catalogue order. */
  function Gained(progress: map<Code, Progress>, catalog: seq<Achievement>, m: Metrics): seq<Achievement> {
    if catalog == [] then []
    else
      var n := |catalog| - 1;
      Gained(progress, catalog[..n], m)
      + if Done(catalog[n], m) && !Unlocked(progress, catalog[n].code) then [catalog[n]] else []
  }

  function Awards(gained: seq<Achievement>): seq<Entry> {
    seq(|gained|, i requires 0 <= i < |gained| => Award(gained[i]))
  }

  function Codes(gained: seq<Achievement>): seq<Code> {
    seq(|gained|, i requires 0 <= i < |gained| => gained[i].code)
  }

  lemma {:induction false} GainedExactly(progress: map<Code, Progress>, catalog: seq<Achievement>, m: Metrics,
                                         x: Achievement)
    ensures x in Gained(progress, catalog, m) <==> x in catalog && Done(x, m) && !Unlocked(progress, x.code)
  {
    if catalog != [] {
      var n := |catalog| - 1;
      GainedExactly(progress, catalog[..n], m, x);
      assert catalog == catalog[..n] + [catalog[n]];
    }
  }

  lemma {:induction false} GainedDistinct(progress: map<Code, Progress>, catalog: seq<Achievement>, m: Metrics)
    requires DistinctCodes(catalog)
    ensures DistinctCodes(Gained(progress, catalog, m))
  {
    if catalog != [] {
      var n := |catalog| - 1;
      GainedDistinct(progress, catalog[..n], m);
      var front := Gained(progress, catalog[..n], m);
      forall i | 0 <= i < |front| ensures front[i].code != catalog[n].code {
        GainedExactly(progress, catalog[..n], m, front[i]);
      }
    }
  }

  predicate ProgressLikeUntil(a: Account, p: Pass, catalog: seq<Achievement>, m: Metrics, code: Code) {
    Unlocked(p.progress, code)
    <==> Unlocked(a.progress, code) || exists x | x in catalog :: x.code == code && Done(x, m)
  }

  /** A pass has rewarded exactly the achievements `gained`. */
  ghost predicate PassOk(p: Pass, gained: seq<Achievement>) {
    p.added == Awards(gained) && p.codes == Codes(gained) && p.delta == Sum(gained, RewardOf())
  }

  lemma PassOkAppend(p: Pass, gained: seq<Achievement>, x: Achievement)
    requires PassOk(p, gained)
    ensures PassOk(Pass(p.progress, p.added + [Award(x)], p.codes + [x.code], p.delta + x.reward), gained + [x])
  {
    SumAppend(gained, x, RewardOf());
    hide Sum;
    assert Awards(gained + [x]) == Awards(gained) + [Award(x)];
    assert Codes(gained + [x]) == Codes(gained) + [x.code];
  }

  lemma VisitKeepsPass(stored: seq<Entry>, p: Pass, gained: seq<Achievement>, x: Achievement, m: Metrics)
    requires PassOk(p, gained) && (Unlocked(p.progress, x.code) <==> Rewarded(stored, x.code))
    ensures PassOk(Visit(stored, p, x, m),
                   gained + if Done(x, m) && !Unlocked(p.progress, x.code) then [x] else [])
  {
    hide Unlocked, Rewarded, Done, Sum, Awards, Codes;
    PassOkAppend(p, gained, x);
    assert gained + [] == gained;
  }

  /** What one more visit does to an unlocked flag. */
  lemma VisitUnlocks(a: Account, before: Pass, front: seq<Achievement>, x: Achievement, m: Metrics, c: Code)
    requires ProgressLikeUntil(a, before, front, m, c)
    ensures ProgressLikeUntil(a, Visit(a.ledger, before, x, m), front + [x], m, c)
  {
    hide Rewarded, Done;
    if c == x.code {
      assert x in front + [x];
    }
  }

  /** After a pass, unlocked means unlocked before, or listed and met. */
  lemma {:induction false} PassUnlocks(a: Account, catalog: seq<Achievement>, m: Metrics, c: Code)
    ensures ProgressLikeUntil(a, VisitAll(a, catalog, m), catalog, m, c)
  {
    hide ProgressLikeUntil, Visit;
    if catalog == [] {
      EmptyPassUnlocks(a, m, c);
    } else {
      var front, x := catalog[..|catalog| - 1], catalog[|catalog| - 1];
      PassUnlocks(a, front, m, c);
      VisitUnlocks(a, VisitAll(a, front, m), front, x, m, c);
      assert catalog == front + [x];
    }
  }

  lemma EmptyPassUnlocks(a: Account, m: Metrics, c: Code)
    ensures ProgressLikeUntil(a, VisitAll(a, [], m), [], m, c)
  {
  }

  /** No listed code comes twice, so the last one is as it was before the pass. */
  lemma LastIsAsBefore(a: Account, catalog: seq<Achievement>, m: Metrics)
    requires catalog != [] && DistinctCodes(catalog)
    ensures var x := catalog[|catalog| - 1];
            Unlocked(VisitAll(a, catalog[..|catalog| - 1], m).progress, x.code) <==> Unlocked(a.progress, x.code)
  {
    hide VisitAll, Unlocked, Done;
    var front, x := catalog[..|catalog| - 1], catalog[|catalog| - 1];
    PassUnlocks(a, front, m, x.code);
    assert forall y | y in front :: y.code != x.code;
  }

  /** The guard against double rewards never fires: a pass rewards all it unlocks. */
  lemma {:induction false} PassGains(a: Account, catalog: seq<Achievement>, m: Metrics)
    requires AccountOk(a) && DistinctCodes(catalog)
    ensures PassOk(VisitAll(a, catalog, m), Gained(a.progress, catalog, m))
  {
    hide Sum, PassOk, LogOk, RewardedOnce, Rewarded, Unlocked, Visit;
    if catalog == [] {
      EmptyPass(a, m);
    } else {
      var front, x := catalog[..|catalog| - 1], catalog[|catalog| - 1];
      FrontDistinct(catalog);
      hide DistinctCodes;
      PassGains(a, front, m);
      LastIsAsBefore(a, catalog, m);
      assert Unlocked(a.progress, x.code) <==> Rewarded(a.ledger, x.code);
      VisitKeepsPass(a.ledger, VisitAll(a, front, m), Gained(a.progress, front, m), x, m);
    }
  }

  lemma FrontDistinct(catalog: seq<Achievement>)
    requires catalog != [] && DistinctCodes(catalog)
    ensures DistinctCodes(catalog[..|catalog| - 1])
  {
  }

  lemma EmptyPass(a: Account, m: Metrics)
    ensures PassOk(VisitAll(a, [], m), Gained(a.progress, [], m))
  {
  }

  /** After a pass an achievement is unlocked if it was, or if the catalogue lists it and its metric is met. */
  lemma UnlockedExactly(a: Account, catalog: seq<Achievement>, referrals: int, carbonZero: int, code: Code)
    ensures var a' := SyncAchievements(a, catalog, referrals, carbonZero);
            (Unlocked(a'.progress, code) <==>
               Unlocked(a.progress, code)
               || exists x | x in catalog :: x.code == code && Done(x, MetricsOf(a, referrals, carbonZero)))
  {
    PassUnlocks(a, catalog, MetricsOf(a, referrals, carbonZero), code);
  }

  /** After a pass every listed achievement's row shows its metric's current value. */
  lemma {:induction false} ProgressIsCurrent(a: Account, catalog: seq<Achievement>, m: Metrics, i: nat)
    requires DistinctCodes(catalog) && i < |catalog|
    ensures var p := VisitAll(a, catalog, m);
            catalog[i].code in p.progress && p.progress[catalog[i].code].value == MetricValue(m, catalog[i].metric)
  {
    var n := |catalog| - 1;
    if i < n {
      ProgressIsCurrent(a, catalog[..n], m, i);
    }
  }

  lemma {:induction false} AwardPoints(gained: seq<Achievement>)
    ensures Sum(Awards(gained), PointsOf()) == Sum(gained, RewardOf())
  {
    SumEqual(Awards(gained), gained, PointsOf(), RewardOf());
  }

  lemma SyncKeepsAccount(a: Account, catalog: seq<Achievement>, referrals: int, carbonZero: int)
    requires AccountOk(a) && DistinctCodes(catalog)
    ensures AccountOk(SyncAchievements(a, catalog, referrals, carbonZero))
  {
    var m := MetricsOf(a, referrals, carbonZero);
    var p := VisitAll(a, catalog, m);
    var gained := Gained(a.progress, catalog, m);
    var a' := SyncAchievements(a, catalog, referrals, carbonZero);
    PassGains(a, catalog, m);
    GainedDistinct(a.progress, catalog, m);
    AwardPoints(gained);
    SumConcat(a.ledger, Awards(gained), PointsOf());
    forall c: Code ensures Unlocked(a'.progress, c) <==> Rewarded(a'.ledger, c) {
      AwardedCode(a, catalog, m, c);
      PassUnlocks(a, catalog, m, c);
    }
    OnceAfter(a, gained, catalog, m);
  }

  lemma AwardedCode(a: Account, catalog: seq<Achievement>, m: Metrics, c: Code)
    ensures var gained := Gained(a.progress, catalog, m);
            Rewarded(a.ledger + Awards(gained), c) <==>
              Rewarded(a.ledger, c) || (!Unlocked(a.progress, c)
                                          && exists x | x in catalog :: x.code == c && Done(x, m))
  {
    var gained := Gained(a.progress, catalog, m);
    var ledger := a.ledger + Awards(gained);
    if Rewarded(ledger, c) && !Rewarded(a.ledger, c) {
      var e :| e in ledger && e.source == FromAchievement(c);
      var i :| 0 <= i < |gained| && Awards(gained)[i] == e;
      GainedExactly(a.progress, catalog, m, gained[i]);
    }
    if !Unlocked(a.progress, c) && exists x | x in catalog :: x.code == c && Done(x, m) {
      var x :| x in catalog && x.code == c && Done(x, m);
      GainedExactly(a.progress, catalog, m, x);
      var i :| 0 <= i < |gained| && gained[i] == x;
      assert Awards(gained)[i] in ledger;
    }
  }

  lemma OnceAfter(a: Account, gained: seq<Achievement>, catalog: seq<Achievement>, m: Metrics)
    requires AccountOk(a) && gained == Gained(a.progress, catalog, m) && DistinctCodes(gained)
    ensures RewardedOnce(a.ledger + Awards(gained))
  {
    var ledger := a.ledger + Awards(gained);
    var n := |a.ledger|;
    forall i, j | 0 <= i < j < |ledger| && ledger[i].source.FromAchievement?
      ensures ledger[i].source != ledger[j].source
    {
      if j >= n {
        var x := gained[j - n];
        assert ledger[j] == Award(x);
        if i < n {
          GainedExactly(a.progress, catalog, m, x);
          assert ledger[i] in a.ledger;
          assert !Rewarded(a.ledger, x.code);
        } else {
          assert ledger[i] == Award(gained[i - n]);
        }
      } else {
        assert ledger[i] == a.ledger[i] && ledger[j] == a.ledger[j];
      }
    }
  }

  lemma SimulationKeepsAccount(a: Account, s: Simulation, tiers: seq<Tier>, catalog: seq<Achievement>,
                               referrals: int, carbonZero: int)
    requires AccountOk(a) && DistinctCodes(catalog)
    ensures AccountOk(Simulate(a, s, tiers, catalog, referrals, carbonZero))
  {
    hide SyncAchievements, ProgressOf;
    BurnedKeepsAccount(a, s);
    hide AccountOk, Burned;
    TierKeepsAccount(Burned(a, s), tiers);
    SyncKeepsAccount(SyncTier(Burned(a, s), tiers), catalog, referrals, carbonZero);
  }

  lemma TierKeepsAccount(a: Account, tiers: seq<Tier>)
    requires AccountOk(a)
    ensures AccountOk(SyncTier(a, tiers))
  {
    SyncKeepsLog(a.tier, Shown(ProgressOf(a.totalRetired, tiers), a.totalRetired));
    hide ProgressOf, Sync, LogOk, Sum, SnapshotOk;
  }

  lemma BurnsKeepAccount(a: Account, rows: seq<BurnRow>, today: int)
    requires AccountOk(a)
    ensures AccountOk(SyncBurns(a, rows, today))
  {
    var after := SyncBurns(a, rows, today);
    if rows != [] {
      forall m | m in after.snapshots ensures SnapshotOk(after.snapshots[m]) {
        if m in Months(rows) {
          SumNonNegative(rows, MhecOfMonth(m));
          RowsStayOk(Find(a.snapshots, m), Sum(rows, MhecOfMonth(m)), 0.0);
        }
      }
    }
  }

  lemma HandleKeepsAccount(a: Account, r: Request)
    requires AccountOk(a) && UniqueCodes(r)
    ensures AccountOk(Handle(a, r))
  {
    hide SyncAchievements, Simulate, SyncBurns, SyncTier, AccountOk;
    match r
    case BurnSync(rows, today) => BurnsKeepAccount(a, rows, today);
    case TierSync(tiers) => TierKeepsAccount(a, tiers);
    case AchievementSync(catalog, referrals, carbonZero) => SyncKeepsAccount(a, catalog, referrals, carbonZero);
    case SimulatedRetirement(simulation, tiers, catalog, referrals, carbonZero) =>
      SimulationKeepsAccount(a, simulation, tiers, catalog, referrals, carbonZero);
  }

  lemma BurnedKeepsAccount(a: Account, s: Simulation)
    requires AccountOk(a)
    ensures AccountOk(Burned(a, s))
  {
    var burned, entry := Burned(a, s), Entry(FromBurn, s.amount / 10, s.amount);
    RowsStayOk(Find(a.snapshots, s.month), s.amount, s.consumedKwh);
    SumAppend(a.ledger, entry, PointsOf());
    hide Sum, LogOk, Simulated;
    forall c: Code ensures Rewarded(burned.ledger, c) <==> Rewarded(a.ledger, c) {
      if Rewarded(a.ledger, c) {
        var e :| e in a.ledger && e.source == FromAchievement(c);
        assert e in burned.ledger;
      }
    }
  }

  /** In every reachable account: points match the ledger, and unlocked means rewarded exactly once. */
  lemma {:induction false} LedgerAgrees(requests: seq<Request>)
    requires forall i | 0 <= i < |requests| :: UniqueCodes(requests[i])
    ensures AccountOk(HandleAll(NEW_ACCOUNT, requests))
  {
    if requests != [] {
      var n := |requests| - 1;
      LedgerAgrees(requests[..n]);
      HandleKeepsAccount(HandleAll(NEW_ACCOUNT, requests[..n]), requests[n]);
    }
  }

  /** Once unlocked, an achievement stays unlocked and its entry stays, whatever its metric does later. */
  lemma {:induction false} UnlockedForGood(a: Account, requests: seq<Request>, code: Code)
    requires AccountOk(a) && Unlocked(a.progress, code)
    requires forall i | 0 <= i < |requests| :: UniqueCodes(requests[i])
    ensures AccountOk(HandleAll(a, requests)) && Unlocked(HandleAll(a, requests).progress, code)
    ensures a.ledger <= HandleAll(a, requests).ledger
  {
    if requests != [] {
      var n := |requests| - 1;
      UnlockedForGood(a, requests[..n], code);
      var before := HandleAll(a, requests[..n]);
      HandleKeepsAccount(before, requests[n]);
      StaysUnlocked(before, requests[n], code);
    }
  }

  lemma StaysUnlocked(a: Account, r: Request, code: Code)
    requires Unlocked(a.progress, code)
    ensures Unlocked(Handle(a, r).progress, code) && a.ledger <= Handle(a, r).ledger
  {
    hide VisitAll, ProgressOf, Sum, Unlocked;
    match r
    case BurnSync(rows, today) =>
    case TierSync(tiers) =>
    case AchievementSync(catalog, referrals, carbonZero) =>
      PassKeepsUnlocked(a, catalog, MetricsOf(a, referrals, carbonZero), code);
    case SimulatedRetirement(simulation, tiers, catalog, referrals, carbonZero) =>
      var burned := SyncTier(Burned(a, simulation), tiers);
      PassKeepsUnlocked(burned, catalog, MetricsOf(burned, referrals, carbonZero), code);
  }

  lemma {:induction false} PassKeepsUnlocked(a: Account, catalog: seq<Achievement>, m: Metrics, code: Code)
    requires Unlocked(a.progress, code)
    ensures Unlocked(VisitAll(a, catalog, m).progress, code)
  {
    if catalog != [] {
      PassKeepsUnlocked(a, catalog[..|catalog| - 1], m, code);
    }
  }

  // ---------------------------------------------------------------- the object

  class Consumer {
    var points: int
    var totalRetired: int
    var streak: int
    var progress: map<Code, Progress>
    var ledger: seq<Entry>
    var tier: TierState
    var snapshots: map<Month, Snapshot>

    ghost function State(): Account
      reads this
    {
      Account(points, totalRetired, streak, progress, ledger, tier, snapshots)
    }

    constructor ()
      ensures State() == NEW_ACCOUNT && AccountOk(State())
    {
      points, totalRetired, streak, progress, ledger, tier, snapshots := 0, 0, 0, map[], [], NoState, map[];
    }

    method SyncAchievementRows(catalog: seq<Achievement>, referrals: int, carbonZero: int)
      returns (codes: seq<Code>, delta: int)
      modifies this
      ensures State() == SyncAchievements(old(State()), catalog, referrals, carbonZero)
      ensures delta == points - old(points)
      ensures codes == VisitAll(old(State()), catalog, MetricsOf(old(State()), referrals, carbonZero)).codes
      ensures old(AccountOk(State())) && DistinctCodes(catalog) ==> AccountOk(State())
    {
      hide Sum, AccountOk, DistinctCodes;
      ghost var before := State();
      var m := Metrics(totalRetired, streak, referrals, carbonZero);
      var added: seq<Entry> := [];
      codes, delta := [], 0;
      for i := 0 to |catalog|
        invariant State() == before.(progress := progress)
        invariant Pass(progress, added, codes, delta) == VisitAll(before, catalog[..i], m)
      {
        var ach := catalog[i];
        assert catalog[..i + 1][..i] == catalog[..i];
        var value := MetricValue(m, ach.metric);
        var row := if ach.code in progress then progress[ach.code] else Progress(0, false);
        row := row.(value := value);
        if value >= ach.target && !row.unlocked {
          row := row.(unlocked := true);
          codes := codes + [ach.code];
          if !Rewarded(ledger, ach.code) {
            delta := delta + ach.reward;
            added := added + [Award(ach)];
          }
        }
        progress := progress[ach.code := row];
      }
      assert catalog[..|catalog|] == catalog;
      ledger := ledger + added;
      if delta != 0 {
        points := points + delta;
      }
      if AccountOk(before) && DistinctCodes(catalog) {
        SyncKeepsAccount(before, catalog, referrals, carbonZero);
      }
    }

    method SyncDnftState(tiers: seq<Tier>)
      modifies `tier
      ensures State() == SyncTier(old(State()), tiers)
    {
      var p := DnftProgressFromTotal(totalRetired, tiers);
      match tier {
        case NoState => tier := Stored(p.level, Shown(p, totalRetired), []);
        case Stored(first, before, events) =>
          var level := before.progress.level;
          tier := Stored(first, Shown(p, totalRetired),
                         if level != p.level then events + [Event(level, p.level)] else events);
      }
    }

    /** The total of all burns, and of each month with a burn; `months` are these, in order of appearance. */
    method BurnTotals(rows: seq<BurnRow>)
      returns (total: int, months: seq<Month>, monthly: MonthlyTotals, days: set<int>)
      ensures days == Days(rows)
      ensures total == Sum(rows, MhecOf())
      ensures NoDup(months) && monthly.Keys == Months(rows)
      ensures forall month :: month in months <==> month in Months(rows)
      ensures forall month | month in monthly :: monthly[month] == Sum(rows, MhecOfMonth(month))
    {
      hide Mhec, Sum;
      total, months, monthly, days := 0, [], map[], {};
      NoRowsYet(rows);
      for i := 0 to |rows|
        invariant total == Sum(rows[..i], MhecOf())
        invariant NoDup(months) && (forall month :: month in months <==> month in monthly)
        invariant forall month :: month in monthly <==> exists k :: 0 <= k < i && rows[k].InMonth() == Some(month)
        invariant days == Days(rows[..i])
        invariant forall month: nat ::
          Sum(rows[..i], MhecOfMonth(month)) == if month in monthly then monthly[month] else 0
      {
        var row := rows[i];
        assert rows[..i + 1] == rows[..i] + [row];
        var amount := Mhec(row.energy);
        SumAppend(rows[..i], row, MhecOf());
        forall month: nat ensures Sum(rows[..i + 1], MhecOfMonth(month))
                                  == Sum(rows[..i], MhecOfMonth(month))
                                     + if row.InMonth() == Some(month) then amount else 0
        {
          SumAppend(rows[..i], row, MhecOfMonth(month));
        }
        total := total + amount;
        DaysAppend(rows[..i], row);
        if row.date.Some? {
          var month := row.date.value.month;
          if month !in monthly {
            months := months + [month];
          }
          days := days + {row.date.value.day};
          monthly := monthly[month := (if month in monthly then monthly[month] else 0) + amount];
        }
      }
      assert rows[..|rows|] == rows;
      forall month ensures month in monthly <==> month in Months(rows) {
        if month in Months(rows) {
          var r :| r in rows && r.InMonth() == Some(month);
          var k :| 0 <= k < |rows| && rows[k] == r;
        }
      }
    }

    method SyncProfileFromBurnHistory(rows: seq<BurnRow>, today: int)
      modifies `totalRetired, `streak, `snapshots
      ensures State() == SyncBurns(old(State()), rows, today)
    {
      hide Mhec, Sum, Refreshed, Streak, Days;
      if rows == [] {
        return;
      }
      var total, months, monthly, days := BurnTotals(rows);
      for i := 0 to |months|
        invariant totalRetired == old(totalRetired) && streak == old(streak)
        invariant forall m :: m in snapshots <==> m in old(snapshots) || m in months[..i]
        invariant forall m | m in snapshots ::
          snapshots[m] == if m in months[..i] then Refreshed(Find(old(snapshots), m), monthly[m]) else old(snapshots)[m]
      {
        var month := months[i];
        assert months[i] in months && months[i] !in months[..i];
        assert months[..i + 1] == months[..i] + [month];
        snapshots := snapshots[month := Refreshed(Find(snapshots, month), monthly[month])];
      }
      assert months[..|months|] == months;
      assert snapshots == RefreshAll(old(snapshots), rows);
      totalRetired := total;
      streak := ComputeStreakFromBurnDays(days, today);
    }

    method SimulateRetirement(s: Simulation, tiers: seq<Tier>, catalog: seq<Achievement>, referrals: int,
                              carbonZero: int)
      returns (codes: seq<Code>, delta: int)
      modifies this
      ensures State() == Simulate(old(State()), s, tiers, catalog, referrals, carbonZero)
      ensures delta == points - old(points)
    {
      hide VisitAll, ProgressOf, AccountOk, Sum, Simulated;
      totalRetired := totalRetired + s.amount;
      streak := streak + 1;
      snapshots := snapshots[s.month := Simulated(Find(snapshots, s.month), s.amount, s.consumedKwh)];
      ledger := ledger + [Entry(FromBurn, s.amount / 10, s.amount)];
      points := points + s.amount / 10;
      SyncDnftState(tiers);
      codes, delta := SyncAchievementRows(catalog, referrals, carbonZero);
      delta := s.amount / 10 + delta;
    }
  }

  lemma DaysAppend(rows: seq<BurnRow>, row: BurnRow)
    ensures Days(rows + [row]) == Days(rows) + if row.date.Some? then {row.date.value.day} else {}
  {
    assert forall r :: r in rows + [row] <==> r in rows || r == row;
  }

  lemma NoRowsYet(rows: seq<BurnRow>)
    ensures Sum(rows[..0], MhecOf()) == 0 && forall month: nat :: Sum(rows[..0], MhecOfMonth(month)) == 0
  {
  }

  /** The months of the burn history, each once, account for every dated row. */
  lemma {:induction false} MonthsPartition(rows: seq<BurnRow>, months: seq<nat>)
    requires NoDup(months)
    requires forall r | r in rows :: r.InMonth().Some? && r.InMonth().value in months
    ensures Sum(rows, MhecOf()) == Sum<nat>(months, MonthTotal(rows))
  {
    if rows == [] {
      SumZero<nat>(months, MonthTotal(rows));
    } else {
      var n := |rows| - 1;
      var front, row := rows[..n], rows[n];
      assert rows == front + [row];
      MonthsPartition(front, months);
      assert row in rows;
      SumAdd<nat>(months, MonthTotal(rows), MonthTotal(front), OneMonth(row));
      OneMonthTotal(months, row);
    }
  }

  /** The rows of the listed months show what was retired in them. */
  ghost predicate ShowsHistory(snapshots: map<Month, Snapshot>, rows: seq<BurnRow>, months: seq<Month>) {
    forall i | 0 <= i < |months| ::
      months[i] in snapshots && snapshots[months[i]].retired == Sum(rows, MhecOfMonth(months[i]))
  }

  /** After a sync the rows of the burn months do. */
  lemma SyncShowsHistory(a: Account, rows: seq<BurnRow>, today: int, months: seq<Month>)
    requires forall i | 0 <= i < |months| :: months[i] in Months(rows)
    ensures ShowsHistory(SyncBurns(a, rows, today).snapshots, rows, months)
  {
    hide Mhec, Refreshed, Sum;
    forall i | 0 <= i < |months|
      ensures months[i] in SyncBurns(a, rows, today).snapshots
      ensures SyncBurns(a, rows, today).snapshots[months[i]].retired == Sum(rows, MhecOfMonth(months[i]))
    {
      assert months[i] in Months(rows);
      RefreshedShows(Find(a.snapshots, months[i]), Sum(rows, MhecOfMonth(months[i])));
    }
  }

  lemma RefreshedShows(row: Option<Snapshot>, retired: int)
    ensures Refreshed(row, retired).retired == retired
  {
  }

  /** Such rows add up to the total of the burns, which is the profile's, when every burn is dated. */
  lemma FootprintAddsUp(snapshots: map<Month, Snapshot>, rows: seq<BurnRow>, months: seq<Month>)
    requires NoDup(months) && ShowsHistory(snapshots, rows, months)
    requires forall r | r in rows :: r.InMonth().Some? && r.InMonth().value in months
    ensures Sum<Month>(months, RetiredIn(snapshots)) == Sum(rows, MhecOf())
  {
    MonthsPartition(rows, months);
    SumEqual<Month, Month>(months, months, RetiredIn(snapshots), MonthTotal(rows));
  }

  function RetiredIn(snapshots: map<Month, Snapshot>): Month -> int {
    (m: Month) => if m in snapshots then snapshots[m].retired else 0
  }

  function MonthTotal(rows: seq<BurnRow>): nat -> int {
    (month: nat) => Sum(rows, MhecOfMonth(month))
  }

  function OneMonth(row: BurnRow): nat -> int {
    (month: nat) => if row.InMonth() == Some(month) then Mhec(row.energy) else 0
  }

  lemma {:induction false} OneMonthTotal(months: seq<nat>, row: BurnRow)
    requires NoDup(months) && row.InMonth().Some?
    ensures Sum<nat>(months, OneMonth(row)) == if row.InMonth().value in months then Mhec(row.energy) else 0
  {
    if months != [] {
      var n := |months| - 1;
      assert months == months[..n] + [months[n]];
      OneMonthTotal(months[..n], row);
    }
  }
}
