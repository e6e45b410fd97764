/** The dNFT tier of a total, found by an early-exit scan of the thresholds, and the log of tier changes. */
module DnftTiers {
  import opened Collections
  import opened Rounding
  import opened Sorting

  datatype Tier = Tier(level: int, required: int)

  datatype TierProgress = TierProgress(level: int, nextLevel: int, nextTarget: int, percent: real, toEvolve: int)

  /** The answer when no tier is defined. */
  const NO_TIERS := TierProgress(1, 1, 0, 100.0, 0)

  predicate TierOrder(s: Tier, t: Tier) {
    s.required < t.required || (s.required == t.required && s.level <= t.level)
  }

  lemma TiersAreOrdered()
    ensures TotalPreorder(TierOrder)
  {
  }

  function OrderedTiers(tiers: seq<Tier>): (r: seq<Tier>)
    ensures Ordered(r, TierOrder) && multiset(r) == multiset(tiers) && |r| == |tiers|
  {
    TiersAreOrdered();
    SortSorts(tiers, TierOrder);
    SortBy(tiers, TierOrder)
  }

  // ---------------------------------------------------------------- the scan

  predicate Met(t: Tier, total: int) {
    total >= t.required
  }

  /** How many leading tiers are met before the first that is not. */
  function MetPrefix(total: int, ordered: seq<Tier>): (k: nat)
    ensures k <= |ordered|
    ensures forall j | 0 <= j < k :: Met(ordered[j], total)
    ensures k < |ordered| ==> !Met(ordered[k], total)
  {
    if ordered == [] || !Met(ordered[0], total) then 0 else 1 + MetPrefix(total, ordered[1..])
  }

  /** The tier the scan ends on: the last one met, or the first when none is. */
  function CurrentIndex(total: int, ordered: seq<Tier>): nat {
    var k := MetPrefix(total, ordered);
    if k == 0 then 0 else k - 1
  }

  function RawPercent(total: int, current: int, next: int): real {
    var interval := if next - current > 1 then next - current else 1;
    (total - current) as real / interval as real * 100.0
  }

  function Clamp(x: real): real {
    var floored := if x > 0.0 then x else 0.0;
    if floored < 100.0 then floored else 100.0
  }

  function ProgressAt(total: int, ordered: seq<Tier>, current: nat): TierProgress
    requires current < |ordered|
  {
    var tier := ordered[current];
    if current + 1 == |ordered| then TierProgress(tier.level, tier.level, tier.required, 100.0, 0)
    else
      var next := ordered[current + 1];
      TierProgress(tier.level, next.level, next.required,
                   RoundTo(Clamp(RawPercent(total, tier.required, next.required)), 100.0),
                   if next.required > total then next.required - total else 0)
  }

  function ProgressOf(total: int, tiers: seq<Tier>): TierProgress {
    if tiers == [] then NO_TIERS else ProgressAt(total, OrderedTiers(tiers), CurrentIndex(total, OrderedTiers(tiers)))
  }

  method DnftProgressFromTotal(total: int, tiers: seq<Tier>) returns (p: TierProgress)
    ensures p == ProgressOf(total, tiers)
  {
    if tiers == [] {
      return NO_TIERS;
    }
    var ordered := OrderedTiers(tiers);
    var current := 0;
    var i := 0;
    while i < |ordered|
      invariant 0 <= i <= |ordered|
      invariant forall j | 0 <= j < i :: Met(ordered[j], total)
      invariant current == if i == 0 then 0 else i - 1
    {
      if total >= ordered[i].required {
        current := i;
      } else {
        break;
      }
      i := i + 1;
    }
    PrefixIs(total, ordered, i);
    if current + 1 == |ordered| {
      return TierProgress(ordered[current].level, ordered[current].level, ordered[current].required, 100.0, 0);
    }
    var tier, next := ordered[current], ordered[current + 1];
    var percent := RoundTo(Clamp(RawPercent(total, tier.required, next.required)), 100.0);
    var toEvolve := if next.required > total then next.required - total else 0;
    return TierProgress(tier.level, next.level, next.required, percent, toEvolve);
  }

  lemma PrefixIs(total: int, ordered: seq<Tier>, i: nat)
    requires i <= |ordered| && (forall j | 0 <= j < i :: Met(ordered[j], total))
    requires i == |ordered| || !Met(ordered[i], total)
    ensures MetPrefix(total, ordered) == i
  {
    var k := MetPrefix(total, ordered);
    assert !(k < i) && !(i < k);
  }

  /** The early exit loses nothing: on sorted tiers, met means at or before the current one. */
  lemma ScanIsExact(total: int, ordered: seq<Tier>, j: nat)
    requires Ordered(ordered, TierOrder) && j < |ordered| && Met(ordered[0], total)
    ensures Met(ordered[j], total) <==> j <= CurrentIndex(total, ordered)
  {
    var k := MetPrefix(total, ordered);
    if k <= j && k < j {
      assert TierOrder(ordered[k], ordered[j]);
    }
  }

  /** Among the tiers whose threshold is met, the one with the greatest threshold, then level. */
  ghost predicate GreatestMet(t: Tier, tiers: seq<Tier>, total: int) {
    t in tiers && Met(t, total) && forall u | u in tiers && Met(u, total) :: TierOrder(u, t)
  }

  lemma OrderedAt(tiers: seq<Tier>, t: Tier) returns (j: nat)
    requires t in tiers
    ensures j < |OrderedTiers(tiers)| && OrderedTiers(tiers)[j] == t
  {
    hide SortBy;
    assert t in multiset(OrderedTiers(tiers));
    j :| 0 <= j < |OrderedTiers(tiers)| && OrderedTiers(tiers)[j] == t;
  }

  lemma CurrentIsGreatest(ordered: seq<Tier>, total: int, u: Tier, j: nat)
    requires Ordered(ordered, TierOrder) && j < |ordered| && ordered[j] == u && Met(u, total)
    ensures var c := CurrentIndex(total, ordered); c < |ordered| && Met(ordered[c], total) && TierOrder(u, ordered[c])
  {
    if j > 0 { assert TierOrder(ordered[0], ordered[j]); }
    var c := CurrentIndex(total, ordered);
    ScanIsExact(total, ordered, c);
    ScanIsExact(total, ordered, j);
    assert j < c ==> TierOrder(ordered[j], ordered[c]);
  }

  /** The level shown is that of the greatest tier whose threshold is met. */
  lemma LevelIsGreatestMet(total: int, tiers: seq<Tier>, any: Tier)
    requires any in tiers && Met(any, total)
    ensures exists t :: GreatestMet(t, tiers, total) && ProgressOf(total, tiers).level == t.level
  {
    hide CurrentIndex, SortBy, OrderedTiers;
    var ordered := OrderedTiers(tiers);
    var a := OrderedAt(tiers, any);
    CurrentIsGreatest(ordered, total, any, a);
    var t := ordered[CurrentIndex(total, ordered)];
    assert t in multiset(tiers);
    forall u | u in tiers && Met(u, total) ensures TierOrder(u, t) {
      var j := OrderedAt(tiers, u);
      CurrentIsGreatest(ordered, total, u, j);
    }
    assert GreatestMet(t, tiers, total);
  }

  lemma IndexIsMonotone(total: int, more: int, ordered: seq<Tier>)
    requires total <= more
    ensures CurrentIndex(total, ordered) <= CurrentIndex(more, ordered)
  {
    var k, l := MetPrefix(total, ordered), MetPrefix(more, ordered);
    assert l < |ordered| ==> !Met(ordered[l], total);
  }

  /** The tier whose level is shown. */
  function CurrentTier(total: int, tiers: seq<Tier>): Tier
    requires tiers != []
  {
    OrderedTiers(tiers)[CurrentIndex(total, OrderedTiers(tiers))]
  }

  /** Higher thresholds come with levels that are not lower. */
  predicate LevelsRise(tiers: seq<Tier>) {
    forall s, t | s in tiers && t in tiers && s.required < t.required :: s.level <= t.level
  }

  /** The seeded definitions. */
  const SEED_TIERS := [Tier(1, 0), Tier(3, 50), Tier(5, 150), Tier(7, 300), Tier(10, 500), Tier(15, 1500)]

  /** A larger total never shows a lower tier, nor, when levels rise with thresholds, a lower level. */
  lemma TierIsMonotone(total: int, more: int, tiers: seq<Tier>)
    requires total <= more && tiers != []
    ensures CurrentTier(total, tiers).level == ProgressOf(total, tiers).level
    ensures TierOrder(CurrentTier(total, tiers), CurrentTier(more, tiers))
    ensures LevelsRise(tiers) ==> ProgressOf(total, tiers).level <= ProgressOf(more, tiers).level
    ensures LevelsRise(SEED_TIERS)
  {
    hide SortBy, OrderedTiers, MetPrefix;
    var ordered := OrderedTiers(tiers);
    IndexIsMonotone(total, more, ordered);
    var i, j := CurrentIndex(total, ordered), CurrentIndex(more, ordered);
    assert i < j ==> TierOrder(ordered[i], ordered[j]);
    assert ordered[i] in multiset(ordered) && ordered[j] in multiset(ordered);
    assert ordered[i] in tiers && ordered[j] in tiers;
  }

  /** Progress stays between 0 and 100; below the top tier the total and what is missing make the target. */
  lemma ProgressMeaning(total: int, tiers: seq<Tier>)
    ensures var p := ProgressOf(total, tiers);
            && 0.0 <= p.percent <= 100.0
            && p.toEvolve >= 0
            && (tiers != [] ==>
                  if CurrentIndex(total, OrderedTiers(tiers)) + 1 < |tiers|
                  then p.toEvolve > 0 && total + p.toEvolve == p.nextTarget
                  else p.percent == 100.0 && p.toEvolve == 0 && p.nextLevel == p.level)
  {
    if tiers != [] {
      var ordered := OrderedTiers(tiers);
      var c := CurrentIndex(total, ordered);
      var k := MetPrefix(total, ordered);
      if c + 1 < |ordered| {
        var raw := RawPercent(total, ordered[c].required, ordered[c + 1].required);
        RoundKeepsBounds(Clamp(raw));
        if k == 0 { assert TierOrder(ordered[0], ordered[1]); }
        assert total < ordered[c + 1].required;
      }
    }
  }

  /** Of the tiers that are not met, the one with the least threshold, then level. */
  ghost predicate LeastUnmet(t: Tier, tiers: seq<Tier>, total: int) {
    t in tiers && !Met(t, total) && forall u | u in tiers && !Met(u, total) :: TierOrder(t, u)
  }

  /** What is shown on the way from one tier to the next: the share of it that is done, and what is left. */
  ghost predicate OnTheWay(p: TierProgress, total: int, from: Tier, to: Tier) {
    var way := (to.required - from.required) as real;
    && p.level == from.level && p.nextLevel == to.level && p.nextTarget == to.required
    && p.toEvolve == to.required - total
    && -way <= 200.0 * (p.percent * way - 100.0 * (total - from.required) as real) <= way
  }

  lemma WayPercent(total: int, from: Tier, to: Tier)
    requires from.required <= total < to.required
    ensures var way := (to.required - from.required) as real;
            -way <= 200.0 * (RoundTo(Clamp(RawPercent(total, from.required, to.required)), 100.0) * way
                             - 100.0 * (total - from.required) as real) <= way
  {
    hide RoundTo;
    var way, done := (to.required - from.required) as real, (total - from.required) as real;
    var raw := RawPercent(total, from.required, to.required);
    RawIsShare(total, from, to);
    RoundToNearest(raw, 100.0);
    hide RawPercent;
    NearQuotient(raw, RoundTo(raw, 100.0), way, 100.0 * done, 200.0);
  }

  lemma RawIsShare(total: int, from: Tier, to: Tier)
    requires from.required <= total < to.required
    ensures var raw := RawPercent(total, from.required, to.required);
            && raw * (to.required - from.required) as real == 100.0 * (total - from.required) as real
            && Clamp(raw) == raw
  {
    ShareTimes((total - from.required) as real, (to.required - from.required) as real);
  }

  /** With some tiers met and some not: the way from the greatest one met to the least one that is not. */
  lemma ProgressOnTheWay(total: int, tiers: seq<Tier>, met: Tier, unmet: Tier)
    requires met in tiers && Met(met, total) && unmet in tiers && !Met(unmet, total)
    ensures exists from, to ::
              && GreatestMet(from, tiers, total) && LeastUnmet(to, tiers, total)
              && OnTheWay(ProgressOf(total, tiers), total, from, to)
  {
    hide SortBy, OrderedTiers, RoundTo, Clamp, RawPercent;
    var ordered := OrderedTiers(tiers);
    var a := OrderedAt(tiers, met);
    var b := OrderedAt(tiers, unmet);
    CurrentIsGreatest(ordered, total, met, a);
    var c := CurrentIndex(total, ordered);
    ScanIsExact(total, ordered, b);
    var from, to := ordered[c], ordered[c + 1];
    ScanIsExact(total, ordered, c + 1);
    assert from in multiset(ordered) && to in multiset(ordered);
    forall u | u in tiers && Met(u, total) ensures TierOrder(u, from) {
      var j := OrderedAt(tiers, u);
      CurrentIsGreatest(ordered, total, u, j);
    }
    forall u | u in tiers && !Met(u, total) ensures TierOrder(to, u) {
      var j := OrderedAt(tiers, u);
      ScanIsExact(total, ordered, j);
      assert c + 1 < j ==> TierOrder(ordered[c + 1], ordered[j]);
    }
    WayPercent(total, from, to);
    assert GreatestMet(from, tiers, total) && LeastUnmet(to, tiers, total);
  }

  /** With all tiers met, the greatest of them is shown as reached, and nothing is left. */
  lemma ProgressAtTheTop(total: int, tiers: seq<Tier>)
    requires tiers != [] && forall t | t in tiers :: Met(t, total)
    ensures exists t :: GreatestMet(t, tiers, total)
                        && ProgressOf(total, tiers) == TierProgress(t.level, t.level, t.required, 100.0, 0)
  {
    hide SortBy, OrderedTiers;
    var ordered := OrderedTiers(tiers);
    var n := |ordered| - 1;
    assert forall j | 0 <= j < |ordered| :: ordered[j] in multiset(ordered);
    CurrentIsGreatest(ordered, total, ordered[n], n);
    ScanIsExact(total, ordered, n);
    var t := ordered[n];
    forall u | u in tiers ensures TierOrder(u, t) {
      var j := OrderedAt(tiers, u);
      assert j < n ==> TierOrder(ordered[j], ordered[n]);
    }
    assert GreatestMet(t, tiers, total);
  }

  // ---------------------------------------------------------------- the log

  /** From one tier level to another. */
  datatype Event = Event(from: int, to: int)

  /** What the row shows: the progress computed, and the total it was computed from. */
  datatype Shown = Shown(progress: TierProgress, xp: int)

  /** The user's stored row and the events; the first row is stored without an event. */
  datatype TierState = NoState | Stored(first: int, shown: Shown, events: seq<Event>)

  function LevelOf(shown: Shown): int { shown.progress.level }

  function Sync(s: TierState, shown: Shown): TierState {
    match s
    case NoState => Stored(LevelOf(shown), shown, [])
    case Stored(first, before, events) =>
      Stored(first, shown,
             if LevelOf(before) != LevelOf(shown) then events + [Event(LevelOf(before), LevelOf(shown))] else events)
  }

  function SyncAll(s: TierState, seen: seq<Shown>): TierState {
    if seen == [] then s else Sync(SyncAll(s, seen[..|seen| - 1]), seen[|seen| - 1])
  }

  /** What the log says: start at a level and follow the events, each of which must begin where we are. */
  function Replay(start: int, events: seq<Event>): Option<int> {
    if events == [] then Some(start)
    else
      var n := |events| - 1;
      match Replay(start, events[..n])
      case None => None
      case Some(level) => if events[n].from == level && events[n].to != level then Some(events[n].to) else None
  }

  /** The log replays from the first stored level to the current one. */
  ghost predicate LogOk(s: TierState) {
    s.Stored? ==> Replay(s.first, s.events) == Some(LevelOf(s.shown))
  }

  /**
   * A sync shows what it is given, logs exactly a change of level, and keeps the log replayable from
   * the same first level.
   */
  lemma SyncKeepsLog(s: TierState, shown: Shown)
    requires LogOk(s)
    ensures var s' := Sync(s, shown);
            && LogOk(s') && s'.Stored? && s'.shown == shown
            && (s.Stored? ==> s'.first == s.first && (s'.events == s.events <==> LevelOf(s.shown) == LevelOf(shown)))
  {
    var s' := Sync(s, shown);
    if s.Stored? && LevelOf(s.shown) != LevelOf(shown) {
      assert s'.events[..|s.events|] == s.events;
    }
  }

  /** Over any sequence of syncs, from the first level shown to the last. */
  lemma {:induction false} LogReplays(seen: seq<Shown>)
    requires seen != []
    ensures var s := SyncAll(NoState, seen);
            && s.Stored? && s.first == LevelOf(seen[0]) && s.shown == seen[|seen| - 1]
            && Replay(LevelOf(seen[0]), s.events) == Some(LevelOf(seen[|seen| - 1]))
  {
    var n := |seen| - 1;
    if n > 0 {
      LogReplays(seen[..n]);
      SyncKeepsLog(SyncAll(NoState, seen[..n]), seen[n]);
    } else {
      assert SyncAll(NoState, seen) == Sync(SyncAll(NoState, seen[..0]), seen[0]);
    }
  }
}
