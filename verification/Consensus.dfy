/**
 * The granular consensus of neighbouring plants: which readings are compared, the median that is the
 * reference, and the decision. Ratios are reals; the `round` calls of the code are written out.
 */
module Consensus {
  import opened Collections
  import opened Rounding
  import opened Sorting

  const RADIUS_KM := 5.0
  const DEVIATION_THRESHOLD_PCT := 30.0
  /** Thirty minutes, in microseconds. */
  const TIME_WINDOW := 30 * 60 * 1_000_000
  const MIN_NEIGHBORS := 2

  datatype Plant = Plant(id: nat, active: bool, capacity: real)

  datatype Telemetry = Telemetry(plant: nat, time: int, energy: real)

  datatype Neighbor = Neighbor(plant: Plant, distance: real)

  datatype NeighborReading = NeighborReading(plant: nat, distance: real, ratio: real, time: int)

  // ---------------------------------------------------------------- rounding

  /** Against an even bound, rounding lets half a unit more through, the tie included. */
  lemma RoundsUpToEven(y: real, bound: int)
    requires bound % 2 == 0
    ensures RoundHalfEven(y) <= bound <==> y <= bound as real + 0.5
  {
  }

  // ---------------------------------------------------------------- the median

  predicate AtMost(x: real, y: real) { x <= y }

  function Sort(s: seq<real>): (r: seq<real>)
    ensures Ordered(r, AtMost) && multiset(r) == multiset(s) && |r| == |s|
  {
    SortSorts(s, AtMost);
    SortBy(s, AtMost)
  }

  function Median(values: seq<real>): real {
    var sorted := Sort(values);
    var n := |sorted|;
    if n == 0 then 0.0
    else
      var mid := n / 2;
      if n % 2 == 0 then (sorted[mid - 1] + sorted[mid]) / 2.0 else sorted[mid]
  }

  /** The median does not depend on the order of the readings. */
  lemma MedianOfPermutation(a: seq<real>, b: seq<real>)
    requires multiset(a) == multiset(b)
    ensures Median(a) == Median(b)
  {
    SortedUnique(Sort(a), Sort(b), AtMost);
  }

  function Within(lo: real, hi: real): real -> int {
    x => if lo <= x <= hi then 1 else 0
  }

  /** How many values lie in [lo, hi]. */
  function CountIn(s: seq<real>, lo: real, hi: real): int {
    Sum(s, Within(lo, hi))
  }

  lemma {:induction false} SumInsert(x: real, s: seq<real>, f: real -> int)
    ensures Sum(InsertBy(x, s, AtMost), f) == Sum(s, f) + f(x)
  {
    if s == [] || !AtMost(s[0], x) {
      SumConcat([x], s, f);
      assert [x][..0] == [];
    } else {
      assert s == [s[0]] + s[1..];
      SumConcat([s[0]], s[1..], f);
      SumConcat([s[0]], InsertBy(x, s[1..], AtMost), f);
      SumInsert(x, s[1..], f);
    }
  }

  lemma {:induction false} SumSort(s: seq<real>, f: real -> int)
    ensures Sum(SortBy(s, AtMost), f) == Sum(s, f)
  {
    if s != [] {
      SumSort(s[..|s| - 1], f);
      SumInsert(s[|s| - 1], SortBy(s[..|s| - 1], AtMost), f);
    }
  }

  lemma {:induction false} CountAtMost(s: seq<real>, lo: real, hi: real)
    ensures 0 <= CountIn(s, lo, hi) <= |s|
  {
    if s != [] {
      CountAtMost(s[..|s| - 1], lo, hi);
    }
  }

  /** A sorted value outside the range leaves everything on its side of it outside too. */
  lemma CountBeyond(t: seq<real>, k: nat, lo: real, hi: real)
    requires Ordered(t, AtMost) && k < |t|
    ensures t[k] < lo ==> CountIn(t, lo, hi) <= |t| - k - 1
    ensures t[k] > hi ==> CountIn(t, lo, hi) <= k
  {
    forall i | 0 <= i < |t| ensures (i <= k ==> t[i] <= t[k]) && (k <= i ==> t[k] <= t[i]) {
      assert i < k ==> AtMost(t[i], t[k]);
      assert k < i ==> AtMost(t[k], t[i]);
    }
    if t[k] < lo {
      CountSplit(t, k + 1, lo, hi);
      SumZero(t[..k + 1], Within(lo, hi));
    }
    if t[k] > hi {
      CountSplit(t, k, lo, hi);
      SumZero(t[k..], Within(lo, hi));
    }
  }

  lemma CountSplit(t: seq<real>, k: nat, lo: real, hi: real)
    requires k <= |t|
    ensures CountIn(t, lo, hi) == CountIn(t[..k], lo, hi) + CountIn(t[k..], lo, hi)
    ensures 0 <= CountIn(t[..k], lo, hi) <= k && 0 <= CountIn(t[k..], lo, hi) <= |t| - k
  {
    var front, back := t[..k], t[k..];
    assert t == front + back;
    SumConcat(front, back, Within(lo, hi));
    CountAtMost(front, lo, hi);
    CountAtMost(back, lo, hi);
  }

  /** When more than half of the values lie in [lo, hi], so does the median, whatever the others are. */
  lemma MedianIsRobust(values: seq<real>, lo: real, hi: real)
    requires 2 * CountIn(values, lo, hi) > |values|
    ensures lo <= Median(values) <= hi
  {
    hide SortBy, Sum;
    var t := Sort(values);
    SumSort(values, Within(lo, hi));
    CountAtMost(values, lo, hi);
    var mid := |t| / 2;
    CountBeyond(t, mid, lo, hi);
    if |t| % 2 == 0 {
      CountBeyond(t, mid - 1, lo, hi);
    }
  }

  /** `k` values at `x`, then `k` at `y`. */
  function Halves(k: nat, x: real, y: real): seq<real> {
    seq(2 * k, i => if i < k then x else y)
  }

  /** Exactly half is not enough, for any even number: the other half puts the median as far out as it likes. */
  lemma HalfIsNotEnough(k: nat, lo: real, hi: real, far: real)
    requires k > 0 && lo <= hi < far
    ensures var values := Halves(k, hi, 2.0 * far - hi);
            |values| == 2 * k && CountIn(values, lo, hi) == k && Median(values) == far
  {
    var values := Halves(k, hi, 2.0 * far - hi);
    CountSplit(values, k, lo, hi);
    CountAll(values[..k], lo, hi);
    SumZero(values[k..], Within(lo, hi));
    hide SortBy, Sum;
    assert Ordered(values, AtMost);
    SortedUnique(Sort(values), values, AtMost);
  }

  lemma {:induction false} CountAll(s: seq<real>, lo: real, hi: real)
    requires forall i | 0 <= i < |s| :: lo <= s[i] <= hi
    ensures CountIn(s, lo, hi) == |s|
  {
    if s != [] {
      CountAll(s[..|s| - 1], lo, hi);
    }
  }

  // ---------------------------------------------------------------- which readings

  predicate IsNeighbor(p: Plant, target: Plant, distance: Plant -> real) {
    p.id != target.id && p.active && distance(p) <= RADIUS_KM
  }

  function Candidates(plants: seq<Plant>, target: Plant, distance: Plant -> real): seq<Neighbor> {
    if plants == [] then []
    else
      var n := |plants| - 1;
      Candidates(plants[..n], target, distance)
      + if IsNeighbor(plants[n], target, distance) then [Neighbor(plants[n], RoundTo(distance(plants[n]), 10000.0))]
        else []
  }

  predicate Nearer(a: Neighbor, b: Neighbor) { a.distance <= b.distance }

  lemma {:induction false} CandidatesExactly(plants: seq<Plant>, target: Plant, distance: Plant -> real, n: Neighbor)
    ensures n in Candidates(plants, target, distance)
            <==> n.plant in plants && IsNeighbor(n.plant, target, distance)
                 && n.distance == RoundTo(distance(n.plant), 10000.0)
  {
    if plants != [] {
      var k := |plants| - 1;
      CandidatesExactly(plants[..k], target, distance, n);
      assert plants == plants[..k] + [plants[k]];
    }
  }

  /** 1 for a plant that is another one, active, and at most 5 km away. */
  function Near(target: Plant, distance: Plant -> real): Plant -> int {
    (p: Plant) => if p.id != target.id && p.active && distance(p) <= 5.0 then 1 else 0
  }

  lemma {:induction false} CandidatesCounted(plants: seq<Plant>, target: Plant, distance: Plant -> real)
    ensures |Candidates(plants, target, distance)| == Sum(plants, Near(target, distance))
  {
    if plants != [] {
      CandidatesCounted(plants[..|plants| - 1], target, distance);
    }
  }

  /** The distance shown is within half of the fourth decimal. */
  lemma DistanceShown(n: Neighbor, d: real)
    requires n.distance == RoundTo(d, 10000.0)
    ensures d - 0.00005 <= n.distance <= d + 0.00005
  {
    RoundToNearest(d, 10000.0);
  }

  method FindNeighbors(plants: seq<Plant>, target: Plant, distance: Plant -> real) returns (neighbors: seq<Neighbor>)
    ensures neighbors == SortBy(Candidates(plants, target, distance), Nearer)
    ensures forall i, j | 0 <= i < j < |neighbors| :: neighbors[i].distance <= neighbors[j].distance
    ensures |neighbors| == Sum(plants, Near(target, distance))
    ensures forall p :: (exists n :: n in neighbors && n.plant == p) <==> p in plants && Near(target, distance)(p) == 1
    ensures forall n | n in neighbors :: distance(n.plant) - 0.00005 <= n.distance <= distance(n.plant) + 0.00005
  {
    neighbors := [];
    for i := 0 to |plants|
      invariant neighbors == Candidates(plants[..i], target, distance)
    {
      assert plants[..i + 1][..i] == plants[..i];
      var p := plants[i];
      if p.id != target.id && p.active {
        var dist := distance(p);
        if dist <= RADIUS_KM {
          neighbors := neighbors + [Neighbor(p, RoundTo(dist, 10000.0))];
        }
      }
    }
    assert plants[..|plants|] == plants;
    ghost var found := neighbors;
    CandidatesCounted(plants, target, distance);
    SortSorts(neighbors, Nearer);
    neighbors := SortBy(neighbors, Nearer);
    forall i, j | 0 <= i < j < |neighbors| ensures neighbors[i].distance <= neighbors[j].distance {
      assert Nearer(neighbors[i], neighbors[j]);
    }
    SortedNeighbors(plants, target, distance, neighbors);
  }

  lemma SortedNeighbors(plants: seq<Plant>, target: Plant, distance: Plant -> real, neighbors: seq<Neighbor>)
    requires multiset(neighbors) == multiset(Candidates(plants, target, distance))
    ensures forall p :: (exists n :: n in neighbors && n.plant == p) <==> p in plants && Near(target, distance)(p) == 1
    ensures forall n | n in neighbors :: distance(n.plant) - 0.00005 <= n.distance <= distance(n.plant) + 0.00005
  {
    hide Candidates, RoundTo;
    var found := Candidates(plants, target, distance);
    forall n ensures n in neighbors <==>
                       && n.plant in plants && IsNeighbor(n.plant, target, distance)
                       && n.distance == RoundTo(distance(n.plant), 10000.0)
    {
      CandidatesExactly(plants, target, distance, n);
      assert n in multiset(neighbors) <==> n in multiset(found);
    }
    forall p | p in plants && Near(target, distance)(p) == 1 ensures exists n :: n in neighbors && n.plant == p {
      assert Neighbor(p, RoundTo(distance(p), 10000.0)) in neighbors;
    }
    forall n | n in neighbors ensures distance(n.plant) - 0.00005 <= n.distance <= distance(n.plant) + 0.00005 {
      DistanceShown(n, distance(n.plant));
    }
  }

  predicate InWindow(t: Telemetry, plant: nat, reference: int) {
    t.plant == plant && reference - TIME_WINDOW <= t.time <= reference + TIME_WINDOW
  }

  /** The newest reading of a plant in the window. */
  function Latest(table: seq<Telemetry>, plant: nat, reference: int): (r: Option<Telemetry>)
    ensures r.None? <==> forall t | t in table :: !InWindow(t, plant, reference)
    ensures r.Some? ==> r.value in table && InWindow(r.value, plant, reference)
    ensures r.Some? ==> forall t | t in table && InWindow(t, plant, reference) :: t.time <= r.value.time
  {
    if table == [] then None
    else
      var n := |table| - 1;
      assert table == table[..n] + [table[n]];
      var best := Latest(table[..n], plant, reference);
      if InWindow(table[n], plant, reference) && (best.None? || best.value.time < table[n].time) then Some(table[n])
      else best
  }

  function ReadingOf(n: Neighbor, table: seq<Telemetry>, reference: int): seq<NeighborReading> {
    var latest := Latest(table, n.plant.id, reference);
    if latest.Some? && n.plant.capacity > 0.0 then
      [NeighborReading(n.plant.id, n.distance, RoundTo(latest.value.energy / n.plant.capacity, 1000000.0),
                       latest.value.time)]
    else []
  }

  function ReadingsOf(neighbors: seq<Neighbor>, table: seq<Telemetry>, reference: int): seq<NeighborReading> {
    if neighbors == [] then []
    else ReadingsOf(neighbors[..|neighbors| - 1], table, reference)
         + ReadingOf(neighbors[|neighbors| - 1], table, reference)
  }

  /** A row of the plant within thirty minutes of the reference. */
  predicate Recent(t: Telemetry, plant: nat, reference: int) {
    t.plant == plant && -1_800_000_000 <= t.time - reference <= 1_800_000_000
  }

  /** The neighbours with capacity and a row in the window, in order. */
  function Reporting(neighbors: seq<Neighbor>, table: seq<Telemetry>, reference: int): seq<Neighbor> {
    if neighbors == [] then []
    else
      var n := |neighbors| - 1;
      Reporting(neighbors[..n], table, reference)
      + if neighbors[n].plant.capacity > 0.0 && exists t | t in table :: Recent(t, neighbors[n].plant.id, reference)
        then [neighbors[n]] else []
  }

  /** `r` is the neighbour's energy per capacity, to six places, by a newest row of its in the window. */
  ghost predicate Reports(r: NeighborReading, n: Neighbor, table: seq<Telemetry>, reference: int) {
    && r.plant == n.plant.id && r.distance == n.distance
    && exists t | t in table ::
         && Recent(t, n.plant.id, reference) && r.time == t.time
         && (forall u | u in table && Recent(u, n.plant.id, reference) :: u.time <= t.time)
         && PerCapacity(r.ratio, t.energy, n.plant.capacity)
  }

  /** Twice a million times the difference stays within the capacity: half of the sixth decimal. */
  predicate PerCapacity(ratio: real, energy: real, capacity: real) {
    -capacity <= 2000000.0 * (ratio * capacity - energy) <= capacity
  }

  lemma RatioIsPerCapacity(energy: real, capacity: real)
    requires capacity > 0.0
    ensures PerCapacity(RoundTo(energy / capacity, 1000000.0), energy, capacity)
  {
    var exact := energy / capacity;
    RoundToNearest(exact, 1000000.0);
    assert exact * capacity == energy;
    NearQuotient(exact, RoundTo(exact, 1000000.0), capacity, energy, 2000000.0);
  }

  lemma OneReports(n: Neighbor, table: seq<Telemetry>, reference: int)
    ensures var readings := ReadingOf(n, table, reference);
            if n.plant.capacity > 0.0 && exists t | t in table :: Recent(t, n.plant.id, reference)
            then |readings| == 1 && Reports(readings[0], n, table, reference) else readings == []
  {
    var latest := Latest(table, n.plant.id, reference);
    hide RoundTo, Latest;
    assert forall t :: Recent(t, n.plant.id, reference) <==> InWindow(t, n.plant.id, reference);
    if latest.Some? && n.plant.capacity > 0.0 {
      RatioIsPerCapacity(latest.value.energy, n.plant.capacity);
    }
  }

  /** One reading for each reporting neighbour, in order, and no others. */
  ghost predicate AllReport(readings: seq<NeighborReading>, neighbors: seq<Neighbor>, table: seq<Telemetry>,
                            reference: int)
  {
    var reporting := Reporting(neighbors, table, reference);
    |readings| == |reporting| && forall i | 0 <= i < |readings| :: Reports(readings[i], reporting[i], table, reference)
  }

  lemma {:induction false} ReadingsReport(neighbors: seq<Neighbor>, table: seq<Telemetry>, reference: int)
    ensures AllReport(ReadingsOf(neighbors, table, reference), neighbors, table, reference)
  {
    hide ReadingOf, Reports;
    if neighbors != [] {
      ReadingsReport(neighbors[..|neighbors| - 1], table, reference);
      OneReports(neighbors[|neighbors| - 1], table, reference);
    }
  }

  method GetNeighborReadings(neighbors: seq<Neighbor>, table: seq<Telemetry>, reference: int)
    returns (readings: seq<NeighborReading>)
    ensures readings == ReadingsOf(neighbors, table, reference)
    ensures AllReport(readings, neighbors, table, reference)
  {
    hide RoundTo;
    readings := [];
    for i := 0 to |neighbors|
      invariant readings == ReadingsOf(neighbors[..i], table, reference)
    {
      assert neighbors[..i + 1][..i] == neighbors[..i];
      var neighbor := neighbors[i];
      var latest := Latest(table, neighbor.plant.id, reference);
      if latest.Some? && neighbor.plant.capacity > 0.0 {
        var ratio := latest.value.energy / neighbor.plant.capacity;
        readings := readings
          + [NeighborReading(neighbor.plant.id, neighbor.distance, RoundTo(ratio, 1000000.0), latest.value.time)];
      }
    }
    assert neighbors[..|neighbors|] == neighbors;
    ReadingsReport(neighbors, table, reference);
  }

  // ---------------------------------------------------------------- the decision

  function Ratios(readings: seq<NeighborReading>): seq<real> {
    seq(|readings|, i requires 0 <= i < |readings| => readings[i].ratio)
  }

  function PlantRatio(target: Plant, energy: real): real {
    if target.capacity > 0.0 then energy / target.capacity else 0.0
  }

  /** The plant's own ratio is exact, and zero without capacity. */
  predicate OwnRatio(target: Plant, energy: real, ratio: real) {
    if target.capacity > 0.0 then ratio * target.capacity == energy else ratio == 0.0
  }

  lemma PlantRatioIs(target: Plant, energy: real)
    ensures OwnRatio(target, energy, PlantRatio(target, energy))
  {
  }

  function Deviation(ratio: real, median: real): real {
    if median > 0.0 then (if ratio < median then median - ratio else ratio - median) / median * 100.0
    else if ratio > 0.0 then 100.0
    else 0.0
  }

  /** None is the inconclusive answer. */
  function Decide(ratio: real, ratios: seq<real>): Option<bool> {
    if |ratios| < MIN_NEIGHBORS then None
    else Some(RoundTo(Deviation(ratio, Median(ratios)), 100.0) <= DEVIATION_THRESHOLD_PCT)
  }

  /**
   * The answer on the neighbours' readings: none with fewer than two; otherwise the plant's energy per capacity
   * has to agree with the median of theirs.
   */
  ghost predicate Verdict(pass: Option<bool>, neighbors: seq<Neighbor>, table: seq<Telemetry>, reference: int,
                          target: Plant, energy: real)
  {
    if |Reporting(neighbors, table, reference)| < 2 then pass == None
    else
      exists readings: seq<NeighborReading>, ratio: real ::
        && AllReport(readings, neighbors, table, reference)
        && OwnRatio(target, energy, ratio)
        && pass == Some(Agrees(ratio, Median(seq(|readings|, i requires 0 <= i < |readings| => readings[i].ratio))))
  }

  lemma VerdictIs(neighbors: seq<Neighbor>, table: seq<Telemetry>, reference: int, target: Plant, energy: real)
    ensures var pass := Decide(PlantRatio(target, energy), Ratios(ReadingsOf(neighbors, table, reference)));
            Verdict(pass, neighbors, table, reference, target, energy)
  {
    hide Median, ReadingsOf, Decide, Reports, Agrees;
    var readings, ratio := ReadingsOf(neighbors, table, reference), PlantRatio(target, energy);
    ReadingsReport(neighbors, table, reference);
    PlantRatioIs(target, energy);
    DecisionExact(ratio, Ratios(readings));
    assert Ratios(readings) == seq(|readings|, i requires 0 <= i < |readings| => readings[i].ratio);
  }

  method ValidateConsensus(plants: seq<Plant>, target: Plant, distance: Plant -> real, table: seq<Telemetry>,
                           energy: real, reference: int)
    returns (pass: Option<bool>)
    ensures pass == Decide(PlantRatio(target, energy),
                           Ratios(ReadingsOf(SortBy(Candidates(plants, target, distance), Nearer), table, reference)))
    ensures Verdict(pass, SortBy(Candidates(plants, target, distance), Nearer), table, reference, target, energy)
  {
    hide SortBy, Median, RoundTo, Candidates, ReadingsOf;
    var neighbors := FindNeighbors(plants, target, distance);
    var readings := GetNeighborReadings(neighbors, table, reference);
    VerdictIs(neighbors, table, reference, target, energy);
    if |readings| < MIN_NEIGHBORS {
      return None;
    }
    var ratio := PlantRatio(target, energy);
    var median := Median(Ratios(readings));
    var deviation;
    if median > 0.0 {
      deviation := (if ratio < median then median - ratio else ratio - median) / median * 100.0;
    } else if ratio > 0.0 {
      deviation := 100.0;
    } else {
      deviation := 0.0;
    }
    return Some(RoundTo(deviation, 100.0) <= DEVIATION_THRESHOLD_PCT);
  }

  /** Half-even rounding to two places admits deviations up to 30.005 per cent, that bound included. */
  predicate Agrees(ratio: real, median: real) {
    if median > 0.0 then 0.69995 * median <= ratio <= 1.30005 * median else ratio <= 0.0
  }

  lemma QuotientBound(x: real, m: real, c: real)
    requires m > 0.0
    ensures x / m * 100.0 * 100.0 <= c * 10000.0 <==> x <= c * m
  {
    var q := x / m;
    assert q * m == x;
    if q <= c {
      assert (c - q) * m >= 0.0;
    } else {
      assert (q - c) * m > 0.0;
    }
  }

  /** The decision, free of division and rounding. */
  lemma DecisionExact(ratio: real, ratios: seq<real>)
    ensures Decide(ratio, ratios).None? <==> |ratios| < 2
    ensures |ratios| >= 2 ==> Decide(ratio, ratios).value == Agrees(ratio, Median(ratios))
  {
    var m := Median(ratios);
    var d := Deviation(ratio, m);
    RoundsUpToEven(d * 100.0, 3000);
    assert RoundTo(d, 100.0) <= DEVIATION_THRESHOLD_PCT <==> RoundHalfEven(d * 100.0) <= 3000;
    if m > 0.0 {
      QuotientBound(if ratio < m then m - ratio else ratio - m, m, 0.30005);
    }
  }

  /** A plant 30.005 per cent above its two neighbours passes, one 30.006 per cent above them does not. */
  lemma RoundingLetsMoreThrough()
    ensures Decide(1.30005, [1.0, 1.0]) == Some(true)
    ensures Decide(1.30006, [1.0, 1.0]) == Some(false)
  {
    var ones := [1.0, 1.0];
    CountAll(ones, 1.0, 1.0);
    MedianIsRobust(ones, 1.0, 1.0);
    hide Median, Decide;
    DecisionExact(1.30005, ones);
    DecisionExact(1.30006, ones);
  }

  /** The answer depends on the neighbours' ratios as a multiset. */
  lemma DecisionIgnoresOrder(ratio: real, a: seq<real>, b: seq<real>)
    requires multiset(a) == multiset(b)
    ensures Decide(ratio, a) == Decide(ratio, b)
  {
    assert |a| == |multiset(a)| == |multiset(b)| == |b|;
    MedianOfPermutation(a, b);
  }

  /**
   * With a majority of neighbours in [lo, hi], a plant that agrees with both ends passes and a plant
   * that disagrees with the whole range fails, whatever the minority reports.
   */
  lemma MinorityCannotFlip(ratio: real, ratios: seq<real>, lo: real, hi: real)
    requires |ratios| >= MIN_NEIGHBORS && 0.0 < lo && 2 * CountIn(ratios, lo, hi) > |ratios|
    ensures Agrees(ratio, lo) && Agrees(ratio, hi) ==> Decide(ratio, ratios) == Some(true)
    ensures ratio < 0.69995 * lo || ratio > 1.30005 * hi ==> Decide(ratio, ratios) == Some(false)
  {
    MedianIsRobust(ratios, lo, hi);
    DecisionExact(ratio, ratios);
  }
}
