/** Whole runs of the custody ledger, and what holds in every state they reach. */
module CustodyRuns {
  import opened Collections
  import opened Rounding
  import opened MockChain
  import opened Confidence
  import opened CustodyModel
  import opened CustodyInvariant
  import opened CustodySteps
  import opened TradeSteps
  import opened BurnAllocation
  import opened BurnOrder
  import opened BurnProgress

  /**
   * `commit` false is a database transaction that rolls back after its last statement; the chain
   * keeps what the call did to it. `MintRow` is the worker reaching a row of its snapshot, however
   * long ago the snapshot was taken.
   */
  datatype Op =
    | RegisterUser(user: UserId)
    | IngestReading(reading: Reading)
    | IssueCertificate(validation: nat, hash: Hash, cid: string, anchored: bool, commit: bool)
    | RegisterCertificate(hec: HecId, commit: bool)
    | MintRow(hec: HecId, commit: bool)
    | OpenLot(requested: seq<HecId>, hash: Hash, manifest: string, price: Option<int>, commit: bool)
    | BuyHecs(user: UserId, lot: nat, quantity: int)
    | BurnHecs(user: UserId, quantity: int, reason: string, hash: Hash, cid: string, commit: bool)

  /** `clean` records that no burn so far was rolled back after the chain had acted. */
  datatype World = World(db: Db, chain: Chain, clean: bool)

  const START := World(EMPTY_DB, GENESIS, true)

  function Finish(w: World, a: Attempt, commit: bool): World {
    World(if a.Success? && commit then a.db else w.db, a.chain, w.clean)
  }

  function Apply(w: World, op: Op): World {
    match op
    case RegisterUser(u) => w.(db := AddUser(w.db, u))
    case IngestReading(r) => w.(db := Ingest(w.db, r))
    case IssueCertificate(v, hash, cid, anchored, commit) =>
      Finish(w, IssueHec(w.db, w.chain, v, hash, cid, anchored), commit)
    case RegisterCertificate(h, commit) => Finish(w, RegisterHec(w.db, w.chain, h), commit)
    case MintRow(h, commit) => Finish(w, AnchorRow(w.db, w.chain, h), commit)
    case OpenLot(ids, hash, manifest, price, commit) =>
      Finish(w, CreateLot(w.db, w.chain, ids, hash, manifest, price), commit)
    case BuyHecs(u, lot, q) =>
      var r := Buy(w.db, u, lot, q);
      if r.Ok? then w.(db := r.value) else w
    case BurnHecs(u, q, reason, hash, cid, commit) =>
      var a := ExecuteBurn(w.db, w.chain, u, q, reason, hash, cid);
      Finish(w, a, commit).(clean := w.clean && ((a.Success? && commit) || a.chain == w.chain))
  }

  function Run(ops: seq<Op>): World {
    if ops == [] then START else Apply(Run(ops[..|ops| - 1]), ops[|ops| - 1])
  }

  lemma ApplyKeepsInvariant(w: World, op: Op)
    requires Inv(w.db, w.chain, NO_BURN, w.clean)
    ensures var w' := Apply(w, op); Inv(w'.db, w'.chain, NO_BURN, w'.clean)
  {
    hide Inv, IssueHec, AnchorRow, CreateLot, Buy, ExecuteBurn;
    match op
    case RegisterUser(u) => AddUserKeepsInvariant(w.db, w.chain, u, w.clean);
    case IngestReading(r) => IngestKeepsInvariant(w.db, w.chain, r, w.clean);
    case IssueCertificate(v, hash, cid, anchored, _) =>
      IssueKeepsInvariant(w.db, w.chain, v, hash, cid, anchored, w.clean);
    case RegisterCertificate(h, _) => AnchorKeepsInvariant(w.db, w.chain, h, w.clean);
    case MintRow(h, _) => AnchorKeepsInvariant(w.db, w.chain, h, w.clean);
    case OpenLot(ids, hash, manifest, price, _) =>
      CreateLotKeepsInvariant(w.db, w.chain, ids, hash, manifest, price, w.clean);
    case BuyHecs(u, lot, q) => BuyKeepsInvariant(w.db, w.chain, u, lot, q, w.clean);
    case BurnHecs(u, q, reason, hash, cid, _) =>
      BurnKeepsInvariant(w.db, w.chain, u, q, reason, hash, cid, w.clean);
  }

  /** Every reachable state satisfies the ledger invariant, with exact backing while no burn was aborted. */
  lemma {:induction false} ReachableInvariant(ops: seq<Op>)
    ensures Inv(Run(ops).db, Run(ops).chain, NO_BURN, Run(ops).clean)
  {
    if ops == [] {
      InvInit();
    } else {
      ReachableInvariant(ops[..|ops| - 1]);
      ApplyKeepsInvariant(Run(ops[..|ops| - 1]), ops[|ops| - 1]);
    }
  }

  // ---------------------------------------------------------------- energy

  /** No energy is created or lost: lotted = custodied + still held + certified as retired, exactly. */
  lemma EnergyConservation(ops: seq<Op>)
    ensures var db := Run(ops).db;
            Sum(db.hecs, LottedEnergy())
              == Sum(db.hecs, CustodiedEnergy()) + Sum(db.positions, EnergyLeft()) + Sum(db.burns, CertifiedEnergy())
  {
    ReachableInvariant(ops);
  }

  /** A position's energy against its exact pro-rata share, and against what was drawn from it. */
  ghost predicate NearProRata(db: Db, k: nat)
    requires k < |db.positions|
  {
    var p := db.positions[k];
    var m := Sum(db.events, DrawsOf(k));
    && 2 * Abs(p.energyAvail * p.quantity - p.energyTotal * p.avail) <= m * p.quantity
    && Sum(db.events, EnergyDrawn(k)) + p.energyAvail == p.energyTotal
    && (p.avail == 0 ==> p.energyAvail == 0 && Sum(db.events, EnergyDrawn(k)) == p.energyTotal)
  }

  /**
   * Pro-rata drift: after m draws every position is within m/2 units (of 0.0001 kWh) of its exact
   * share; once exhausted, its draws add up to its whole energy, however it was split.
   */
  lemma ProRataDrift(ops: seq<Op>)
    ensures forall k | 0 <= k < |Run(ops).db.positions| :: NearProRata(Run(ops).db, k)
  {
    hide Run, NearProRata, PositionsOk;
    ReachableInvariant(ops);
    PositionsNearProRata(Run(ops).db);
  }

  lemma PositionsNearProRata(db: Db)
    requires PositionsOk(db)
    ensures forall k | 0 <= k < |db.positions| :: NearProRata(db, k)
  {
    hide Sum;
    forall k | 0 <= k < |db.positions| ensures NearProRata(db, k) {
      assert PositionOk(db, k);
    }
  }

  // ---------------------------------------------------------------- certificates

  lemma {:induction false} PositiveTerm<T>(s: seq<T>, f: T -> int) returns (k: nat)
    requires Sum(s, f) > 0
    ensures k < |s| && f(s[k]) > 0
  {
    k := |s| - 1;
    if f(s[k]) <= 0 {
      k := PositiveTerm(s[..|s| - 1], f);
    }
  }

  ghost predicate InExactlyOnePosition(db: Db, h: HecId) {
    exists k | 0 <= k < |db.positions| ::
      && multiset(db.positions[k].ids)[h] == 1
      && forall j | 0 <= j < |db.positions| && j != k :: h !in db.positions[j].ids
  }

  ghost predicate InExactlyOneEvent(db: Db, h: HecId) {
    exists k | 0 <= k < |db.events| ::
      && multiset(db.events[k].ids)[h] == 1
      && forall j | 0 <= j < |db.events| && j != k :: h !in db.events[j].ids
  }

  ghost predicate InNoPosition(db: Db, h: HecId) {
    forall k | 0 <= k < |db.positions| :: h !in db.positions[k].ids
  }

  ghost predicate InNoEvent(db: Db, h: HecId) {
    forall k | 0 <= k < |db.events| :: h !in db.events[k].ids
  }

  lemma HeldOnce(db: Db, h: HecId)
    ensures Sum(db.positions, Held(h)) == 1 ==> InExactlyOnePosition(db, h)
    ensures Sum(db.positions, Held(h)) == 0 ==> InNoPosition(db, h)
  {
    if Sum(db.positions, Held(h)) == 1 {
      var k := PositiveTerm(db.positions, Held(h));
      SumAtLeast(db.positions, k, Held(h));
      forall j | 0 <= j < |db.positions| && j != k ensures h !in db.positions[j].ids {
        SumAtLeastTwo(db.positions, if j < k then j else k, if j < k then k else j, Held(h));
      }
    } else if Sum(db.positions, Held(h)) == 0 {
      forall k | 0 <= k < |db.positions| ensures h !in db.positions[k].ids {
        SumAtLeast(db.positions, k, Held(h));
      }
    }
  }

  lemma BurnedOnce(db: Db, h: HecId)
    ensures Sum(db.events, Burned(h)) == 1 ==> InExactlyOneEvent(db, h)
    ensures Sum(db.events, Burned(h)) == 0 ==> InNoEvent(db, h)
  {
    if Sum(db.events, Burned(h)) == 1 {
      var k := PositiveTerm(db.events, Burned(h));
      SumAtLeast(db.events, k, Burned(h));
      forall j | 0 <= j < |db.events| && j != k ensures h !in db.events[j].ids {
        SumAtLeastTwo(db.events, if j < k then j else k, if j < k then k else j, Burned(h));
      }
    } else if Sum(db.events, Burned(h)) == 0 {
      forall k | 0 <= k < |db.events| ensures h !in db.events[k].ids {
        SumAtLeast(db.events, k, Burned(h));
      }
    }
  }

  /** Where a certificate is listed, by its status. */
  ghost predicate ListedByStatus(db: Db, h: HecId)
    requires h < |db.hecs|
  {
    var status := db.hecs[h].status;
    && (db.hecs[h].lot.Some? <==> status == Custodied || status == Allocated || status == Retired)
    && (if status == Allocated then InExactlyOnePosition(db, h) else InNoPosition(db, h))
    && (if status == Retired then InExactlyOneEvent(db, h) else InNoEvent(db, h))
  }

  /**
   * Partition: a certificate in a lot is custodied and listed nowhere, or allocated and listed once,
   * in one position, or retired and listed once, in one retirement event. Others are listed nowhere.
   */
  lemma Partition(ops: seq<Op>)
    ensures forall h | 0 <= h < |Run(ops).db.hecs| :: ListedByStatus(Run(ops).db, h)
  {
    hide Run, ListedByStatus, CertificatesOk, OccurrencesOk;
    ReachableInvariant(ops);
    CertificatesPartitioned(Run(ops).db, Run(ops).chain);
  }

  lemma CertificatesPartitioned(db: Db, chain: Chain)
    requires CertificatesOk(db, chain) && OccurrencesOk(db)
    ensures forall h | 0 <= h < |db.hecs| :: ListedByStatus(db, h)
  {
    hide InExactlyOnePosition, InExactlyOneEvent, InNoPosition, InNoEvent;
    forall h | 0 <= h < |db.hecs| ensures ListedByStatus(db, h) {
      assert OccurrenceOk(db, h);
      assert CertificateOk(db, chain, h);
      HeldOnce(db, h);
      BurnedOnce(db, h);
    }
  }

  /** No certificate is retired twice: not within one event, and not by two. */
  ghost predicate NothingTwice(events: seq<RetirementEvent>) {
    forall i, j | 0 <= i < j < |events| :: NoDup(events[i].ids + events[j].ids)
  }

  lemma NoDoubleRetirement(ops: seq<Op>)
    ensures NothingTwice(Run(ops).db.events)
  {
    hide Run, NothingTwice, OccurrencesOk;
    ReachableInvariant(ops);
    EventsDisjoint(Run(ops).db);
  }

  lemma EventsDisjoint(db: Db)
    requires OccurrencesOk(db)
    ensures NothingTwice(db.events)
  {
    forall i, j | 0 <= i < j < |db.events| ensures NoDup(db.events[i].ids + db.events[j].ids) {
      TwoEventsDisjoint(db, i, j);
    }
  }

  lemma TwoEventsDisjoint(db: Db, i: nat, j: nat)
    requires OccurrencesOk(db) && i < j < |db.events|
    ensures NoDup(db.events[i].ids + db.events[j].ids)
  {
    var both := db.events[i].ids + db.events[j].ids;
    forall h ensures multiset(both)[h] <= 1 {
      if h in both {
        assert OccurrenceOk(db, h) by {
          assert h in db.events[i].ids || h in db.events[j].ids;
        }
        SumAtLeastTwo(db.events, i, j, Burned(h));
      }
    }
    CountedOnce(both);
  }

  /** A purchase's ids are, in order, those burned from its position so far and then those still in it. */
  ghost predicate IdsAccountedFor(db: Db, k: nat)
    requires k < |db.transactions| == |db.positions|
  {
    && db.transactions[k].ids == IdsDrawn(db.events, k) + db.positions[k].ids
    && db.positions[k].retired == |IdsDrawn(db.events, k)|
    && (forall i | i in db.transactions[k].ids :: i < |db.hecs| && db.hecs[i].lot == Some(db.transactions[k].lot))
  }

  lemma PurchaseIdsAccountedFor(ops: seq<Op>)
    ensures |Run(ops).db.positions| == |Run(ops).db.transactions|
    ensures forall k | 0 <= k < |Run(ops).db.transactions| :: IdsAccountedFor(Run(ops).db, k)
  {
    hide Run;
    ReachableInvariant(ops);
    forall k | 0 <= k < |Run(ops).db.transactions| ensures IdsAccountedFor(Run(ops).db, k) {
      assert PositionOk(Run(ops).db, k);
    }
  }

  /** What a certificate rests on: one approved reading of its own, that no layer objected to. */
  ghost predicate WellFounded(db: Db, h: HecId)
    requires h < |db.hecs|
  {
    var hec := db.hecs[h];
    && hec.validation < |db.validations|
    && NoLayerFailed(db.validations[hec.validation].reading)
    && hec.energy == db.validations[hec.validation].reading.energy
    && hec.energy <= db.validations[hec.validation].reading.theoreticalMax
    && hec.energy <= db.validations[hec.validation].reading.satelliteMax
    && (forall g | 0 <= g < |db.hecs| && db.hecs[g].validation == hec.validation :: g == h)
  }

  lemma CertificationGate(ops: seq<Op>)
    ensures forall h | 0 <= h < |Run(ops).db.hecs| :: WellFounded(Run(ops).db, h)
  {
    hide Run, Validate;
    ReachableInvariant(ops);
    var db := Run(ops).db;
    forall h | 0 <= h < |db.hecs| ensures WellFounded(db, h) {
      assert CertificateOk(db, Run(ops).chain, h);
      ApprovedExactlyWhenNoLayerFailed(db.validations[db.hecs[h].validation].reading);
    }
  }

  /** Full backing: the certificate's digest is on chain, under its content id. */
  ghost predicate Backing(w: World, h: HecId)
    requires h < |w.db.hecs|
  {
    var hec := w.db.hecs[h];
    hec.tx.Some? && hec.cid.Some? && Lookup(w.chain, hec.hash) == hec.cid
  }

  lemma LottedIsAnchored(ops: seq<Op>)
    ensures forall h | 0 <= h < |Run(ops).db.hecs| && Run(ops).db.hecs[h].lot.Some? :: Backing(Run(ops), h)
  {
    hide Run;
    ReachableInvariant(ops);
    var w := Run(ops);
    forall h | 0 <= h < |w.db.hecs| && w.db.hecs[h].lot.Some? ensures Backing(w, h) {
      assert CertificateOk(w.db, w.chain, h);
    }
  }

  // ---------------------------------------------------------------- status order

  function Rank(s: HecStatus): nat {
    match s
    case Pending => 0
    case Registered => 1
    case Minted => 1
    case Custodied => 2
    case Allocated => 3
    case Retired => 4
  }

  ghost predicate NeverBackwards(a: seq<Hec>, b: seq<Hec>) {
    && |a| <= |b|
    && forall h | 0 <= h < |a| :: Rank(a[h].status) <= Rank(b[h].status)
                                  && (a[h].lot.Some? ==> b[h].lot == a[h].lot)
                                  && b[h].energy == a[h].energy && b[h].validation == a[h].validation
  }

  lemma ApplyNeverBackwards(w: World, op: Op)
    requires Inv(w.db, w.chain, NO_BURN, w.clean)
    ensures NeverBackwards(w.db.hecs, Apply(w, op).db.hecs)
  {
    hide Inv, PositionsOk, LotsOk, OccurrencesOk, BackingOk, WalletsOk, ChainOk, CertificatesOk,
         ExecuteBurn, AnchorRow, Buy, NeverBackwards;
    InvParts(w.db, w.chain, NO_BURN, w.clean);
    Unmoved(w.db.hecs);
    match op
    case RegisterUser(_) =>
    case IngestReading(_) =>
    case IssueCertificate(v, hash, cid, anchored, _) => IssueNeverBackwards(w, v, hash, cid, anchored);
    case RegisterCertificate(h, _) => AnchorNeverBackwards(w, h);
    case MintRow(h, _) => AnchorNeverBackwards(w, h);
    case OpenLot(ids, hash, manifest, price, _) => LotNeverBackwards(w, ids, hash, manifest, price);
    case BuyHecs(u, lot, q) => BuyNeverBackwards(w, u, lot, q);
    case BurnHecs(u, q, reason, hash, cid, _) => BurnNeverBackwards(w, u, q, reason, hash, cid);
  }

  lemma Unmoved(hecs: seq<Hec>)
    ensures NeverBackwards(hecs, hecs)
  {
  }

  lemma IssueNeverBackwards(w: World, v: nat, hash: Hash, cid: string, anchored: bool)
    ensures var a := IssueHec(w.db, w.chain, v, hash, cid, anchored);
            a.Success? ==> NeverBackwards(w.db.hecs, a.db.hecs)
  {
  }

  lemma AnchorNeverBackwards(w: World, h: HecId)
    requires CertificatesOk(w.db, w.chain)
    ensures var a := AnchorRow(w.db, w.chain, h);
            a.Success? ==> NeverBackwards(w.db.hecs, a.db.hecs)
  {
    if AnchorRow(w.db, w.chain, h).Success? {
      AnchorRowOnlyPending(w.db, w.chain, h);
    }
  }

  lemma LotNeverBackwards(w: World, ids: seq<HecId>, hash: Hash, manifest: string, price: Option<int>)
    requires CertificatesOk(w.db, w.chain)
    ensures var a := CreateLot(w.db, w.chain, ids, hash, manifest, price);
            a.Success? ==> NeverBackwards(w.db.hecs, a.db.hecs)
  {
    hide Dedup, EarliestStart, LatestEnd, EnergyOf;
  }

  lemma BuyNeverBackwards(w: World, u: UserId, lot: nat, q: int)
    ensures var r := Buy(w.db, u, lot, q);
            r.Ok? ==> NeverBackwards(w.db.hecs, r.value.hecs)
  {
    hide EnergyOf, Price;
    if Buy(w.db, u, lot, q).Ok? {
      BuyIsSettle(w.db, u, lot, q);
    }
  }

  lemma BurnNeverBackwards(w: World, u: UserId, q: int, reason: string, hash: Hash, cid: string)
    requires PositionsOk(w.db)
    ensures var a := ExecuteBurn(w.db, w.chain, u, q, reason, hash, cid);
            a.Success? ==> NeverBackwards(w.db.hecs, a.db.hecs)
  {
    if ExecuteBurn(w.db, w.chain, u, q, reason, hash, cid).Success? {
      PositionsListFull(w.db);
      BurnAllocates(w.db, w.chain, u, q, reason, hash, cid);
    }
  }

  lemma BackwardsNeverAccumulates(a: seq<Hec>, b: seq<Hec>, c: seq<Hec>)
    requires NeverBackwards(a, b) && NeverBackwards(b, c)
    ensures NeverBackwards(a, c)
  {
  }

  lemma RunAppend(ops: seq<Op>, op: Op)
    ensures Run(ops + [op]) == Apply(Run(ops), op)
  {
    hide Apply;
    assert (ops + [op])[..|ops|] == ops;
  }

  /** Over any continuation of any run, interleaved in any way, no certificate's status moves backwards. */
  lemma {:induction false} StatusNeverBackwards(ops: seq<Op>, more: seq<Op>)
    ensures NeverBackwards(Run(ops).db.hecs, Run(ops + more).db.hecs)
  {
    hide Run, Apply, Inv, NeverBackwards;
    if more == [] {
      assert ops + more == ops;
      Unmoved(Run(ops).db.hecs);
    } else {
      var front, last := more[..|more| - 1], more[|more| - 1];
      assert ops + more == ops + front + [last];
      StatusNeverBackwards(ops, front);
      RunAppend(ops + front, last);
      ReachableInvariant(ops + front);
      ApplyNeverBackwards(Run(ops + front), last);
      BackwardsNeverAccumulates(Run(ops).db.hecs, Run(ops + front).db.hecs, Run(ops + more).db.hecs);
    }
  }

  // ---------------------------------------------------------------- counters and money

  /** Every redundant counter of wallets, positions and lots agrees with the rows it summarises. */
  ghost predicate Reconciled(db: Db) {
    && (forall u | u in db.wallets ::
          && db.wallets[u].hec == Sum(db.positions, AvailOf(u))
          && db.wallets[u].energy == Sum(db.positions, EnergyHeld(u)))
    && (forall k | 0 <= k < |db.positions| ::
          var p := db.positions[k];
          && p.quantity == p.avail + p.retired && |p.ids| == p.avail
          && (p.status == Exhausted <==> p.avail == 0))
    && (forall l | 0 <= l < |db.lots| ::
          && db.lots[l].avail == Sum(db.hecs, CustodiedIn(l))
          && (db.lots[l].status == Open <==> db.lots[l].avail > 0)
          && Sum(db.positions, QuantityIn(l)) + db.lots[l].avail == db.lots[l].total)
  }

  lemma CountersReconcile(ops: seq<Op>)
    ensures Reconciled(Run(ops).db)
  {
    hide Run, Reconciled, WalletsOk, PositionsOk, LotsOk;
    ReachableInvariant(ops);
    CountersAgree(Run(ops).db, Run(ops).chain);
  }

  lemma CountersAgree(db: Db, chain: Chain)
    requires WalletsOk(db, NO_BURN) && PositionsOk(db) && LotsOk(db, chain)
    ensures Reconciled(db)
  {
    hide Sum, Abs, DrawsOk;
    forall u | u in db.wallets
      ensures db.wallets[u].hec == Sum(db.positions, AvailOf(u))
      ensures db.wallets[u].energy == Sum(db.positions, EnergyHeld(u))
    {
      assert WalletOk(db, NO_BURN, u);
    }
    forall k | 0 <= k < |db.positions|
      ensures var p := db.positions[k];
              p.quantity == p.avail + p.retired && |p.ids| == p.avail && (p.status == Exhausted <==> p.avail == 0)
    {
      assert PositionOk(db, k);
    }
    forall l | 0 <= l < |db.lots|
      ensures db.lots[l].avail == Sum(db.hecs, CustodiedIn(l))
      ensures db.lots[l].status == Open <==> db.lots[l].avail > 0
      ensures Sum(db.positions, QuantityIn(l)) + db.lots[l].avail == db.lots[l].total
    {
      assert LotOk(db, chain, l);
    }
  }

  /** Each burn certificate is the sum of its own events. */
  lemma BurnCertificatesAddUp(ops: seq<Op>)
    ensures forall b | 0 <= b < |Run(ops).db.burns| :: BurnOk(Run(ops).db, b)
  {
    hide Run;
    ReachableInvariant(ops);
  }

  /** Wallet money only goes into purchases, each priced within half a centavo, and never runs out below zero. */
  lemma PurchasesArePaid(ops: seq<Op>, u: UserId)
    requires u in Run(ops).db.wallets
    ensures var db := Run(ops).db;
            && db.wallets[u].brl + Sum(db.transactions, PaidBy(u)) == 1000000
            && db.wallets[u].brl >= 0
            && (forall k | 0 <= k < |db.transactions| ::
                  var t := db.transactions[k];
                  && t.energy == EnergyOf(db.hecs, t.ids)
                  && PriceOk(t))
  {
    hide Run, Sum, Inv, PositionOk;
    var w := Run(ops);
    ReachableInvariant(ops);
    InvParts(w.db, w.chain, NO_BURN, w.clean);
    assert WalletOk(w.db, NO_BURN, u);
    forall k | 0 <= k < |w.db.transactions|
      ensures w.db.transactions[k].energy == EnergyOf(w.db.hecs, w.db.transactions[k].ids)
      ensures PriceOk(w.db.transactions[k])
    {
      PositionPrices(w.db, k);
    }
  }

  /** The price is within half a centavo of unit price times energy. */
  ghost predicate PriceOk(t: Transaction) {
    2 * Abs(t.price * 1000000 - t.unitPrice * t.energy) <= 1000000
  }

  lemma PositionPrices(db: Db, k: nat)
    requires k < |db.positions| == |db.transactions| && PositionOk(db, k)
    ensures db.transactions[k].energy == EnergyOf(db.hecs, db.transactions[k].ids)
    ensures PriceOk(db.transactions[k])
  {
    hide DrawsOk, Sum;
    RoundHalfUpNearest(db.transactions[k].unitPrice * db.transactions[k].energy, PRICE_SCALE);
  }

  // ---------------------------------------------------------------- chain and ledger

  /** The chain holds a lot's units, and has retired what the ledger says, or more after an abort. */
  ghost predicate LotBacked(w: World, l: nat)
    requires l < |w.db.lots|
  {
    var id := w.db.lots[l].batch;
    && id in w.chain.batches
    && w.chain.batches[id].totalUnits == 1000 * w.db.lots[l].total
    && w.chain.batches[id].retiredUnits == RecordedUnits(w.chain.retirements, w.chain.nextRetirement, id)
    && 1000 * Sum(w.db.positions, RetiredIn(l))
       <= w.chain.batches[id].retiredUnits <= w.chain.batches[id].totalUnits
    && (w.clean ==> w.chain.batches[id].retiredUnits == 1000 * Sum(w.db.positions, RetiredIn(l)))
    && (forall m | 0 <= m < |w.db.lots| && w.db.lots[m].batch == id :: m == l)
  }

  lemma ChainAndLedgerAgree(ops: seq<Op>)
    ensures forall l | 0 <= l < |Run(ops).db.lots| :: LotBacked(Run(ops), l)
  {
    hide Run, LotBacked, ChainOk, LotsOk, BackingOk;
    ReachableInvariant(ops);
    LotsBacked(Run(ops));
  }

  lemma LotsBacked(w: World)
    requires ChainOk(w.chain) && LotsOk(w.db, w.chain) && BackingOk(w.db, w.chain, w.clean)
    ensures forall l | 0 <= l < |w.db.lots| :: LotBacked(w, l)
  {
    hide Sum, RecordedUnits;
    forall l | 0 <= l < |w.db.lots| ensures LotBacked(w, l) {
      assert LotOk(w.db, w.chain, l);
    }
  }

  /** A retirement event has its own on-chain record, for its batch and for a thousand units a certificate. */
  ghost predicate Recorded(w: World, i: nat)
    requires i < |w.db.events|
  {
    var e := w.db.events[i];
    && e.retirement in w.chain.retirements
    && w.chain.retirements[e.retirement].batch == e.batch
    && w.chain.retirements[e.retirement].amount == 1000 * |e.ids|
    && (forall j | 0 <= j < |w.db.events| && w.db.events[j].retirement == e.retirement :: j == i)
  }

  lemma EventsHaveRecords(ops: seq<Op>)
    ensures forall i | 0 <= i < |Run(ops).db.events| :: Recorded(Run(ops), i)
  {
    hide Run;
    ReachableInvariant(ops);
    var w := Run(ops);
    forall i | 0 <= i < |w.db.events| ensures Recorded(w, i) {
      assert EventOk(w.db, w.chain, w.db.events[i]);
    }
  }

  ghost predicate Affordable(db: Db, u: UserId, lot: nat, q: int) {
    && u in db.wallets && lot < |db.lots|
    && 0 < q <= db.lots[lot].avail
    && db.lots[lot].price.Some? && db.lots[lot].price.value > 0
    && Price(db.lots[lot].price.value, EnergyOf(db.hecs, FirstCustodied(db.hecs, lot, q))) <= db.wallets[u].brl
  }

  /** An open lot can always deliver what it offers: the purchase is decided by the buyer and the money alone. */
  lemma PurchaseSucceedsExactly(ops: seq<Op>, u: UserId, lot: nat, q: int)
    ensures Buy(Run(ops).db, u, lot, q).Ok? <==> Affordable(Run(ops).db, u, lot, q)
  {
    hide Run, Buy, Affordable;
    ReachableInvariant(ops);
    AllUsersActive(ops);
    PurchaseDecided(Run(ops).db, Run(ops).chain, u, lot, q);
  }

  lemma PurchaseDecided(db: Db, chain: Chain, u: UserId, lot: nat, q: int)
    requires LotsOk(db, chain) && ChainOk(chain) && db.users.Keys == db.wallets.Keys
    requires forall v | v in db.users :: db.users[v]
    ensures Buy(db, u, lot, q).Ok? <==> Affordable(db, u, lot, q)
  {
    hide EnergyOf, Price, Sum, FirstCustodied;
    if lot < |db.lots| {
      assert LotOk(db, chain, lot);
      if q > 0 { FirstCustodiedOk(db.hecs, lot, q); }
    }
  }

  lemma {:induction false} AllUsersActive(ops: seq<Op>)
    ensures forall u | u in Run(ops).db.users :: Run(ops).db.users[u]
  {
    hide IssueHec, RegisterHec, AnchorRow, CreateLot, Buy, ExecuteBurn;
    if ops != [] {
      var w := Run(ops[..|ops| - 1]);
      AllUsersActive(ops[..|ops| - 1]);
      UsersKept(w, ops[|ops| - 1]);
    }
  }

  lemma UsersKept(w: World, op: Op)
    ensures op.RegisterUser? || Apply(w, op).db.users == w.db.users
  {
    if op.BurnHecs? && BurnRefusal(w.db, op.user, op.quantity, op.reason).None? {
      LoopKeepsUsers(BurnState(w.db, w.chain, op.quantity, 0, []), Considered(w.db.positions, op.user));
    }
  }

  lemma {:induction false} LoopKeepsUsers(st: BurnState, ks: seq<nat>)
    ensures BurnLoop(st, ks).Done? ==> BurnLoop(st, ks).st.db.users == st.db.users
    decreases |ks|
  {
    if ks != [] && st.remaining > 0 && BurnStep(st, ks[0]).Done? {
      LoopKeepsUsers(BurnStep(st, ks[0]).st, ks[1..]);
    }
  }

  /**
   * Burn progress. In any reachable state a burn is committed exactly when the balance covers it, the
   * chain still has the units and the certificate can be registered; while no burn was aborted, the
   * units are always there. The loop's other guards never fire.
   */
  lemma BurnGoesThroughExactly(ops: seq<Op>, u: UserId, q: int, reason: string, hash: Hash, cid: string)
    ensures var w := Run(ops);
            var a := ExecuteBurn(w.db, w.chain, u, q, reason, hash, cid);
            var funded := && q > 0 && reason in {"offset", "retirement", "voluntary"}
                          && u in w.db.wallets && q <= w.db.wallets[u].hec;
            var certified := hash != 0 && cid != "" && hash !in w.chain.registry;
            && (a.Success? <==> funded && certified && UnitsSuffice(w.db, w.chain, Considered(w.db.positions, u), q))
            && (a.Failed? ==> a.error !in {MissingBatch, TooFewSourceIds, InsufficientInventory, LeftoverRemaining})
            && (w.clean && funded ==> UnitsSuffice(w.db, w.chain, Considered(w.db.positions, u), q))
  {
    hide Inv, ExecuteBurn, Considered, UnitsSuffice;
    var w := Run(ops);
    ReachableInvariant(ops);
    BurnSucceedsExactly(w.db, w.chain, u, q, reason, hash, cid, w.clean);
    if w.clean && q > 0 {
      CleanUnitsSuffice(w.db, w.chain, u, q);
    }
  }
}
