/** What every reachable state of the custody ledger satisfies, table by table. */
module CustodyInvariant {
  import opened Collections
  import opened Rounding
  import opened MockChain
  import opened Confidence
  import opened CustodyModel

  // ---------------------------------------------------------------- measures

  function CustodiedIn(lot: nat): Hec -> int { (h: Hec) => if InCustody(h, lot) then 1 else 0 }

  function MemberOf(lot: nat): Hec -> int { (h: Hec) => if h.lot == Some(lot) then 1 else 0 }

  function EnergyIn(lot: nat): Hec -> int { (h: Hec) => if h.lot == Some(lot) then h.energy else 0 }

  function LottedEnergy(): Hec -> int { (h: Hec) => if h.lot.Some? then h.energy else 0 }

  function CustodiedEnergy(): Hec -> int { (h: Hec) => if h.status == Custodied then h.energy else 0 }

  function AvailOf(user: UserId): Position -> int { (p: Position) => if p.user == user then p.avail else 0 }

  function EnergyHeld(user: UserId): Position -> int {
    (p: Position) => if p.user == user then p.energyAvail else 0
  }

  function EnergyLeft(): Position -> int { (p: Position) => p.energyAvail }

  function QuantityIn(lot: nat): Position -> int { (p: Position) => if p.lot == lot then p.quantity else 0 }

  function RetiredIn(lot: nat): Position -> int { (p: Position) => if p.lot == lot then p.retired else 0 }

  /** How often certificate `h` is listed in a position, and in a retirement event. */
  function Held(h: HecId): Position -> int { (p: Position) => multiset(p.ids)[h] }

  function Burned(h: HecId): RetirementEvent -> int { (e: RetirementEvent) => multiset(e.ids)[h] }

  function AmountDrawn(k: nat): RetirementEvent -> int {
    (e: RetirementEvent) => if e.position == k then e.amount else 0
  }

  function EnergyDrawn(k: nat): RetirementEvent -> int {
    (e: RetirementEvent) => if e.position == k then e.energy else 0
  }

  function DrawsOf(k: nat): RetirementEvent -> int {
    (e: RetirementEvent) => if e.position == k then 1 else 0
  }

  function EnergyInBurn(b: nat): RetirementEvent -> int {
    (e: RetirementEvent) => if e.burn == b then e.energy else 0
  }

  function CertifiedEnergy(): BurnCertificate -> int { (b: BurnCertificate) => b.energy }

  function PaidBy(user: UserId): Transaction -> int { (t: Transaction) => if t.buyer == user then t.price else 0 }

  /** The ids retired out of position `k`, and those retired by burn `b`, in order. */
  function IdsDrawn(events: seq<RetirementEvent>, k: nat): seq<HecId> {
    if events == [] then []
    else
      var n := |events| - 1;
      IdsDrawn(events[..n], k) + if events[n].position == k then events[n].ids else []
  }

  function IdsOfBurn(events: seq<RetirementEvent>, b: nat): seq<HecId> {
    if events == [] then []
    else
      var n := |events| - 1;
      IdsOfBurn(events[..n], b) + if events[n].burn == b then events[n].ids else []
  }

  // ---------------------------------------------------------------- the invariant

  /** What a burn in progress has taken out of positions but not yet out of the wallet. */
  datatype OpenBurn = OpenBurn(user: UserId, quantity: nat, energy: nat, ids: seq<HecId>)

  const NO_BURN := OpenBurn(0, 0, 0, [])

  ghost predicate CertificateOk(db: Db, chain: Chain, h: nat)
    requires h < |db.hecs|
  {
    var hec := db.hecs[h];
    && hec.validation < |db.validations|
    && db.validations[hec.validation].verdict == Approved
    && hec.energy == db.validations[hec.validation].reading.energy
    && (hec.tx.Some? ==>
          hec.hash != 0 && hec.cid.Some? && hec.cid.value != "" && Lookup(chain, hec.hash) == hec.cid)
    && (hec.lot.Some? <==> hec.status == Custodied || hec.status == Allocated || hec.status == Retired)
    && (hec.lot.Some? ==> hec.lot.value < |db.lots| && hec.tx.Some?)
    && (hec.lot.None? ==> hec.status == if hec.tx.Some? then Registered else Pending)
  }

  ghost predicate CertificatesOk(db: Db, chain: Chain) {
    && (forall v | 0 <= v < |db.validations| :: db.validations[v].verdict == Validate(db.validations[v].reading))
    && (forall h | 0 <= h < |db.hecs| :: CertificateOk(db, chain, h))
    && (forall g, h | 0 <= g < h < |db.hecs| ::
          db.hecs[g].validation != db.hecs[h].validation && db.hecs[g].hash != db.hecs[h].hash)
  }

  ghost predicate LotOk(db: Db, chain: Chain, l: nat)
    requires l < |db.lots|
  {
    var lot := db.lots[l];
    && lot.total > 0
    && lot.avail == Sum(db.hecs, CustodiedIn(l))
    && lot.total == Sum(db.hecs, MemberOf(l))
    && lot.energy == Sum(db.hecs, EnergyIn(l))
    && (lot.status == Open <==> lot.avail > 0)
    && lot.inventory == Issued
    && lot.batch in chain.batches
    && chain.batches[lot.batch].totalUnits == UNIT_SCALE * lot.total
    && Sum(db.positions, QuantityIn(l)) + lot.avail == lot.total
  }

  ghost predicate LotsOk(db: Db, chain: Chain) {
    && (forall l | 0 <= l < |db.lots| :: LotOk(db, chain, l))
    && (forall l, m | 0 <= l < m < |db.lots| :: db.lots[l].batch != db.lots[m].batch)
  }

  ghost predicate PositionOk(db: Db, k: nat)
    requires k < |db.positions| == |db.transactions|
  {
    var p, t := db.positions[k], db.transactions[k];
    && p.tx == k && p.user == t.buyer && p.lot == t.lot < |db.lots| && p.user in db.wallets
    && p.quantity == t.quantity == |t.ids| && p.quantity > 0
    && p.energyTotal == t.energy == EnergyOf(db.hecs, t.ids)
    && t.price == Price(t.unitPrice, t.energy)
    && (forall i | i in t.ids :: i < |db.hecs| && db.hecs[i].lot == Some(p.lot))
    && |p.ids| == p.avail && p.avail + p.retired == p.quantity
    && (p.status == Exhausted <==> p.avail == 0)
    && (p.avail == 0 ==> p.energyAvail == 0)
    && DrawsOk(db.events, k, p, t)
  }

  /** The retirement events drawn from a position account for everything that left it. */
  ghost predicate DrawsOk(events: seq<RetirementEvent>, k: nat, p: Position, t: Transaction) {
    && t.ids == IdsDrawn(events, k) + p.ids
    && p.retired == Sum(events, AmountDrawn(k))
    && p.energyTotal == Sum(events, EnergyDrawn(k)) + p.energyAvail
    && 2 * Abs(p.energyAvail * p.quantity - p.energyTotal * p.avail) <= Sum(events, DrawsOf(k)) * p.quantity
  }

  ghost predicate PositionsOk(db: Db) {
    && |db.positions| == |db.transactions|
    && (forall k | 0 <= k < |db.positions| :: PositionOk(db, k))
  }

  ghost predicate EventOk(db: Db, chain: Chain, e: RetirementEvent) {
    && e.position < |db.positions| && e.lot < |db.lots|
    && e.user == db.positions[e.position].user && e.lot == db.positions[e.position].lot
    && e.batch == db.lots[e.lot].batch
    && e.amount == |e.ids| && e.amount > 0
    && e.retirement in chain.retirements
    && chain.retirements[e.retirement].batch == e.batch
    && chain.retirements[e.retirement].amount == UNIT_SCALE * e.amount
  }

  ghost predicate EventsOk(db: Db, chain: Chain) {
    && (forall i | 0 <= i < |db.events| :: EventOk(db, chain, db.events[i]))
    && (forall i, j | 0 <= i < j < |db.events| :: db.events[i].retirement != db.events[j].retirement)
  }

  ghost predicate OccurrenceOk(db: Db, h: nat)
    requires h < |db.hecs|
  {
    && Sum(db.positions, Held(h)) == (if db.hecs[h].status == Allocated then 1 else 0)
    && Sum(db.events, Burned(h)) == (if db.hecs[h].status == Retired then 1 else 0)
  }

  ghost predicate OccurrencesOk(db: Db) {
    && (forall k, i | 0 <= k < |db.positions| && i in db.positions[k].ids :: i < |db.hecs|)
    && (forall k, i | 0 <= k < |db.events| && i in db.events[k].ids :: i < |db.hecs|)
    && (forall h | 0 <= h < |db.hecs| :: OccurrenceOk(db, h))
  }

  ghost predicate WalletOk(db: Db, ob: OpenBurn, u: UserId)
    requires u in db.wallets
  {
    var w := db.wallets[u];
    && w.hec == Sum(db.positions, AvailOf(u)) + (if u == ob.user then ob.quantity else 0)
    && w.energy == Sum(db.positions, EnergyHeld(u)) + (if u == ob.user then ob.energy else 0)
    && w.brl + Sum(db.transactions, PaidBy(u)) == INITIAL_BALANCE
    && w.brl >= 0
  }

  ghost predicate WalletsOk(db: Db, ob: OpenBurn) {
    && db.users.Keys == db.wallets.Keys
    && (forall u | u in db.wallets :: WalletOk(db, ob, u))
  }

  ghost predicate BurnOk(db: Db, b: nat)
    requires b < |db.burns|
  {
    var burn := db.burns[b];
    && burn.quantity == |burn.ids| && burn.retiredMhec == 1000 * burn.quantity
    && burn.ids == IdsOfBurn(db.events, b)
    && burn.energy == Sum(db.events, EnergyInBurn(b))
  }

  ghost predicate BurnsOk(db: Db, ob: OpenBurn) {
    && (forall b | 0 <= b < |db.burns| :: BurnOk(db, b))
    && (forall i | 0 <= i < |db.events| :: db.events[i].burn <= |db.burns|)
    && ob.ids == IdsOfBurn(db.events, |db.burns|) && ob.quantity == |ob.ids|
    && ob.energy == Sum(db.events, EnergyInBurn(|db.burns|))
  }

  ghost predicate EnergyConserved(db: Db, ob: OpenBurn) {
    Sum(db.hecs, LottedEnergy())
      == Sum(db.hecs, CustodiedEnergy()) + Sum(db.positions, EnergyLeft())
         + Sum(db.burns, CertifiedEnergy()) + ob.energy
  }

  /** Every lot's batch has retired at least, and without aborted burns exactly, what its positions have. */
  ghost predicate BackingOk(db: Db, chain: Chain, exact: bool) {
    forall l | 0 <= l < |db.lots| ::
      && db.lots[l].batch in chain.batches
      && chain.batches[db.lots[l].batch].retiredUnits >= UNIT_SCALE * Sum(db.positions, RetiredIn(l))
      && (exact ==> chain.batches[db.lots[l].batch].retiredUnits == UNIT_SCALE * Sum(db.positions, RetiredIn(l)))
  }

  ghost predicate Inv(db: Db, chain: Chain, ob: OpenBurn, exact: bool) {
    && ChainOk(chain)
    && CertificatesOk(db, chain)
    && LotsOk(db, chain)
    && PositionsOk(db)
    && EventsOk(db, chain)
    && OccurrencesOk(db)
    && WalletsOk(db, ob)
    && BurnsOk(db, ob)
    && EnergyConserved(db, ob)
    && BackingOk(db, chain, exact)
  }

  lemma InvInit()
    ensures Inv(EMPTY_DB, GENESIS, NO_BURN, true)
  {
  }

  /** The parts of the invariant by name, for proofs that keep it folded. */
  lemma InvParts(db: Db, chain: Chain, ob: OpenBurn, exact: bool)
    requires Inv(db, chain, ob, exact)
    ensures PositionsOk(db) && LotsOk(db, chain) && ChainOk(chain) && CertificatesOk(db, chain)
    ensures OccurrencesOk(db) && BackingOk(db, chain, exact) && WalletsOk(db, ob)
  {
  }

  // ---------------------------------------------------------------- helpers on ids and energies

  lemma {:induction false} DupFreeCount(ids: seq<HecId>, h: HecId)
    requires NoDup(ids)
    ensures multiset(ids)[h] == if h in ids then 1 else 0
  {
    if ids != [] {
      var n := |ids| - 1;
      assert ids == ids[..n] + [ids[n]];
      DupFreeCount(ids[..n], h);
    }
  }

  lemma {:induction false} CountedOnce(ids: seq<HecId>)
    requires forall h :: multiset(ids)[h] <= 1
    ensures NoDup(ids)
  {
    if ids != [] {
      var n := |ids| - 1;
      assert ids == ids[..n] + [ids[n]];
      forall h ensures multiset(ids[..n])[h] <= 1 {
        assert multiset(ids)[h] == multiset(ids[..n])[h] + multiset([ids[n]])[h];
      }
      CountedOnce(ids[..n]);
      assert multiset(ids)[ids[n]] == multiset(ids[..n])[ids[n]] + 1;
    }
  }

  lemma EnergyOfConcat(hecs: seq<Hec>, a: seq<HecId>, b: seq<HecId>)
    ensures EnergyOf(hecs, a + b) == EnergyOf(hecs, a) + EnergyOf(hecs, b)
  {
    SumConcat(a, b, EnergyAt(hecs));
  }

  /** Rows keep their identity, energy, content id and validation, and only ever gain rows after them. */
  ghost predicate Extends(before: seq<Hec>, after: seq<Hec>) {
    && |before| <= |after|
    && forall i | 0 <= i < |before| ::
         && after[i].energy == before[i].energy && after[i].validation == before[i].validation
         && after[i].hash == before[i].hash && after[i].cid == before[i].cid
  }

  lemma EnergyOfFrame(a: seq<Hec>, b: seq<Hec>, ids: seq<HecId>)
    requires Extends(a, b)
    requires forall i | i in ids :: i < |a|
    ensures EnergyOf(a, ids) == EnergyOf(b, ids)
  {
    forall k | 0 <= k < |ids| ensures EnergyAt(a)(ids[k]) == EnergyAt(b)(ids[k]) {
      assert ids[k] in ids;
    }
    SumEqual(ids, ids, EnergyAt(a), EnergyAt(b));
  }

  /** The selection lists custodied rows of the lot in creation order, as many as asked for or as there are. */
  lemma {:induction false} FirstCustodiedOk(hecs: seq<Hec>, lot: nat, limit: nat)
    ensures var ids := FirstCustodied(hecs, lot, limit);
            && NoDup(ids)
            && (forall i | i in ids :: i < |hecs| && InCustody(hecs[i], lot))
            && |ids| == if Sum(hecs, CustodiedIn(lot)) < limit then Sum(hecs, CustodiedIn(lot)) else limit
  {
    if hecs != [] {
      var n := |hecs| - 1;
      var front := FirstCustodied(hecs[..n], lot, limit);
      FirstCustodiedOk(hecs[..n], lot, limit);
      assert forall k | 0 <= k < |front| :: front[k] in front && front[k] < n;
      assert Sum(hecs, CustodiedIn(lot)) == Sum(hecs[..n], CustodiedIn(lot)) + CustodiedIn(lot)(hecs[n]);
    } else {
      assert Sum(hecs, CustodiedIn(lot)) == 0;
    }
  }

  /** Oldest first: a custodied row is never passed over in favour of a younger one. */
  lemma {:induction false} FirstCustodiedOldest(hecs: seq<Hec>, lot: nat, limit: nat, i: nat, j: nat)
    requires i < j < |hecs| && InCustody(hecs[i], lot) && j in FirstCustodied(hecs, lot, limit)
    ensures i in FirstCustodied(hecs, lot, limit)
  {
    var n := |hecs| - 1;
    var front := FirstCustodied(hecs[..n], lot, limit);
    FirstCustodiedOk(hecs[..n], lot, limit);
    if j in front {
      FirstCustodiedOldest(hecs[..n], lot, limit, i, j);
    } else if i !in front {
      OmittedMeansFull(hecs[..n], lot, limit, i);
    }
  }

  /** A custodied certificate is passed over only once the limit is reached. */
  lemma {:induction false} OmittedMeansFull(hecs: seq<Hec>, lot: nat, limit: nat, i: nat)
    requires i < |hecs| && InCustody(hecs[i], lot) && i !in FirstCustodied(hecs, lot, limit)
    ensures |FirstCustodied(hecs, lot, limit)| >= limit
  {
    if i < |hecs| - 1 {
      OmittedMeansFull(hecs[..|hecs| - 1], lot, limit, i);
    }
  }

  lemma {:induction false} DedupOk(requested: seq<HecId>)
    ensures NoDup(Dedup(requested))
    ensures forall i :: i in Dedup(requested) <==> i in requested
    ensures (Dedup(requested) == []) == (requested == [])
  {
    if requested != [] {
      var n := |requested| - 1;
      assert requested == requested[..n] + [requested[n]];
      DedupOk(requested[..n]);
    }
  }
}
