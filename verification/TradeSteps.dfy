/** Purchases, and closing a burn with its certificate, keep the ledger invariant. */
module TradeSteps {
  import opened Collections
  import opened MockChain
  import opened CustodyModel
  import opened CustodyInvariant
  import opened CustodySteps

  // ---------------------------------------------------------------- purchases

  ghost predicate CanSettle(db: Db, buyer: UserId, lot: nat, ids: seq<HecId>, unit: nat) {
    && lot < |db.lots| && buyer in db.wallets && 0 < |ids| <= db.lots[lot].avail
    && NoDup(ids)
    && (forall i | i in ids :: i < |db.hecs| && InCustody(db.hecs[i], lot))
    && db.wallets[buyer].brl >= Price(unit, EnergyOf(db.hecs, ids))
  }

  function Settled(db: Db, buyer: UserId, lot: nat, ids: seq<HecId>, unit: nat): Db
    requires lot < |db.lots| && buyer in db.wallets && |ids| <= db.lots[lot].avail
  {
    var energy := EnergyOf(db.hecs, ids);
    Settle(db, buyer, lot, |ids|, ids, energy, unit, Price(unit, energy))
  }

  lemma SettleHecSums(db: Db, lot: nat, ids: seq<HecId>)
    requires NoDup(ids) && forall i | i in ids :: i < |db.hecs| && InCustody(db.hecs[i], lot)
    ensures var after := UpdateAt(db.hecs, ids, SetStatus(Allocated));
            && (forall l | l != lot :: SameLotSums(db.hecs, after, l))
            && Sum(after, CustodiedIn(lot)) == Sum(db.hecs, CustodiedIn(lot)) - |ids|
            && Sum(after, MemberOf(lot)) == Sum(db.hecs, MemberOf(lot))
            && Sum(after, EnergyIn(lot)) == Sum(db.hecs, EnergyIn(lot))
            && Sum(after, LottedEnergy()) == Sum(db.hecs, LottedEnergy())
            && Sum(after, CustodiedEnergy()) == Sum(db.hecs, CustodiedEnergy()) - EnergyOf(db.hecs, ids)
  {
    var f, zero, less := SetStatus(Allocated), Constant<nat>(0), Constant<nat>(-1);
    var after := UpdateAt(db.hecs, ids, f);
    SumZero(ids, zero);
    SumConstant(ids, -1);
    forall l | l != lot ensures SameLotSums(db.hecs, after, l) {
      SumUpdateAt(db.hecs, ids, f, CustodiedIn(l), zero);
      SumUpdateAt(db.hecs, ids, f, MemberOf(l), zero);
      SumUpdateAt(db.hecs, ids, f, EnergyIn(l), zero);
    }
    SumUpdateAt(db.hecs, ids, f, CustodiedIn(lot), less);
    SumUpdateAt(db.hecs, ids, f, MemberOf(lot), zero);
    SumUpdateAt(db.hecs, ids, f, EnergyIn(lot), zero);
    SumUpdateAt(db.hecs, ids, f, LottedEnergy(), zero);
    SumUpdateAt(db.hecs, ids, f, CustodiedEnergy(), Negated(db.hecs));
    SumAdd(ids, Constant<nat>(0), EnergyAt(db.hecs), Negated(db.hecs));
  }

  function Negated(hecs: seq<Hec>): nat -> int {
    (i: nat) => if i < |hecs| then -(hecs[i].energy as int) else 0
  }

  lemma SettleLots(db: Db, chain: Chain, buyer: UserId, lot: nat, ids: seq<HecId>, unit: nat)
    requires CanSettle(db, buyer, lot, ids, unit) && LotsOk(db, chain)
    ensures LotsOk(Settled(db, buyer, lot, ids, unit), chain)
  {
    hide Sum, Price, EnergyOf, UpdateAt;
    var db' := Settled(db, buyer, lot, ids, unit);
    SettleHecSums(db, lot, ids);
    forall l | 0 <= l < |db'.lots| ensures LotOk(db', chain, l) {
      assert LotOk(db, chain, l);
      if l != lot { assert SameLotSums(db.hecs, db'.hecs, l); }
      SumAppend(db.positions, db'.positions[|db.positions|], QuantityIn(l));
    }
  }

  lemma SettleBacking(db: Db, chain: Chain, buyer: UserId, lot: nat, ids: seq<HecId>, unit: nat, exact: bool)
    requires CanSettle(db, buyer, lot, ids, unit) && BackingOk(db, chain, exact)
    ensures BackingOk(Settled(db, buyer, lot, ids, unit), chain, exact)
  {
    hide Sum, Price, EnergyOf, UpdateAt;
    var db' := Settled(db, buyer, lot, ids, unit);
    forall l | 0 <= l < |db'.lots|
      ensures Sum(db'.positions, RetiredIn(l)) == Sum(db.positions, RetiredIn(l))
    {
      SumAppend(db.positions, db'.positions[|db.positions|], RetiredIn(l));
    }
  }

  lemma SettlePositions(db: Db, chain: Chain, buyer: UserId, lot: nat, ids: seq<HecId>, unit: nat)
    requires CanSettle(db, buyer, lot, ids, unit) && PositionsOk(db) && EventsOk(db, chain)
    ensures var db' := Settled(db, buyer, lot, ids, unit);
            PositionsOk(db') && EventsOk(db', chain)
  {
    var db' := Settled(db, buyer, lot, ids, unit);
    var n := |db.positions|;
    EventsFrame(db, chain, db', chain);
    EnergyOfFrame(db.hecs, db'.hecs, ids);
    forall i | 0 <= i < |db.events| ensures db.events[i].position < n { assert EventOk(db, chain, db.events[i]); }
    NothingDrawn(db.events, n);
    forall k | 0 <= k < |db'.positions| ensures PositionOk(db', k) {
      if k < n {
        assert PositionOk(db, k);
        EnergyOfFrame(db.hecs, db'.hecs, db.transactions[k].ids);
      }
    }
  }

  lemma {:induction false} NothingDrawn(events: seq<RetirementEvent>, k: nat)
    requires forall i | 0 <= i < |events| :: events[i].position != k
    ensures IdsDrawn(events, k) == []
    ensures Sum(events, AmountDrawn(k)) == Sum(events, EnergyDrawn(k)) == Sum(events, DrawsOf(k)) == 0
  {
    if events != [] {
      NothingDrawn(events[..|events| - 1], k);
    }
  }

  lemma SettleRows(db: Db, chain: Chain, buyer: UserId, lot: nat, ids: seq<HecId>, unit: nat)
    requires CanSettle(db, buyer, lot, ids, unit) && CertificatesOk(db, chain) && OccurrencesOk(db)
    ensures var db' := Settled(db, buyer, lot, ids, unit);
            CertificatesOk(db', chain) && OccurrencesOk(db')
  {
    var db' := Settled(db, buyer, lot, ids, unit);
    var p := db'.positions[|db.positions|];
    forall h | 0 <= h < |db'.hecs| ensures CertificateOk(db', chain, h) { assert CertificateOk(db, chain, h); }
    forall h | 0 <= h < |db'.hecs| ensures OccurrenceOk(db', h) {
      assert OccurrenceOk(db, h);
      SumAppend(db.positions, p, Held(h));
      DupFreeCount(ids, h);
    }
    forall k, i | 0 <= k < |db'.positions| && i in db'.positions[k].ids ensures i < |db'.hecs| {
      if k < |db.positions| { assert i in db.positions[k].ids; }
    }
  }

  lemma SettleWallets(db: Db, buyer: UserId, lot: nat, ids: seq<HecId>, unit: nat)
    requires CanSettle(db, buyer, lot, ids, unit) && WalletsOk(db, NO_BURN)
    ensures WalletsOk(Settled(db, buyer, lot, ids, unit), NO_BURN)
  {
    var db' := Settled(db, buyer, lot, ids, unit);
    var p, t := db'.positions[|db.positions|], db'.transactions[|db.transactions|];
    forall v | v in db'.wallets ensures WalletOk(db', NO_BURN, v) {
      assert WalletOk(db, NO_BURN, v);
      SumAppend(db.positions, p, AvailOf(v));
      SumAppend(db.positions, p, EnergyHeld(v));
      SumAppend(db.transactions, t, PaidBy(v));
    }
  }

  lemma SettleKeepsInvariant(db: Db, chain: Chain, buyer: UserId, lot: nat, ids: seq<HecId>, unit: nat, exact: bool)
    requires Inv(db, chain, NO_BURN, exact) && CanSettle(db, buyer, lot, ids, unit)
    ensures Inv(Settled(db, buyer, lot, ids, unit), chain, NO_BURN, exact)
  {
    var db' := Settled(db, buyer, lot, ids, unit);
    SettleLots(db, chain, buyer, lot, ids, unit);
    SettleBacking(db, chain, buyer, lot, ids, unit, exact);
    SettlePositions(db, chain, buyer, lot, ids, unit);
    SettleRows(db, chain, buyer, lot, ids, unit);
    SettleWallets(db, buyer, lot, ids, unit);
    assert BurnsOk(db', NO_BURN) by {
      forall b | 0 <= b < |db'.burns| ensures BurnOk(db', b) { assert BurnOk(db, b); }
    }
    SettleHecSums(db, lot, ids);
    SumAppend(db.positions, db'.positions[|db.positions|], EnergyLeft());
  }

  lemma BuyIsSettle(db: Db, buyer: UserId, lot: nat, quantity: int)
    requires Buy(db, buyer, lot, quantity).Ok?
    ensures lot < |db.lots| && quantity > 0 && db.lots[lot].price.Some? && db.lots[lot].price.value > 0
    ensures var ids := FirstCustodied(db.hecs, lot, quantity);
            && |ids| == quantity
            && CanSettle(db, buyer, lot, ids, db.lots[lot].price.value)
            && Buy(db, buyer, lot, quantity).value == Settled(db, buyer, lot, ids, db.lots[lot].price.value)
  {
    FirstCustodiedOk(db.hecs, lot, quantity);
  }

  lemma BuyKeepsInvariant(db: Db, chain: Chain, buyer: UserId, lot: nat, quantity: int, exact: bool)
    requires Inv(db, chain, NO_BURN, exact)
    ensures var r := Buy(db, buyer, lot, quantity);
            r.Ok? ==> Inv(r.value, chain, NO_BURN, exact)
  {
    if Buy(db, buyer, lot, quantity).Ok? {
      BuyIsSettle(db, buyer, lot, quantity);
      SettleKeepsInvariant(db, chain, buyer, lot, FirstCustodied(db.hecs, lot, quantity),
                           db.lots[lot].price.value, exact);
    }
  }

  // ---------------------------------------------------------------- closing a burn

  lemma {:induction false} NothingBurned(events: seq<RetirementEvent>, b: nat)
    requires forall i | 0 <= i < |events| :: events[i].burn < b
    ensures IdsOfBurn(events, b) == [] && Sum(events, EnergyInBurn(b)) == 0
  {
    if events != [] {
      NothingBurned(events[..|events| - 1], b);
    }
  }

  /** Tables that a change of wallets and burn certificates leaves alone. */
  lemma CloseFrame(db: Db, chain: Chain, db': Db, exact: bool)
    requires CertificatesOk(db, chain) && LotsOk(db, chain) && OccurrencesOk(db) && BackingOk(db, chain, exact)
    requires db' == db.(wallets := db'.wallets, burns := db'.burns)
    ensures CertificatesOk(db', chain) && LotsOk(db', chain) && OccurrencesOk(db') && BackingOk(db', chain, exact)
  {
    forall h | 0 <= h < |db'.hecs| ensures CertificateOk(db', chain, h) { assert CertificateOk(db, chain, h); }
    forall h | 0 <= h < |db'.hecs| ensures OccurrenceOk(db', h) { assert OccurrenceOk(db, h); }
    forall l | 0 <= l < |db'.lots| ensures LotOk(db', chain, l) { assert LotOk(db, chain, l); }
  }

  lemma CloseLedgers(db: Db, ob: OpenBurn, hash: Hash)
    requires WalletsOk(db, ob) && BurnsOk(db, ob) && EnergyConserved(db, ob) && ob.user in db.wallets
    ensures var db' := CloseBurn(db, ob.user, ob.quantity, ob.energy, ob.ids, hash);
            WalletsOk(db', NO_BURN) && BurnsOk(db', NO_BURN) && EnergyConserved(db', NO_BURN)
  {
    var db' := CloseBurn(db, ob.user, ob.quantity, ob.energy, ob.ids, hash);
    forall v | v in db'.wallets ensures WalletOk(db', NO_BURN, v) { assert WalletOk(db, ob, v); }
    NothingBurned(db.events, |db'.burns|);
    forall b | 0 <= b < |db'.burns| ensures BurnOk(db', b) {
      if b < |db.burns| { assert BurnOk(db, b); }
    }
    SumAppend(db.burns, db'.burns[|db.burns|], CertifiedEnergy());
  }

  lemma CloseKeepsInvariant(db: Db, chain: Chain, ob: OpenBurn, hash: Hash, exact: bool)
    requires Inv(db, chain, ob, exact) && ob.user in db.wallets
    ensures Inv(CloseBurn(db, ob.user, ob.quantity, ob.energy, ob.ids, hash), chain, NO_BURN, exact)
  {
    var db' := CloseBurn(db, ob.user, ob.quantity, ob.energy, ob.ids, hash);
    PositionsFrame(db, db');
    EventsFrame(db, chain, db', chain);
    CloseFrame(db, chain, db', exact);
    CloseLedgers(db, ob, hash);
  }
}
