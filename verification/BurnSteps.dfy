/** Taking certificates out of one position keeps every part of the ledger invariant. */
module BurnSteps {
  import opened Collections
  import opened Rounding
  import opened MockChain
  import opened CustodyModel
  import opened CustodyInvariant

  ghost predicate CanDraw(db: Db, k: nat, c: nat) {
    && k < |db.positions| && db.positions[k].lot < |db.lots|
    && 0 < c <= db.positions[k].avail && c <= |db.positions[k].ids|
  }

  /** A position lists allocated certificates only, each of them once, and no event lists them. */
  lemma PositionIds(db: Db, k: nat)
    requires OccurrencesOk(db) && k < |db.positions|
    ensures NoDup(db.positions[k].ids)
    ensures forall i | i in db.positions[k].ids :: i < |db.hecs| && db.hecs[i].status == Allocated
  {
    var p := db.positions[k];
    forall h ensures multiset(p.ids)[h] <= 1 {
      if h in p.ids {
        assert OccurrenceOk(db, h);
        SumAtLeast(db.positions, k, Held(h));
      }
    }
    CountedOnce(p.ids);
    forall i | i in p.ids ensures i < |db.hecs| && db.hecs[i].status == Allocated {
      assert OccurrenceOk(db, i);
      SumAtLeast(db.positions, k, Held(i));
    }
  }

  /** The split of a position's list at `c`. */
  lemma SplitIds(ids: seq<HecId>, c: nat)
    requires c <= |ids| && NoDup(ids)
    ensures ids == ids[..c] + ids[c..]
    ensures multiset(ids) == multiset(ids[..c]) + multiset(ids[c..])
    ensures NoDup(ids[..c]) && NoDup(ids[c..])
    ensures forall i | i in ids[..c] :: i in ids && i !in ids[c..]
    ensures forall i | i in ids[c..] :: i in ids
  {
    assert ids == ids[..c] + ids[c..];
    forall i | i in ids[..c] ensures i in ids && i !in ids[c..] {
      var a :| 0 <= a < c && ids[a] == i;
      assert forall b | 0 <= b < |ids[c..]| :: ids[c..][b] == ids[c + b];
    }
  }

  lemma DrawCertificates(db: Db, chain: Chain, chain': Chain, k: nat, c: nat, r: nat)
    requires CanDraw(db, k, c) && CertificatesOk(db, chain) && OccurrencesOk(db)
    requires chain'.registry == chain.registry
    ensures CertificatesOk(Draw(db, k, c, r), chain')
    ensures Extends(db.hecs, Draw(db, k, c, r).hecs)
  {
    var db' := Draw(db, k, c, r);
    PositionIds(db, k);
    forall h | 0 <= h < |db'.hecs| ensures CertificateOk(db', chain', h) {
      assert CertificateOk(db, chain, h);
    }
  }

  lemma DrawHecSum(db: Db, k: nat, c: nat, r: nat, g: Hec -> int)
    requires CanDraw(db, k, c) && OccurrencesOk(db)
    requires forall h: Hec | h.status == Allocated :: g(h.(status := Retired)) == g(h)
    ensures Sum(Draw(db, k, c, r).hecs, g) == Sum(db.hecs, g)
  {
    PositionIds(db, k);
    SplitIds(db.positions[k].ids, c);
    var taken := db.positions[k].ids[..c];
    SumUpdateAt(db.hecs, taken, SetStatus(Retired), g, Constant<nat>(0));
    SumZero(taken, Constant<nat>(0));
  }

  lemma DrawLots(db: Db, chain: Chain, chain': Chain, k: nat, c: nat, r: nat)
    requires CanDraw(db, k, c) && LotsOk(db, chain) && OccurrencesOk(db)
    requires forall b | b in chain.batches ::
               b in chain'.batches && chain'.batches[b].totalUnits == chain.batches[b].totalUnits
    ensures LotsOk(Draw(db, k, c, r), chain')
  {
    var db' := Draw(db, k, c, r);
    forall l | 0 <= l < |db'.lots| ensures LotOk(db', chain', l) {
      assert LotOk(db, chain, l);
      DrawHecSum(db, k, c, r, CustodiedIn(l));
      DrawHecSum(db, k, c, r, MemberOf(l));
      DrawHecSum(db, k, c, r, EnergyIn(l));
      SumUpdate(db.positions, k, Consume(db.positions[k], c), QuantityIn(l));
    }
  }

  lemma DrawPositions(db: Db, k: nat, c: nat, r: nat)
    requires CanDraw(db, k, c) && PositionsOk(db) && OccurrencesOk(db)
    ensures PositionsOk(Draw(db, k, c, r))
  {
    var db' := Draw(db, k, c, r);
    var event := db'.events[|db.events|];
    PositionIds(db, k);
    assert db'.events[..|db.events|] == db.events;
    forall j | 0 <= j < |db'.positions| ensures PositionOk(db', j) {
      assert PositionOk(db, j);
      EnergyOfFrame(db.hecs, db'.hecs, db.transactions[j].ids);
      SumAppend(db.events, event, AmountDrawn(j));
      SumAppend(db.events, event, EnergyDrawn(j));
      SumAppend(db.events, event, DrawsOf(j));
      if j == k {
        DrawOnePosition(db, k, c, r);
      } else {
        assert IdsDrawn(db'.events, j) == IdsDrawn(db.events, j);
      }
    }
  }

  lemma DrawOnePosition(db: Db, k: nat, c: nat, r: nat)
    requires CanDraw(db, k, c) && PositionsOk(db)
    ensures DrawsOk(Draw(db, k, c, r).events, k, Draw(db, k, c, r).positions[k], db.transactions[k])
  {
    var db' := Draw(db, k, c, r);
    var p, t, event := db.positions[k], db.transactions[k], db'.events[|db.events|];
    assert PositionOk(db, k);
    assert db'.events[..|db.events|] == db.events;
    SumAppend(db.events, event, AmountDrawn(k));
    SumAppend(db.events, event, EnergyDrawn(k));
    SumAppend(db.events, event, DrawsOf(k));
    assert p.ids == p.ids[..c] + p.ids[c..];
    SumNonNegative(db.events, DrawsOf(k));
    DriftOfConsume(p, c, Sum(db.events, DrawsOf(k)));
  }

  /** One more draw moves a position at most half an energy unit further from its pro-rata share. */
  lemma DriftOfConsume(p: Position, c: nat, m: nat)
    requires 0 < c <= p.avail <= p.quantity && c <= |p.ids|
    requires 2 * Abs(p.energyAvail * p.quantity - p.energyTotal * p.avail) <= m * p.quantity
    ensures var p' := Consume(p, c);
            2 * Abs(p'.energyAvail * p.quantity - p.energyTotal * p'.avail) <= (m + 1) * p.quantity
  {
    if c == p.avail {
      MulMonotone(p.quantity, 0, m + 1);
    } else {
      DriftStep(p.quantity, p.energyTotal, p.avail, p.energyAvail, c, m);
    }
  }

  lemma DrawEvents(db: Db, chain: Chain, k: nat, c: nat)
    requires CanDraw(db, k, c) && EventsOk(db, chain) && ChainOk(chain)
    requires RetireBatch(chain, db.lots[db.positions[k].lot].batch, c * UNIT_SCALE).Ok?
    ensures var done := RetireBatch(chain, db.lots[db.positions[k].lot].batch, c * UNIT_SCALE).value;
            EventsOk(Draw(db, k, c, done.1), done.0)
  {
    var done := RetireBatch(chain, db.lots[db.positions[k].lot].batch, c * UNIT_SCALE).value;
    var db' := Draw(db, k, c, done.1);
    forall i | 0 <= i < |db'.events| ensures EventOk(db', done.0, db'.events[i]) {
      if i < |db.events| {
        assert EventOk(db, chain, db.events[i]);
      }
    }
    assert forall i | 0 <= i < |db.events| :: EventOk(db, chain, db.events[i]);
  }

  lemma DrawOccurrences(db: Db, k: nat, c: nat, r: nat)
    requires CanDraw(db, k, c) && OccurrencesOk(db)
    ensures OccurrencesOk(Draw(db, k, c, r))
  {
    var db' := Draw(db, k, c, r);
    var p := db.positions[k];
    var event := db'.events[|db.events|];
    PositionIds(db, k);
    SplitIds(p.ids, c);
    forall j, i | 0 <= j < |db'.positions| && i in db'.positions[j].ids ensures i < |db'.hecs| {
      assert i in db.positions[j].ids;
    }
    forall j, i | 0 <= j < |db'.events| && i in db'.events[j].ids ensures i < |db'.hecs| {
      if j < |db.events| {
        assert i in db.events[j].ids;
      } else {
        assert i in p.ids;
      }
    }
    forall h | 0 <= h < |db'.hecs| ensures OccurrenceOk(db', h) {
      assert OccurrenceOk(db, h);
      SumUpdate(db.positions, k, Consume(p, c), Held(h));
      SumAppend(db.events, event, Burned(h));
      DupFreeCount(p.ids[..c], h);
    }
  }

  lemma DrawWallets(db: Db, k: nat, c: nat, r: nat, ob: OpenBurn, ob': OpenBurn)
    requires CanDraw(db, k, c) && WalletsOk(db, ob) && db.positions[k].user == ob.user == ob'.user
    requires ob'.quantity == ob.quantity + c && ob'.energy == ob.energy + ConsumedEnergy(db.positions[k], c)
    ensures WalletsOk(Draw(db, k, c, r), ob')
  {
    var db' := Draw(db, k, c, r);
    var p := db.positions[k];
    forall u | u in db'.wallets ensures WalletOk(db', ob', u) {
      assert WalletOk(db, ob, u);
      SumUpdate(db.positions, k, Consume(p, c), AvailOf(u));
      SumUpdate(db.positions, k, Consume(p, c), EnergyHeld(u));
    }
  }

  lemma DrawBurns(db: Db, k: nat, c: nat, r: nat, ob: OpenBurn, ob': OpenBurn)
    requires CanDraw(db, k, c) && BurnsOk(db, ob)
    requires ob'.quantity == ob.quantity + c && ob'.energy == ob.energy + ConsumedEnergy(db.positions[k], c)
    requires ob'.ids == ob.ids + db.positions[k].ids[..c]
    ensures BurnsOk(Draw(db, k, c, r), ob')
  {
    var db' := Draw(db, k, c, r);
    var event := db'.events[|db.events|];
    assert db'.events[..|db.events|] == db.events;
    forall b | 0 <= b < |db'.burns| ensures BurnOk(db', b) {
      assert BurnOk(db, b);
      SumAppend(db.events, event, EnergyInBurn(b));
    }
    SumAppend(db.events, event, EnergyInBurn(|db.burns|));
  }

  lemma DrawEnergy(db: Db, k: nat, c: nat, r: nat, ob: OpenBurn, ob': OpenBurn)
    requires CanDraw(db, k, c) && OccurrencesOk(db) && EnergyConserved(db, ob)
    requires ob'.energy == ob.energy + ConsumedEnergy(db.positions[k], c)
    ensures EnergyConserved(Draw(db, k, c, r), ob')
  {
    DrawHecSum(db, k, c, r, LottedEnergy());
    DrawHecSum(db, k, c, r, CustodiedEnergy());
    SumUpdate(db.positions, k, Consume(db.positions[k], c), EnergyLeft());
  }

  lemma DrawBacking(db: Db, chain: Chain, k: nat, c: nat, exact: bool)
    requires CanDraw(db, k, c) && BackingOk(db, chain, exact) && LotsOk(db, chain)
    requires RetireBatch(chain, db.lots[db.positions[k].lot].batch, c * UNIT_SCALE).Ok?
    ensures var done := RetireBatch(chain, db.lots[db.positions[k].lot].batch, c * UNIT_SCALE).value;
            BackingOk(Draw(db, k, c, done.1), done.0, exact)
  {
    var done := RetireBatch(chain, db.lots[db.positions[k].lot].batch, c * UNIT_SCALE).value;
    forall l | 0 <= l < |db.lots| {
      SumUpdate(db.positions, k, Consume(db.positions[k], c), RetiredIn(l));
    }
  }

  /** The burn in progress after `c` more certificates out of position `k`. */
  function Extend(ob: OpenBurn, p: Position, c: nat): OpenBurn
    requires 0 < c <= p.avail && c <= |p.ids|
  {
    OpenBurn(ob.user, ob.quantity + c, ob.energy + ConsumedEnergy(p, c), ob.ids + p.ids[..c])
  }

  lemma DrawKeepsInvariant(db: Db, chain: Chain, k: nat, c: nat, ob: OpenBurn, exact: bool)
    requires CanDraw(db, k, c) && Inv(db, chain, ob, exact) && db.positions[k].user == ob.user
    requires RetireBatch(chain, db.lots[db.positions[k].lot].batch, c * UNIT_SCALE).Ok?
    ensures var done := RetireBatch(chain, db.lots[db.positions[k].lot].batch, c * UNIT_SCALE).value;
            Inv(Draw(db, k, c, done.1), done.0, Extend(ob, db.positions[k], c), exact)
  {
    var batch := db.lots[db.positions[k].lot].batch;
    var done := RetireBatch(chain, batch, c * UNIT_SCALE).value;
    var ob' := Extend(ob, db.positions[k], c);
    RetireKeepsChain(chain, batch, c * UNIT_SCALE);
    DrawCertificates(db, chain, done.0, k, c, done.1);
    DrawLots(db, chain, done.0, k, c, done.1);
    DrawPositions(db, k, c, done.1);
    DrawEvents(db, chain, k, c);
    DrawOccurrences(db, k, c, done.1);
    DrawWallets(db, k, c, done.1, ob, ob');
    DrawBurns(db, k, c, done.1, ob, ob');
    DrawEnergy(db, k, c, done.1, ob, ob');
    DrawBacking(db, chain, k, c, exact);
  }
}
