/** The burn's allocation loop keeps the ledger invariant, whether the burn is committed or aborted. */
module BurnAllocation {
  import opened Collections
  import opened MockChain
  import opened CustodyModel
  import opened CustodyInvariant
  import opened BurnSteps
  import opened CustodySteps
  import opened TradeSteps

  // ---------------------------------------------------------------- the invariant through the loop

  /** All that a sequence of retirements does to the chain. */
  ghost predicate OnlyRetires(c: Chain, c': Chain) {
    && ChainOk(c')
    && c'.registry == c.registry
    && c'.batches.Keys == c.batches.Keys
    && (forall b | b in c.batches :: c'.batches[b].totalUnits == c.batches[b].totalUnits
                                     && c'.batches[b].retiredUnits >= c.batches[b].retiredUnits)
    && (forall r | r in c.retirements :: r in c'.retirements && c'.retirements[r] == c.retirements[r])
  }

  lemma RetireOnlyRetires(c: Chain, id: nat, units: int)
    requires ChainOk(c) && RetireBatch(c, id, units).Ok?
    ensures OnlyRetires(c, RetireBatch(c, id, units).value.0)
  {
    RetireKeepsChain(c, id, units);
  }

  /** After a rollback the tables stand as before and the chain may only have retired more. */
  lemma RollbackKeepsInvariant(db: Db, chain: Chain, chain': Chain, exact: bool)
    requires Inv(db, chain, NO_BURN, exact) && OnlyRetires(chain, chain')
    ensures Inv(db, chain', NO_BURN, false)
  {
    hide PositionsOk, OccurrencesOk, WalletsOk, BurnsOk, EnergyConserved, Sum, RecordedUnits;
    assert CertificatesOk(db, chain') by {
      forall h | 0 <= h < |db.hecs| ensures CertificateOk(db, chain', h) { assert CertificateOk(db, chain, h); }
    }
    assert LotsOk(db, chain') by {
      forall l | 0 <= l < |db.lots| ensures LotOk(db, chain', l) { assert LotOk(db, chain, l); }
    }
    assert EventsOk(db, chain') by {
      forall i | 0 <= i < |db.events| ensures EventOk(db, chain', db.events[i]) {
        assert EventOk(db, chain, db.events[i]);
      }
    }
  }

  function Progressing(user: UserId, st: BurnState): OpenBurn {
    OpenBurn(user, |st.ids|, st.energy, st.ids)
  }

  /** The loop visits distinct active positions of one user. */
  ghost predicate Visits(positions: seq<Position>, user: UserId, ks: seq<nat>) {
    && NoDup(ks)
    && forall k | k in ks :: k < |positions| && positions[k].user == user && positions[k].avail > 0
  }

  /** None of the loop's own guards fires: the turn goes through unless the chain lacks units. */
  lemma StepReady(st: BurnState, user: UserId, ks: seq<nat>)
    requires ks != [] && st.remaining > 0 && Visits(st.db.positions, user, ks)
    requires PositionsOk(st.db) && LotsOk(st.db, st.chain) && ChainOk(st.chain)
    ensures var k := ks[0];
            k < |st.db.positions| &&
            var p := st.db.positions[k];
            var c := Min(st.remaining, p.avail);
            && CanDraw(st.db, k, c) && st.db.lots[p.lot].batch in st.chain.batches
            && |p.ids| == p.avail
            && var batch := st.chain.batches[st.db.lots[p.lot].batch];
               BurnStep(st, k) ==
               if batch.retiredUnits + c * UNIT_SCALE > batch.totalUnits
                 then Broken(st.chain, ChainRefused(InsufficientUnits))
                 else var done := RetireBatch(st.chain, st.db.lots[p.lot].batch, c * UNIT_SCALE).value;
                      Done(BurnState(Draw(st.db, k, c, done.1), done.0, st.remaining - c,
                                     st.energy + ConsumedEnergy(p, c), st.ids + p.ids[..c]))
  {
    var k := ks[0];
    assert k in ks;
    var p := st.db.positions[k];
    assert PositionOk(st.db, k);
    assert LotOk(st.db, st.chain, p.lot);
  }

  lemma StepKeeps(st: BurnState, user: UserId, ks: seq<nat>, exact: bool)
    requires ks != [] && st.remaining > 0
    requires Inv(st.db, st.chain, Progressing(user, st), exact) && Visits(st.db.positions, user, ks)
    ensures match BurnStep(st, ks[0])
            case Broken(chain, _) => chain == st.chain
            case Done(next) =>
              && Inv(next.db, next.chain, Progressing(user, next), exact)
              && OnlyRetires(st.chain, next.chain)
              && Visits(next.db.positions, user, ks[1..])
              && |next.ids| + next.remaining == |st.ids| + st.remaining
              && next.db.wallets == st.db.wallets && next.db.burns == st.db.burns && next.db.lots == st.db.lots
  {
    hide Inv, PositionsOk, LotsOk, CertificatesOk, OccurrencesOk, BackingOk, WalletsOk, ChainOk, OnlyRetires;
    InvParts(st.db, st.chain, Progressing(user, st), exact);
    StepReady(st, user, ks);
    var k := ks[0];
    var p := st.db.positions[k];
    var c := Min(st.remaining, p.avail);
    if BurnStep(st, k).Done? {
      DrawKeepsInvariant(st.db, st.chain, k, c, Progressing(user, st), exact);
      RetireOnlyRetires(st.chain, st.db.lots[p.lot].batch, c * UNIT_SCALE);
      assert forall i | i in ks[1..] :: i in ks && i != k;
    }
  }

  lemma {:induction false} LoopKeepsInvariant(st: BurnState, user: UserId, ks: seq<nat>, exact: bool)
    requires Inv(st.db, st.chain, Progressing(user, st), exact) && Visits(st.db.positions, user, ks)
    ensures match BurnLoop(st, ks)
            case Broken(chain, _) => OnlyRetires(st.chain, chain)
            case Done(next) =>
              && Inv(next.db, next.chain, Progressing(user, next), exact)
              && OnlyRetires(st.chain, next.chain)
              && |next.ids| + next.remaining == |st.ids| + st.remaining
              && next.db.wallets == st.db.wallets && next.db.burns == st.db.burns && next.db.lots == st.db.lots
    decreases |ks|
  {
    hide Inv, BurnStep, Visits, ChainOk;
    InvParts(st.db, st.chain, Progressing(user, st), exact);
    if ks != [] && st.remaining > 0 {
      StepKeeps(st, user, ks, exact);
      match BurnStep(st, ks[0])
      case Broken(_, _) =>
      case Done(next) => LoopKeepsInvariant(next, user, ks[1..], exact);
    }
  }

  lemma {:induction false} ConsideredOk(positions: seq<Position>, user: UserId)
    ensures var ks := Considered(positions, user);
            && Visits(positions, user, ks)
            && (forall i, j | 0 <= i < j < |ks| :: ks[i] < ks[j])
            && (forall k: nat :: k in ks <==> k < |positions| && Burnable(positions[k], user))
  {
    ConsideredExactly(positions, user);
    assert forall i | i in Considered(positions, user) :: Burnable(positions[i], user);
  }

  lemma {:induction false} ConsideredExactly(positions: seq<Position>, user: UserId)
    ensures var ks := Considered(positions, user);
            && (forall i, j | 0 <= i < j < |ks| :: ks[i] < ks[j])
            && (forall k: nat :: k in ks <==> k < |positions| && Burnable(positions[k], user))
  {
    hide Burnable;
    if positions != [] {
      var n := |positions| - 1;
      var front := Considered(positions[..n], user);
      ConsideredExactly(positions[..n], user);
      assert forall i | 0 <= i < |front| :: front[i] in front && front[i] < n;
      forall k: nat
        ensures k in Considered(positions, user) <==> k in front || (k == n && Burnable(positions[n], user))
      {
      }
    }
  }

  /** A burn, committed or aborted, keeps the ledger invariant; only an abort can leave the chain ahead. */
  lemma BurnKeepsInvariant(db: Db, chain: Chain, user: UserId, q: int, reason: string, hash: Hash, cid: string,
                           exact: bool)
    requires Inv(db, chain, NO_BURN, exact)
    ensures var a := ExecuteBurn(db, chain, user, q, reason, hash, cid);
            && Inv(db, a.chain, NO_BURN, exact && a.chain == chain)
            && (a.Success? ==> Inv(a.db, a.chain, NO_BURN, exact))
  {
    hide Inv, BurnLoop, Considered, OnlyRetires, Register;
    if BurnRefusal(db, user, q, reason).None? {
      var ks := Considered(db.positions, user);
      var st := BurnState(db, chain, q, 0, []);
      ConsideredOk(db.positions, user);
      OpenBurnStarts(db, chain, user, exact);
      LoopKeepsInvariant(st, user, ks, exact);
      match BurnLoop(st, ks) {
        case Broken(c, _) => RollbackKeepsInvariant(db, chain, c, exact);
        case Done(next) =>
          RollbackKeepsInvariant(db, chain, next.chain, exact);
          if next.remaining == 0 && Register(next.chain, hash, cid).Ok? {
            RegistryGrows(db, next.chain, hash, cid, NO_BURN, false);
            RegistryGrows(next.db, next.chain, hash, cid, Progressing(user, next), exact);
            CloseKeepsInvariant(next.db, Register(next.chain, hash, cid).value.0, Progressing(user, next), hash, exact);
          }
      }
    }
  }

  lemma OpenBurnStarts(db: Db, chain: Chain, user: UserId, exact: bool)
    requires Inv(db, chain, NO_BURN, exact)
    ensures Inv(db, chain, OpenBurn(user, 0, 0, []), exact)
  {
    assert forall u | u in db.wallets :: WalletOk(db, NO_BURN, u);
  }
}
