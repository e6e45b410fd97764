/** When a burn goes through: exactly when the chain still holds enough unretired units. */
module BurnProgress {
  import opened Collections
  import opened MockChain
  import opened CustodyModel
  import opened CustodyInvariant
  import opened BurnAllocation

  /** Certificates of `lot` among the `want` that a burn takes from the positions `ks`, in order. */
  function Need(positions: seq<Position>, ks: seq<nat>, want: nat, lot: nat): nat
    decreases |ks|
  {
    if ks == [] || want == 0 || ks[0] >= |positions| then 0
    else
      var c := Min(want, positions[ks[0]].avail);
      (if positions[ks[0]].lot == lot then c else 0) + Need(positions, ks[1..], want - c, lot)
  }

  /** Every lot's batch has as many unretired units as a burn of `want` certificates would take. */
  ghost predicate UnitsSuffice(db: Db, chain: Chain, ks: seq<nat>, want: nat) {
    forall l | 0 <= l < |db.lots| && db.lots[l].batch in chain.batches ::
      chain.batches[db.lots[l].batch].retiredUnits + UNIT_SCALE * Need(db.positions, ks, want, l)
        <= chain.batches[db.lots[l].batch].totalUnits
  }

  lemma {:induction false} NeedFrame(a: seq<Position>, b: seq<Position>, ks: seq<nat>, want: nat, lot: nat)
    requires |a| == |b| && forall k | k in ks && k < |a| :: a[k] == b[k]
    ensures Need(a, ks, want, lot) == Need(b, ks, want, lot)
    decreases |ks|
  {
    if ks != [] && want > 0 && ks[0] < |a| {
      assert ks[0] in ks;
      NeedFrame(a, b, ks[1..], want - Min(want, a[ks[0]].avail), lot);
    }
  }

  /** One turn trades a lot's need for retired units one for one. */
  lemma StepTradesNeed(st: BurnState, user: UserId, ks: seq<nat>)
    requires ks != [] && st.remaining > 0 && Visits(st.db.positions, user, ks)
    requires PositionsOk(st.db) && LotsOk(st.db, st.chain) && ChainOk(st.chain)
    ensures BurnStep(st, ks[0]).Broken? ==> !UnitsSuffice(st.db, st.chain, ks, st.remaining)
    ensures BurnStep(st, ks[0]).Done? ==>
              var next := BurnStep(st, ks[0]).st;
              UnitsSuffice(st.db, st.chain, ks, st.remaining)
                == UnitsSuffice(next.db, next.chain, ks[1..], next.remaining)
  {
    hide ConsumedEnergy, PositionOk, LotOk;
    StepReady(st, user, ks);
    var k := ks[0];
    var p := st.db.positions[k];
    var c := Min(st.remaining, p.avail);
    if BurnStep(st, k).Broken? {
      assert Need(st.db.positions, ks, st.remaining, p.lot) >= c;
    } else {
      var next := BurnStep(st, k).st;
      assert forall i | i in ks[1..] :: i in ks && i != k;
      forall l | 0 <= l < |st.db.lots| && st.db.lots[l].batch in st.chain.batches
        ensures st.db.lots[l].batch in next.chain.batches
        ensures next.chain.batches[st.db.lots[l].batch].retiredUnits
                  + UNIT_SCALE * Need(next.db.positions, ks[1..], next.remaining, l)
             == st.chain.batches[st.db.lots[l].batch].retiredUnits
                  + UNIT_SCALE * Need(st.db.positions, ks, st.remaining, l)
      {
        NeedFrame(st.db.positions, next.db.positions, ks[1..], next.remaining, l);
      }
    }
  }

  /**
   * The allocation loop goes through exactly when the units suffice, and the chain's refusal is the
   * only way it can stop: no missing batch, no short id list.
   */
  lemma {:induction false} LoopSucceedsExactly(st: BurnState, user: UserId, ks: seq<nat>, exact: bool)
    requires Inv(st.db, st.chain, Progressing(user, st), exact) && Visits(st.db.positions, user, ks)
    ensures BurnLoop(st, ks).Done? <==> UnitsSuffice(st.db, st.chain, ks, st.remaining)
    ensures BurnLoop(st, ks).Broken? ==> BurnLoop(st, ks).error == ChainRefused(InsufficientUnits)
    decreases |ks|
  {
    hide Inv, Visits, PositionsOk, LotsOk, ChainOk, BurnStep;
    InvParts(st.db, st.chain, Progressing(user, st), exact);
    if ks == [] || st.remaining == 0 {
      AlreadyEnough(st.db, st.chain, ks, st.remaining);
    } else {
      StepKeeps(st, user, ks, exact);
      StepTradesNeed(st, user, ks);
      StepReady(st, user, ks);
      if BurnStep(st, ks[0]).Done? {
        LoopSucceedsExactly(BurnStep(st, ks[0]).st, user, ks[1..], exact);
      }
    }
  }

  lemma AlreadyEnough(db: Db, chain: Chain, ks: seq<nat>, want: nat)
    requires ChainOk(chain) && (ks == [] || want == 0)
    ensures UnitsSuffice(db, chain, ks, want)
  {
  }

  /** After one visit the remaining positions still hold what they held. */
  lemma StepLeavesRest(st: BurnState, user: UserId, ks: seq<nat>)
    requires ks != [] && st.remaining > 0 && Visits(st.db.positions, user, ks) && BurnStep(st, ks[0]).Done?
    ensures var next := BurnStep(st, ks[0]).st;
            && Visits(next.db.positions, user, ks[1..])
            && Sum<nat>(ks[1..], AvailAt(next.db.positions)) == Sum<nat>(ks[1..], AvailAt(st.db.positions))
  {
    hide ConsumedEnergy, RetireBatch, UpdateAt, LotOk, PositionOk;
    var rest: seq<nat> := ks[1..];
    var next := BurnStep(st, ks[0]).st;
    assert ks[0] in ks;
    forall i | 0 <= i < |rest|
      ensures rest[i] < |st.db.positions| == |next.db.positions|
      ensures next.db.positions[rest[i]] == st.db.positions[rest[i]]
    {
      assert rest[i] in ks && rest[i] == ks[i + 1];
    }
    SumEqual<nat, nat>(rest, rest, AvailAt(st.db.positions), AvailAt(next.db.positions));
    assert forall i | i in rest :: i in ks;
  }

  lemma SumHead(ks: seq<nat>, f: nat -> int)
    requires ks != []
    ensures Sum<nat>(ks, f) == f(ks[0]) + Sum<nat>(ks[1..], f)
  {
    assert ks == [ks[0]] + ks[1..];
    SumConcat<nat>([ks[0]], ks[1..], f);
    SumAppend<nat>([], ks[0], f);
    assert [] + [ks[0]] == [ks[0]];
  }

  /** The loop ends with nothing left over when the visited positions hold enough. */
  lemma {:induction false} LoopLeavesNothing(st: BurnState, user: UserId, ks: seq<nat>)
    requires Visits(st.db.positions, user, ks) && BurnLoop(st, ks).Done?
    requires Sum(ks, AvailAt(st.db.positions)) >= st.remaining
    ensures BurnLoop(st, ks).st.remaining == 0
    decreases |ks|
  {
    hide ConsumedEnergy, RetireBatch, UpdateAt, LotOk, PositionOk;
    if ks != [] && st.remaining > 0 {
      SumHead(ks, AvailAt(st.db.positions));
      assert ks[0] in ks;
      var next := BurnStep(st, ks[0]).st;
      StepLeavesRest(st, user, ks);
      if next.remaining > 0 {
        LoopLeavesNothing(next, user, ks[1..]);
      }
    }
  }

  // ---------------------------------------------------------------- the inventory guard

  lemma {:induction false} ConsideredTotal(positions: seq<Position>, user: UserId)
    requires forall k | 0 <= k < |positions| :: positions[k].status == Exhausted <==> positions[k].avail == 0
    ensures Sum(Considered(positions, user), AvailAt(positions)) == Sum(positions, AvailOf(user))
  {
    if positions != [] {
      var n: nat := |positions| - 1;
      var front := Considered(positions[..n], user);
      ConsideredTotal(positions[..n], user);
      assert Sum(front, AvailAt(positions)) == Sum(front, AvailAt(positions[..n])) by {
        hide Considered, Burnable;
        ConsideredOk(positions[..n], user);
        forall i | 0 <= i < |front| ensures AvailAt(positions)(front[i]) == AvailAt(positions[..n])(front[i]) {
          assert front[i] in front;
        }
        SumEqual<nat, nat>(front, front, AvailAt(positions[..n]), AvailAt(positions));
      }
      SumAppend<nat>(front, n, AvailAt(positions));
      assert Sum(Considered(positions, user), AvailAt(positions))
          == Sum(front, AvailAt(positions)) + AvailOf(user)(positions[n]);
    }
  }

  /** A balance never promises more than the positions hold, so that guard of the burn never fires. */
  lemma RefusalIsBalance(db: Db, user: UserId, q: int, reason: string)
    requires PositionsOk(db) && WalletsOk(db, NO_BURN)
    ensures BurnRefusal(db, user, q, reason).None?
       <==> q > 0 && ValidReason(reason) && user in db.wallets && q <= db.wallets[user].hec
    ensures BurnRefusal(db, user, q, reason) != Some(InsufficientInventory)
    ensures user in db.wallets ==>
              Sum(Considered(db.positions, user), AvailAt(db.positions)) == db.wallets[user].hec
  {
    if user in db.wallets {
      forall k | 0 <= k < |db.positions|
        ensures db.positions[k].status == Exhausted <==> db.positions[k].avail == 0
      {
        assert PositionOk(db, k);
      }
      ConsideredTotal(db.positions, user);
      assert WalletOk(db, NO_BURN, user);
    }
  }

  /** Exactly when a burn is committed, in any state that satisfies the ledger invariant. */
  lemma BurnSucceedsExactly(db: Db, chain: Chain, user: UserId, q: int, reason: string, hash: Hash, cid: string,
                            exact: bool)
    requires Inv(db, chain, NO_BURN, exact)
    ensures ExecuteBurn(db, chain, user, q, reason, hash, cid).Success?
       <==> (&& q > 0 && reason in {"offset", "retirement", "voluntary"}
             && user in db.wallets && q <= db.wallets[user].hec
             && UnitsSuffice(db, chain, Considered(db.positions, user), q)
             && hash != 0 && cid != "" && hash !in chain.registry)
    ensures var a := ExecuteBurn(db, chain, user, q, reason, hash, cid);
            a.Failed? ==> a.error !in {MissingBatch, TooFewSourceIds, InsufficientInventory, LeftoverRemaining}
  {
    hide Inv, BurnLoop, Considered, UnitsSuffice, ChainOk, PositionsOk, LotsOk, WalletsOk,
         CertificatesOk, OccurrencesOk, BackingOk;
    InvParts(db, chain, NO_BURN, exact);
    RefusalIsBalance(db, user, q, reason);
    if BurnRefusal(db, user, q, reason).None? {
      var ks := Considered(db.positions, user);
      var st := BurnState(db, chain, q, 0, []);
      ConsideredOk(db.positions, user);
      OpenBurnStarts(db, chain, user, exact);
      LoopSucceedsExactly(st, user, ks, exact);
      LoopKeepsInvariant(st, user, ks, exact);
      if BurnLoop(st, ks).Done? {
        LoopLeavesNothing(st, user, ks);
      }
    }
  }

  // ---------------------------------------------------------------- without aborted burns

  function AvailIn(lot: nat): Position -> int { (p: Position) => if p.lot == lot then p.avail else 0 }

  /** A burn never needs more of a lot than all positions together hold of it. */
  lemma {:induction false} NeedAtMostHeld(positions: seq<Position>, ks: seq<nat>, want: nat, lot: nat)
    requires NoDup(ks) && forall k | k in ks :: k < |positions|
    ensures Need(positions, ks, want, lot) <= Sum(positions, AvailIn(lot))
    decreases |ks|
  {
    SumNonNegative(positions, AvailIn(lot));
    if ks != [] && want > 0 {
      var k := ks[0];
      assert k in ks;
      var c := Min(want, positions[k].avail);
      var p := positions[k].(avail := 0);
      assert forall i | i in ks[1..] :: i in ks && i != k;
      NeedFrame(positions, positions[k := p], ks[1..], want - c, lot);
      NeedAtMostHeld(positions[k := p], ks[1..], want - c, lot);
      SumUpdate(positions, k, p, AvailIn(lot));
    }
  }

  /** In a run without aborted burns the units always suffice: each guard of the burn follows from the balance. */
  lemma CleanUnitsSuffice(db: Db, chain: Chain, user: UserId, want: nat)
    requires Inv(db, chain, NO_BURN, true)
    ensures UnitsSuffice(db, chain, Considered(db.positions, user), want)
  {
    var ks := Considered(db.positions, user);
    ConsideredOk(db.positions, user);
    forall l | 0 <= l < |db.lots| && db.lots[l].batch in chain.batches
      ensures chain.batches[db.lots[l].batch].retiredUnits + UNIT_SCALE * Need(db.positions, ks, want, l)
                <= chain.batches[db.lots[l].batch].totalUnits
    {
      assert LotOk(db, chain, l);
      NeedAtMostHeld(db.positions, ks, want, l);
      forall k | 0 <= k < |db.positions|
        ensures QuantityIn(l)(db.positions[k]) == AvailIn(l)(db.positions[k]) + RetiredIn(l)(db.positions[k])
      {
        assert PositionOk(db, k);
      }
      SumAdd(db.positions, QuantityIn(l), AvailIn(l), RetiredIn(l));
    }
  }
}
