/** Burn progress fails after an aborted burn: a concrete run. */
module AbortedBurn {
  import opened Collections
  import opened MockChain
  import opened Confidence
  import opened CustodyModel
  import opened CustodyRuns

  const SUNNY_HOUR := Reading(0, 10000, 0, 20000, 20000, None)

  /** One user buys the only certificate of a lot and burns it, but the burn's transaction rolls back. */
  const PRELUDE := [
    RegisterUser(7), IngestReading(SUNNY_HOUR), IssueCertificate(0, 1, "c", true, true),
    OpenLot([0], 2, "m", Some(10000), true), BuyHecs(7, 0, 1)]

  const THE_BURN := BurnHecs(7, 1, "offset", 3, "b", false)

  // The ledger after three, four and five operations.

  const AFTER_ISSUE := EMPTY_DB.(
    validations := [Validation(SUNNY_HOUR, Approved)],
    hecs := [Hec(0, 1, 10000, Some("c"), Some(50000001), None, Registered)],
    users := map[7 := true], wallets := map[7 := Wallet(INITIAL_BALANCE, 0, 0)])

  const AFTER_LOT := AFTER_ISSUE.(
    hecs := [Hec(0, 1, 10000, Some("c"), Some(50000001), Some(0), Custodied)],
    lots := [Lot(1, 1, 10000, Some(10000), Open, Issued, 1)])

  const AFTER_PURCHASE := AFTER_LOT.(
    hecs := [Hec(0, 1, 10000, Some("c"), Some(50000001), Some(0), Allocated)],
    lots := [Lot(1, 0, 10000, Some(10000), Closed, Issued, 1)],
    wallets := map[7 := Wallet(999900, 1, 10000)],
    transactions := [Transaction(7, 0, 1, 10000, 10000, 100, [0])],
    positions := [Position(7, 0, 0, 1, 1, 0, 10000, 10000, [0], Active)])

  const CHAIN_AFTER_ISSUE := GENESIS.(registry := map[1 := "c"], block := 50000001)

  const CHAIN_AFTER_LOT := CHAIN_AFTER_ISSUE.(
    byHash := map[2 := 1], batches := map[1 := Batch(2, "m", 0, 3600, 1000, 0, "HEC-CUSTODY-1.0", "1.0")],
    nextBatch := 2, block := 50000002)

  lemma SingletonEnergy(hecs: seq<Hec>)
    requires |hecs| == 1 && hecs[0].energy == 10000
    ensures EnergyOf(hecs, [0]) == 10000
  {
    assert Sum<nat>([0], EnergyAt(hecs)) == EnergyAt(hecs)(0) by { assert [0][..0] == []; }
  }

  lemma RunTo3()
    ensures Run(PRELUDE[..3]) == World(AFTER_ISSUE, CHAIN_AFTER_ISSUE, true)
  {
    assert PRELUDE[..1] == [] + [PRELUDE[0]];
    assert PRELUDE[..2] == PRELUDE[..1] + [PRELUDE[1]];
    assert PRELUDE[..3] == PRELUDE[..2] + [PRELUDE[2]];
    RunAppend([], PRELUDE[0]);
    RunAppend(PRELUDE[..1], PRELUDE[1]);
    RunAppend(PRELUDE[..2], PRELUDE[2]);
  }

  lemma PeriodOfTheLot()
    ensures EarliestStart(AFTER_ISSUE, [0]) == 0 && LatestEnd(AFTER_ISSUE, [0]) == 3600
  {
  }

  lemma BatchIsIssued()
    ensures IssueBatch(CHAIN_AFTER_ISSUE, 2, "m", 0, 3600, 1000, "HEC-CUSTODY-1.0", "1.0") == Ok((CHAIN_AFTER_LOT, 1))
  {
  }

  lemma LotIsStaged()
    ensures StageLot(AFTER_ISSUE, [0], Some(10000), 1) == AFTER_LOT
  {
    SingletonEnergy(AFTER_ISSUE.hecs);
    hide EnergyOf;
    assert UpdateAt(AFTER_ISSUE.hecs, [0], PutInLot(0)) == AFTER_LOT.hecs;
  }

  lemma TheRequestIsBacked()
    ensures Dedup([0]) == [0]
    ensures forall i | i in Dedup([0]) :: i < |AFTER_ISSUE.hecs| && Backed(AFTER_ISSUE.hecs[i])
  {
    assert [0][..0] == [];
    assert Dedup([0]) == [0];
  }

  lemma LotIsCreated()
    ensures CreateLot(AFTER_ISSUE, CHAIN_AFTER_ISSUE, [0], 2, "m", Some(10000)) == Success(AFTER_LOT, CHAIN_AFTER_LOT)
  {
    hide EarliestStart, LatestEnd, Dedup, IssueBatch, StageLot, Backed;
    TheRequestIsBacked();
    PeriodOfTheLot();
    BatchIsIssued();
    LotIsStaged();
  }

  lemma TheOnlyCertificate()
    ensures FirstCustodied(AFTER_LOT.hecs, 0, 1) == [0]
  {
    assert AFTER_LOT.hecs[..0] == [];
  }

  lemma OneRealPrice()
    ensures Price(10000, 10000) == 100
  {
  }

  lemma LotIsSettled()
    ensures Settle(AFTER_LOT, 7, 0, 1, [0], 10000, 10000, 100) == AFTER_PURCHASE
  {
    assert UpdateAt(AFTER_LOT.hecs, [0], SetStatus(Allocated)) == AFTER_PURCHASE.hecs;
    var db := Settle(AFTER_LOT, 7, 0, 1, [0], 10000, 10000, 100);
    assert db.wallets == AFTER_PURCHASE.wallets;
    assert db.lots == AFTER_PURCHASE.lots;
  }

  lemma LotIsBought()
    ensures Buy(AFTER_LOT, 7, 0, 1) == Ok(AFTER_PURCHASE)
  {
    hide Settle, FirstCustodied, EnergyOf, Price, UpdateAt;
    TheOnlyCertificate();
    SingletonEnergy(AFTER_LOT.hecs);
    OneRealPrice();
    LotIsSettled();
  }

  lemma RunTo5()
    ensures Run(PRELUDE) == World(AFTER_PURCHASE, CHAIN_AFTER_LOT, true)
  {
    hide CreateLot, Buy, Run;
    RunTo3();
    LotIsCreated();
    LotIsBought();
    assert PRELUDE[..4] == PRELUDE[..3] + [PRELUDE[3]];
    assert PRELUDE == PRELUDE[..4] + [PRELUDE[4]];
    RunAppend(PRELUDE[..3], PRELUDE[3]);
    RunAppend(PRELUDE[..4], PRELUDE[4]);
  }

  lemma TheUsersPositions()
    ensures Considered(AFTER_PURCHASE.positions, 7) == [0]
    ensures Sum(Considered(AFTER_PURCHASE.positions, 7), AvailAt(AFTER_PURCHASE.positions)) == 1
  {
    assert AFTER_PURCHASE.positions[..0] == [];
    assert Considered(AFTER_PURCHASE.positions, 7) == [0];
    assert Sum<nat>([0], AvailAt(AFTER_PURCHASE.positions)) == 1 by { assert [0][..0] == []; }
  }

  lemma OneTurn()
    ensures var turn := BurnStep(BurnState(AFTER_PURCHASE, CHAIN_AFTER_LOT, 1, 0, []), 0);
            && turn.Done? && turn.st.remaining == 0 && 1 in turn.st.chain.batches
            && turn.st.chain.batches[1].retiredUnits == turn.st.chain.batches[1].totalUnits == 1000
            && 3 !in turn.st.chain.registry
  {
  }

  /** The rolled-back burn retires the certificate's thousand units on chain. */
  lemma BurnReachesTheChain()
    ensures var a := ExecuteBurn(AFTER_PURCHASE, CHAIN_AFTER_LOT, 7, 1, "offset", 3, "b");
            && a.Success? && 1 in a.chain.batches && a.chain != CHAIN_AFTER_LOT
            && a.chain.batches[1].retiredUnits == a.chain.batches[1].totalUnits == 1000
  {
    hide BurnStep, Considered, Sum;
    TheUsersPositions();
    OneTurn();
    assert [0][1..] == [];
    var st := BurnState(AFTER_PURCHASE, CHAIN_AFTER_LOT, 1, 0, []);
    assert BurnLoop(st, [0]) == BurnStep(st, 0);
  }

  lemma UnitsAreGone(chain: Chain)
    requires 1 in chain.batches && chain.batches[1].retiredUnits == chain.batches[1].totalUnits == 1000
    ensures ExecuteBurn(AFTER_PURCHASE, chain, 7, 1, "offset", 4, "b") == Failed(chain, ChainRefused(InsufficientUnits))
  {
    hide Considered, Sum, Register;
    TheUsersPositions();
    var st := BurnState(AFTER_PURCHASE, chain, 1, 0, []);
    assert BurnStep(st, 0) == Broken(chain, ChainRefused(InsufficientUnits));
  }

  /**
   * After the abort the ledger still shows one certificate to burn, but the chain has already retired
   * it: the same burn, with a fresh certificate, is refused for lack of units.
   */
  lemma AbortBlocksTheBurn()
    ensures var w := Run(PRELUDE + [THE_BURN]);
            && 7 in w.db.wallets && w.db.wallets[7].hec == 1 && !w.clean
            && ExecuteBurn(w.db, w.chain, 7, 1, "offset", 4, "b") == Failed(w.chain, ChainRefused(InsufficientUnits))
  {
    hide ExecuteBurn, Run;
    RunTo5();
    RunAppend(PRELUDE, THE_BURN);
    BurnReachesTheChain();
    UnitsAreGone(Run(PRELUDE + [THE_BURN]).chain);
  }
}
