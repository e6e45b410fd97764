/** What a committed burn leaves of the positions, what it needs of each lot, and what the chain retires for it. */
module BurnComposition {
  import opened Collections
  import opened MockChain
  import opened CustodyModel
  import opened CustodyInvariant
  import opened BurnAllocation
  import opened BurnOrder
  import opened BurnProgress

  // ---------------------------------------------------------------- oldest first

  ghost predicate InRange(positions: seq<Position>, ks: seq<nat>) {
    forall j | 0 <= j < |ks| :: ks[j] < |positions|
  }

  /** Of the positions `ks`: an exhausted prefix, one that still holds something, and an untouched rest. */
  ghost predicate CutAt(before: seq<Position>, after: seq<Position>, ks: seq<nat>, c: nat)
    requires |after| == |before| && InRange(before, ks)
  {
    && c <= |ks|
    && (forall j | 0 <= j < c :: after[ks[j]].avail == 0 && after[ks[j]].status == Exhausted)
    && (c < |ks| ==> after[ks[c]].avail > 0)
    && (forall j | c < j < |ks| :: after[ks[j]] == before[ks[j]])
  }

  lemma {:induction false} FirstLeft(after: seq<Position>, ks: seq<nat>, from: nat) returns (c: nat)
    requires from <= |ks| && InRange(after, ks)
    ensures from <= c <= |ks|
    ensures forall j | from <= j < c :: after[ks[j]].avail == 0
    ensures c < |ks| ==> after[ks[c]].avail > 0
    decreases |ks| - from
  {
    c := from;
    if from < |ks| && after[ks[from]].avail == 0 {
      c := FirstLeft(after, ks, from + 1);
    }
  }

  lemma ConsideredInRange(positions: seq<Position>, user: UserId)
    ensures InRange(positions, Considered(positions, user))
  {
    ConsideredOk(positions, user);
    VisitsInRange(positions, user, Considered(positions, user));
  }

  lemma VisitsInRange(positions: seq<Position>, user: UserId, ks: seq<nat>)
    requires Visits(positions, user, ks)
    ensures InRange(positions, ks)
  {
    forall j | 0 <= j < |ks| ensures ks[j] < |positions| {
      assert ks[j] in ks;
    }
  }

  ghost predicate UsedFromOldest(before: seq<Position>, after: seq<Position>, ks: seq<nat>)
    requires InRange(before, ks)
  {
    && |after| == |before|
    && (forall k | 0 <= k < |before| && k !in ks :: after[k] == before[k])
    && exists c :: CutAt(before, after, ks, c)
  }

  lemma AllocationIsCut(before: seq<Position>, user: UserId, q: nat)
    requires ListsFull(before)
    ensures InRange(before, Considered(before, user))
    ensures UsedFromOldest(before, Allocate(before, user, q).positions, Considered(before, user))
  {
    var after, ks := Allocate(before, user, q).positions, Considered(before, user);
    ConsideredInRange(before, user);
    ConsideredExactly(before, user);
    AllocateShape(before, user, q);
    hide Allocate, Considered, Burnable, ListsFull;
    var c := FirstLeft(after, ks, 0);
    forall j | 0 <= j < c ensures after[ks[j]].avail == 0 && after[ks[j]].status == Exhausted {
      assert ks[j] in ks;
      StatusFollows(before, user, q, ks[j]);
    }
    forall j | c < j < |ks| ensures after[ks[j]] == before[ks[j]] {
      assert ks[c] in ks && ks[j] in ks;
      OldestFirst(before, user, q, ks[c], ks[j]);
    }
    assert CutAt(before, after, ks, c);
  }

  /** A committed burn uses its positions up from the oldest on, and touches no other. */
  lemma BurnIsOldestFirst(db: Db, chain: Chain, user: UserId, q: nat, reason: string, hash: Hash, cid: string)
    requires PositionsOk(db) && ExecuteBurn(db, chain, user, q, reason, hash, cid).Success?
    ensures InRange(db.positions, Considered(db.positions, user))
    ensures UsedFromOldest(db.positions, ExecuteBurn(db, chain, user, q, reason, hash, cid).db.positions,
                           Considered(db.positions, user))
  {
    hide ExecuteBurn, PositionsOk, UsedFromOldest, Allocate, Considered;
    PositionsListFull(db);
    BurnAllocates(db, chain, user, q, reason, hash, cid);
    AllocationIsCut(db.positions, user, q);
  }

  // ---------------------------------------------------------------- what the allocation needs

  /** What is left of `want` after the positions `ks` have given what they can. */
  function Unmet(positions: seq<Position>, ks: seq<nat>, want: nat): nat
    decreases |ks|
  {
    if ks == [] || want == 0 || ks[0] >= |positions| then want
    else Unmet(positions, ks[1..], want - Min(want, positions[ks[0]].avail))
  }

  lemma {:induction false} NeedAppend(positions: seq<Position>, ks: seq<nat>, k: nat, want: nat, lot: nat)
    requires k < |positions| && forall i | i in ks :: i < |positions|
    ensures var c := Min(Unmet(positions, ks, want), positions[k].avail);
            && Need(positions, ks + [k], want, lot)
               == Need(positions, ks, want, lot) + (if positions[k].lot == lot then c else 0)
            && Unmet(positions, ks + [k], want) == Unmet(positions, ks, want) - c
    decreases |ks|
  {
    if ks == [] {
      assert [k][1..] == [];
    } else if want > 0 {
      assert ks[0] in ks && (ks + [k])[0] == ks[0] && (ks + [k])[1..] == ks[1..] + [k];
      assert forall i | i in ks[1..] :: i in ks;
      NeedAppend(positions, ks[1..], k, want - Min(want, positions[ks[0]].avail), lot);
    }
  }

  /** Only the listed positions matter. */
  lemma {:induction false} NeedPrefix(positions: seq<Position>, n: nat, ks: seq<nat>, want: nat, lot: nat)
    requires n <= |positions| && forall i | i in ks :: i < n
    ensures Need(positions, ks, want, lot) == Need(positions[..n], ks, want, lot)
    ensures Unmet(positions, ks, want) == Unmet(positions[..n], ks, want)
    decreases |ks|
  {
    if ks != [] && want > 0 {
      assert ks[0] in ks && forall i | i in ks[1..] :: i in ks;
      NeedPrefix(positions, n, ks[1..], want - Min(want, positions[ks[0]].avail), lot);
    }
  }

  /** The allocation retires of each lot what the burn needs of it. */
  lemma {:induction false} AllocationRetiresNeed(positions: seq<Position>, user: UserId, q: nat, lot: nat)
    requires ListsFull(positions)
    ensures var a := Allocate(positions, user, q);
            && Unmet(positions, Considered(positions, user), q) == a.remaining
            && Sum(a.positions, RetiredIn(lot))
               == Sum(positions, RetiredIn(lot)) + Need(positions, Considered(positions, user), q, lot)
  {
    if positions != [] {
      var n := |positions| - 1;
      var front, p := positions[..n], positions[n];
      AllocationRetiresNeed(front, user, q, lot);
      var ks := Considered(front, user);
      ConsideredExactly(front, user);
      NeedPrefix(positions, n, ks, q, lot);
      NeedAppend(positions, ks, n, q, lot);
      var c := Share(p, user, Allocate(front, user, q).remaining);
      TakenRetires(p, c, lot);
      SumAppend(Allocate(front, user, q).positions, TakeFrom(p, c), RetiredIn(lot));
      hide TakeFrom;
    }
  }

  lemma TakenRetires(p: Position, c: nat, lot: nat)
    requires c <= p.avail == |p.ids|
    ensures RetiredIn(lot)(TakeFrom(p, c)) == RetiredIn(lot)(p) + if p.lot == lot then c else 0
  {
    hide ConsumedEnergy;
  }

  /** Needs add up over two burns. */
  lemma NeedComposes(positions: seq<Position>, user: UserId, a: nat, b: nat, lot: nat)
    requires ListsFull(positions)
    ensures var first := Allocate(positions, user, a).positions;
            Need(positions, Considered(positions, user), a + b, lot)
            == Need(positions, Considered(positions, user), a, lot) + Need(first, Considered(first, user), b, lot)
  {
    hide Allocate, Need, Considered;
    var first := Allocate(positions, user, a).positions;
    AllocateShape(positions, user, a);
    AllocateComposes(positions, user, a, b);
    AllocationRetiresNeed(positions, user, a, lot);
    AllocationRetiresNeed(first, user, b, lot);
    AllocationRetiresNeed(positions, user, a + b, lot);
    SumEqual(Allocate(first, user, b).positions, Allocate(positions, user, a + b).positions,
             RetiredIn(lot), RetiredIn(lot));
  }

  // ---------------------------------------------------------------- what the chain retires

  /** The chain after a loop that ends has retired of each lot what was needed of it. */
  lemma {:induction false} LoopRetiresNeed(st: BurnState, user: UserId, ks: seq<nat>, exact: bool, l: nat)
    requires Inv(st.db, st.chain, Progressing(user, st), exact) && Visits(st.db.positions, user, ks)
    requires BurnLoop(st, ks).Done? && l < |st.db.lots|
    ensures var id, after := st.db.lots[l].batch, BurnLoop(st, ks).st.chain;
            && id in st.chain.batches && id in after.batches
            && after.batches[id].totalUnits == st.chain.batches[id].totalUnits
            && after.batches[id].retiredUnits
               == st.chain.batches[id].retiredUnits + UNIT_SCALE * Need(st.db.positions, ks, st.remaining, l)
    decreases |ks|
  {
    hide Inv, PositionsOk, LotsOk, ChainOk, BurnStep, Visits;
    InvParts(st.db, st.chain, Progressing(user, st), exact);
    LotHasBatch(st.db, st.chain, l);
    if ks != [] && st.remaining > 0 {
      StepReady(st, user, ks);
      StepKeeps(st, user, ks, exact);
      StepRetires(st, user, ks, l);
      LoopRetiresNeed(BurnStep(st, ks[0]).st, user, ks[1..], exact, l);
    }
  }

  lemma LotHasBatch(db: Db, chain: Chain, l: nat)
    requires LotsOk(db, chain) && l < |db.lots|
    ensures db.lots[l].batch in chain.batches
  {
    assert LotOk(db, chain, l);
  }

  /** One turn: what the chain retires of a lot and what is still needed of it make the same sum. */
  lemma StepRetires(st: BurnState, user: UserId, ks: seq<nat>, l: nat)
    requires ks != [] && st.remaining > 0 && Visits(st.db.positions, user, ks)
    requires PositionsOk(st.db) && LotsOk(st.db, st.chain) && ChainOk(st.chain)
    requires BurnStep(st, ks[0]).Done? && l < |st.db.lots|
    ensures var id, next := st.db.lots[l].batch, BurnStep(st, ks[0]).st;
            && next.db.lots == st.db.lots && id in st.chain.batches && id in next.chain.batches
            && next.chain.batches[id].totalUnits == st.chain.batches[id].totalUnits
            && next.chain.batches[id].retiredUnits + UNIT_SCALE * Need(next.db.positions, ks[1..], next.remaining, l)
               == st.chain.batches[id].retiredUnits + UNIT_SCALE * Need(st.db.positions, ks, st.remaining, l)
  {
    hide ConsumedEnergy, PositionOk, LotOk;
    LotHasBatch(st.db, st.chain, l);
    StepReady(st, user, ks);
    var next := BurnStep(st, ks[0]).st;
    assert forall i | i in ks[1..] :: i in ks && i != ks[0];
    NeedFrame(st.db.positions, next.db.positions, ks[1..], next.remaining, l);
  }

  /** A committed burn leaves the lots alone, and the chain has retired of each what was needed. */
  lemma BurnRetiresNeed(db: Db, chain: Chain, user: UserId, q: nat, reason: string, hash: Hash, cid: string,
                        exact: bool, l: nat)
    requires Inv(db, chain, NO_BURN, exact) && ExecuteBurn(db, chain, user, q, reason, hash, cid).Success?
    requires l < |db.lots|
    ensures var a, id := ExecuteBurn(db, chain, user, q, reason, hash, cid), db.lots[l].batch;
            && a.db.lots == db.lots && id in chain.batches && id in a.chain.batches
            && a.chain.batches[id].totalUnits == chain.batches[id].totalUnits
            && a.chain.batches[id].retiredUnits
               == chain.batches[id].retiredUnits + 1000 * Need(db.positions, Considered(db.positions, user), q, l)
  {
    hide Inv, BurnLoop, Considered, Sum, Need, Visits;
    var ks, st := Considered(db.positions, user), BurnState(db, chain, q, 0, []);
    ConsideredOk(db.positions, user);
    OpenBurnStarts(db, chain, user, exact);
    LoopKeepsInvariant(st, user, ks, exact);
    LoopRetiresNeed(st, user, ks, exact, l);
  }
}
