/** Any number of burns one after the other on one chain, against the single burn of their sum. */
module BurnSequences {
  import opened Collections
  import opened Rounding
  import opened MockChain
  import opened CustodyModel
  import opened CustodyInvariant
  import opened BurnAllocation
  import opened BurnOrder
  import opened BurnProgress
  import opened BurnComposition

  /** Burns one after the other, each with the digest of its certificate; the first that fails ends them. */
  function BurnAll(db: Db, chain: Chain, user: UserId, quantities: seq<int>, reason: string,
                   hashes: seq<Hash>, cid: string): Attempt
    requires |hashes| == |quantities|
  {
    if quantities == [] then Success(db, chain)
    else
      var n := |quantities| - 1;
      match BurnAll(db, chain, user, quantities[..n], reason, hashes[..n], cid)
      case Failed(c, e) => Failed(c, e)
      case Success(before, c) => ExecuteBurn(before, c, user, quantities[n], reason, hashes[n], cid)
  }

  /** The ids on burn certificates, in order. */
  function IdsOn(burns: seq<BurnCertificate>): seq<HecId> {
    if burns == [] then [] else IdsOn(burns[..|burns| - 1]) + burns[|burns| - 1].ids
  }

  // ---------------------------------------------------------------- equal but for the energy

  ghost predicate AllSameButEnergy(a: seq<Position>, b: seq<Position>) {
    |a| == |b| && forall k | 0 <= k < |a| :: SameButEnergy(a[k], b[k])
  }

  /** What a burn takes does not depend on energies. */
  lemma {:induction false} AllocationIgnoresEnergy(a: seq<Position>, b: seq<Position>, user: UserId, q: nat)
    requires AllSameButEnergy(a, b) && ListsFull(a)
    ensures var x, y := Allocate(a, user, q), Allocate(b, user, q);
            x.ids == y.ids && x.remaining == y.remaining && AllSameButEnergy(x.positions, y.positions)
  {
    hide ConsumedEnergy;
    if a != [] {
      AllocationIgnoresEnergy(a[..|a| - 1], b[..|b| - 1], user, q);
    }
  }

  lemma {:induction false} ConsideredIgnoresEnergy(a: seq<Position>, b: seq<Position>, user: UserId)
    requires AllSameButEnergy(a, b)
    ensures Considered(a, user) == Considered(b, user)
  {
    if a != [] {
      ConsideredIgnoresEnergy(a[..|a| - 1], b[..|b| - 1], user);
    }
  }

  lemma {:induction false} NeedIgnoresEnergy(a: seq<Position>, b: seq<Position>, ks: seq<nat>, want: nat, lot: nat)
    requires AllSameButEnergy(a, b)
    ensures Need(a, ks, want, lot) == Need(b, ks, want, lot)
    decreases |ks|
  {
    if ks != [] && want > 0 && ks[0] < |a| {
      NeedIgnoresEnergy(a, b, ks[1..], want - Min(want, a[ks[0]].avail), lot);
    }
  }

  lemma SameTransitive(a: seq<Position>, b: seq<Position>, c: seq<Position>)
    requires AllSameButEnergy(a, b) && AllSameButEnergy(b, c)
    ensures AllSameButEnergy(a, c)
  {
  }

  // ---------------------------------------------------------------- energy

  /** After m burns a position is within m/2 units of its share of the energy it had before them. */
  ghost predicate OnShare(before: Position, after: Position, m: nat) {
    2 * Abs(after.energyAvail * before.avail - before.energyAvail * after.avail) <= m * before.avail
  }

  lemma MoreSlack(x: int, m: nat, n: nat)
    requires x <= m * n
    ensures x <= (m + 1) * n
  {
    assert (m + 1) * n == m * n + n;
  }

  lemma ShareOfTaken(before: Position, p: Position, c: nat, m: nat)
    requires c <= p.avail == |p.ids| && p.avail <= before.avail && OnShare(before, p, m)
    ensures OnShare(before, TakeFrom(p, c), m + 1)
  {
    if c == 0 {
      MoreSlack(2 * Abs(p.energyAvail * before.avail - before.energyAvail * p.avail), m, before.avail);
    } else if c == p.avail {
      NothingLeft(before, TakeFrom(p, c), m + 1);
    } else {
      PartLeft(before, p, c, m);
    }
  }

  lemma NothingLeft(before: Position, after: Position, m: nat)
    requires after.avail == 0 && after.energyAvail == 0
    ensures OnShare(before, after, m)
  {
    MulMonotone(m, 0, before.avail);
  }

  lemma PartLeft(before: Position, p: Position, c: nat, m: nat)
    requires 0 < c < p.avail == |p.ids| && p.avail <= before.avail && OnShare(before, p, m)
    ensures OnShare(before, TakeFrom(p, c), m + 1)
  {
    DriftStep(before.avail, before.energyAvail, p.avail, p.energyAvail, c, m);
    hide Abs, RoundHalfUp;
  }

  /** An allocation takes something, or nothing, from each position. */
  lemma {:induction false} AllocationTakes(positions: seq<Position>, user: UserId, q: nat, k: nat) returns (c: nat)
    requires ListsFull(positions) && k < |positions|
    ensures |Allocate(positions, user, q).positions| == |positions|
    ensures c <= positions[k].avail && Allocate(positions, user, q).positions[k] == TakeFrom(positions[k], c)
  {
    hide TakeFrom;
    var n := |positions| - 1;
    AllocateShape(positions[..n], user, q);
    if k == n {
      c := Share(positions[n], user, Allocate(positions[..n], user, q).remaining);
    } else {
      c := AllocationTakes(positions[..n], user, q, k);
    }
  }

  ghost predicate AllOnShare(a: seq<Position>, b: seq<Position>, m: nat) {
    |a| == |b| && forall k | 0 <= k < |a| :: b[k].avail <= a[k].avail && OnShare(a[k], b[k], m)
  }

  lemma SharesOfAllocated(start: seq<Position>, positions: seq<Position>, user: UserId, q: nat, m: nat)
    requires ListsFull(positions) && AllOnShare(start, positions, m)
    ensures AllOnShare(start, Allocate(positions, user, q).positions, m + 1)
  {
    hide Allocate, OnShare, TakeFrom;
    AllocateShape(positions, user, q);
    forall k | 0 <= k < |start| ensures OnShare(start[k], Allocate(positions, user, q).positions[k], m + 1) {
      var c := AllocationTakes(positions, user, q, k);
      ShareOfTaken(start[k], positions[k], c, m);
    }
  }

  // ---------------------------------------------------------------- what burns have done

  /** The tables after m burns of `total` certificates in all. */
  ghost predicate TablesBurned(db: Db, after: Db, user: UserId, total: nat, m: nat) {
    var a := Allocate(db.positions, user, total);
    && a.remaining == 0
    && AllSameButEnergy(after.positions, a.positions)
    && after.hecs == UpdateAt(db.hecs, a.ids, SetStatus(Retired))
    && after.lots == db.lots
    && |after.burns| == |db.burns| + m && db.burns <= after.burns && IdsOn(after.burns[|db.burns|..]) == a.ids
    && user in db.wallets && user in after.wallets && after.wallets[user].hec == db.wallets[user].hec - total
  }

  /** The chain after burns of `total` certificates in all, certified under the digests. */
  ghost predicate ChainBurned(db: Db, chain: Chain, after: Chain, user: UserId, total: nat, hashes: seq<Hash>) {
    && (forall l | 0 <= l < |db.lots| :: LotBurned(db, chain, after, user, total, l))
    && (forall h :: h in after.registry <==> h in chain.registry || h in hashes)
  }

  ghost predicate LotBurned(db: Db, chain: Chain, after: Chain, user: UserId, total: nat, l: nat)
    requires l < |db.lots|
  {
    var id := db.lots[l].batch;
    && id in chain.batches && id in after.batches
    && after.batches[id].totalUnits == chain.batches[id].totalUnits
    && after.batches[id].retiredUnits
       == chain.batches[id].retiredUnits + 1000 * Need(db.positions, Considered(db.positions, user), total, l)
  }

  /** One burn registers its certificate and nothing else, and leaves the lots alone. */
  lemma BurnRegisters(db: Db, chain: Chain, user: UserId, q: nat, reason: string, hash: Hash, cid: string, exact: bool)
    requires Inv(db, chain, NO_BURN, exact) && ExecuteBurn(db, chain, user, q, reason, hash, cid).Success?
    ensures ExecuteBurn(db, chain, user, q, reason, hash, cid).chain.registry == chain.registry[hash := cid]
    ensures ExecuteBurn(db, chain, user, q, reason, hash, cid).db.lots == db.lots
  {
    hide Inv, BurnLoop, Considered, Sum, Visits;
    ConsideredOk(db.positions, user);
    OpenBurnStarts(db, chain, user, exact);
    LoopKeepsInvariant(BurnState(db, chain, q, 0, []), user, Considered(db.positions, user), exact);
  }

  lemma OneBurned(db: Db, chain: Chain, user: UserId, q: nat, reason: string, hash: Hash, cid: string, exact: bool)
    requires Inv(db, chain, NO_BURN, exact) && ExecuteBurn(db, chain, user, q, reason, hash, cid).Success?
    ensures var a := ExecuteBurn(db, chain, user, q, reason, hash, cid);
            && Inv(a.db, a.chain, NO_BURN, exact)
            && a.db.positions == Allocate(db.positions, user, q).positions
            && TablesBurned(db, a.db, user, q, 1)
            && ChainBurned(db, chain, a.chain, user, q, [hash])
  {
    hide Inv, ExecuteBurn, Considered, Need, PositionsOk, LotsOk, SameButEnergy, UpdateAt;
    var a := ExecuteBurn(db, chain, user, q, reason, hash, cid);
    InvParts(db, chain, NO_BURN, exact);
    PositionsListFull(db);
    BurnKeepsInvariant(db, chain, user, q, reason, hash, cid, exact);
    BurnAllocates(db, chain, user, q, reason, hash, cid);
    BurnRegisters(db, chain, user, q, reason, hash, cid, exact);
    forall l | 0 <= l < |db.lots| ensures LotBurned(db, chain, a.chain, user, q, l) {
      BurnRetiresNeed(db, chain, user, q, reason, hash, cid, exact, l);
    }
    SameAsItself(a.db.positions);
    OneCertificate(a.db.burns, |db.burns|);
  }

  lemma NoneTaken(positions: seq<Position>)
    ensures AllOnShare(positions, positions, 0)
  {
  }

  lemma SameAsItself(positions: seq<Position>)
    ensures AllSameButEnergy(positions, positions)
  {
  }

  lemma OneCertificate(burns: seq<BurnCertificate>, n: nat)
    requires |burns| == n + 1
    ensures IdsOn(burns[n..]) == burns[n].ids
  {
    assert burns[n..] == [burns[n]] && [burns[n]][..0] == [];
    assert [] + burns[n].ids == burns[n].ids;
  }

  // ---------------------------------------------------------------- one burn more

  lemma CertificateAppend(before: seq<BurnCertificate>, after: seq<BurnCertificate>, n: nat)
    requires n <= |before| && before < after && |after| == |before| + 1
    ensures IdsOn(after[n..]) == IdsOn(before[n..]) + after[|before|].ids
  {
    assert after[n..][..|before| - n] == before[n..];
  }

  lemma MoreTables(db: Db, before: Db, after: Db, user: UserId, x: nat, y: nat, m: nat)
    requires ListsFull(db.positions) && ListsFull(before.positions)
    requires TablesBurned(db, before, user, x, m) && TablesBurned(before, after, user, y, 1)
    requires after.positions == Allocate(before.positions, user, y).positions
    ensures TablesBurned(db, after, user, x + y, m + 1)
  {
    hide Allocate, ListsFull, SameButEnergy;
    AllocateComposes(db.positions, user, x, y);
    var first := Allocate(db.positions, user, x);
    AllocationIgnoresEnergy(before.positions, first.positions, user, y);
    UpdateTwice(db.hecs, first.ids, Allocate(before.positions, user, y).ids);
    hide UpdateAt;
    OneCertificate(after.burns, |before.burns|);
    CertificateAppend(before.burns, after.burns, |db.burns|);
    SameTransitive(after.positions, Allocate(first.positions, user, y).positions,
                   Allocate(db.positions, user, x + y).positions);
  }

  /** What is needed of a lot after some burns and before the next one. */
  lemma NeedAfter(db: Db, before: Db, user: UserId, x: nat, y: nat, m: nat, l: nat)
    requires ListsFull(db.positions) && TablesBurned(db, before, user, x, m)
    ensures Need(db.positions, Considered(db.positions, user), x + y, l)
         == Need(db.positions, Considered(db.positions, user), x, l)
            + Need(before.positions, Considered(before.positions, user), y, l)
  {
    hide Allocate, Need, Considered, ListsFull;
    var first := Allocate(db.positions, user, x).positions;
    NeedComposes(db.positions, user, x, y, l);
    ConsideredIgnoresEnergy(before.positions, first, user);
    NeedIgnoresEnergy(before.positions, first, Considered(first, user), y, l);
  }

  lemma MoreChain(db: Db, chain: Chain, before: Db, middle: Chain, after: Chain, user: UserId, x: nat, y: nat, m: nat,
                  hashes: seq<Hash>, hash: Hash)
    requires ListsFull(db.positions) && TablesBurned(db, before, user, x, m)
    requires ChainBurned(db, chain, middle, user, x, hashes) && ChainBurned(before, middle, after, user, y, [hash])
    ensures ChainBurned(db, chain, after, user, x + y, hashes + [hash])
  {
    hide TablesBurned, Need, Considered, ListsFull;
    SameLots(db, before, user, x, m);
    var total := x + y;
    forall l | 0 <= l < |db.lots| ensures LotBurned(db, chain, after, user, total, l) {
      assert LotBurned(db, chain, middle, user, x, l) && LotBurned(before, middle, after, user, y, l);
      NeedAfter(db, before, user, x, y, m, l);
    }
  }

  lemma SameLots(db: Db, before: Db, user: UserId, x: nat, m: nat)
    requires TablesBurned(db, before, user, x, m)
    ensures before.lots == db.lots
  {
  }

  // ---------------------------------------------------------------- when they all go through

  predicate Positive(quantities: seq<int>) {
    forall i | 0 <= i < |quantities| :: quantities[i] > 0
  }

  ghost predicate FreshDigests(chain: Chain, hashes: seq<Hash>) {
    NoDup(hashes) && forall h | h in hashes :: h != 0 && h !in chain.registry
  }

  /** The balance covers the burn, and the chain has the units. */
  ghost predicate Covered(db: Db, chain: Chain, user: UserId, total: int) {
    && user in db.wallets && 0 <= total <= db.wallets[user].hec
    && UnitsSuffice(db, chain, Considered(db.positions, user), total)
  }

  /** After some burns the next one is covered exactly when it was covered together with them. */
  lemma CoveredAfter(db: Db, chain: Chain, before: Db, middle: Chain, user: UserId, x: nat, y: nat, m: nat,
                     hashes: seq<Hash>)
    requires ListsFull(db.positions) && TablesBurned(db, before, user, x, m)
    requires ChainBurned(db, chain, middle, user, x, hashes)
    ensures Covered(before, middle, user, y) <==> Covered(db, chain, user, x + y)
  {
    hide Need, Considered, ListsFull, Allocate, AllSameButEnergy, IdsOn, UpdateAt;
    var ks, ks' := Considered(db.positions, user), Considered(before.positions, user);
    forall l | 0 <= l < |db.lots|
      ensures db.lots[l].batch in chain.batches && db.lots[l].batch in middle.batches
      ensures middle.batches[db.lots[l].batch].totalUnits == chain.batches[db.lots[l].batch].totalUnits
      ensures middle.batches[db.lots[l].batch].retiredUnits + UNIT_SCALE * Need(before.positions, ks', y, l)
           == chain.batches[db.lots[l].batch].retiredUnits + UNIT_SCALE * Need(db.positions, ks, x + y, l)
    {
      assert LotBurned(db, chain, middle, user, x, l);
      NeedAfter(db, before, user, x, y, m, l);
    }
  }

  /** A burn that is covered was covered in part. */
  lemma CoveredInPart(db: Db, chain: Chain, user: UserId, x: nat, y: nat)
    requires ListsFull(db.positions) && Covered(db, chain, user, x + y)
    ensures Covered(db, chain, user, x)
  {
    hide Need, Considered, ListsFull;
    var ks := Considered(db.positions, user);
    forall l | 0 <= l < |db.lots| && db.lots[l].batch in chain.batches
      ensures Need(db.positions, ks, x, l) <= Need(db.positions, ks, x + y, l)
    {
      NeedComposes(db.positions, user, x, y, l);
    }
  }

  lemma NothingCovered(db: Db, chain: Chain, user: UserId)
    requires PositionsOk(db) && WalletsOk(db, NO_BURN) && ChainOk(chain) && user in db.wallets
    ensures Covered(db, chain, user, 0)
  {
    RefusalIsBalance(db, user, 1, "offset");
    SumNonNegative(Considered(db.positions, user), AvailAt(db.positions));
    AlreadyEnough(db, chain, Considered(db.positions, user), 0);
    hide PositionsOk, WalletsOk, ChainOk, Considered, UnitsSuffice, BurnRefusal;
  }

  lemma NoTables(db: Db, user: UserId)
    requires ListsFull(db.positions) && user in db.wallets
    ensures TablesBurned(db, db, user, 0, 0)
  {
    NothingAllocated(db.positions, user);
    SameAsItself(db.positions);
    hide Allocate, AllSameButEnergy, ListsFull;
    assert UpdateAt(db.hecs, [], SetStatus(Retired)) == db.hecs;
    assert db.burns[|db.burns|..] == [];
  }

  lemma NoUnits(db: Db, chain: Chain, user: UserId)
    requires LotsOk(db, chain)
    ensures ChainBurned(db, chain, chain, user, 0, [])
  {
    hide LotsOk, Considered;
    forall l | 0 <= l < |db.lots| ensures LotBurned(db, chain, chain, user, 0, l) {
      LotHasBatch(db, chain, l);
    }
  }

  lemma NoneBurned(db: Db, chain: Chain, user: UserId, exact: bool)
    requires Inv(db, chain, NO_BURN, exact) && user in db.wallets
    ensures Covered(db, chain, user, 0)
    ensures TablesBurned(db, db, user, 0, 0) && ChainBurned(db, chain, chain, user, 0, [])
  {
    hide Inv, PositionsOk, WalletsOk, ChainOk, LotsOk, BackingOk, OccurrencesOk, CertificatesOk, TablesBurned,
         ChainBurned, Covered, ListsFull;
    InvParts(db, chain, NO_BURN, exact);
    NothingCovered(db, chain, user);
    PositionsListFull(db);
    NoTables(db, user);
    NoUnits(db, chain, user);
  }

  lemma {:induction false} NothingAllocated(positions: seq<Position>, user: UserId)
    requires ListsFull(positions)
    ensures Allocate(positions, user, 0) == Allocation(positions, [], 0)
  {
    if positions != [] {
      NothingAllocated(positions[..|positions| - 1], user);
    }
  }

  lemma NextBurnExactly(db: Db, chain: Chain, before: Db, middle: Chain, user: UserId, x: nat, y: int, m: nat,
                        reason: string, hashes: seq<Hash>, hash: Hash, cid: string, exact: bool)
    requires Inv(before, middle, NO_BURN, exact) && ListsFull(db.positions)
    requires TablesBurned(db, before, user, x, m) && ChainBurned(db, chain, middle, user, x, hashes)
    ensures ExecuteBurn(before, middle, user, y, reason, hash, cid).Success?
       <==> (&& y > 0 && ValidReason(reason) && cid != "" && Covered(db, chain, user, x + y)
             && hash != 0 && hash !in chain.registry && hash !in hashes)
  {
    hide Inv, ExecuteBurn, TablesBurned, ListsFull, LotBurned, UnitsSuffice;
    BurnSucceedsExactly(before, middle, user, y, reason, hash, cid, exact);
    if y > 0 {
      CoveredAfter(db, chain, before, middle, user, x, y, m, hashes);
    }
  }

  lemma FreshAppend(chain: Chain, hashes: seq<Hash>, hash: Hash)
    ensures FreshDigests(chain, hashes + [hash])
       <==> FreshDigests(chain, hashes) && hash != 0 && hash !in chain.registry && hash !in hashes
  {
    var all := hashes + [hash];
    assert all[|hashes|] == hash && hash in all;
    if FreshDigests(chain, all) {
      assert forall i | 0 <= i < |hashes| :: all[i] == hashes[i];
      assert forall h | h in hashes :: h in all;
    }
  }

  lemma PositiveAppend(quantities: seq<int>)
    requires quantities != []
    ensures var n := |quantities| - 1;
            Positive(quantities) <==> Positive(quantities[..n]) && quantities[n] > 0
  {
  }

  lemma {:induction false} TotalOfPositive(quantities: seq<int>)
    requires Positive(quantities)
    ensures Total(quantities) >= 0 && (quantities != [] ==> Total(quantities) > 0)
  {
    if quantities != [] {
      TotalOfPositive(quantities[..|quantities| - 1]);
    }
  }

  /** What the burns have left behind. */
  ghost predicate AllBurned(db: Db, chain: Chain, a: Attempt, user: UserId, quantities: seq<int>, hashes: seq<Hash>,
                            exact: bool)
    requires a.Success? && Positive(quantities)
  {
    TotalOfPositive(quantities);
    && Inv(a.db, a.chain, NO_BURN, exact)
    && TablesBurned(db, a.db, user, Total(quantities), |quantities|)
    && ChainBurned(db, chain, a.chain, user, Total(quantities), hashes)
  }

  /** They all go through exactly when their sum is covered, each takes something, and the digests are new. */
  lemma {:induction false} BurnAllExactly(db: Db, chain: Chain, user: UserId, quantities: seq<int>, reason: string,
                                          hashes: seq<Hash>, cid: string, exact: bool)
    requires Inv(db, chain, NO_BURN, exact) && |hashes| == |quantities|
    requires user in db.wallets && ValidReason(reason) && cid != ""
    ensures BurnAll(db, chain, user, quantities, reason, hashes, cid).Success?
       <==> Positive(quantities) && FreshDigests(chain, hashes) && Covered(db, chain, user, Total(quantities))
    ensures var a := BurnAll(db, chain, user, quantities, reason, hashes, cid);
            a.Success? ==> AllBurned(db, chain, a, user, quantities, hashes, exact)
  {
    hide Inv, ExecuteBurn, Covered, TablesBurned, ChainBurned, FreshDigests, ListsFull, PositionsOk, Positive;
    InvParts(db, chain, NO_BURN, exact);
    PositionsListFull(db);
    if quantities == [] {
      NoneBurned(db, chain, user, exact);
      NothingAsked(chain);
    } else {
      var n := |quantities| - 1;
      var front, last := quantities[..n], quantities[n];
      BurnAllExactly(db, chain, user, front, reason, hashes[..n], cid, exact);
      PositiveAppend(quantities);
      assert hashes == hashes[..n] + [hashes[n]];
      FreshAppend(chain, hashes[..n], hashes[n]);
      if Positive(front) {
        TotalOfPositive(front);
        var before := BurnAll(db, chain, user, front, reason, hashes[..n], cid);
        if before.Success? {
          NextBurnExactly(db, chain, before.db, before.chain, user, Total(front), last, n, reason,
                          hashes[..n], hashes[n], cid, exact);
          if last > 0 {
            OneBurnMore(db, chain, before, user, Total(front), last, n, reason, hashes[..n], hashes[n], cid, exact);
          }
        } else if last > 0 && Covered(db, chain, user, Total(quantities)) {
          CoveredInPart(db, chain, user, Total(front), last);
        }
      }
    }
  }

  lemma NothingAsked(chain: Chain)
    ensures Positive([]) && FreshDigests(chain, [])
  {
  }

  lemma OneBurnMore(db: Db, chain: Chain, before: Attempt, user: UserId, x: nat, y: nat, m: nat, reason: string,
                    hashes: seq<Hash>, hash: Hash, cid: string, exact: bool)
    requires before.Success? && Inv(before.db, before.chain, NO_BURN, exact) && ListsFull(db.positions)
    requires TablesBurned(db, before.db, user, x, m) && ChainBurned(db, chain, before.chain, user, x, hashes)
    ensures var a := ExecuteBurn(before.db, before.chain, user, y, reason, hash, cid);
            a.Success? ==>
              && Inv(a.db, a.chain, NO_BURN, exact)
              && TablesBurned(db, a.db, user, x + y, m + 1)
              && ChainBurned(db, chain, a.chain, user, x + y, hashes + [hash])
  {
    hide Inv, ExecuteBurn, TablesBurned, ChainBurned, ListsFull, PositionsOk;
    var a := ExecuteBurn(before.db, before.chain, user, y, reason, hash, cid);
    if a.Success? {
      InvParts(before.db, before.chain, NO_BURN, exact);
      PositionsListFull(before.db);
      OneBurned(before.db, before.chain, user, y, reason, hash, cid, exact);
      MoreTables(db, before.db, a.db, user, x, y, m);
      MoreChain(db, chain, before.db, before.chain, a.chain, user, x, y, m, hashes, hash);
    }
  }

  /** Through all of them every position stays near its share. */
  lemma {:induction false} BurnsKeepShares(db: Db, chain: Chain, user: UserId, quantities: seq<int>, reason: string,
                                           hashes: seq<Hash>, cid: string, exact: bool)
    requires Inv(db, chain, NO_BURN, exact) && |hashes| == |quantities|
    requires user in db.wallets && ValidReason(reason) && cid != ""
    ensures var a := BurnAll(db, chain, user, quantities, reason, hashes, cid);
            a.Success? ==> AllOnShare(db.positions, a.db.positions, |quantities|)
  {
    hide Inv, ExecuteBurn, AllOnShare, Covered, TablesBurned, ChainBurned, FreshDigests, ListsFull, PositionsOk;
    if quantities == [] {
      NoneTaken(db.positions);
    } else {
      var n := |quantities| - 1;
      var front, last := quantities[..n], quantities[n];
      var before := BurnAll(db, chain, user, front, reason, hashes[..n], cid);
      BurnsKeepShares(db, chain, user, front, reason, hashes[..n], cid, exact);
      BurnAllExactly(db, chain, user, front, reason, hashes[..n], cid, exact);
      if BurnAll(db, chain, user, quantities, reason, hashes, cid).Success? {
        InvParts(before.db, before.chain, NO_BURN, exact);
        PositionsListFull(before.db);
        BurnSucceedsExactly(before.db, before.chain, user, last, reason, hashes[n], cid, exact);
        OneBurned(before.db, before.chain, user, last, reason, hashes[n], cid, exact);
        SharesOfAllocated(db.positions, before.db.positions, user, last, n);
      }
    }
  }

  /** If any burn goes through, the reason is valid, the user has a wallet and the certificate can be stored. */
  lemma {:induction false} FirstOneStarts(db: Db, chain: Chain, user: UserId, quantities: seq<int>, reason: string,
                                          hashes: seq<Hash>, cid: string)
    requires quantities != [] && |hashes| == |quantities|
    requires BurnAll(db, chain, user, quantities, reason, hashes, cid).Success?
    ensures user in db.wallets && ValidReason(reason) && cid != ""
  {
    hide BurnLoop, Considered, Sum;
    var n := |quantities| - 1;
    if n > 0 {
      FirstOneStarts(db, chain, user, quantities[..n], reason, hashes[..n], cid);
    }
  }

  // ---------------------------------------------------------------- many are one

  /** The same certificates burned, in m goes and at once. */
  ghost predicate SameOutcome(db: Db, many: Attempt, one: Attempt, user: UserId, m: nat)
    requires many.Success? && one.Success?
  {
    var n := |db.burns|;
    && |many.db.burns| == n + m && |one.db.burns| == n + 1
    && IdsOn(many.db.burns[n..]) == one.db.burns[n].ids
    && many.db.hecs == one.db.hecs && many.db.lots == one.db.lots == db.lots
    && AllSameButEnergy(many.db.positions, one.db.positions)
    && user in many.db.wallets && user in one.db.wallets
    && many.db.wallets[user].hec == one.db.wallets[user].hec
    && (forall l | 0 <= l < |db.lots| :: SameRetired(many.chain, one.chain, db.lots[l].batch))
  }

  /** No position's energy differs by more than (m + 1) / 2 units. */
  ghost predicate EnergiesNear(a: seq<Position>, b: seq<Position>, m: nat) {
    |a| == |b| && forall k | 0 <= k < |a| :: 2 * Abs(a[k].energyAvail - b[k].energyAvail) <= m + 1
  }

  ghost predicate SameRetired(a: Chain, b: Chain, id: nat) {
    id in a.batches && id in b.batches && a.batches[id].retiredUnits == b.batches[id].retiredUnits
  }

  lemma TwoNear(before: Position, a: Position, b: Position, m: nat)
    requires OnShare(before, a, m) && OnShare(before, b, 1) && a.avail == b.avail <= before.avail
    requires before.avail == 0 ==> a.energyAvail == b.energyAvail
    ensures 2 * Abs(a.energyAvail - b.energyAvail) <= m + 1
  {
    if before.avail > 0 {
      NearTogether(before.avail, a.energyAvail, b.energyAvail, before.energyAvail * a.avail, m);
    }
  }

  lemma AllNear(before: seq<Position>, a: seq<Position>, b: seq<Position>, m: nat)
    requires AllOnShare(before, a, m) && AllOnShare(before, b, 1) && AllSameButEnergy(a, b) && Empty(a) && Empty(b)
    ensures EnergiesNear(a, b, m)
  {
    hide OnShare;
    forall k | 0 <= k < |a| ensures 2 * Abs(a[k].energyAvail - b[k].energyAvail) <= m + 1 {
      assert SameButEnergy(a[k], b[k]);
      TwoNear(before[k], a[k], b[k], m);
    }
  }

  /** Two numbers that are near the same quotient are near each other. */
  lemma NearTogether(n: nat, x: int, y: int, s: int, m: nat)
    requires n > 0 && 2 * Abs(x * n - s) <= m * n && 2 * Abs(y * n - s) <= 1 * n
    ensures 2 * Abs(x - y) <= m + 1
  {
    var d, k := 2 * (x - y), m + 1;
    assert n * d == 2 * (x * n) - 2 * (y * n) by { TwiceApart(n, x, y); }
    assert n * k == m * n + n by { OneMoreTimes(n, m); }
    Triangle(x * n, y * n, s, m * n, n);
    CancelFactor(n, d, k);
  }

  lemma TwiceApart(n: int, x: int, y: int)
    ensures n * (2 * (x - y)) == 2 * (x * n) - 2 * (y * n)
  {
  }

  lemma OneMoreTimes(n: int, m: int)
    ensures n * (m + 1) == m * n + n
  {
  }

  lemma Triangle(p: int, q: int, s: int, a: int, b: int)
    requires 2 * Abs(p - s) <= a && 2 * Abs(q - s) <= b
    ensures -(a + b) <= 2 * p - 2 * q <= a + b
  {
  }

  lemma OutcomesAgree(db: Db, chain: Chain, many: Attempt, one: Attempt, user: UserId, total: nat, m: nat,
                      hashes: seq<Hash>, hash: Hash)
    requires many.Success? && one.Success?
    requires TablesBurned(db, many.db, user, total, m) && ChainBurned(db, chain, many.chain, user, total, hashes)
    requires TablesBurned(db, one.db, user, total, 1) && ChainBurned(db, chain, one.chain, user, total, [hash])
    ensures SameOutcome(db, many, one, user, m) && AllSameButEnergy(many.db.positions, one.db.positions)
  {
    hide Allocate, Need, Considered, UpdateAt;
    OneCertificate(one.db.burns, |db.burns|);
    hide IdsOn;
    forall k | 0 <= k < |many.db.positions| ensures SameButEnergy(many.db.positions[k], one.db.positions[k]) {
      assert SameButEnergy(many.db.positions[k], Allocate(db.positions, user, total).positions[k]);
    }
    forall l | 0 <= l < |db.lots| ensures SameRetired(many.chain, one.chain, db.lots[l].batch) {
      assert LotBurned(db, chain, many.chain, user, total, l) && LotBurned(db, chain, one.chain, user, total, l);
    }
  }

  /** Positions without certificates have no energy. */
  ghost predicate Empty(positions: seq<Position>) {
    forall k | 0 <= k < |positions| && positions[k].avail == 0 :: positions[k].energyAvail == 0
  }

  lemma PositionsEmpty(db: Db)
    requires PositionsOk(db)
    ensures Empty(db.positions)
  {
    forall k | 0 <= k < |db.positions| && db.positions[k].avail == 0 ensures db.positions[k].energyAvail == 0 {
      assert PositionOk(db, k);
    }
  }

  /**
   * m burns against one: they all go through exactly when the burn of their sum does, each takes something
   * and their digests are new and distinct. They retire the same certificates in the same order, leave the same
   * certificate rows, positions and balance, and have retired the same units on chain; the energy left
   * in a position differs by at most (m + 1) / 2 units.
   */
  lemma ManyBurnsAreOne(db: Db, chain: Chain, user: UserId, quantities: seq<int>, reason: string,
                        hashes: seq<Hash>, hash: Hash, cid: string, exact: bool)
    requires Inv(db, chain, NO_BURN, exact) && quantities != [] && |hashes| == |quantities|
    requires hash != 0 && hash !in chain.registry
    ensures var many := BurnAll(db, chain, user, quantities, reason, hashes, cid);
            var one := ExecuteBurn(db, chain, user, Total(quantities), reason, hash, cid);
            && (many.Success? <==> Positive(quantities) && FreshDigests(chain, hashes) && one.Success?)
            && (many.Success? ==> SameOutcome(db, many, one, user, |quantities|)
                                  && EnergiesNear(many.db.positions, one.db.positions, |quantities|))
  {
    hide Inv, ExecuteBurn, TablesBurned, ChainBurned, FreshDigests, UnitsSuffice, SameOutcome, EnergiesNear,
         PositionsOk, LotsOk, ChainOk, CertificatesOk, OccurrencesOk, BackingOk, WalletsOk, BurnAll, Considered,
         AllOnShare, AllSameButEnergy, Empty;
    var many, total := BurnAll(db, chain, user, quantities, reason, hashes, cid), Total(quantities);
    BurnSucceedsExactly(db, chain, user, total, reason, hash, cid, exact);
    if many.Success? {
      FirstOneStarts(db, chain, user, quantities, reason, hashes, cid);
    }
    if user in db.wallets && ValidReason(reason) && cid != "" {
      BurnAllExactly(db, chain, user, quantities, reason, hashes, cid, exact);
      if many.Success? {
        TotalOfPositive(quantities);
        var one := ExecuteBurn(db, chain, user, total, reason, hash, cid);
        OneBurned(db, chain, user, total, reason, hash, cid, exact);
        OutcomesAgree(db, chain, many, one, user, total, |quantities|, hashes, hash);
        BurnsKeepShares(db, chain, user, quantities, reason, hashes, cid, exact);
        OneKeepsShares(db, chain, user, total, reason, hash, cid, exact);
        InvParts(many.db, many.chain, NO_BURN, exact);
        InvParts(one.db, one.chain, NO_BURN, exact);
        PositionsEmpty(many.db);
        PositionsEmpty(one.db);
        AllNear(db.positions, many.db.positions, one.db.positions, |quantities|);
      }
    }
  }

  lemma OneKeepsShares(db: Db, chain: Chain, user: UserId, q: nat, reason: string, hash: Hash, cid: string, exact: bool)
    requires Inv(db, chain, NO_BURN, exact) && ExecuteBurn(db, chain, user, q, reason, hash, cid).Success?
    ensures var a := ExecuteBurn(db, chain, user, q, reason, hash, cid);
            Inv(a.db, a.chain, NO_BURN, exact) && AllOnShare(db.positions, a.db.positions, 1)
  {
    hide Inv, ExecuteBurn, TablesBurned, ChainBurned, AllOnShare, ListsFull, PositionsOk;
    OneBurned(db, chain, user, q, reason, hash, cid, exact);
    InvParts(db, chain, NO_BURN, exact);
    PositionsListFull(db);
    NoneTaken(db.positions);
    SharesOfAllocated(db.positions, db.positions, user, q, 0);
  }

  /** The case of two: both go through exactly when the one does, both take something, and their digests are new. */
  lemma TwoBurnsAreOne(db: Db, chain: Chain, user: UserId, a: int, b: int, reason: string, hashes: (Hash, Hash, Hash),
                       cid: string, exact: bool)
    requires Inv(db, chain, NO_BURN, exact) && hashes.2 != 0 && hashes.2 !in chain.registry
    ensures var first := ExecuteBurn(db, chain, user, a, reason, hashes.0, cid);
            var one := ExecuteBurn(db, chain, user, a + b, reason, hashes.2, cid);
            (first.Success? && ExecuteBurn(first.db, first.chain, user, b, reason, hashes.1, cid).Success?)
            <==> a > 0 && b > 0 && one.Success? && FreshDigests(chain, [hashes.0, hashes.1])
    ensures var first := ExecuteBurn(db, chain, user, a, reason, hashes.0, cid);
            var one := ExecuteBurn(db, chain, user, a + b, reason, hashes.2, cid);
            first.Success? && ExecuteBurn(first.db, first.chain, user, b, reason, hashes.1, cid).Success? ==>
              var second := ExecuteBurn(first.db, first.chain, user, b, reason, hashes.1, cid);
              SameOutcome(db, second, one, user, 2) && EnergiesNear(second.db.positions, one.db.positions, 2)
  {
    hide Inv, ExecuteBurn, SameOutcome, EnergiesNear;
    var quantities, two := [a, b], [hashes.0, hashes.1];
    assert quantities[..1] == [a] && [a][..0] == [] && two[..1] == [hashes.0] && [hashes.0][..0] == [];
    ManyBurnsAreOne(db, chain, user, quantities, reason, two, hashes.2, cid, exact);
    assert Total([a]) == a;
    var first := ExecuteBurn(db, chain, user, a, reason, hashes.0, cid);
    assert BurnAll(db, chain, user, [a], reason, [hashes.0], cid) == first;
    assert first.Success? ==> BurnAll(db, chain, user, quantities, reason, two, cid)
                              == ExecuteBurn(first.db, first.chain, user, b, reason, hashes.1, cid);
  }
}
