/** Whose certificate a burn writes, under which digest, and whose events belong to it, over whole runs. */
module BurnCertificates {
  import opened Collections
  import opened MockChain
  import opened CustodyModel
  import opened CustodyInvariant
  import opened BurnAllocation
  import opened BurnOrder
  import opened CustodyRuns

  /** Burn certificates have a registered digest of their own, and the events of a burn are its user's. */
  ghost predicate Owned(db: Db, chain: Chain) {
    && (forall b | 0 <= b < |db.burns| :: db.burns[b].hash in chain.registry && db.burns[b].user in db.wallets)
    && (forall b, c | 0 <= b < c < |db.burns| :: db.burns[b].hash != db.burns[c].hash)
    && (forall i | 0 <= i < |db.events| ::
          db.events[i].burn < |db.burns| && db.events[i].user == db.burns[db.events[i].burn].user)
  }

  /** A step that leaves burns and events alone; the registry and the wallets may grow. */
  ghost predicate LeavesBurns(db: Db, chain: Chain, db': Db, chain': Chain) {
    && db'.burns == db.burns && db'.events == db.events && db.wallets.Keys <= db'.wallets.Keys
    && chain.registry.Keys <= chain'.registry.Keys
  }

  lemma LeavingKeepsOwned(db: Db, chain: Chain, db': Db, chain': Chain)
    requires Owned(db, chain) && LeavesBurns(db, chain, db', chain')
    ensures Owned(db', chain')
  {
  }

  /** The loop adds events of this burn and this user only. */
  ghost predicate OneUsersEvents(before: seq<RetirementEvent>, after: seq<RetirementEvent>, burn: nat, user: UserId) {
    before <= after && forall i | |before| <= i < |after| :: after[i].burn == burn && after[i].user == user
  }

  ghost predicate AllOf(positions: seq<Position>, user: UserId, ks: seq<nat>) {
    forall k | k in ks && k < |positions| :: positions[k].user == user
  }

  lemma {:induction false} LoopAddsEvents(st: BurnState, user: UserId, ks: seq<nat>)
    requires AllOf(st.db.positions, user, ks)
    ensures match BurnLoop(st, ks)
            case Broken(c, _) => c.registry == st.chain.registry
            case Done(next) =>
              && next.chain.registry == st.chain.registry
              && OneUsersEvents(st.db.events, next.db.events, |st.db.burns|, user)
    decreases |ks|
  {
    hide ConsumedEnergy;
    if ks != [] && st.remaining > 0 {
      assert ks[0] in ks && forall k | k in ks[1..] :: k in ks;
      match BurnStep(st, ks[0])
      case Broken(_, _) =>
      case Done(next) => LoopAddsEvents(next, user, ks[1..]);
    }
  }

  /** A burn writes one certificate, for who asks for it and under its digest, and events of this user only. */
  lemma BurnKeepsOwned(db: Db, chain: Chain, u: UserId, q: int, reason: string, hash: Hash, cid: string)
    requires PositionsOk(db) && Owned(db, chain)
    ensures var a := ExecuteBurn(db, chain, u, q, reason, hash, cid);
            Owned(db, a.chain) && (a.Success? ==> Owned(a.db, a.chain))
  {
    hide PositionsOk, BurnLoop, Considered, Sum;
    var a := ExecuteBurn(db, chain, u, q, reason, hash, cid);
    if BurnRefusal(db, u, q, reason).None? {
      var ks, st := Considered(db.positions, u), BurnState(db, chain, q, 0, []);
      ConsideredOk(db.positions, u);
      LoopAddsEvents(st, u, ks);
      LeavingKeepsOwned(db, chain, db, a.chain);
      if a.Success? {
        PositionsListFull(db);
        BurnAllocates(db, chain, u, q, reason, hash, cid);
        CertificateAdded(db, chain, a.db, a.chain, u, hash);
      }
    }
  }

  lemma CertificateAdded(db: Db, chain: Chain, after: Db, chain': Chain, user: UserId, hash: Hash)
    requires Owned(db, chain) && db.burns < after.burns && |after.burns| == |db.burns| + 1
    requires after.burns[|db.burns|].user == user && after.burns[|db.burns|].hash == hash && user in after.wallets
    requires db.wallets.Keys <= after.wallets.Keys
    requires hash !in chain.registry && chain'.registry.Keys == chain.registry.Keys + {hash}
    requires OneUsersEvents(db.events, after.events, |db.burns|, user)
    ensures Owned(after, chain')
  {
    forall b, c | 0 <= b < c < |after.burns| ensures after.burns[b].hash != after.burns[c].hash {
      assert after.burns[b] == db.burns[b];
    }
    assert forall i | 0 <= i < |db.events| :: after.events[i] == db.events[i];
  }

  lemma OtherStepsLeaveBurns(w: World, op: Op)
    requires !op.BurnHecs?
    ensures LeavesBurns(w.db, w.chain, Apply(w, op).db, Apply(w, op).chain)
  {
    hide Dedup, EarliestStart, LatestEnd, EnergyOf, FirstCustodied, Price, Backed;
  }

  /**
   * After any run: digests of burn certificates are registered, each once, and every retirement event belongs
   * to a burn certificate of its user.
   */
  lemma {:induction false} CertificatesAreOwned(ops: seq<Op>)
    ensures Owned(Run(ops).db, Run(ops).chain)
  {
    hide Owned, LeavesBurns, Apply, ExecuteBurn;
    if ops == [] {
      NothingOwned();
    } else {
      var front, op := ops[..|ops| - 1], ops[|ops| - 1];
      var w := Run(front);
      CertificatesAreOwned(front);
      if op.BurnHecs? {
        ReachableInvariant(front);
        InvParts(w.db, w.chain, NO_BURN, w.clean);
        BurnKeepsOwned(w.db, w.chain, op.user, op.quantity, op.reason, op.hash, op.cid);
        BurnApplied(w, op);
      } else {
        OtherStepsLeaveBurns(w, op);
        LeavingKeepsOwned(w.db, w.chain, Apply(w, op).db, Apply(w, op).chain);
      }
    }
  }

  lemma BurnApplied(w: World, op: Op)
    requires op.BurnHecs?
    ensures var a := ExecuteBurn(w.db, w.chain, op.user, op.quantity, op.reason, op.hash, op.cid);
            Apply(w, op).chain == a.chain && Apply(w, op).db == if a.Success? && op.commit then a.db else w.db
  {
    hide ExecuteBurn;
  }

  lemma NothingOwned()
    ensures Owned(Run([]).db, Run([]).chain)
  {
  }
}
