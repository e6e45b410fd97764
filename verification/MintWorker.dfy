/** A pass of the mint worker over a snapshot of unanchored certificates, on the registry the API uses too. */
module MintWorker {
  import opened Collections
  import opened MockChain
  import opened CustodyModel
  import opened CustodyInvariant
  import opened CustodySteps

  predicate Unanchored(h: Hec) {
    h.tx.None? && h.cid.Some? && h.status in {Pending, Minted, Custodied, Allocated}
  }

  /** Certificates that are in a lot keep their row. */
  ghost predicate LottedUntouched(a: seq<Hec>, b: seq<Hec>) {
    |a| == |b| && forall h | 0 <= h < |a| && a[h].lot.Some? :: b[h] == a[h]
  }

  /** What a pass of the worker leaves, and how many rows it registered. */
  datatype MintPass = MintPass(db: Db, chain: Chain, processed: nat)

  /** Each row in turn; a row that cannot be registered is rolled back and skipped. */
  function MintAll(db: Db, chain: Chain, rows: seq<HecId>): MintPass {
    if rows == [] then MintPass(db, chain, 0)
    else
      var n := |rows| - 1;
      var before := MintAll(db, chain, rows[..n]);
      match AnchorRow(before.db, before.chain, rows[n])
      case Success(db', c) => MintPass(db', c, before.processed + 1)
      case Failed(c, _) => MintPass(before.db, c, before.processed)
  }

  function FirstUnanchored(hecs: seq<Hec>, limit: nat): seq<HecId> {
    if hecs == [] then []
    else
      var n := |hecs| - 1;
      var front := FirstUnanchored(hecs[..n], limit);
      if |front| < limit && Unanchored(hecs[n]) then front + [n] else front
  }

  /** The oldest unanchored rows: in order, and none is passed over unless the batch is full of older ones. */
  lemma {:induction false} FirstUnanchoredOk(hecs: seq<Hec>, limit: nat)
    ensures var rows := FirstUnanchored(hecs, limit);
            && |rows| <= limit
            && (forall j | 0 <= j < |rows| ::
                  && rows[j] < |hecs| && hecs[rows[j]].tx.None? && hecs[rows[j]].cid.Some?
                  && hecs[rows[j]].status in {Pending, Minted, Custodied, Allocated})
            && (forall i, j | 0 <= i < j < |rows| :: rows[i] < rows[j])
            && (forall h | 0 <= h < |hecs| && h !in rows && hecs[h].tx.None? && hecs[h].cid.Some?
                           && hecs[h].status in {Pending, Minted, Custodied, Allocated} ::
                  |rows| == limit && forall j | 0 <= j < |rows| :: rows[j] < h)
  {
    if hecs != [] {
      FirstUnanchoredOk(hecs[..|hecs| - 1], limit);
    }
  }

  /** A pass keeps the invariant and every certificate in a lot, whatever rows it is given. */
  lemma {:induction false} MintAllKeeps(db: Db, chain: Chain, rows: seq<HecId>, exact: bool)
    requires Inv(db, chain, NO_BURN, exact)
    ensures var after := MintAll(db, chain, rows);
            Inv(after.db, after.chain, NO_BURN, exact) && LottedUntouched(db.hecs, after.db.hecs)
  {
    hide Inv, AnchorRow;
    if rows != [] {
      var n := |rows| - 1;
      var before := MintAll(db, chain, rows[..n]);
      MintAllKeeps(db, chain, rows[..n], exact);
      AnchorKeepsInvariant(before.db, before.chain, rows[n], exact);
      AnchorTouchesNoLot(before.db, before.chain, rows[n], exact);
    }
  }

  lemma AnchorTouchesNoLot(db: Db, chain: Chain, h: HecId, exact: bool)
    requires Inv(db, chain, NO_BURN, exact)
    ensures AnchorRow(db, chain, h).Success? ==> LottedUntouched(db.hecs, AnchorRow(db, chain, h).db.hecs)
  {
    hide Inv;
    InvParts(db, chain, NO_BURN, exact);
    if AnchorRow(db, chain, h).Success? {
      AnchorRowOnlyPending(db, chain, h);
    }
  }

  function HasTransaction(): Hec -> int { (h: Hec) => if h.tx.Some? then 1 else 0 }

  /** The number reported is that of the certificates that have got a transaction. */
  lemma {:induction false} PassCounts(db: Db, chain: Chain, rows: seq<HecId>, exact: bool)
    requires Inv(db, chain, NO_BURN, exact)
    ensures var after := MintAll(db, chain, rows);
            after.processed == Sum(after.db.hecs, HasTransaction()) - Sum(db.hecs, HasTransaction())
  {
    hide Inv, CertificatesOk, Sum;
    if rows != [] {
      var n := |rows| - 1;
      var before := MintAll(db, chain, rows[..n]);
      PassCounts(db, chain, rows[..n], exact);
      MintAllKeeps(db, chain, rows[..n], exact);
      InvParts(before.db, before.chain, NO_BURN, exact);
      if AnchorRow(before.db, before.chain, rows[n]).Success? {
        AnchorRowOnlyPending(before.db, before.chain, rows[n]);
        SumUpdate(before.db.hecs, rows[n], MintAll(db, chain, rows).db.hecs[rows[n]], HasTransaction());
      }
    }
  }
}
