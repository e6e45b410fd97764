/**
 * The mint worker as a process of its own. The in-memory provider lives in one process, so such a worker
 * asks a registry that does not know what the API has registered. When does a certificate in a lot
 * keep its status?
 */
module WorkerRegistry {
  import opened Collections
  import opened MockChain
  import opened Confidence
  import opened CustodyModel
  import opened CustodyInvariant
  import opened CustodySteps
  import opened TradeSteps
  import opened CustodyRuns
  import opened MintWorker

  // ---------------------------------------------------------------- what a certificate row looks like

  /** Anchored rows can be registered again; lotted rows are anchored; unlotted ones are pending or registered. */
  predicate RowShape(h: Hec) {
    && (h.tx.Some? ==> h.hash != 0 && h.cid.Some? && h.cid.value != "")
    && (h.lot.Some? ==> h.tx.Some? && Rank(h.status) >= 2)
    && (h.lot.None? ==> h.status == if h.tx.Some? then Registered else Pending)
  }

  ghost predicate Lotted(hecs: seq<Hec>, ids: seq<HecId>) {
    forall i | i in ids :: i < |hecs| && hecs[i].lot.Some?
  }

  /** What the ledger's own tables guarantee whichever registry anybody asks. */
  ghost predicate ShapeOk(db: Db) {
    && (forall h | 0 <= h < |db.hecs| :: RowShape(db.hecs[h]))
    && (forall g, h | 0 <= g < h < |db.hecs| :: db.hecs[g].hash != db.hecs[h].hash)
    && (forall k | 0 <= k < |db.positions| :: Lotted(db.hecs, db.positions[k].ids))
  }

  lemma InvariantGivesShape(db: Db, chain: Chain, exact: bool)
    requires Inv(db, chain, NO_BURN, exact)
    ensures ShapeOk(db)
  {
    InvParts(db, chain, NO_BURN, exact);
    hide Inv, LotsOk, BackingOk, WalletsOk, ChainOk, Sum, DrawsOk, OccurrenceOk, Validate, Lookup;
    forall h | 0 <= h < |db.hecs| ensures RowShape(db.hecs[h]) { assert CertificateOk(db, chain, h); }
    forall k, i | 0 <= k < |db.positions| && i in db.positions[k].ids ensures i < |db.hecs| && db.hecs[i].lot.Some? {
      assert PositionOk(db, k);
      assert i in db.transactions[k].ids;
    }
  }

  // ---------------------------------------------------------------- one step on another registry

  /** A worker moves a certificate in a lot back to registered exactly when its registry lacks the digest. */
  lemma StepMovesBackExactly(db: Db, own: Chain, h: HecId)
    requires ShapeOk(db) && h < |db.hecs| && db.hecs[h].lot.Some?
    ensures var a := AnchorRow(db, own, h);
            && (a.Success? <==> db.hecs[h].hash !in own.registry)
            && (a.Success? ==>
                  && a.db.hecs[h].lot == db.hecs[h].lot && a.db.hecs[h].status == Registered
                  && Rank(a.db.hecs[h].status) < Rank(db.hecs[h].status))
  {
    assert RowShape(db.hecs[h]);
  }

  // ---------------------------------------------------------------- a pass over any snapshot

  /** The registry knows every certificate of the snapshot that is in a lot by now. */
  ghost predicate Knows(own: Chain, hecs: seq<Hec>, rows: seq<HecId>) {
    forall h | h in rows && h < |hecs| && hecs[h].lot.Some? :: hecs[h].hash in own.registry
  }

  /** What a pass leaves of the tables and of the registry. */
  ghost predicate PassFacts(db: Db, own: Chain, m: MintPass, rows: seq<HecId>) {
    && m.db == db.(hecs := m.db.hecs) && |m.db.hecs| == |db.hecs|
    && (forall h | 0 <= h < |db.hecs| ::
          m.db.hecs[h] == db.hecs[h].(tx := m.db.hecs[h].tx, status := m.db.hecs[h].status))
    && (forall h | 0 <= h < |db.hecs| && h !in rows :: m.db.hecs[h] == db.hecs[h])
    && (forall h | 0 <= h < |db.hecs| && m.db.hecs[h] != db.hecs[h] ::
          m.db.hecs[h].tx.Some? && m.db.hecs[h].status == Registered)
    && (forall d | d in own.registry :: d in m.chain.registry)
    && (forall h | 0 <= h < |db.hecs| && db.hecs[h].hash in own.registry :: m.db.hecs[h] == db.hecs[h])
    && (forall h | 0 <= h < |db.hecs| && db.hecs[h].hash !in m.chain.registry :: m.db.hecs[h] == db.hecs[h])
  }

  lemma AnchorDoes(db: Db, own: Chain, h: HecId)
    ensures var a := AnchorRow(db, own, h);
            a.Failed? ==> a.chain == own
    ensures var a := AnchorRow(db, own, h);
            a.Success? ==>
              && h < |db.hecs| && db.hecs[h].cid.Some?
              && a.db == db.(hecs := db.hecs[h := Anchor(own.block + 1)(db.hecs[h])])
              && a.chain.registry == own.registry[db.hecs[h].hash := db.hecs[h].cid.value]
              && db.hecs[h].hash !in own.registry && db.hecs[h].hash != 0 && db.hecs[h].cid.value != ""
  {
  }

  /** One row more has been anchored. */
  lemma OneRowMore(db: Db, own: Chain, m: MintPass, rows: seq<HecId>, next: MintPass, last: HecId, cid: string)
    requires PassFacts(db, own, m, rows) && last < |m.db.hecs| && m.db.hecs[last].hash !in m.chain.registry
    requires next.db == m.db.(hecs := m.db.hecs[last := Anchor(m.chain.block + 1)(m.db.hecs[last])])
    requires next.chain.registry == m.chain.registry[m.db.hecs[last].hash := cid]
    ensures PassFacts(db, own, next, rows + [last])
  {
    assert forall h | h in rows :: h in rows + [last];
    assert last in rows + [last];
  }

  lemma MoreRows(db: Db, own: Chain, m: MintPass, rows: seq<HecId>, last: HecId)
    requires PassFacts(db, own, m, rows)
    ensures PassFacts(db, own, m, rows + [last])
  {
  }

  lemma NoRows(db: Db, own: Chain)
    ensures PassFacts(db, own, MintPass(db, own, 0), [])
  {
  }

  lemma SameFacts(db: Db, own: Chain, m: MintPass, n: MintPass, rows: seq<HecId>)
    requires PassFacts(db, own, m, rows) && n.db == m.db && n.chain == m.chain
    ensures PassFacts(db, own, n, rows)
  {
  }

  lemma {:induction false} PassDoes(db: Db, own: Chain, rows: seq<HecId>)
    ensures PassFacts(db, own, MintAll(db, own, rows), rows)
  {
    hide PassFacts, AnchorRow;
    if rows == [] {
      NoRows(db, own);
    } else {
      var front, last := rows[..|rows| - 1], rows[|rows| - 1];
      assert rows == front + [last];
      PassDoes(db, own, front);
      var before, after := MintAll(db, own, front), MintAll(db, own, rows);
      AnchorDoes(before.db, before.chain, last);
      if AnchorRow(before.db, before.chain, last).Success? {
        OneRowMore(db, own, before, front, after, last, before.db.hecs[last].cid.value);
      } else {
        MoreRows(db, own, before, front, last);
        SameFacts(db, own, before, after, rows);
      }
    }
  }

  /** A lotted row of the snapshot whose digest the registry lacks ends up registered. */
  lemma {:induction false} PassReaches(db: Db, own: Chain, rows: seq<HecId>, h: HecId)
    requires ShapeOk(db) && h in rows && h < |db.hecs| && db.hecs[h].lot.Some? && db.hecs[h].hash !in own.registry
    ensures |MintAll(db, own, rows).db.hecs| == |db.hecs| && MintAll(db, own, rows).db.hecs[h].status == Registered
  {
    var front, last := rows[..|rows| - 1], rows[|rows| - 1];
    assert rows == front + [last];
    var before := MintAll(db, own, front);
    PassDoes(db, own, front);
    PassDoes(db, own, rows);
    if h in front {
      PassReaches(db, own, front, h);
    } else {
      OnlyOwnDigests(db, own, front, h);
      assert RowShape(db.hecs[h]);
    }
  }

  /** A digest gets into the registry only with its own row. */
  lemma {:induction false} OnlyOwnDigests(db: Db, own: Chain, rows: seq<HecId>, h: HecId)
    requires ShapeOk(db) && h !in rows && h < |db.hecs| && db.hecs[h].hash !in own.registry
    ensures db.hecs[h].hash !in MintAll(db, own, rows).chain.registry
  {
    if rows != [] {
      var front, last := rows[..|rows| - 1], rows[|rows| - 1];
      assert rows == front + [last];
      OnlyOwnDigests(db, own, front, h);
      PassDoes(db, own, front);
      if last < |db.hecs| && last != h {
        var g, k := if last < h then last else h, if last < h then h else last;
        assert db.hecs[g].hash != db.hecs[k].hash;
      }
    }
  }

  /**
   * However old the snapshot: a pass keeps the certificates in lots exactly when the registry knows
   * those it comes to.
   */
  lemma PassKeepsLottedExactly(db: Db, own: Chain, rows: seq<HecId>)
    requires ShapeOk(db)
    ensures LottedUntouched(db.hecs, MintAll(db, own, rows).db.hecs) <==> Knows(own, db.hecs, rows)
  {
    PassDoes(db, own, rows);
    var after := MintAll(db, own, rows).db.hecs;
    if !Knows(own, db.hecs, rows) {
      var h :| h in rows && h < |db.hecs| && db.hecs[h].lot.Some? && db.hecs[h].hash !in own.registry;
      PassReaches(db, own, rows, h);
      assert RowShape(db.hecs[h]);
      assert after[h] != db.hecs[h];
    } else {
      forall h | 0 <= h < |db.hecs| && db.hecs[h].lot.Some? ensures after[h] == db.hecs[h] {
        assert h !in rows || db.hecs[h].hash in own.registry;
      }
    }
  }

  lemma FreshRowsAreFree(db: Db, limit: nat)
    requires ShapeOk(db)
    ensures forall h | h in FirstUnanchored(db.hecs, limit) ::
              h < |db.hecs| && db.hecs[h].lot.None? && db.hecs[h].status == Pending
  {
    FirstUnanchoredOk(db.hecs, limit);
    var rows := FirstUnanchored(db.hecs, limit);
    hide FirstUnanchored;
    forall h | h in rows ensures h < |db.hecs| && db.hecs[h].lot.None? && db.hecs[h].status == Pending {
      var j :| 0 <= j < |rows| && rows[j] == h;
      assert RowShape(db.hecs[h]);
    }
  }

  /** A pass over the present rows keeps every certificate in a lot, whatever the registry, and moves none back. */
  lemma FreshPassKeepsLotted(db: Db, own: Chain, limit: nat)
    requires ShapeOk(db)
    ensures var after := MintAll(db, own, FirstUnanchored(db.hecs, limit)).db;
            LottedUntouched(db.hecs, after.hecs) && NeverBackwards(db.hecs, after.hecs) && ShapeOk(after)
  {
    hide MintAll, FirstUnanchored, AnchorRow;
    var rows := FirstUnanchored(db.hecs, limit);
    var after := MintAll(db, own, rows).db;
    FreshRowsAreFree(db, limit);
    PassDoes(db, own, rows);
    PassKeepsLottedExactly(db, own, rows);
    forall h | 0 <= h < |db.hecs|
      ensures Rank(db.hecs[h].status) <= Rank(after.hecs[h].status) && RowShape(after.hecs[h])
    {
      assert RowShape(db.hecs[h]);
      if after.hecs[h] != db.hecs[h] {
        PassRegisters(db, own, rows, h);
      }
    }
    assert forall k | 0 <= k < |db.positions| :: Lotted(db.hecs, db.positions[k].ids);
  }

  lemma {:induction false} PassRegisters(db: Db, own: Chain, rows: seq<HecId>, h: HecId)
    requires h < |db.hecs| && |MintAll(db, own, rows).db.hecs| == |db.hecs|
             && MintAll(db, own, rows).db.hecs[h] != db.hecs[h]
    ensures db.hecs[h].hash != 0 && db.hecs[h].cid.Some? && db.hecs[h].cid.value != ""
  {
    var front, last := rows[..|rows| - 1], rows[|rows| - 1];
    PassDoes(db, own, front);
    if MintAll(db, own, front).db.hecs[h] != db.hecs[h] {
      PassRegisters(db, own, front, h);
    }
  }

  // ---------------------------------------------------------------- runs with two registries

  /** The tables and certificates of `b` after a step from `a`. */
  ghost predicate ShapeStep(a: Db, b: Db) {
    ShapeOk(b) && NeverBackwards(a.hecs, b.hecs)
  }

  lemma IssueShape(db: Db, chain: Chain, v: nat, hash: Hash, cid: string, anchored: bool)
    requires ShapeOk(db) && IssueHec(db, chain, v, hash, cid, anchored).Success?
    ensures ShapeStep(db, IssueHec(db, chain, v, hash, cid, anchored).db)
  {
    assert forall k | 0 <= k < |db.positions| :: Lotted(db.hecs, db.positions[k].ids);
  }

  lemma RegisterShape(db: Db, chain: Chain, h: HecId)
    requires ShapeOk(db) && RegisterHec(db, chain, h).Success?
    ensures ShapeStep(db, RegisterHec(db, chain, h).db)
  {
    assert RowShape(db.hecs[h]);
    AnchorDoes(db, chain, h);
    hide AnchorRow;
    assert forall k | 0 <= k < |db.positions| :: Lotted(db.hecs, db.positions[k].ids);
  }

  lemma LotShape(db: Db, chain: Chain, requested: seq<HecId>, hash: Hash, manifest: string, price: Option<int>)
    requires ShapeOk(db) && CreateLot(db, chain, requested, hash, manifest, price).Success?
    ensures ShapeStep(db, CreateLot(db, chain, requested, hash, manifest, price).db)
  {
    hide Dedup, EarliestStart, LatestEnd, EnergyOf, IssueBatch;
    var ids := Dedup(requested);
    var after := CreateLot(db, chain, requested, hash, manifest, price).db;
    assert after.hecs == UpdateAt(db.hecs, ids, PutInLot(|db.lots|)) && after.positions == db.positions;
    hide CreateLot;
    forall h | 0 <= h < |db.hecs|
      ensures RowShape(after.hecs[h]) && Rank(db.hecs[h].status) <= Rank(after.hecs[h].status)
    {
      assert RowShape(db.hecs[h]);
    }
    assert forall k | 0 <= k < |db.positions| :: Lotted(db.hecs, db.positions[k].ids);
  }

  lemma BuyShape(db: Db, u: UserId, lot: nat, q: int)
    requires ShapeOk(db)
    ensures Buy(db, u, lot, q).Ok? ==> ShapeStep(db, Buy(db, u, lot, q).value)
  {
    if Buy(db, u, lot, q).Ok? {
      BuyIsSettle(db, u, lot, q);
      FirstCustodiedOk(db.hecs, lot, q);
      var ids := FirstCustodied(db.hecs, lot, q);
      var after := Buy(db, u, lot, q).value;
      hide Buy, FirstCustodied, EnergyOf, Price, Sum;
      forall h | 0 <= h < |db.hecs|
        ensures RowShape(after.hecs[h]) && Rank(db.hecs[h].status) <= Rank(after.hecs[h].status)
      {
        assert RowShape(db.hecs[h]);
      }
      forall k | 0 <= k < |after.positions| ensures Lotted(after.hecs, after.positions[k].ids) {
        if k < |db.positions| { assert Lotted(db.hecs, db.positions[k].ids); }
      }
    }
  }

  lemma TurnShape(st: BurnState, k: nat)
    requires ShapeOk(st.db) && BurnStep(st, k).Done?
    ensures ShapeStep(st.db, BurnStep(st, k).st.db)
  {
    hide ConsumedEnergy, RetireBatch;
    var after := BurnStep(st, k).st.db;
    if k < |st.db.positions| {
      assert Lotted(st.db.hecs, st.db.positions[k].ids);
    }
    forall h | 0 <= h < |st.db.hecs|
      ensures RowShape(after.hecs[h]) && Rank(st.db.hecs[h].status) <= Rank(after.hecs[h].status)
    {
      assert RowShape(st.db.hecs[h]);
    }
    forall j | 0 <= j < |after.positions| ensures Lotted(after.hecs, after.positions[j].ids) {
      assert Lotted(st.db.hecs, st.db.positions[j].ids);
    }
  }

  lemma {:induction false} LoopShape(st: BurnState, ks: seq<nat>)
    requires ShapeOk(st.db) && BurnLoop(st, ks).Done?
    ensures ShapeStep(st.db, BurnLoop(st, ks).st.db)
    decreases |ks|
  {
    hide ShapeOk, BurnStep, NeverBackwards;
    Unmoved(st.db.hecs);
    if ks != [] && st.remaining > 0 {
      TurnShape(st, ks[0]);
      LoopShape(BurnStep(st, ks[0]).st, ks[1..]);
      BackwardsNeverAccumulates(st.db.hecs, BurnStep(st, ks[0]).st.db.hecs, BurnLoop(st, ks).st.db.hecs);
    }
  }

  lemma BurnShape(db: Db, chain: Chain, u: UserId, q: int, reason: string, hash: Hash, cid: string)
    requires ShapeOk(db) && ExecuteBurn(db, chain, u, q, reason, hash, cid).Success?
    ensures ShapeStep(db, ExecuteBurn(db, chain, u, q, reason, hash, cid).db)
  {
    hide BurnLoop, Considered, Register, Sum, NeverBackwards;
    LoopShape(BurnState(db, chain, q, 0, []), Considered(db.positions, u));
  }

  /** The API's operations on its own registry, and passes of a worker on another. */
  datatype Act = Api(op: Op) | WorkerPass(limit: nat)

  datatype Split = Split(api: World, own: Chain)

  function ActOn(w: Split, act: Act): Split {
    match act
    case Api(op) => w.(api := Apply(w.api, op))
    case WorkerPass(limit) =>
      var m := MintAll(w.api.db, w.own, FirstUnanchored(w.api.db.hecs, limit));
      Split(w.api.(db := m.db), m.chain)
  }

  function ActAll(w: Split, acts: seq<Act>): Split {
    if acts == [] then w else ActOn(ActAll(w, acts[..|acts| - 1]), acts[|acts| - 1])
  }

  /** The worker's rows are anchored in passes only. */
  predicate ApiOnly(act: Act) {
    act.Api? ==> !act.op.MintRow?
  }

  lemma OpShape(w: World, op: Op)
    requires ShapeOk(w.db) && !op.MintRow?
    ensures ShapeStep(w.db, Apply(w, op).db)
  {
    hide ShapeOk, NeverBackwards, IssueHec, RegisterHec, CreateLot, Buy, ExecuteBurn, Validate;
    Unmoved(w.db.hecs);
    match op
    case RegisterUser(u) => SameRowsShape(w.db, AddUser(w.db, u));
    case IngestReading(r) => SameRowsShape(w.db, Ingest(w.db, r));
    case IssueCertificate(v, hash, cid, anchored, _) =>
      if IssueHec(w.db, w.chain, v, hash, cid, anchored).Success? { IssueShape(w.db, w.chain, v, hash, cid, anchored); }
    case RegisterCertificate(h, _) =>
      if RegisterHec(w.db, w.chain, h).Success? { RegisterShape(w.db, w.chain, h); }
    case OpenLot(ids, hash, manifest, price, _) =>
      if CreateLot(w.db, w.chain, ids, hash, manifest, price).Success? {
        LotShape(w.db, w.chain, ids, hash, manifest, price);
      }
    case BuyHecs(u, lot, q) =>
      BuyShape(w.db, u, lot, q);
    case BurnHecs(u, q, reason, hash, cid, _) =>
      if ExecuteBurn(w.db, w.chain, u, q, reason, hash, cid).Success? {
        BurnShape(w.db, w.chain, u, q, reason, hash, cid);
      }
  }

  lemma SameRowsShape(a: Db, b: Db)
    requires ShapeOk(a) && b.hecs == a.hecs && b.positions == a.positions
    ensures ShapeOk(b)
  {
  }

  /** Whatever its registry: as long as the worker's passes are over present rows, no status ever moves back. */
  lemma {:induction false} FreshPassesNeverBackwards(w: Split, acts: seq<Act>)
    requires ShapeOk(w.api.db) && forall i | 0 <= i < |acts| :: ApiOnly(acts[i])
    ensures ShapeStep(w.api.db, ActAll(w, acts).api.db)
  {
    hide ShapeOk, NeverBackwards, Apply, MintAll, FirstUnanchored;
    Unmoved(w.api.db.hecs);
    if acts != [] {
      var front, last := acts[..|acts| - 1], acts[|acts| - 1];
      FreshPassesNeverBackwards(w, front);
      var before := ActAll(w, front);
      match last {
        case Api(op) => OpShape(before.api, op);
        case WorkerPass(limit) => FreshPassKeepsLotted(before.api.db, before.own, limit);
      }
      BackwardsNeverAccumulates(w.api.db.hecs, before.api.db.hecs, ActAll(w, acts).api.db.hecs);
    }
  }

  // ---------------------------------------------------------------- a stale snapshot

  const SUNNY_HOUR := Reading(0, 10000, 0, 20000, 20000, None)

  /** A certificate is left pending, a worker takes its snapshot, and then the certificate gets into a lot. */
  const BEFORE_SNAPSHOT := [IngestReading(SUNNY_HOUR), IssueCertificate(0, 1, "c", false, true)]
  const AFTER_SNAPSHOT := BEFORE_SNAPSHOT + [RegisterCertificate(0, true)] + [OpenLot([0], 2, "m", Some(10000), true)]

  lemma SnapshotRuns()
    ensures Run(BEFORE_SNAPSHOT).db.hecs == [Hec(0, 1, 10000, Some("c"), None, None, Pending)]
    ensures var w := Run(BEFORE_SNAPSHOT + [RegisterCertificate(0, true)]);
            && w.db == Run(BEFORE_SNAPSHOT).db.(hecs := [Hec(0, 1, 10000, Some("c"), Some(50000001), None, Registered)])
            && w.chain.byHash == map[] && w.db.lots == []
  {
    assert BEFORE_SNAPSHOT == [] + [BEFORE_SNAPSHOT[0]] + [BEFORE_SNAPSHOT[1]];
    RunAppend([], BEFORE_SNAPSHOT[0]);
    RunAppend([] + [BEFORE_SNAPSHOT[0]], BEFORE_SNAPSHOT[1]);
    RunAppend(BEFORE_SNAPSHOT, RegisterCertificate(0, true));
  }

  lemma OneBacked(db: Db)
    requires db.hecs == [Hec(0, 1, 10000, Some("c"), Some(50000001), None, Registered)]
    ensures LotRequestOk(db, [0])
  {
  }

  lemma LotMadeMarks(db: Db, db': Db, batches: map<nat, Batch>, ids: seq<HecId>, manifest: string, price: Option<int>)
    requires LotMade(db, db', batches, ids, 2, manifest, price) && |db.hecs| == 1 && 0 in ids
    ensures db'.hecs == [db.hecs[0].(lot := Some(|db.lots|), status := Custodied)]
  {
  }

  lemma LotOpens(w: World)
    requires w.db.hecs == [Hec(0, 1, 10000, Some("c"), Some(50000001), None, Registered)] && w.chain.byHash == map[]
    ensures Apply(w, OpenLot([0], 2, "m", Some(10000), true)).db.hecs
         == [w.db.hecs[0].(lot := Some(|w.db.lots|), status := Custodied)]
  {
    hide CreateLot, Dedup, LotRequestOk, LotMade;
    OneBacked(w.db);
    CreateLotAccepts(w.db, w.chain, [0], 2, "m", Some(10000));
    CreatedLot(w.db, w.chain, [0], 2, "m", Some(10000));
    assert 0 in Dedup([0]) by { assert 0 in [0]; }
    var a := CreateLot(w.db, w.chain, [0], 2, "m", Some(10000));
    LotMadeMarks(w.db, a.db, a.chain.batches, Dedup([0]), "m", Some(10000));
  }

  lemma SnapshotIsStale()
    ensures FirstUnanchored(Run(BEFORE_SNAPSHOT).db.hecs, 50) == [0]
    ensures Run(AFTER_SNAPSHOT).db.hecs == [Hec(0, 1, 10000, Some("c"), Some(50000001), Some(0), Custodied)]
  {
    SnapshotRuns();
    var before := BEFORE_SNAPSHOT + [RegisterCertificate(0, true)];
    RunAppend(before, OpenLot([0], 2, "m", Some(10000), true));
    assert Run(BEFORE_SNAPSHOT).db.hecs[..0] == [];
    hide Run, Apply;
    LotOpens(Run(before));
  }

  /**
   * A worker with a registry of its own takes the snapshot, and comes to its row when the certificate is
   * in a lot: the lot's certificate is back at registered. On the API's registry it would have stayed.
   */
  lemma StaleWorkerMovesBack()
    ensures FirstUnanchored(Run(BEFORE_SNAPSHOT).db.hecs, 50) == [0]
    ensures var w := Run(AFTER_SNAPSHOT);
            var own := MintAll(w.db, GENESIS, [0]).db.hecs;
            var shared := MintAll(w.db, w.chain, [0]).db.hecs;
            && |w.db.hecs| == |own| == |shared| == 1 && w.db.hecs[0].lot == Some(0) && w.db.hecs[0].status == Custodied
            && own[0].lot == Some(0) && own[0].status == Registered
            && shared[0] == w.db.hecs[0]
  {
    hide Run, Apply, Inv, MintAll, FirstUnanchored;
    SnapshotIsStale();
    var w := Run(AFTER_SNAPSHOT);
    ReachableInvariant(AFTER_SNAPSHOT);
    InvariantGivesShape(w.db, w.chain, w.clean);
    PassDoes(w.db, GENESIS, [0]);
    PassReaches(w.db, GENESIS, [0], 0);
    MintAllKeeps(w.db, w.chain, [0], w.clean);
  }
}
