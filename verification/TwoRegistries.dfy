/**
 * The ledger with the mint worker on a registry of its own. As long as its passes are over present rows,
 * everything the invariant says about tables, batches and retirements still holds in every reachable
 * state; of a certificate's digest it can only be said that one of the two registries has it.
 */
module TwoRegistries {
  import opened Collections
  import opened MockChain
  import opened Confidence
  import opened CustodyModel
  import opened CustodyInvariant
  import opened CustodySteps
  import opened TradeSteps
  import opened BurnAllocation
  import opened CustodyRuns
  import opened MintWorker
  import opened WorkerRegistry

  // ---------------------------------------------------------------- the invariant without its registry clause

  /** The digests that the rows themselves claim to have registered. */
  function Claimed(hecs: seq<Hec>): map<Hash, string> {
    if hecs == [] then map[]
    else
      var front, last := Claimed(hecs[..|hecs| - 1]), hecs[|hecs| - 1];
      if last.tx.Some? && last.cid.Some? then front[last.hash := last.cid.value] else front
  }

  /** The chain as the rows see it: its batches and retirements, and a registry that has what they claim. */
  function Seen(db: Db, chain: Chain): Chain {
    chain.(registry := Claimed(db.hecs))
  }

  ghost predicate LedgerOk(db: Db, chain: Chain, exact: bool) {
    Inv(db, Seen(db, chain), NO_BURN, exact)
  }

  ghost predicate DistinctHashes(hecs: seq<Hec>) {
    forall g, h | 0 <= g < h < |hecs| :: hecs[g].hash != hecs[h].hash
  }

  lemma {:induction false} ClaimIsFound(hecs: seq<Hec>, h: nat)
    requires DistinctHashes(hecs) && h < |hecs| && hecs[h].tx.Some? && hecs[h].cid.Some?
    ensures hecs[h].hash in Claimed(hecs) && Claimed(hecs)[hecs[h].hash] == hecs[h].cid.value
  {
    if h < |hecs| - 1 {
      ClaimIsFound(hecs[..|hecs| - 1], h);
      assert hecs[|hecs| - 1].hash != hecs[h].hash;
    }
  }

  /** The invariant over any chain that differs in its registry only, and has what anchored rows need. */
  lemma OtherRegistry(db: Db, c: Chain, d: Chain, exact: bool)
    requires Inv(db, c, NO_BURN, exact) && d == c.(registry := d.registry, block := d.block)
    requires forall h | 0 <= h < |db.hecs| && db.hecs[h].tx.Some? :: Lookup(d, db.hecs[h].hash) == db.hecs[h].cid
    ensures Inv(db, d, NO_BURN, exact)
  {
    hide PositionsOk, OccurrencesOk, WalletsOk, BurnsOk, EnergyConserved, Sum, Lookup, RecordedUnits, DrawsOk;
    forall h | 0 <= h < |db.hecs| ensures CertificateOk(db, d, h) { assert CertificateOk(db, c, h); }
    forall l | 0 <= l < |db.lots| ensures LotOk(db, d, l) { assert LotOk(db, c, l); }
    EventsFrame(db, c, db, d);
  }

  lemma AnyRegistry(db: Db, c: Chain, chain: Chain, exact: bool)
    requires Inv(db, c, NO_BURN, exact) && chain == c.(registry := chain.registry, block := chain.block)
    ensures LedgerOk(db, chain, exact)
  {
    InvParts(db, c, NO_BURN, exact);
    hide Inv, Claimed, PositionsOk, LotsOk, ChainOk, OccurrencesOk, BackingOk, WalletsOk;
    forall h | 0 <= h < |db.hecs| && db.hecs[h].tx.Some?
      ensures Lookup(Seen(db, chain), db.hecs[h].hash) == db.hecs[h].cid
    {
      assert CertificateOk(db, c, h);
      ClaimIsFound(db.hecs, h);
    }
    OtherRegistry(db, c, Seen(db, chain), exact);
  }

  // ---------------------------------------------------------------- the API's operations

  /** A row that is not anchored yet can be, whoever registers its digest. */
  lemma AnchoringKeepsLedger(db: Db, chain: Chain, h: HecId, tx: TxHash, exact: bool)
    requires LedgerOk(db, chain, exact) && h < |db.hecs| && db.hecs[h].tx.None?
    requires db.hecs[h].hash != 0 && db.hecs[h].cid.Some? && db.hecs[h].cid.value != ""
    ensures LedgerOk(db.(hecs := db.hecs[h := Anchor(tx)(db.hecs[h])]), chain, exact)
  {
    var row, c := db.hecs[h], Seen(db, chain);
    var more := c.(registry := c.registry[row.hash := row.cid.value]);
    InvParts(db, c, NO_BURN, exact);
    hide Inv, PositionsOk, LotsOk, ChainOk, OccurrencesOk, BackingOk, WalletsOk;
    assert CertificateOk(db, c, h);
    forall g | 0 <= g < |db.hecs| && db.hecs[g].tx.Some? ensures Lookup(more, db.hecs[g].hash) == db.hecs[g].cid {
      assert CertificateOk(db, c, g);
      var i, j := if g < h then g else h, if g < h then h else g;
      assert db.hecs[i].hash != db.hecs[j].hash;
    }
    OtherRegistry(db, c, more, exact);
    AnchorUpdate(db, more, h, tx, exact);
    AnyRegistry(db.(hecs := db.hecs[h := Anchor(tx)(db.hecs[h])]), more, chain, exact);
  }

  lemma IssueKeepsLedger(db: Db, chain: Chain, v: nat, hash: Hash, cid: string, anchored: bool, exact: bool)
    requires LedgerOk(db, chain, exact)
    ensures var a := IssueHec(db, chain, v, hash, cid, anchored);
            LedgerOk(db, a.chain, exact) && (a.Success? ==> LedgerOk(a.db, a.chain, exact))
  {
    hide Inv, InsertHec;
    var a, c := IssueHec(db, chain, v, hash, cid, anchored), Seen(db, chain);
    AnyRegistry(db, c, a.chain, exact);
    if a.Success? {
      var tx := if anchored then Some(chain.block + 1) else None;
      var more := if anchored then c.(registry := c.registry[hash := cid]) else c;
      UnusedHash(db, v, hash, cid, tx);
      if anchored { NewDigest(db, c, hash, cid, exact); }
      InsertKeepsInvariant(db, more, v, hash, cid, tx, exact);
      AnyRegistry(a.db, more, a.chain, exact);
    }
  }

  lemma UnusedHash(db: Db, v: nat, hash: Hash, cid: string, tx: Option<TxHash>)
    requires v < |db.validations| && InsertHec(db, v, hash, cid, tx).Ok?
    ensures !HashUsed(db.hecs, hash)
  {
  }

  lemma NewDigest(db: Db, c: Chain, hash: Hash, cid: string, exact: bool)
    requires Inv(db, c, NO_BURN, exact) && !HashUsed(db.hecs, hash)
    ensures Inv(db, c.(registry := c.registry[hash := cid]), NO_BURN, exact)
  {
    InvParts(db, c, NO_BURN, exact);
    hide Inv;
    var more := c.(registry := c.registry[hash := cid]);
    forall g | 0 <= g < |db.hecs| && db.hecs[g].tx.Some? ensures Lookup(more, db.hecs[g].hash) == db.hecs[g].cid {
      assert CertificateOk(db, c, g);
    }
    OtherRegistry(db, c, more, exact);
  }

  lemma RegisterKeepsLedger(db: Db, chain: Chain, h: HecId, exact: bool)
    requires LedgerOk(db, chain, exact)
    ensures var a := RegisterHec(db, chain, h);
            LedgerOk(db, a.chain, exact) && (a.Success? ==> LedgerOk(a.db, a.chain, exact))
  {
    hide Inv;
    var a := RegisterHec(db, chain, h);
    AnyRegistry(db, Seen(db, chain), a.chain, exact);
    if a.Success? {
      AnchoringKeepsLedger(db, chain, h, chain.block + 1, exact);
      AnyRegistry(a.db, Seen(a.db, chain), a.chain, exact);
    }
  }

  lemma LotKeepsLedger(db: Db, chain: Chain, ids: seq<HecId>, hash: Hash, manifest: string, price: Option<int>,
                       exact: bool)
    requires LedgerOk(db, chain, exact)
    ensures var a := CreateLot(db, chain, ids, hash, manifest, price);
            LedgerOk(db, a.chain, exact) && (a.Success? ==> LedgerOk(a.db, a.chain, exact))
  {
    hide Inv, Dedup, EarliestStart, LatestEnd, StageLot, Claimed;
    var a, b := CreateLot(db, chain, ids, hash, manifest, price),
                CreateLot(db, Seen(db, chain), ids, hash, manifest, price);
    CreateLotKeepsInvariant(db, Seen(db, chain), ids, hash, manifest, price, exact);
    AnyRegistry(db, b.chain, a.chain, exact);
    if a.Success? {
      AnyRegistry(a.db, b.chain, a.chain, exact);
    }
  }

  /** The loop retires and does not look at the registry. */
  lemma {:induction false} LoopIgnoresRegistry(st: BurnState, ks: seq<nat>, registry: map<Hash, string>)
    ensures BurnLoop(st.(chain := st.chain.(registry := registry)), ks)
         == match BurnLoop(st, ks)
            case Broken(c, e) => Broken(c.(registry := registry), e)
            case Done(next) => Done(next.(chain := next.chain.(registry := registry)))
    ensures match BurnLoop(st, ks)
            case Broken(c, _) => c.registry == st.chain.registry
            case Done(next) => next.chain.registry == st.chain.registry
    decreases |ks|
  {
    if ks != [] && st.remaining > 0 {
      TurnIgnoresRegistry(st, ks[0], registry);
      hide BurnStep;
      match BurnStep(st, ks[0])
      case Broken(_, _) =>
      case Done(next) => LoopIgnoresRegistry(next, ks[1..], registry);
    }
  }

  lemma TurnIgnoresRegistry(st: BurnState, k: nat, registry: map<Hash, string>)
    ensures BurnStep(st.(chain := st.chain.(registry := registry)), k)
         == match BurnStep(st, k)
            case Broken(c, e) => Broken(c.(registry := registry), e)
            case Done(next) => Done(next.(chain := next.chain.(registry := registry)))
    ensures match BurnStep(st, k)
            case Broken(c, _) => c.registry == st.chain.registry
            case Done(next) => next.chain.registry == st.chain.registry && next.remaining <= st.remaining
  {
    hide ConsumedEnergy, Draw;
  }

  /** A burn, committed or aborted. */
  lemma BurnKeepsLedger(db: Db, chain: Chain, user: UserId, q: int, reason: string, hash: Hash, cid: string,
                        exact: bool)
    requires LedgerOk(db, chain, exact)
    ensures var a := ExecuteBurn(db, chain, user, q, reason, hash, cid);
            LedgerOk(db, a.chain, exact && a.chain == chain) && (a.Success? ==> LedgerOk(a.db, a.chain, exact))
  {
    hide Inv, BurnLoop, Considered, OnlyRetires, Claimed, Sum;
    var c, a := Seen(db, chain), ExecuteBurn(db, chain, user, q, reason, hash, cid);
    if BurnRefusal(db, user, q, reason).None? {
      var ks, st := Considered(db.positions, user), BurnState(db, chain, q, 0, []);
      var seen := BurnState(db, c, q, 0, []);
      ConsideredOk(db.positions, user);
      OpenBurnStarts(db, c, user, exact);
      LoopKeepsInvariant(seen, user, ks, exact);
      LoopIgnoresRegistry(st, ks, c.registry);
      var left := if BurnLoop(seen, ks).Done? then BurnLoop(seen, ks).st.chain else BurnLoop(seen, ks).chain;
      RollbackKeepsInvariant(db, c, left, exact);
      AnyRegistry(db, left, a.chain, false);
      if a.Success? {
        var next := BurnLoop(seen, ks).st;
        CloseKeepsInvariant(next.db, next.chain, Progressing(user, next), hash, exact);
        AnyRegistry(a.db, next.chain, a.chain, exact);
      }
    }
  }

  lemma OpKeepsLedger(w: World, op: Op)
    requires LedgerOk(w.db, w.chain, w.clean) && !op.MintRow?
    ensures var w' := Apply(w, op); LedgerOk(w'.db, w'.chain, w'.clean)
  {
    hide Inv, IssueHec, RegisterHec, CreateLot, Buy, ExecuteBurn, Claimed;
    var c := Seen(w.db, w.chain);
    match op
    case RegisterUser(u) =>
      AddUserKeepsInvariant(w.db, c, u, w.clean);
    case IngestReading(r) =>
      IngestKeepsInvariant(w.db, c, r, w.clean);
    case IssueCertificate(v, hash, cid, anchored, _) =>
      IssueKeepsLedger(w.db, w.chain, v, hash, cid, anchored, w.clean);
    case RegisterCertificate(h, _) => RegisterKeepsLedger(w.db, w.chain, h, w.clean);
    case OpenLot(ids, hash, manifest, price, _) => LotKeepsLedger(w.db, w.chain, ids, hash, manifest, price, w.clean);
    case BuyHecs(u, lot, q) =>
      BuyKeepsInvariant(w.db, c, u, lot, q, w.clean);
      if Buy(w.db, u, lot, q).Ok? { AnyRegistry(Buy(w.db, u, lot, q).value, c, w.chain, w.clean); }
    case BurnHecs(u, q, reason, hash, cid, _) => BurnKeepsLedger(w.db, w.chain, u, q, reason, hash, cid, w.clean);
  }

  // ---------------------------------------------------------------- the worker's passes

  /** Rows that a pass may find: each once, present, and not anchored. */
  ghost predicate Free(hecs: seq<Hec>, rows: seq<HecId>) {
    NoDup(rows) && forall h | h in rows :: h < |hecs| && hecs[h].tx.None?
  }

  lemma {:induction false} PassKeepsLedger(db: Db, chain: Chain, own: Chain, rows: seq<HecId>, exact: bool)
    requires LedgerOk(db, chain, exact) && Free(db.hecs, rows)
    ensures LedgerOk(MintAll(db, own, rows).db, chain, exact)
  {
    hide Inv, LedgerOk, AnchorRow;
    if rows != [] {
      var front, last := rows[..|rows| - 1], rows[|rows| - 1];
      assert last in rows && last !in front;
      PassKeepsLedger(db, chain, own, front, exact);
      PassDoes(db, own, front);
      var before := MintAll(db, own, front);
      AnchorDoes(before.db, before.chain, last);
      if AnchorRow(before.db, before.chain, last).Success? {
        AnchoringKeepsLedger(before.db, chain, last, before.chain.block + 1, exact);
      }
    }
  }

  lemma PresentRowsAreFree(hecs: seq<Hec>, limit: nat)
    ensures Free(hecs, FirstUnanchored(hecs, limit))
  {
    FirstUnanchoredOk(hecs, limit);
    hide FirstUnanchored;
    var rows := FirstUnanchored(hecs, limit);
    forall h | h in rows ensures h < |hecs| && hecs[h].tx.None? {
      var j :| 0 <= j < |rows| && rows[j] == h;
    }
  }

  const SPLIT_START := Split(START, GENESIS)

  lemma {:induction false} ActsKeepLedger(acts: seq<Act>)
    requires forall i | 0 <= i < |acts| :: ApiOnly(acts[i])
    ensures var w := ActAll(SPLIT_START, acts).api; LedgerOk(w.db, w.chain, w.clean)
  {
    hide Inv, LedgerOk, Apply, MintAll, FirstUnanchored;
    if acts == [] {
      InvInit();
      AnyRegistry(EMPTY_DB, GENESIS, GENESIS, true);
    } else {
      var front, last := acts[..|acts| - 1], acts[|acts| - 1];
      ActsKeepLedger(front);
      var before := ActAll(SPLIT_START, front);
      match last
      case Api(op) => OpKeepsLedger(before.api, op);
      case WorkerPass(limit) =>
        PresentRowsAreFree(before.api.db.hecs, limit);
        PassKeepsLedger(before.api.db, before.api.chain, before.own,
                        FirstUnanchored(before.api.db.hecs, limit), before.api.clean);
    }
  }

  // ---------------------------------------------------------------- what still holds

  /** Energy, partition, counters, drift, retirements, burn certificates and batches, as `CustodyRuns` has them. */
  ghost predicate LedgerFacts(w: World) {
    && Sum(w.db.hecs, LottedEnergy())
       == Sum(w.db.hecs, CustodiedEnergy()) + Sum(w.db.positions, EnergyLeft()) + Sum(w.db.burns, CertifiedEnergy())
    && (forall h | 0 <= h < |w.db.hecs| :: ListedByStatus(w.db, h))
    && Reconciled(w.db)
    && (forall k | 0 <= k < |w.db.positions| :: NearProRata(w.db, k))
    && NothingTwice(w.db.events)
    && (forall b | 0 <= b < |w.db.burns| :: BurnOk(w.db, b))
    && (forall l | 0 <= l < |w.db.lots| :: LotBacked(w, l))
  }

  lemma LedgerGivesFacts(w: World)
    requires LedgerOk(w.db, w.chain, w.clean)
    ensures LedgerFacts(w)
  {
    var seen := w.(chain := Seen(w.db, w.chain));
    InvParts(w.db, seen.chain, NO_BURN, w.clean);
    LedgerBalances(w.db, seen.chain, w.clean);
    hide Inv, ListedByStatus, Reconciled, NearProRata, NothingTwice, PositionsOk, LotsOk, CertificatesOk, OccurrencesOk,
         BackingOk, WalletsOk, ChainOk, Sum, RecordedUnits, BurnOk;
    CertificatesPartitioned(w.db, seen.chain);
    CountersAgree(w.db, seen.chain);
    PositionsNearProRata(w.db);
    EventsDisjoint(w.db);
    LotsBacked(seen);
    forall l | 0 <= l < |w.db.lots| ensures LotBacked(w, l) { assert LotBacked(seen, l); }
  }

  lemma LedgerBalances(db: Db, c: Chain, exact: bool)
    requires Inv(db, c, NO_BURN, exact)
    ensures EnergyConserved(db, NO_BURN) && forall b | 0 <= b < |db.burns| :: BurnOk(db, b)
  {
  }

  /**
   * With a worker on its own registry whose passes are over present rows: energy is conserved, the certificates
   * are partitioned, counters and certificates agree with the rows, and the batches with the positions, as
   * in every state reached with one registry.
   */
  lemma LedgerHoldsOnTwoRegistries(acts: seq<Act>)
    requires forall i | 0 <= i < |acts| :: ApiOnly(acts[i])
    ensures LedgerFacts(ActAll(SPLIT_START, acts).api)
  {
    hide LedgerOk, LedgerFacts, ActAll;
    ActsKeepLedger(acts);
    LedgerGivesFacts(ActAll(SPLIT_START, acts).api);
  }

  // ---------------------------------------------------------------- where digests are

  ghost predicate Grows(a: Chain, b: Chain) {
    forall d | d in a.registry :: d in b.registry && b.registry[d] == a.registry[d]
  }

  /** Rows that are anchored afterwards were so before, or are by now in the registry. */
  ghost predicate AnchoredBy(a: seq<Hec>, b: seq<Hec>, after: Chain) {
    forall h | 0 <= h < |b| && b[h].tx.Some? ::
      || (h < |a| && a[h].tx.Some? && a[h].hash == b[h].hash && a[h].cid == b[h].cid)
      || Lookup(after, b[h].hash) == b[h].cid
  }

  lemma NothingAnchored(hecs: seq<Hec>, c: Chain)
    ensures AnchoredBy(hecs, hecs, c) && Grows(c, c)
  {
  }

  lemma IssueAnchors(db: Db, chain: Chain, v: nat, hash: Hash, cid: string, anchored: bool)
    ensures var a := IssueHec(db, chain, v, hash, cid, anchored);
            Grows(chain, a.chain) && (a.Success? ==> AnchoredBy(db.hecs, a.db.hecs, a.chain))
  {
  }

  lemma RowAnchors(db: Db, chain: Chain, h: HecId)
    ensures var a := AnchorRow(db, chain, h);
            Grows(chain, a.chain) && (a.Success? ==> AnchoredBy(db.hecs, a.db.hecs, a.chain))
  {
  }

  lemma LotAnchors(db: Db, chain: Chain, ids: seq<HecId>, hash: Hash, manifest: string, price: Option<int>)
    ensures var a := CreateLot(db, chain, ids, hash, manifest, price);
            Grows(chain, a.chain) && (a.Success? ==> AnchoredBy(db.hecs, a.db.hecs, a.chain))
  {
    hide Dedup, EarliestStart, LatestEnd, EnergyOf;
  }

  lemma BuyAnchors(db: Db, chain: Chain, u: UserId, lot: nat, q: int)
    ensures Buy(db, u, lot, q).Ok? ==> AnchoredBy(db.hecs, Buy(db, u, lot, q).value.hecs, chain)
  {
    if Buy(db, u, lot, q).Ok? {
      BuyIsSettle(db, u, lot, q);
      hide Buy, FirstCustodied, EnergyOf, Price;
    }
  }

  ghost predicate SameAnchors(a: seq<Hec>, b: seq<Hec>) {
    |a| == |b| && forall h | 0 <= h < |a| :: b[h] == a[h].(status := b[h].status)
  }

  lemma {:induction false} LoopSameAnchors(st: BurnState, ks: seq<nat>)
    ensures BurnLoop(st, ks).Done? ==> SameAnchors(st.db.hecs, BurnLoop(st, ks).st.db.hecs)
    decreases |ks|
  {
    if ks != [] && st.remaining > 0 && BurnStep(st, ks[0]).Done? {
      LoopSameAnchors(BurnStep(st, ks[0]).st, ks[1..]);
      hide ConsumedEnergy, RetireBatch;
    }
  }

  lemma BurnAnchors(db: Db, chain: Chain, user: UserId, q: int, reason: string, hash: Hash, cid: string)
    ensures var a := ExecuteBurn(db, chain, user, q, reason, hash, cid);
            Grows(chain, a.chain) && (a.Success? ==> AnchoredBy(db.hecs, a.db.hecs, a.chain))
  {
    hide BurnLoop, Considered, Sum;
    if BurnRefusal(db, user, q, reason).None? {
      var st := BurnState(db, chain, q, 0, []);
      LoopSameAnchors(st, Considered(db.positions, user));
      LoopIgnoresRegistry(st, Considered(db.positions, user), chain.registry);
    }
  }

  lemma OpAnchors(w: World, op: Op)
    requires !op.MintRow?
    ensures Grows(w.chain, Apply(w, op).chain) && AnchoredBy(w.db.hecs, Apply(w, op).db.hecs, Apply(w, op).chain)
  {
    hide Grows, AnchoredBy, IssueHec, AnchorRow, CreateLot, Buy, ExecuteBurn, Validate;
    NothingAnchored(w.db.hecs, Apply(w, op).chain);
    NothingAnchored(w.db.hecs, w.chain);
    match op
    case RegisterUser(_) =>
    case IngestReading(_) =>
    case IssueCertificate(v, hash, cid, anchored, _) => IssueAnchors(w.db, w.chain, v, hash, cid, anchored);
    case RegisterCertificate(h, _) => RowAnchors(w.db, w.chain, h);
    case OpenLot(ids, hash, manifest, price, _) => LotAnchors(w.db, w.chain, ids, hash, manifest, price);
    case BuyHecs(u, lot, q) => BuyAnchors(w.db, w.chain, u, lot, q);
    case BurnHecs(u, q, reason, hash, cid, _) => BurnAnchors(w.db, w.chain, u, q, reason, hash, cid);
  }

  /** Every anchored row has its digest, under its content id, in one of the registries. */
  ghost predicate InEither(hecs: seq<Hec>, api: Chain, own: Chain) {
    forall h | 0 <= h < |hecs| && hecs[h].tx.Some? ::
      hecs[h].cid.Some? && (Lookup(api, hecs[h].hash) == hecs[h].cid || Lookup(own, hecs[h].hash) == hecs[h].cid)
  }

  lemma StaysInEither(a: seq<Hec>, b: seq<Hec>, api: Chain, own: Chain, api': Chain, own': Chain)
    requires InEither(a, api, own) && Grows(api, api') && Grows(own, own')
    requires AnchoredBy(a, b, api') || AnchoredBy(a, b, own')
    requires forall h | 0 <= h < |b| && b[h].tx.Some? :: b[h].cid.Some?
    ensures InEither(b, api', own')
  {
  }

  lemma {:induction false} PassInEither(db: Db, api: Chain, own: Chain, rows: seq<HecId>)
    requires InEither(db.hecs, api, own)
    ensures InEither(MintAll(db, own, rows).db.hecs, api, MintAll(db, own, rows).chain)
  {
    hide InEither, AnchorRow, Grows, AnchoredBy;
    if rows != [] {
      var n := |rows| - 1;
      PassInEither(db, api, own, rows[..n]);
      var before := MintAll(db, own, rows[..n]);
      var a := AnchorRow(before.db, before.chain, rows[n]);
      RowAnchors(before.db, before.chain, rows[n]);
      AnchorDoes(before.db, before.chain, rows[n]);
      NothingAnchored(before.db.hecs, a.chain);
      NothingAnchored(before.db.hecs, api);
      EitherHasCid(before.db.hecs, api, before.chain);
      StaysInEither(before.db.hecs, if a.Success? then a.db.hecs else before.db.hecs, api, before.chain, api, a.chain);
    }
  }

  lemma EitherHasCid(hecs: seq<Hec>, api: Chain, own: Chain)
    requires InEither(hecs, api, own)
    ensures forall h | 0 <= h < |hecs| && hecs[h].tx.Some? :: hecs[h].cid.Some?
  {
  }

  lemma AnchoredHaveCid(db: Db, c: Chain, exact: bool)
    requires Inv(db, c, NO_BURN, exact)
    ensures forall h | 0 <= h < |db.hecs| && db.hecs[h].tx.Some? :: db.hecs[h].cid.Some?
    ensures forall h | 0 <= h < |db.hecs| && db.hecs[h].lot.Some? :: db.hecs[h].tx.Some?
  {
    InvParts(db, c, NO_BURN, exact);
    hide Inv;
    forall h | 0 <= h < |db.hecs|
      ensures db.hecs[h].tx.Some? ==> db.hecs[h].cid.Some?
      ensures db.hecs[h].lot.Some? ==> db.hecs[h].tx.Some?
    {
      assert CertificateOk(db, c, h);
    }
  }

  lemma {:induction false} ActsInEither(acts: seq<Act>)
    requires forall i | 0 <= i < |acts| :: ApiOnly(acts[i])
    ensures var w := ActAll(SPLIT_START, acts); InEither(w.api.db.hecs, w.api.chain, w.own)
  {
    hide InEither, Inv, Apply, MintAll, FirstUnanchored, Grows, AnchoredBy, Claimed;
    if acts == [] {
      NothingYet();
    } else {
      var front, last := acts[..|acts| - 1], acts[|acts| - 1];
      ActsInEither(front);
      var before, after := ActAll(SPLIT_START, front), ActAll(SPLIT_START, acts);
      match last
      case Api(op) =>
        ActsKeepLedger(acts);
        AnchoredHaveCid(after.api.db, Seen(after.api.db, after.api.chain), after.api.clean);
        OpAnchors(before.api, op);
        NothingAnchored(before.api.db.hecs, before.own);
        StaysInEither(before.api.db.hecs, after.api.db.hecs, before.api.chain, before.own, after.api.chain, after.own);
      case WorkerPass(limit) =>
        PassInEither(before.api.db, before.api.chain, before.own, FirstUnanchored(before.api.db.hecs, limit));
    }
  }

  lemma NothingYet()
    ensures InEither(EMPTY_DB.hecs, GENESIS, GENESIS)
  {
  }

  /** What is left of full backing: one of the two registries has the digest, under the certificate's content id. */
  lemma LottedIsAnchoredSomewhere(acts: seq<Act>)
    requires forall i | 0 <= i < |acts| :: ApiOnly(acts[i])
    ensures var w := ActAll(SPLIT_START, acts);
            forall h | 0 <= h < |w.api.db.hecs| && w.api.db.hecs[h].lot.Some? ::
              && w.api.db.hecs[h].cid.Some?
              && (|| Lookup(w.api.chain, w.api.db.hecs[h].hash) == w.api.db.hecs[h].cid
                  || Lookup(w.own, w.api.db.hecs[h].hash) == w.api.db.hecs[h].cid)
  {
    hide ActAll, Inv, Claimed;
    var w := ActAll(SPLIT_START, acts);
    ActsKeepLedger(acts);
    ActsInEither(acts);
    AnchoredHaveCid(w.api.db, Seen(w.api.db, w.api.chain), w.api.clean);
  }
}
