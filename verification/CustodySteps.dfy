/** Every operation other than the allocation loop keeps the ledger invariant. */
module CustodySteps {
  import opened Collections
  import opened MockChain
  import opened Confidence
  import opened CustodyModel
  import opened CustodyInvariant

  // ---------------------------------------------------------------- frames

  /** Lot membership never changes once it is set. */
  ghost predicate KeepsLots(a: seq<Hec>, b: seq<Hec>) {
    && Extends(a, b)
    && forall i | 0 <= i < |a| :: a[i].lot.Some? ==> b[i].lot == a[i].lot
  }

  lemma PositionsFrame(db: Db, db': Db)
    requires PositionsOk(db)
    requires db'.positions == db.positions && db'.transactions == db.transactions && db'.events == db.events
    requires KeepsLots(db.hecs, db'.hecs) && |db.lots| <= |db'.lots| && db.wallets.Keys <= db'.wallets.Keys
    ensures PositionsOk(db')
  {
    forall k | 0 <= k < |db'.positions| ensures PositionOk(db', k) {
      assert PositionOk(db, k);
      EnergyOfFrame(db.hecs, db'.hecs, db.transactions[k].ids);
    }
  }

  lemma EventsFrame(db: Db, chain: Chain, db': Db, chain': Chain)
    requires EventsOk(db, chain)
    requires db'.events == db.events
    requires forall k | 0 <= k < |db.positions| ::
               k < |db'.positions| && db'.positions[k].user == db.positions[k].user
               && db'.positions[k].lot == db.positions[k].lot
    requires forall l | 0 <= l < |db.lots| :: l < |db'.lots| && db'.lots[l].batch == db.lots[l].batch
    requires chain'.retirements == chain.retirements
    ensures EventsOk(db', chain')
  {
    forall i | 0 <= i < |db'.events| ensures EventOk(db', chain', db'.events[i]) {
      assert EventOk(db, chain, db.events[i]);
    }
  }

  // ---------------------------------------------------------------- users and validations

  lemma NoRowsOfStranger(db: Db, u: UserId)
    requires PositionsOk(db) && u !in db.wallets
    ensures Sum(db.positions, AvailOf(u)) == 0 && Sum(db.positions, EnergyHeld(u)) == 0
    ensures Sum(db.transactions, PaidBy(u)) == 0
  {
    forall k | 0 <= k < |db.positions|
      ensures db.positions[k].user != u && db.transactions[k].buyer != u
    {
      assert PositionOk(db, k);
    }
    SumZero(db.positions, AvailOf(u));
    SumZero(db.positions, EnergyHeld(u));
    SumZero(db.transactions, PaidBy(u));
  }

  /** A step that leaves certificates, lots, trades and burns alone answers for its own tables only. */
  lemma OtherTablesFrame(db: Db, chain: Chain, db': Db, exact: bool)
    requires Inv(db, chain, NO_BURN, exact)
    requires db' == db.(validations := db'.validations, users := db'.users, wallets := db'.wallets)
    requires CertificatesOk(db', chain) && WalletsOk(db', NO_BURN) && db.wallets.Keys <= db'.wallets.Keys
    ensures Inv(db', chain, NO_BURN, exact)
  {
    hide Sum, EnergyOf, DrawsOk, ChainOk, CertificatesOk, WalletsOk, PositionOk;
    PositionsFrame(db, db');
    EventsFrame(db, chain, db', chain);
    forall l | 0 <= l < |db'.lots| ensures LotOk(db', chain, l) { assert LotOk(db, chain, l); }
    forall h | 0 <= h < |db'.hecs| ensures OccurrenceOk(db', h) { assert OccurrenceOk(db, h); }
    forall b | 0 <= b < |db'.burns| ensures BurnOk(db', b) { assert BurnOk(db, b); }
  }

  lemma AddUserKeepsWallets(db: Db, u: UserId)
    requires PositionsOk(db) && WalletsOk(db, NO_BURN)
    ensures WalletsOk(AddUser(db, u), NO_BURN)
  {
    hide PositionOk;
    var db' := AddUser(db, u);
    if u !in db.users {
      NoRowsOfStranger(db, u);
      forall v | v in db'.wallets ensures WalletOk(db', NO_BURN, v) {
        if v != u { assert WalletOk(db, NO_BURN, v); }
      }
    }
  }

  lemma SameCertificates(db: Db, chain: Chain, db': Db)
    requires CertificatesOk(db, chain)
    requires db'.validations == db.validations && db'.hecs == db.hecs && db'.lots == db.lots
    ensures CertificatesOk(db', chain)
  {
    hide Validate, Lookup;
    forall h | 0 <= h < |db'.hecs| ensures CertificateOk(db', chain, h) { assert CertificateOk(db, chain, h); }
  }

  lemma AddUserKeepsInvariant(db: Db, chain: Chain, u: UserId, exact: bool)
    requires Inv(db, chain, NO_BURN, exact)
    ensures Inv(AddUser(db, u), chain, NO_BURN, exact)
  {
    hide Inv, CertificatesOk, WalletsOk;
    InvParts(db, chain, NO_BURN, exact);
    AddUserKeepsWallets(db, u);
    SameCertificates(db, chain, AddUser(db, u));
    OtherTablesFrame(db, chain, AddUser(db, u), exact);
  }

  lemma IngestKeepsCertificates(db: Db, chain: Chain, reading: Reading)
    requires CertificatesOk(db, chain)
    ensures CertificatesOk(Ingest(db, reading), chain)
  {
    hide Validate, Lookup;
    var db' := Ingest(db, reading);
    forall h | 0 <= h < |db'.hecs| ensures CertificateOk(db', chain, h) { assert CertificateOk(db, chain, h); }
  }

  lemma IngestKeepsInvariant(db: Db, chain: Chain, reading: Reading, exact: bool)
    requires Inv(db, chain, NO_BURN, exact)
    ensures Inv(Ingest(db, reading), chain, NO_BURN, exact)
  {
    hide Inv, CertificatesOk, Validate;
    var db' := Ingest(db, reading);
    InvParts(db, chain, NO_BURN, exact);
    IngestKeepsCertificates(db, chain, reading);
    assert WalletsOk(db', NO_BURN) by {
      forall v | v in db'.wallets ensures WalletOk(db', NO_BURN, v) { assert WalletOk(db, NO_BURN, v); }
    }
    OtherTablesFrame(db, chain, db', exact);
  }

  // ---------------------------------------------------------------- certificates

  /** Only the certificate table and the chain's certificate registry move; no lotted row is touched. */
  ghost predicate OnlyCertificates(db: Db, chain: Chain, db': Db, chain': Chain) {
    && db' == db.(hecs := db'.hecs)
    && chain' == chain.(registry := chain'.registry, block := chain'.block)
    && (forall h | h in chain.registry :: h in chain'.registry && chain'.registry[h] == chain.registry[h])
    && KeepsLots(db.hecs, db'.hecs)
    && (forall i | 0 <= i < |db.hecs| && db.hecs[i].lot.Some? :: db'.hecs[i] == db.hecs[i])
    && SameHecSums(db.hecs, db'.hecs)
  }

  ghost predicate SameLotSums(a: seq<Hec>, b: seq<Hec>, l: nat) {
    && Sum(b, CustodiedIn(l)) == Sum(a, CustodiedIn(l))
    && Sum(b, MemberOf(l)) == Sum(a, MemberOf(l))
    && Sum(b, EnergyIn(l)) == Sum(a, EnergyIn(l))
  }

  ghost predicate SameHecSums(a: seq<Hec>, b: seq<Hec>) {
    && (forall l :: SameLotSums(a, b, l))
    && Sum(b, LottedEnergy()) == Sum(a, LottedEnergy())
    && Sum(b, CustodiedEnergy()) == Sum(a, CustodiedEnergy())
  }

  ghost predicate Unlotted(h: Hec) {
    h.lot.None? && h.status != Custodied
  }

  lemma AppendSums(hecs: seq<Hec>, hec: Hec)
    requires Unlotted(hec)
    ensures SameHecSums(hecs, hecs + [hec])
  {
    forall l ensures SameLotSums(hecs, hecs + [hec], l) {
      SumAppend(hecs, hec, CustodiedIn(l));
      SumAppend(hecs, hec, MemberOf(l));
      SumAppend(hecs, hec, EnergyIn(l));
    }
    SumAppend(hecs, hec, LottedEnergy());
    SumAppend(hecs, hec, CustodiedEnergy());
  }

  lemma ReplaceSums(hecs: seq<Hec>, h: nat, hec: Hec)
    requires h < |hecs| && Unlotted(hecs[h]) && Unlotted(hec)
    ensures SameHecSums(hecs, hecs[h := hec])
  {
    var b := hecs[h := hec];
    forall l ensures SameLotSums(hecs, b, l) {
      SumUpdate(hecs, h, hec, CustodiedIn(l));
      SumUpdate(hecs, h, hec, MemberOf(l));
      SumUpdate(hecs, h, hec, EnergyIn(l));
    }
    SumUpdate(hecs, h, hec, LottedEnergy());
    SumUpdate(hecs, h, hec, CustodiedEnergy());
  }

  lemma OnlyCertificatesKeepsLots(db: Db, chain: Chain, db': Db, chain': Chain)
    requires LotsOk(db, chain) && OnlyCertificates(db, chain, db', chain')
    ensures LotsOk(db', chain')
  {
    hide Sum, KeepsLots;
    forall l | 0 <= l < |db'.lots| ensures LotOk(db', chain', l) {
      assert LotOk(db, chain, l);
      assert SameLotSums(db.hecs, db'.hecs, l);
    }
  }

  lemma SameButRegistry(chain: Chain, chain': Chain)
    requires ChainOk(chain) && chain' == chain.(registry := chain'.registry, block := chain'.block)
    ensures ChainOk(chain')
  {
  }

  lemma OnlyCertificatesKeepsRest(db: Db, chain: Chain, db': Db, chain': Chain, exact: bool)
    requires Inv(db, chain, NO_BURN, exact) && OnlyCertificates(db, chain, db', chain')
    requires CertificatesOk(db', chain')
    requires forall i | 0 <= i < |db'.hecs| :: i < |db.hecs| || db'.hecs[i].lot.None?
    requires forall i | 0 <= i < |db.hecs| :: db.hecs[i].lot.None? ==> db'.hecs[i].lot.None?
    ensures Inv(db', chain', NO_BURN, exact)
  {
    hide Sum, LotsOk, ChainOk, CertificatesOk, OccurrencesOk, PositionOk, EventOk, SameLotSums;
    PositionsFrame(db, db');
    EventsFrame(db, chain, db', chain');
    OnlyCertificatesKeepsLots(db, chain, db', chain');
    SameButRegistry(chain, chain');
    UnlottedOccurrences(db, chain, db', chain');
    forall v | v in db'.wallets ensures WalletOk(db', NO_BURN, v) { assert WalletOk(db, NO_BURN, v); }
    forall b | 0 <= b < |db'.burns| ensures BurnOk(db', b) { assert BurnOk(db, b); }
  }

  /** Certificates outside lots are listed nowhere, whatever happens to their rows. */
  lemma UnlottedOccurrences(db: Db, chain: Chain, db': Db, chain': Chain)
    requires OnlyCertificates(db, chain, db', chain') && OccurrencesOk(db)
    requires CertificatesOk(db, chain) && CertificatesOk(db', chain')
    requires forall i | 0 <= i < |db'.hecs| :: i < |db.hecs| || db'.hecs[i].lot.None?
    requires forall i | 0 <= i < |db.hecs| :: db.hecs[i].lot.None? ==> db'.hecs[i].lot.None?
    ensures OccurrencesOk(db')
  {
    hide SameHecSums;
    forall h | 0 <= h < |db'.hecs| ensures OccurrenceOk(db', h) {
      assert CertificateOk(db', chain', h);
      if h < |db.hecs| {
        assert CertificateOk(db, chain, h);
        assert OccurrenceOk(db, h);
      } else {
        assert forall k | 0 <= k < |db.positions| :: h !in db.positions[k].ids;
        assert forall k | 0 <= k < |db.events| :: h !in db.events[k].ids;
        SumZero(db.positions, Held(h));
        SumZero(db.events, Burned(h));
      }
    }
  }

  /** The tables stay consistent with a chain that has only gained digests and batches. */
  lemma GrownChain(db: Db, chain: Chain, chain': Chain, ob: OpenBurn, exact: bool)
    requires Inv(db, chain, ob, exact) && ChainOk(chain') && chain'.retirements == chain.retirements
    requires forall h | h in chain.registry :: Lookup(chain', h) == Lookup(chain, h)
    requires forall b | b in chain.batches :: b in chain'.batches && chain'.batches[b] == chain.batches[b]
    ensures Inv(db, chain', ob, exact)
  {
    hide ChainOk, PositionsOk, OccurrencesOk, WalletsOk, BurnsOk, EnergyConserved, Sum, Validate;
    forall h | 0 <= h < |db.hecs| ensures CertificateOk(db, chain', h) { assert CertificateOk(db, chain, h); }
    forall l | 0 <= l < |db.lots| ensures LotOk(db, chain', l) { assert LotOk(db, chain, l); }
    EventsFrame(db, chain, db, chain');
  }

  /** A registered digest stays registered when the database transaction is rolled back; nothing else moves. */
  lemma RegistryGrows(db: Db, chain: Chain, hash: Hash, cid: string, ob: OpenBurn, exact: bool)
    requires Inv(db, chain, ob, exact) && Register(chain, hash, cid).Ok?
    ensures Inv(db, Register(chain, hash, cid).value.0, ob, exact)
  {
    var chain' := Register(chain, hash, cid).value.0;
    assert ChainOk(chain');
    hide Inv, ChainOk;
    GrownChain(db, chain, chain', ob, exact);
  }

  lemma InsertKeepsInvariant(db: Db, chain: Chain, v: nat, hash: Hash, cid: string, tx: Option<TxHash>, exact: bool)
    requires Inv(db, chain, NO_BURN, exact)
    requires v < |db.validations| && db.validations[v].verdict == Approved
    requires tx.Some? ==> hash != 0 && cid != "" && Lookup(chain, hash) == Some(cid)
    ensures var r := InsertHec(db, v, hash, cid, tx);
            r.Ok? ==> Inv(r.value, chain, NO_BURN, exact)
  {
    hide Inv, CertificatesOk, HashUsed, CertificateOk;
    var r := InsertHec(db, v, hash, cid, tx);
    if r.Ok? {
      InvParts(db, chain, NO_BURN, exact);
      InsertCertificates(db, chain, v, hash, cid, tx);
      AppendSums(db.hecs, r.value.hecs[|db.hecs|]);
      OnlyCertificatesKeepsRest(db, chain, r.value, chain, exact);
    }
  }

  lemma InsertCertificates(db: Db, chain: Chain, v: nat, hash: Hash, cid: string, tx: Option<TxHash>)
    requires CertificatesOk(db, chain)
    requires v < |db.validations| && db.validations[v].verdict == Approved
    requires tx.Some? ==> hash != 0 && cid != "" && Lookup(chain, hash) == Some(cid)
    ensures var r := InsertHec(db, v, hash, cid, tx);
            r.Ok? ==> CertificatesOk(r.value, chain)
  {
    var r := InsertHec(db, v, hash, cid, tx);
    if r.Ok? {
      var db' := r.value;
      forall h | 0 <= h < |db'.hecs| ensures CertificateOk(db', chain, h) {
        if h < |db.hecs| { assert CertificateOk(db, chain, h); }
      }
    }
  }

  lemma IssueKeepsInvariant(db: Db, chain: Chain, v: nat, hash: Hash, cid: string, anchored: bool, exact: bool)
    requires Inv(db, chain, NO_BURN, exact)
    ensures var a := IssueHec(db, chain, v, hash, cid, anchored);
            && Inv(db, a.chain, NO_BURN, exact)
            && (a.Success? ==> Inv(a.db, a.chain, NO_BURN, exact))
  {
    hide Inv;
    if v < |db.validations| && db.validations[v].verdict == Approved {
      if !anchored {
        InsertKeepsInvariant(db, chain, v, hash, cid, None, exact);
      } else if Register(chain, hash, cid).Ok? {
        var done := Register(chain, hash, cid).value;
        RegistryGrows(db, chain, hash, cid, NO_BURN, exact);
        InsertKeepsInvariant(db, done.0, v, hash, cid, Some(done.1), exact);
      }
    }
  }

  /**
   * The registry is what protects a lotted certificate from the mint worker: its digest is already
   * on chain, so a row the worker can still anchor is pending and in no lot.
   */
  lemma AnchorRowOnlyPending(db: Db, chain: Chain, h: HecId)
    requires CertificatesOk(db, chain) && AnchorRow(db, chain, h).Success?
    ensures h < |db.hecs| && db.hecs[h].status == Pending && db.hecs[h].lot.None? && db.hecs[h].tx.None?
  {
    assert CertificateOk(db, chain, h);
  }

  /** The row update itself, once the digest is on chain. */
  lemma AnchorUpdate(db: Db, chain: Chain, h: HecId, tx: TxHash, exact: bool)
    requires Inv(db, chain, NO_BURN, exact)
    requires h < |db.hecs| && db.hecs[h].status == Pending && db.hecs[h].lot.None?
    requires db.hecs[h].cid.Some? && db.hecs[h].cid.value != "" && Lookup(chain, db.hecs[h].hash) == db.hecs[h].cid
    requires db.hecs[h].hash != 0
    ensures Inv(db.(hecs := db.hecs[h := Anchor(tx)(db.hecs[h])]), chain, NO_BURN, exact)
  {
    var db' := db.(hecs := db.hecs[h := Anchor(tx)(db.hecs[h])]);
    assert CertificatesOk(db', chain) by {
      forall i | 0 <= i < |db'.hecs| ensures CertificateOk(db', chain, i) { assert CertificateOk(db, chain, i); }
    }
    ReplaceSums(db.hecs, h, db'.hecs[h]);
    OnlyCertificatesKeepsRest(db, chain, db', chain, exact);
  }

  lemma AnchorKeepsInvariant(db: Db, chain: Chain, h: HecId, exact: bool)
    requires Inv(db, chain, NO_BURN, exact)
    ensures var a := AnchorRow(db, chain, h);
            && Inv(db, a.chain, NO_BURN, exact)
            && (a.Success? ==> Inv(a.db, a.chain, NO_BURN, exact))
  {
    hide Inv, CertificatesOk;
    InvParts(db, chain, NO_BURN, exact);
    if AnchorRow(db, chain, h).Success? {
      var hash, cid := db.hecs[h].hash, db.hecs[h].cid.value;
      AnchorRowOnlyPending(db, chain, h);
      RegistryGrows(db, chain, hash, cid, NO_BURN, exact);
      var done := Register(chain, hash, cid).value;
      AnchorUpdate(db, done.0, h, done.1, exact);
    }
  }

  // ---------------------------------------------------------------- lots

  /** What makes a certificate fit for a lot: anchored, with a content id, and in no lot yet. */
  predicate Fit(h: Hec) {
    && h.status in {Registered, Minted} && h.tx.Some? && h.lot.None?
    && h.cid.Some? && h.cid.value != ""
  }

  ghost predicate LotRequestOk(db: Db, requested: seq<HecId>) {
    requested != [] && forall i | i in requested :: i < |db.hecs| && Fit(db.hecs[i])
  }

  lemma {:induction false} StartAttained(db: Db, ids: seq<HecId>) returns (first: HecId)
    requires ids != []
    ensures first in ids && EarliestStart(db, ids) == StartOf(db, first)
    ensures forall i | i in ids :: EarliestStart(db, ids) <= StartOf(db, i)
  {
    hide StartOf;
    var n := |ids| - 1;
    assert ids == ids[..n] + [ids[n]];
    first := ids[n];
    if n > 0 {
      var before := StartAttained(db, ids[..n]);
      if StartOf(db, before) <= StartOf(db, first) {
        first := before;
      }
    }
  }

  lemma {:induction false} EndAttained(db: Db, ids: seq<HecId>) returns (last: HecId)
    requires ids != []
    ensures last in ids && LatestEnd(db, ids) == EndOf(db, last)
    ensures forall i | i in ids :: EndOf(db, i) <= LatestEnd(db, ids)
  {
    hide EndOf;
    var n := |ids| - 1;
    assert ids == ids[..n] + [ids[n]];
    last := ids[n];
    if n > 0 {
      var before := EndAttained(db, ids[..n]);
      if EndOf(db, last) <= EndOf(db, before) {
        last := before;
      }
    }
  }

  /** A lot's period is the hull of its certificates' periods. */
  lemma PeriodOrdered(db: Db, ids: seq<HecId>)
    requires ids != []
    ensures EarliestStart(db, ids) <= LatestEnd(db, ids) - 3600
    ensures forall i | i in ids :: EarliestStart(db, ids) <= StartOf(db, i) && EndOf(db, i) <= LatestEnd(db, ids)
    ensures exists i :: i in ids && EarliestStart(db, ids) == StartOf(db, i)
    ensures exists i :: i in ids && LatestEnd(db, ids) == EndOf(db, i)
  {
    hide EarliestStart, LatestEnd;
    var first := StartAttained(db, ids);
    var last := EndAttained(db, ids);
    assert EndOf(db, first) == StartOf(db, first) + 3600;
  }

  /** A lot is created exactly when every requested certificate is backed and free, and the manifest is new. */
  lemma CreateLotAccepts(db: Db, chain: Chain, requested: seq<HecId>, hash: Hash, manifest: string, price: Option<int>)
    ensures CreateLot(db, chain, requested, hash, manifest, price).Success?
       <==> LotRequestOk(db, requested) && hash != 0 && hash !in chain.byHash && manifest != ""
  {
    DedupOk(requested);
    if requested != [] {
      PeriodOrdered(db, Dedup(requested));
    }
  }

  /** A lot of `ids`: what it offers, what its batch records, and which certificates it holds. */
  ghost predicate LotMade(db: Db, db': Db, batches: map<nat, Batch>, ids: seq<HecId>, hash: Hash, manifest: string,
                          price: Option<int>)
  {
    var l := |db.lots|;
    && |db'.lots| == l + 1 && db'.lots[..l] == db.lots
    && db'.lots[l].price == price && db'.lots[l].status == Open
    && db'.lots[l].avail == db'.lots[l].total == |ids| && db'.lots[l].energy == EnergyOf(db.hecs, ids)
    && db'.lots[l].batch in batches
    && var batch := batches[db'.lots[l].batch];
    && batch.hash == hash && batch.manifest == manifest
    && batch.methodology == "HEC-CUSTODY-1.0" && batch.schema == "1.0"
    && batch.totalUnits == 1000 * |ids| && batch.retiredUnits == 0
    && (forall i | i in ids :: batch.periodStart <= StartOf(db, i) && EndOf(db, i) <= batch.periodEnd)
    && (exists i :: i in ids && batch.periodStart == StartOf(db, i))
    && (exists i :: i in ids && batch.periodEnd == EndOf(db, i))
    && db' == db.(lots := db'.lots, hecs := db'.hecs) && db'.lots[l].inventory == Issued
    && |db'.hecs| == |db.hecs|
    && (forall h | 0 <= h < |db.hecs| ::
          db'.hecs[h] == if h in ids then db.hecs[h].(lot := Some(l), status := Custodied) else db.hecs[h])
  }

  /** A created lot is a lot of the requested certificates, each once; no other certificate is touched. */
  lemma CreatedLot(db: Db, chain: Chain, requested: seq<HecId>, hash: Hash, manifest: string, price: Option<int>)
    ensures NoDup(Dedup(requested)) && forall i :: i in Dedup(requested) <==> i in requested
    ensures var a := CreateLot(db, chain, requested, hash, manifest, price);
            a.Success? ==> LotMade(db, a.db, a.chain.batches, Dedup(requested), hash, manifest, price)
  {
    hide EarliestStart, LatestEnd, EnergyOf, Dedup;
    DedupOk(requested);
    if requested != [] {
      PeriodOrdered(db, Dedup(requested));
    }
  }

  /** The lot's batch is the next one of the chain; nothing else on the chain changes. */
  lemma OneBatchMore(db: Db, chain: Chain, requested: seq<HecId>, hash: Hash, manifest: string, price: Option<int>)
    requires CreateLot(db, chain, requested, hash, manifest, price).Success?
    ensures var a := CreateLot(db, chain, requested, hash, manifest, price);
            && |a.db.lots| == |db.lots| + 1 && a.db.lots[|db.lots|].batch == chain.nextBatch
            && a.chain.registry == chain.registry && a.chain.retirements == chain.retirements
            && (forall b | b in chain.batches && b != chain.nextBatch ::
                  b in a.chain.batches && a.chain.batches[b] == chain.batches[b])
  {
    hide EarliestStart, LatestEnd, EnergyOf, Dedup, Backed;
  }

  /** The period of a certificate is the hour that starts when its reading was taken. */
  lemma PeriodIsAnHour(db: Db, chain: Chain, i: HecId)
    requires CertificatesOk(db, chain) && i < |db.hecs|
    ensures db.hecs[i].validation < |db.validations|
    ensures StartOf(db, i) == db.validations[db.hecs[i].validation].reading.start
    ensures EndOf(db, i) == db.validations[db.hecs[i].validation].reading.start + 3600
  {
    assert CertificateOk(db, chain, i);
  }

  lemma EnergyOfIsSum(hecs: seq<Hec>, ids: seq<HecId>)
    ensures EnergyOf(hecs, ids) == Sum(ids, EnergyAt(hecs))
  {
  }

  lemma LotHecSums(db: Db, chain: Chain, ids: seq<HecId>)
    requires CertificatesOk(db, chain) && NoDup(ids)
    requires forall i | i in ids :: i < |db.hecs| && Backed(db.hecs[i])
    ensures var after := UpdateAt(db.hecs, ids, PutInLot(|db.lots|));
            && (forall l | 0 <= l < |db.lots| :: SameLotSums(db.hecs, after, l))
            && Sum(after, CustodiedIn(|db.lots|)) == |ids| == Sum(after, MemberOf(|db.lots|))
            && Sum(after, EnergyIn(|db.lots|)) == EnergyOf(db.hecs, ids)
            && Sum(after, LottedEnergy()) == Sum(db.hecs, LottedEnergy()) + EnergyOf(db.hecs, ids)
            && Sum(after, CustodiedEnergy()) == Sum(db.hecs, CustodiedEnergy()) + EnergyOf(db.hecs, ids)
  {
    var lot := |db.lots|;
    hide EnergyOf, Sum;
    assert EnergyOf(db.hecs, ids) == Sum(ids, EnergyAt(db.hecs)) by { EnergyOfIsSum(db.hecs, ids); }
    var f, zero, one := PutInLot(lot), Constant<nat>(0), Constant<nat>(1);
    var after := UpdateAt(db.hecs, ids, f);
    assert forall h | 0 <= h < |db.hecs| :: CertificateOk(db, chain, h);
    SumZero(ids, zero);
    SumConstant(ids, 1);
    forall l | 0 <= l < lot ensures SameLotSums(db.hecs, after, l) {
      SumUpdateAt(db.hecs, ids, f, CustodiedIn(l), zero);
      SumUpdateAt(db.hecs, ids, f, MemberOf(l), zero);
      SumUpdateAt(db.hecs, ids, f, EnergyIn(l), zero);
    }
    forall h | 0 <= h < |db.hecs| ensures db.hecs[h].lot != Some(lot) { assert CertificateOk(db, chain, h); }
    SumZero(db.hecs, CustodiedIn(lot));
    SumZero(db.hecs, MemberOf(lot));
    SumZero(db.hecs, EnergyIn(lot));
    SumUpdateAt(db.hecs, ids, f, CustodiedIn(lot), one);
    SumUpdateAt(db.hecs, ids, f, MemberOf(lot), one);
    SumUpdateAt(db.hecs, ids, f, EnergyIn(lot), EnergyAt(db.hecs));
    SumUpdateAt(db.hecs, ids, f, LottedEnergy(), EnergyAt(db.hecs));
    SumUpdateAt(db.hecs, ids, f, CustodiedEnergy(), EnergyAt(db.hecs));
  }

  lemma IssueGrowsChain(chain: Chain, hash: Hash, manifest: string, s: int, e: int, units: int, mv: string, sv: string)
    requires ChainOk(chain) && IssueBatch(chain, hash, manifest, s, e, units, mv, sv).Ok?
    ensures var chain' := IssueBatch(chain, hash, manifest, s, e, units, mv, sv).value.0;
            && chain'.retirements == chain.retirements && chain'.registry == chain.registry
            && (forall b | b in chain.batches :: b in chain'.batches && chain'.batches[b] == chain.batches[b])
            && chain.nextBatch !in chain.batches && chain.nextBatch in chain'.batches
            && chain'.batches[chain.nextBatch].totalUnits == units && chain'.batches[chain.nextBatch].retiredUnits == 0
  {
    hide RecordedUnits;
  }

  /** A batch issued for a lot that was then rolled back is an orphan; no lot refers to it. */
  lemma OrphanBatch(db: Db, chain: Chain, hash: Hash, manifest: string, s: int, e: int, units: int,
                    mv: string, sv: string, exact: bool)
    requires Inv(db, chain, NO_BURN, exact) && IssueBatch(chain, hash, manifest, s, e, units, mv, sv).Ok?
    ensures Inv(db, IssueBatch(chain, hash, manifest, s, e, units, mv, sv).value.0, NO_BURN, exact)
  {
    InvParts(db, chain, NO_BURN, exact);
    hide Inv, ChainOk, LotsOk, PositionsOk, CertificatesOk, OccurrencesOk, BackingOk, WalletsOk, IssueBatch;
    IssueKeepsChain(chain, hash, manifest, s, e, units, mv, sv);
    IssueGrowsChain(chain, hash, manifest, s, e, units, mv, sv);
    GrownChain(db, chain, IssueBatch(chain, hash, manifest, s, e, units, mv, sv).value.0, NO_BURN, exact);
  }

  lemma CreateLotKeepsLots(db: Db, chain: Chain, ids: seq<HecId>, chain': Chain, price: Option<int>, batch: nat,
                           exact: bool)
    requires CertificatesOk(db, chain) && LotsOk(db, chain) && PositionsOk(db) && BackingOk(db, chain, exact)
    requires NoDup(ids) && ids != [] && forall i | i in ids :: i < |db.hecs| && Backed(db.hecs[i])
    requires batch !in chain.batches && batch in chain'.batches
    requires chain'.batches[batch].totalUnits == UNIT_SCALE * |ids| && chain'.batches[batch].retiredUnits == 0
    requires forall b | b in chain.batches :: b in chain'.batches && chain'.batches[b] == chain.batches[b]
    ensures var db' := StageLot(db, ids, price, batch);
            && LotsOk(db', chain')
            && BackingOk(db', chain', exact)
  {
    var db' := StageLot(db, ids, price, batch);
    var lot := |db.lots|;
    LotHecSums(db, chain, ids);
    forall k | 0 <= k < |db.positions| ensures db.positions[k].lot < lot { assert PositionOk(db, k); }
    SumZero(db.positions, QuantityIn(lot));
    SumZero(db.positions, RetiredIn(lot));
    forall l | 0 <= l < |db'.lots| ensures LotOk(db', chain', l) {
      if l < lot {
        assert LotOk(db, chain, l);
        assert SameLotSums(db.hecs, db'.hecs, l);
      }
    }
    assert forall l | 0 <= l < lot :: LotOk(db, chain, l);
  }

  /** A lot that goes through: the batch that is issued for it, and the rows that are staged. */
  lemma CreateLotStages(db: Db, chain: Chain, requested: seq<HecId>, hash: Hash, manifest: string, price: Option<int>)
    ensures var a := CreateLot(db, chain, requested, hash, manifest, price);
            var ids := Dedup(requested);
            var issued := IssueBatch(chain, hash, manifest, EarliestStart(db, ids), LatestEnd(db, ids),
                                     |ids| * UNIT_SCALE, "HEC-CUSTODY-1.0", "1.0");
            if a.Success? then
              && issued.Ok? && a.chain == issued.value.0 && a.db == StageLot(db, ids, price, chain.nextBatch)
              && NoDup(ids) && ids != [] && (forall i | i in ids :: i < |db.hecs| && Backed(db.hecs[i]))
            else a.chain == chain
  {
    hide EarliestStart, LatestEnd, StageLot, Backed;
    DedupOk(requested);
  }

  lemma CreateLotKeepsInvariant(db: Db, chain: Chain, requested: seq<HecId>, hash: Hash, manifest: string,
                                price: Option<int>, exact: bool)
    requires Inv(db, chain, NO_BURN, exact)
    ensures var a := CreateLot(db, chain, requested, hash, manifest, price);
            && Inv(db, a.chain, NO_BURN, exact)
            && (a.Success? ==> Inv(a.db, a.chain, NO_BURN, exact))
  {
    InvParts(db, chain, NO_BURN, exact);
    hide Inv, StageLot, EarliestStart, LatestEnd, CreateLot, Backed, Dedup, PositionsOk, LotsOk, CertificatesOk,
         OccurrencesOk, BackingOk, WalletsOk, IssueBatch, ChainOk;
    var a := CreateLot(db, chain, requested, hash, manifest, price);
    CreateLotStages(db, chain, requested, hash, manifest, price);
    if a.Success? {
      var ids := Dedup(requested);
      var s, e := EarliestStart(db, ids), LatestEnd(db, ids);
      OrphanBatch(db, chain, hash, manifest, s, e, |ids| * UNIT_SCALE, "HEC-CUSTODY-1.0", "1.0", exact);
      IssueGrowsChain(chain, hash, manifest, s, e, |ids| * UNIT_SCALE, "HEC-CUSTODY-1.0", "1.0");
      StageLotKeepsInvariant(db, chain, ids, a.chain, price, chain.nextBatch, exact);
    }
  }

  lemma StageLotKeepsInvariant(db: Db, chain: Chain, ids: seq<HecId>, chain': Chain, price: Option<int>, batch: nat,
                               exact: bool)
    requires Inv(db, chain, NO_BURN, exact) && Inv(db, chain', NO_BURN, exact)
    requires NoDup(ids) && ids != [] && forall i | i in ids :: i < |db.hecs| && Backed(db.hecs[i])
    requires batch !in chain.batches && batch in chain'.batches
    requires chain'.batches[batch].totalUnits == UNIT_SCALE * |ids| && chain'.batches[batch].retiredUnits == 0
    requires forall b | b in chain.batches :: b in chain'.batches && chain'.batches[b] == chain.batches[b]
    requires chain'.retirements == chain.retirements
    ensures Inv(StageLot(db, ids, price, batch), chain', NO_BURN, exact)
  {
    hide Sum, EnergyOf, ChainOk, CertificatesOk, PositionOk, LotOk, OccurrenceOk, Validate, DrawsOk;
    var db' := StageLot(db, ids, price, batch);
    CreateLotKeepsLots(db, chain, ids, chain', price, batch, exact);
    LotHecSums(db, chain, ids);
    StageLotKeepsRows(db, chain', ids, price, batch);
    PositionsFrame(db, db');
    EventsFrame(db, chain, db', chain');
    forall v | v in db'.wallets ensures WalletOk(db', NO_BURN, v) { assert WalletOk(db, NO_BURN, v); }
    forall b | 0 <= b < |db'.burns| ensures BurnOk(db', b) { assert BurnOk(db, b); }
  }

  lemma StageLotKeepsRows(db: Db, chain: Chain, ids: seq<HecId>, price: Option<int>, batch: nat)
    requires CertificatesOk(db, chain) && OccurrencesOk(db)
    requires forall i | i in ids :: i < |db.hecs| && Backed(db.hecs[i])
    ensures var db' := StageLot(db, ids, price, batch);
            CertificatesOk(db', chain) && OccurrencesOk(db') && KeepsLots(db.hecs, db'.hecs)
  {
    var db' := StageLot(db, ids, price, batch);
    forall h | 0 <= h < |db'.hecs| ensures CertificateOk(db', chain, h) { assert CertificateOk(db, chain, h); }
    forall h | 0 <= h < |db'.hecs| ensures OccurrenceOk(db', h) { assert OccurrenceOk(db, h); }
  }
}
