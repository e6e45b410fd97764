/**
 * When each custody operation succeeds, what exactly it writes, and what its refusals mean; stated of the
 * rows themselves, with the constants written out.
 */
module CustodyEffects {
  import opened Collections
  import opened MockChain
  import opened Confidence
  import opened CustodyModel
  import opened CustodyInvariant
  import opened TradeSteps
  import opened BurnAllocation
  import opened BurnProgress

  // ---------------------------------------------------------------- users and readings

  /** A new user is active and starts with 10 000 BRL and nothing else; a known one is left alone. */
  lemma RegistrationOpensWallet(db: Db, u: UserId)
    ensures var after := AddUser(db, u);
            if u in db.users then after == db
            else after == db.(users := db.users[u := true], wallets := db.wallets[u := Wallet(1000000, 0, 0)])
  {
  }

  /** The chain after a digest has been registered in its next block. */
  ghost predicate Registers(c: Chain, c': Chain, hash: Hash, cid: string) {
    c' == c.(registry := c.registry[hash := cid], block := c.block + 1)
  }

  /** A digest that the registry takes. */
  predicate Registrable(c: Chain, hash: Hash, cid: string) {
    hash != 0 && cid != "" && hash !in c.registry
  }

  /** The new row of an issue: it rests on the validation asked for, and carries its reading's energy. */
  function NewRow(db: Db, chain: Chain, v: nat, hash: Hash, cid: string, anchored: bool): Hec
    requires v < |db.validations|
  {
    Hec(v, hash, db.validations[v].reading.energy, Some(cid),
        if anchored then Some(chain.block + 1) else None, None, if anchored then Registered else Pending)
  }

  /**
   * An issue goes through exactly for an approved validation without a certificate and an unused digest that
   * the chain takes. It then adds exactly one row, which rests on that validation. A refused one leaves the
   * chain alone, or with the digest when only the row was refused.
   */
  lemma IssueExactly(db: Db, chain: Chain, v: nat, hash: Hash, cid: string, anchored: bool)
    ensures var a := IssueHec(db, chain, v, hash, cid, anchored);
            && (a.Success? <==>
                  && v < |db.validations| && db.validations[v].verdict == Approved
                  && (forall h | 0 <= h < |db.hecs| :: db.hecs[h].validation != v && db.hecs[h].hash != hash)
                  && (anchored ==> Registrable(chain, hash, cid)))
            && (a.Success? ==> a.db == db.(hecs := db.hecs + [NewRow(db, chain, v, hash, cid, anchored)]))
            && (a.Success? ==> if anchored then Registers(chain, a.chain, hash, cid) else a.chain == chain)
            && (a.Failed? ==> a.chain == chain || (anchored && Registers(chain, a.chain, hash, cid)))
  {
  }

  /** What a refused issue says is so. */
  lemma IssueRefusalIsTrue(db: Db, chain: Chain, v: nat, hash: Hash, cid: string, anchored: bool)
    requires IssueHec(db, chain, v, hash, cid, anchored).Failed?
    ensures match IssueHec(db, chain, v, hash, cid, anchored).error
            case ValidationNotFound => v >= |db.validations|
            case NotApproved => v < |db.validations| && db.validations[v].verdict != Approved
            case AlreadyCertified => exists h | 0 <= h < |db.hecs| :: db.hecs[h].validation == v
            case DuplicateHash => exists h | 0 <= h < |db.hecs| :: db.hecs[h].hash == hash
            case ChainRefused(_) => anchored && !Registrable(chain, hash, cid)
            case _ => false
  {
  }

  /** On request the earlier certificate is found first, and the chain hears nothing of it. */
  lemma IssueOnRequestExactly(db: Db, chain: Chain, v: nat, hash: Hash, cid: string, anchored: bool)
    ensures var a := IssueOnRequest(db, chain, v, hash, cid, anchored);
            var issue := IssueHec(db, chain, v, hash, cid, anchored);
            && (a.Success? <==> issue.Success?) && (a.Success? ==> a == issue)
            && (v < |db.validations| && db.validations[v].verdict == Approved ==>
                  ((exists h | 0 <= h < |db.hecs| :: db.hecs[h].validation == v) ==>
                     a == Failed(chain, AlreadyCertified)))
  {
  }

  /** Telemetry stores the reading with its verdict, and certifies it at once exactly when that can be done. */
  lemma TelemetryExactly(db: Db, chain: Chain, reading: Reading, hash: Hash, cid: string, anchored: bool)
    ensures var (db', c') := IngestTelemetry(db, chain, reading, hash, cid, anchored);
            var n := |db.validations|;
            && db' == db.(validations := db.validations + [Validation(reading, Validate(reading))], hecs := db'.hecs)
            && (if && NoLayerFailed(reading) && (anchored ==> Registrable(chain, hash, cid))
                   && (forall h | 0 <= h < |db.hecs| :: db.hecs[h].validation != n && db.hecs[h].hash != hash)
                then db'.hecs == db.hecs + [NewRow(db', chain, n, hash, cid, anchored)]
                else db'.hecs == db.hecs)
  {
    ApprovedExactlyWhenNoLayerFailed(reading);
    var stored := Ingest(db, reading);
    IssueExactly(stored, chain, |db.validations|, hash, cid, anchored);
    hide IssueHec, Validate, NoLayerFailed;
  }

  /**
   * A row is registered by hand exactly when it exists without a transaction and the chain takes its digest; it
   * then gets the transaction and its status, and no other row changes.
   */
  lemma RegisterExactly(db: Db, chain: Chain, h: HecId)
    ensures var a := RegisterHec(db, chain, h);
            && (a.Success? <==>
                  && h < |db.hecs| && db.hecs[h].tx.None? && db.hecs[h].cid.Some?
                  && Registrable(chain, db.hecs[h].hash, db.hecs[h].cid.value))
            && (a.Success? ==>
                  && a.db == db.(hecs := db.hecs[h := db.hecs[h].(tx := Some(chain.block + 1), status := Registered)])
                  && Registers(chain, a.chain, db.hecs[h].hash, db.hecs[h].cid.value))
            && (a.Failed? ==> a.chain == chain)
            && (a.Failed? ==>
                  match a.error
                  case HecNotFound => h >= |db.hecs|
                  case AlreadyAnchored => h < |db.hecs| && db.hecs[h].tx.Some?
                  case MissingCid => h < |db.hecs| && (db.hecs[h].cid.None? || db.hecs[h].cid.value == "")
                  case ChainRefused(_) => h < |db.hecs| && (db.hecs[h].hash == 0 || db.hecs[h].hash in chain.registry)
                  case _ => false)
  {
  }

  /** The worker looks at no transaction and no status: only the registry decides. */
  lemma AnchorExactly(db: Db, chain: Chain, h: HecId)
    ensures var a := AnchorRow(db, chain, h);
            && (a.Success? <==>
                  h < |db.hecs| && db.hecs[h].cid.Some? && Registrable(chain, db.hecs[h].hash, db.hecs[h].cid.value))
            && (a.Success? ==>
                  && a.db == db.(hecs := db.hecs[h := db.hecs[h].(tx := Some(chain.block + 1), status := Registered)])
                  && Registers(chain, a.chain, db.hecs[h].hash, db.hecs[h].cid.value))
            && (a.Failed? ==> a.chain == chain)
  {
  }

  // ---------------------------------------------------------------- lots

  /** What a refused lot says is so. */
  lemma LotRefusalIsTrue(db: Db, chain: Chain, requested: seq<HecId>, hash: Hash, manifest: string, price: Option<int>)
    requires CreateLot(db, chain, requested, hash, manifest, price).Failed?
    ensures var a := CreateLot(db, chain, requested, hash, manifest, price);
            && a.chain == chain
            && match a.error
               case EmptyHecList => requested == []
               case HecNotFound => exists i | i in requested :: i >= |db.hecs|
               case NotBacked => exists i | i in requested :: i < |db.hecs| && !Backed(db.hecs[i])
               case ChainRefused(e) => e in {ZeroHash, AlreadyIssued, EmptyManifest, BadUnits, BadPeriod}
               case _ => false
  {
    hide EarliestStart, LatestEnd, EnergyOf, Dedup, Backed;
    DedupOk(requested);
  }

  // ---------------------------------------------------------------- purchases

  /** The rows of a purchase: what is paid, and where the certificates and their energy go. */
  ghost predicate Bought(db: Db, after: Db, buyer: UserId, lot: nat, q: nat, ids: seq<HecId>, price: nat)
    requires lot < |db.lots| && buyer in db.wallets && q <= db.lots[lot].avail
    requires db.lots[lot].price.Some? && db.lots[lot].price.value >= 0
  {
    var l, w, energy, n := db.lots[lot], db.wallets[buyer], EnergyOf(db.hecs, ids), |db.transactions|;
    && after.validations == db.validations && after.users == db.users
    && after.burns == db.burns && after.events == db.events
    && after.wallets == db.wallets[buyer := Wallet(w.brl - price, w.hec + q, w.energy + energy)]
    && after.lots == db.lots[lot := l.(avail := l.avail - q, status := if l.avail == q then Closed else Open)]
    && after.transactions == db.transactions + [Transaction(buyer, lot, q, energy, l.price.value, price, ids)]
    && after.positions == db.positions + [Position(buyer, lot, n, q, q, 0, energy, energy, ids, Active)]
    && |after.hecs| == |db.hecs|
    && (forall h | 0 <= h < |db.hecs| ::
          after.hecs[h] == if h in ids then db.hecs[h].(status := Allocated) else db.hecs[h])
  }

  /**
   * A purchase goes to the buyer who asks for it, takes the first custodied certificates of the lot, and costs
   * the lot's price for their energy to within half a centavo.
   */
  lemma PurchaseIs(db: Db, buyer: UserId, lot: nat, q: int)
    requires Buy(db, buyer, lot, q).Ok?
    ensures lot < |db.lots| && buyer in db.wallets && 0 < q <= db.lots[lot].avail
    ensures db.lots[lot].price.Some? && db.lots[lot].price.value > 0
    ensures var ids := FirstCustodied(db.hecs, lot, q);
            var price := Price(db.lots[lot].price.value, EnergyOf(db.hecs, ids));
            && |ids| == q && price <= db.wallets[buyer].brl
            && HalfCentavo(price, db.lots[lot].price.value * EnergyOf(db.hecs, ids))
            && Bought(db, Buy(db, buyer, lot, q).value, buyer, lot, q, ids, price)
  {
    BuyIsSettle(db, buyer, lot, q);
    var ids := FirstCustodied(db.hecs, lot, q);
    HalfUpPrice(db.lots[lot].price.value, EnergyOf(db.hecs, ids));
    hide FirstCustodied, EnergyOf, Price;
  }

  /** `exact` is in millionths of a centavo: ten-thousandths of a BRL per kWh times ten-thousandths of a kWh. */
  predicate HalfCentavo(price: nat, exact: nat) {
    exact - 500000 < 1000000 * price <= exact + 500000
  }

  lemma HalfUpPrice(unit: nat, energy: nat)
    ensures HalfCentavo(Price(unit, energy), unit * energy)
  {
  }

  /** In any state: a purchase goes through exactly when lot, buyer, certificates and money allow. */
  lemma PurchaseExactly(db: Db, buyer: UserId, lot: nat, q: int)
    ensures Buy(db, buyer, lot, q).Ok? <==>
              && 0 < q && lot < |db.lots| && q <= db.lots[lot].avail && q <= Sum(db.hecs, CustodiedIn(lot))
              && db.lots[lot].status == Open && db.lots[lot].inventory == Issued && db.lots[lot].batch > 0
              && db.lots[lot].price.Some? && db.lots[lot].price.value > 0
              && buyer in db.users && db.users[buyer] && buyer in db.wallets
              && Price(db.lots[lot].price.value, EnergyOf(db.hecs, FirstCustodied(db.hecs, lot, q)))
                 <= db.wallets[buyer].brl
  {
    if q > 0 { FirstCustodiedOk(db.hecs, lot, q); }
    hide FirstCustodied, EnergyOf, Price, Sum;
  }

  /** What a refused purchase says is so. */
  lemma PurchaseRefusalIsTrue(db: Db, buyer: UserId, lot: nat, q: int)
    requires Buy(db, buyer, lot, q).Err?
    ensures match Buy(db, buyer, lot, q).error
            case InvalidQuantity => q <= 0
            case LotNotFound => lot >= |db.lots|
            case LotNotOpen => lot < |db.lots| && db.lots[lot].status != Open
            case InventoryNotIssued => lot < |db.lots| && (db.lots[lot].inventory != Issued || db.lots[lot].batch == 0)
            case NoPrice => lot < |db.lots| && (db.lots[lot].price.None? || db.lots[lot].price.value <= 0)
            case ExceedsAvailable => lot < |db.lots| && q > db.lots[lot].avail
            case BuyerNotFound => buyer !in db.users
            case BuyerDisabled => buyer in db.users && !db.users[buyer]
            case WalletNotFound => buyer !in db.wallets
            case TooFewCustodied => Sum(db.hecs, CustodiedIn(lot)) < q
            case InsufficientFunds =>
              && buyer in db.wallets && lot < |db.lots| && q > 0
              && db.lots[lot].price.Some? && db.lots[lot].price.value > 0
              && var ids := FirstCustodied(db.hecs, lot, q);
              && db.wallets[buyer].brl < Price(db.lots[lot].price.value, EnergyOf(db.hecs, ids))
            case _ => false
  {
    if q > 0 { FirstCustodiedOk(db.hecs, lot, q); }
    hide FirstCustodied, EnergyOf, Price, Sum;
  }

  // ---------------------------------------------------------------- burns

  /** What a refused burn says is so; only the chain's refusals come after anything has been retired. */
  lemma BurnRefusalIsTrue(db: Db, chain: Chain, user: UserId, q: int, reason: string, hash: Hash, cid: string,
                          exact: bool)
    requires Inv(db, chain, NO_BURN, exact) && ExecuteBurn(db, chain, user, q, reason, hash, cid).Failed?
    ensures var a := ExecuteBurn(db, chain, user, q, reason, hash, cid);
            && (a.error.ChainRefused? || a.chain == chain)
            && match a.error
               case InvalidQuantity => q <= 0
               case InvalidReason => reason !in {"offset", "retirement", "voluntary"}
               case WalletNotFound => user !in db.wallets
               case InsufficientBalance => user in db.wallets && db.wallets[user].hec < q
               case ChainRefused(InsufficientUnits) =>
                 q > 0 && !UnitsSuffice(db, chain, Considered(db.positions, user), q)
               case ChainRefused(_) => !Registrable(chain, hash, cid)
               case _ => false
  {
    hide Inv, BurnLoop, Considered, UnitsSuffice, PositionsOk, WalletsOk, LotsOk, ChainOk, CertificatesOk,
         OccurrencesOk, BackingOk, Sum;
    BurnSucceedsExactly(db, chain, user, q, reason, hash, cid, exact);
    InvParts(db, chain, NO_BURN, exact);
    RefusalIsBalance(db, user, q, reason);
    if BurnRefusal(db, user, q, reason).None? {
      var ks, st := Considered(db.positions, user), BurnState(db, chain, q, 0, []);
      ConsideredOk(db.positions, user);
      OpenBurnStarts(db, chain, user, exact);
      LoopSucceedsExactly(st, user, ks, exact);
      LoopKeepsInvariant(st, user, ks, exact);
    }
  }
}
