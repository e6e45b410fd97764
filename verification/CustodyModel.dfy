/**
 * The custody ledger as values: its tables, and what each service operation does to them and to
 * the chain. Rows are listed in creation order, so a row's id is its index.
 * Energies are ten-thousandths of a kWh, money is centavos, prices are ten-thousandths of a BRL.
 */
module CustodyModel {
  import opened Collections
  import opened Rounding
  import opened MockChain
  import opened Confidence

  type UserId = nat
  type HecId = nat

  datatype Validation = Validation(reading: Reading, verdict: Verdict)

  datatype HecStatus = Pending | Registered | Minted | Custodied | Allocated | Retired

  datatype Hec = Hec(
    validation: nat, hash: Hash, energy: nat, cid: Option<string>,
    tx: Option<TxHash>, lot: Option<nat>, status: HecStatus)

  datatype LotStatus = Open | Closed
  datatype InventoryStatus = NotIssued | Issued | Suspended | Revoked

  /** `batch` 0 means that no batch was issued on chain. */
  datatype Lot = Lot(
    total: nat, avail: nat, energy: nat, price: Option<int>,
    status: LotStatus, inventory: InventoryStatus, batch: nat)

  datatype Wallet = Wallet(brl: int, hec: int, energy: int)

  datatype Transaction = Transaction(
    buyer: UserId, lot: nat, quantity: nat, energy: nat, unitPrice: nat, price: nat, ids: seq<HecId>)

  datatype PositionStatus = Active | Exhausted

  datatype Position = Position(
    user: UserId, lot: nat, tx: nat, quantity: nat, avail: nat, retired: nat,
    energyTotal: nat, energyAvail: nat, ids: seq<HecId>, status: PositionStatus)

  /** `position` names the position the event was drawn from, and `energy` what it took from it. */
  datatype RetirementEvent = RetirementEvent(
    burn: nat, user: UserId, lot: nat, batch: nat, position: nat,
    amount: nat, energy: nat, ids: seq<HecId>, retirement: nat)

  datatype BurnCertificate = BurnCertificate(
    user: UserId, quantity: nat, energy: nat, retiredMhec: nat, ids: seq<HecId>, hash: Hash)

  datatype Db = Db(
    validations: seq<Validation>, hecs: seq<Hec>, lots: seq<Lot>,
    users: map<UserId, bool>, wallets: map<UserId, Wallet>,
    transactions: seq<Transaction>, positions: seq<Position>,
    burns: seq<BurnCertificate>, events: seq<RetirementEvent>)

  const EMPTY_DB := Db([], [], [], map[], map[], [], [], [], [])

  const INITIAL_BALANCE := 1000000
  const PRICE_SCALE := 1000000

  datatype Failure =
    | ValidationNotFound | NotApproved | AlreadyCertified | DuplicateHash
    | HecNotFound | AlreadyAnchored | MissingCid
    | EmptyHecList | NotBacked
    | InvalidQuantity | LotNotFound | LotNotOpen | InventoryNotIssued | NoPrice | ExceedsAvailable
    | BuyerNotFound | BuyerDisabled | WalletNotFound | TooFewCustodied | InsufficientFunds
    | InvalidReason | InsufficientBalance | InsufficientInventory
    | MissingBatch | TooFewSourceIds | LeftoverRemaining
    | ChainRefused(cause: ChainError)

  /** A service call either stages new tables or fails; the chain keeps what it did either way. */
  datatype Attempt = Success(db: Db, chain: Chain) | Failed(chain: Chain, error: Failure)

  // ---------------------------------------------------------------- users and validations

  /** Registration opens a wallet with the initial balance. */
  function AddUser(db: Db, user: UserId): Db {
    if user in db.users then db
    else db.(users := db.users[user := true],
             wallets := db.wallets[user := Wallet(INITIAL_BALANCE, 0, 0)])
  }

  /** A telemetry reading that passed signature and nonce checks is stored with its verdict. */
  function Ingest(db: Db, reading: Reading): Db {
    db.(validations := db.validations + [Validation(reading, Validate(reading))])
  }

  // ---------------------------------------------------------------- certificates

  predicate Certified(hecs: seq<Hec>, v: nat) {
    exists h | 0 <= h < |hecs| :: hecs[h].validation == v
  }

  predicate HashUsed(hecs: seq<Hec>, hash: Hash) {
    exists h | 0 <= h < |hecs| :: hecs[h].hash == hash
  }

  /** The new row, unless one of the certificate table's two uniqueness constraints objects. */
  function InsertHec(db: Db, v: nat, hash: Hash, cid: string, tx: Option<TxHash>): Result<Db, Failure>
    requires v < |db.validations|
  {
    if Certified(db.hecs, v) then Err(AlreadyCertified)
    else if HashUsed(db.hecs, hash) then Err(DuplicateHash)
    else
      var status := if tx.Some? then Registered else Pending;
      Ok(db.(hecs := db.hecs + [Hec(v, hash, db.validations[v].reading.energy, Some(cid), tx, None, status)]))
  }

  /**
   * Certificate issue for a validation. `anchored` is false for a provider that returns no
   * transaction hash, which leaves the certificate pending.
   */
  function IssueHec(db: Db, chain: Chain, v: nat, hash: Hash, cid: string, anchored: bool): Attempt {
    if v >= |db.validations| then Failed(chain, ValidationNotFound)
    else if db.validations[v].verdict != Approved then Failed(chain, NotApproved)
    else if !anchored then Inserted(InsertHec(db, v, hash, cid, None), chain)
    else
      match Register(chain, hash, cid)
      case Err(e) => Failed(chain, ChainRefused(e))
      case Ok(done) => Inserted(InsertHec(db, v, hash, cid, Some(done.1)), done.0)
  }

  /** The issue endpoint looks for an earlier certificate before anything reaches the chain. */
  function IssueOnRequest(db: Db, chain: Chain, v: nat, hash: Hash, cid: string, anchored: bool): Attempt {
    if v < |db.validations| && db.validations[v].verdict == Approved && Certified(db.hecs, v)
      then Failed(chain, AlreadyCertified)
    else IssueHec(db, chain, v, hash, cid, anchored)
  }

  /** A reading is stored first; an approved one is then certified at once, and a failure there costs only that. */
  function IngestTelemetry(db: Db, chain: Chain, reading: Reading, hash: Hash, cid: string,
                           anchored: bool): (Db, Chain)
  {
    var stored := Ingest(db, reading);
    if Validate(reading) != Approved then (stored, chain)
    else
      match IssueHec(stored, chain, |db.validations|, hash, cid, anchored)
      case Success(issued, c) => (issued, c)
      case Failed(c, _) => (stored, c)
  }

  function Inserted(r: Result<Db, Failure>, chain: Chain): Attempt {
    match r
    case Ok(db) => Success(db, chain)
    case Err(e) => Failed(chain, e)
  }

  function Anchor(tx: TxHash): Hec -> Hec {
    (h: Hec) => h.(tx := Some(tx), status := Registered)
  }

  /** Manual registration of one certificate. */
  function RegisterHec(db: Db, chain: Chain, h: HecId): Attempt {
    if h >= |db.hecs| then Failed(chain, HecNotFound)
    else if db.hecs[h].tx.Some? then Failed(chain, AlreadyAnchored)
    else if db.hecs[h].cid == None || db.hecs[h].cid == Some("") then Failed(chain, MissingCid)
    else AnchorRow(db, chain, h)
  }

  /** What the manual endpoint and the mint worker both do to a row, without looking at its status. */
  function AnchorRow(db: Db, chain: Chain, h: HecId): Attempt {
    if h >= |db.hecs| then Failed(chain, HecNotFound)
    else if db.hecs[h].cid.None? then Failed(chain, MissingCid)
    else match Register(chain, db.hecs[h].hash, db.hecs[h].cid.value)
         case Err(e) => Failed(chain, ChainRefused(e))
         case Ok(done) => Success(db.(hecs := db.hecs[h := Anchor(done.1)(db.hecs[h])]), done.0)
  }

  // ---------------------------------------------------------------- lots

  function EnergyAt(hecs: seq<Hec>): nat -> int {
    (i: nat) => if i < |hecs| then hecs[i].energy else 0
  }

  function EnergyOf(hecs: seq<Hec>, ids: seq<HecId>): nat {
    SumNonNegative(ids, EnergyAt(hecs));
    Sum(ids, EnergyAt(hecs))
  }

  /** The list without repetitions, each id at its first place. */
  function Dedup(ids: seq<HecId>): seq<HecId> {
    if ids == [] then []
    else
      var front := Dedup(ids[..|ids| - 1]);
      if ids[|ids| - 1] in front then front else front + [ids[|ids| - 1]]
  }

  predicate Backed(h: Hec) {
    && (h.status == Registered || h.status == Minted)
    && h.cid != None && h.cid != Some("")
    && h.tx.Some?
    && h.lot.None?
  }

  function StartOf(db: Db, i: HecId): int {
    if i < |db.hecs| && db.hecs[i].validation < |db.validations|
      then db.validations[db.hecs[i].validation].reading.start else 0
  }

  /** Validation periods are one hour long. */
  function EndOf(db: Db, i: HecId): int {
    StartOf(db, i) + 3600
  }

  function EarliestStart(db: Db, ids: seq<HecId>): int {
    if ids == [] then 0
    else
      var last := StartOf(db, ids[|ids| - 1]);
      if |ids| == 1 then last
      else
        var rest := EarliestStart(db, ids[..|ids| - 1]);
        if last < rest then last else rest
  }

  function LatestEnd(db: Db, ids: seq<HecId>): int {
    if ids == [] then 0
    else
      var last := EndOf(db, ids[|ids| - 1]);
      if |ids| == 1 then last
      else
        var rest := LatestEnd(db, ids[..|ids| - 1]);
        if last > rest then last else rest
  }

  function PutInLot(lot: nat): Hec -> Hec {
    (h: Hec) => h.(lot := Some(lot), status := Custodied)
  }

  /** `hash` and `manifest` are the digest and the content id of the lot manifest. */
  function CreateLot(db: Db, chain: Chain, requested: seq<HecId>, hash: Hash, manifest: string,
                     price: Option<int>): Attempt {
    var ids := Dedup(requested);
    if requested == [] then Failed(chain, EmptyHecList)
    else if exists i | i in ids :: i >= |db.hecs| then Failed(chain, HecNotFound)
    else if exists i | i in ids :: !Backed(db.hecs[i]) then Failed(chain, NotBacked)
    else
      match IssueBatch(chain, hash, manifest, EarliestStart(db, ids), LatestEnd(db, ids),
                       |ids| * UNIT_SCALE, "HEC-CUSTODY-1.0", "1.0")
      case Err(e) => Failed(chain, ChainRefused(e))
      case Ok(done) => Success(StageLot(db, ids, price, done.1), done.0)
  }

  function StageLot(db: Db, ids: seq<HecId>, price: Option<int>, batch: nat): Db {
    var lot := Lot(|ids|, |ids|, EnergyOf(db.hecs, ids), price, Open, Issued, batch);
    db.(lots := db.lots + [lot], hecs := UpdateAt(db.hecs, ids, PutInLot(|db.lots|)))
  }

  // ---------------------------------------------------------------- purchases

  predicate InCustody(h: Hec, lot: nat) {
    h.lot == Some(lot) && h.status == Custodied
  }

  /** The first `limit` custodied certificates of a lot, oldest first. */
  function FirstCustodied(hecs: seq<Hec>, lot: nat, limit: nat): seq<HecId> {
    if hecs == [] then []
    else
      var n := |hecs| - 1;
      var front := FirstCustodied(hecs[..n], lot, limit);
      if |front| < limit && InCustody(hecs[n], lot) then front + [n] else front
  }

  function Price(unit: nat, energy: nat): nat {
    RoundHalfUp(unit * energy, PRICE_SCALE)
  }

  function SetStatus(status: HecStatus): Hec -> Hec {
    (h: Hec) => h.(status := status)
  }

  function Buy(db: Db, buyer: UserId, lot: nat, quantity: int): Result<Db, Failure> {
    if quantity <= 0 then Err(InvalidQuantity)
    else if lot >= |db.lots| then Err(LotNotFound)
    else
      var l := db.lots[lot];
      if l.status != Open then Err(LotNotOpen)
      else if l.inventory != Issued || l.batch == 0 then Err(InventoryNotIssued)
      else if l.price.None? || l.price.value <= 0 then Err(NoPrice)
      else if quantity > l.avail then Err(ExceedsAvailable)
      else if buyer !in db.users then Err(BuyerNotFound)
      else if !db.users[buyer] then Err(BuyerDisabled)
      else if buyer !in db.wallets then Err(WalletNotFound)
      else
        var ids := FirstCustodied(db.hecs, lot, quantity);
        if |ids| < quantity then Err(TooFewCustodied)
        else
          var energy := EnergyOf(db.hecs, ids);
          var price := Price(l.price.value, energy);
          if db.wallets[buyer].brl < price then Err(InsufficientFunds)
          else Ok(Settle(db, buyer, lot, quantity, ids, energy, l.price.value, price))
  }

  function Settle(db: Db, buyer: UserId, lot: nat, quantity: nat, ids: seq<HecId>,
                  energy: nat, unit: nat, price: nat): Db
    requires lot < |db.lots| && quantity <= db.lots[lot].avail && buyer in db.wallets
  {
    var w := db.wallets[buyer];
    var l := db.lots[lot];
    var left := l.avail - quantity;
    db.(wallets := db.wallets[buyer := Wallet(w.brl - price, w.hec + quantity, w.energy + energy)],
        lots := db.lots[lot := l.(avail := left, status := if left == 0 then Closed else l.status)],
        hecs := UpdateAt(db.hecs, ids, SetStatus(Allocated)),
        transactions := db.transactions + [Transaction(buyer, lot, quantity, energy, unit, price, ids)],
        positions := db.positions + [Position(buyer, lot, |db.transactions|, quantity, quantity, 0,
                                              energy, energy, ids, Active)])
  }

  // ---------------------------------------------------------------- burns

  predicate Burnable(p: Position, user: UserId) {
    p.user == user && p.avail > 0 && p.status == Active
  }

  /** The positions a burn considers: the user's active ones with something left, oldest first. */
  function Considered(positions: seq<Position>, user: UserId): seq<nat> {
    if positions == [] then []
    else
      var n := |positions| - 1;
      var front := Considered(positions[..n], user);
      if Burnable(positions[n], user) then front + [n] else front
  }

  function AvailAt(positions: seq<Position>): nat -> int {
    (k: nat) => if k < |positions| then positions[k].avail else 0
  }

  /** Energy taken by `c` of a position's available certificates: all of it, or the rounded share. */
  function ConsumedEnergy(p: Position, c: nat): (e: nat)
    ensures e <= p.energyAvail
  {
    if c >= p.avail then p.energyAvail
    else
      RoundHalfUpShare(p.energyAvail, c, p.avail);
      RoundHalfUp(p.energyAvail * c, p.avail)
  }

  function Consume(p: Position, c: nat): Position
    requires 0 < c <= p.avail && c <= |p.ids|
  {
    p.(avail := p.avail - c, retired := p.retired + c,
       energyAvail := p.energyAvail - ConsumedEnergy(p, c), ids := p.ids[c..],
       status := if p.avail == c then Exhausted else p.status)
  }

  /** The variables of the allocation loop, with the tables it updates. */
  datatype BurnState = BurnState(db: Db, chain: Chain, remaining: nat, energy: nat, ids: seq<HecId>)

  datatype BurnOutcome = Done(st: BurnState) | Broken(chain: Chain, error: Failure)

  function Min(a: nat, b: nat): nat { if a < b then a else b }

  /** The tables after `c` certificates are taken out of position `k` under on-chain retirement `r`. */
  function Draw(db: Db, k: nat, c: nat, r: nat): Db
    requires k < |db.positions| && db.positions[k].lot < |db.lots|
    requires 0 < c <= db.positions[k].avail && c <= |db.positions[k].ids|
  {
    var p := db.positions[k];
    var event := RetirementEvent(|db.burns|, p.user, p.lot, db.lots[p.lot].batch, k, c,
                                 ConsumedEnergy(p, c), p.ids[..c], r);
    db.(positions := db.positions[k := Consume(p, c)],
        hecs := UpdateAt(db.hecs, p.ids[..c], SetStatus(Retired)),
        events := db.events + [event])
  }

  /** One turn of the allocation loop, on position `k`. */
  function BurnStep(st: BurnState, k: nat): BurnOutcome {
    if k >= |st.db.positions| || st.db.positions[k].avail == 0 || st.remaining == 0 then Done(st)
    else
      var p := st.db.positions[k];
      var c := Min(st.remaining, p.avail);
      if p.lot >= |st.db.lots| || st.db.lots[p.lot].batch == 0 then Broken(st.chain, MissingBatch)
      else if |p.ids| < c then Broken(st.chain, TooFewSourceIds)
      else
        var batch := st.db.lots[p.lot].batch;
        match RetireBatch(st.chain, batch, c * UNIT_SCALE)
        case Err(e) => Broken(st.chain, ChainRefused(e))
        case Ok(done) =>
          Done(BurnState(Draw(st.db, k, c, done.1), done.0, st.remaining - c,
                         st.energy + ConsumedEnergy(p, c), st.ids + p.ids[..c]))
  }

  function BurnLoop(st: BurnState, ks: seq<nat>): BurnOutcome
    decreases |ks|
  {
    if ks == [] || st.remaining == 0 then Done(st)
    else
      match BurnStep(st, ks[0])
      case Broken(chain, e) => Broken(chain, e)
      case Done(next) => BurnLoop(next, ks[1..])
  }

  predicate ValidReason(reason: string) {
    reason == "offset" || reason == "retirement" || reason == "voluntary"
  }

  /** The checks before the allocation loop. */
  function BurnRefusal(db: Db, user: UserId, quantity: int, reason: string): Option<Failure> {
    if quantity <= 0 then Some(InvalidQuantity)
    else if !ValidReason(reason) then Some(InvalidReason)
    else if user !in db.wallets then Some(WalletNotFound)
    else if db.wallets[user].hec < quantity then Some(InsufficientBalance)
    else if Sum(Considered(db.positions, user), AvailAt(db.positions)) < quantity then Some(InsufficientInventory)
    else None
  }

  /**
   * A whole burn. `hash` and `cid` stand for the retirement certificate's digest and content id;
   * an empty `cid` stands for a certificate, PDF or upload step that raised.
   */
  function ExecuteBurn(db: Db, chain: Chain, user: UserId, quantity: int, reason: string,
                       hash: Hash, cid: string): Attempt {
    if BurnRefusal(db, user, quantity, reason).Some?
      then Failed(chain, BurnRefusal(db, user, quantity, reason).value)
    else
      match BurnLoop(BurnState(db, chain, quantity, 0, []), Considered(db.positions, user))
      case Broken(c, e) => Failed(c, e)
      case Done(st) =>
        if st.remaining != 0 then Failed(st.chain, LeftoverRemaining)
        else match Register(st.chain, hash, cid)
             case Err(e) => Failed(st.chain, ChainRefused(e))
             case Ok(done) => Success(CloseBurn(st.db, user, quantity, st.energy, st.ids, hash), done.0)
  }

  /** The wallet deduction and the burn certificate. */
  function CloseBurn(db: Db, user: UserId, quantity: nat, energy: nat, ids: seq<HecId>, hash: Hash): Db {
    if user !in db.wallets then db
    else
      var w := db.wallets[user];
      db.(wallets := db.wallets[user := Wallet(w.brl, w.hec - quantity, w.energy - energy)],
          burns := db.burns + [BurnCertificate(user, quantity, energy, quantity * UNIT_SCALE, ids, hash)])
  }
}
