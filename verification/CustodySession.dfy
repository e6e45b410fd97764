/**
 * The custody services as they run: a database session whose tables are updated in place, next to a
 * chain that no rollback reaches. Every method is proved against its operation on values.
 */
module CustodySession {
  import opened Collections
  import opened Rounding
  import opened MockChain
  import opened Confidence
  import opened CustodyModel
  import opened CustodyInvariant
  import opened BurnAllocation
  import opened MintWorker

  class Session {
    const chain: MockBlockchainProvider

    var validations: seq<Validation>
    var hecs: seq<Hec>
    var lots: seq<Lot>
    var users: map<UserId, bool>
    var wallets: map<UserId, Wallet>
    var transactions: seq<Transaction>
    var positions: seq<Position>
    var burns: seq<BurnCertificate>
    var events: seq<RetirementEvent>

    ghost function State(): Db
      reads this
    {
      Db(validations, hecs, lots, users, wallets, transactions, positions, burns, events)
    }

    constructor (chain: MockBlockchainProvider)
      ensures State() == EMPTY_DB && this.chain == chain
    {
      this.chain := chain;
      validations, hecs, lots := [], [], [];
      users, wallets := map[], map[];
      transactions, positions, burns, events := [], [], [], [];
    }

    /** Sets the status of the listed rows; ids without a row are passed over. */
    method MarkRows(ids: seq<HecId>, status: HecStatus)
      modifies this`hecs
      ensures hecs == UpdateAt(old(hecs), ids, SetStatus(status))
    {
      for j := 0 to |ids|
        invariant hecs == UpdateAt(old(hecs), ids[..j], SetStatus(status))
      {
        assert ids[..j + 1] == ids[..j] + [ids[j]];
        if ids[j] < |hecs| {
          hecs := hecs[ids[j] := hecs[ids[j]].(status := status)];
        }
      }
      assert ids[..|ids|] == ids;
    }

    method TotalEnergy(ids: seq<HecId>) returns (energy: nat)
      ensures energy == EnergyOf(hecs, ids)
    {
      energy := 0;
      for j := 0 to |ids|
        invariant energy == EnergyOf(hecs, ids[..j])
      {
        assert ids[..j + 1][..j] == ids[..j];
        energy := energy + if ids[j] < |hecs| then hecs[ids[j]].energy else 0;
      }
      assert ids[..|ids|] == ids;
    }

    // -------------------------------------------------------------- certificates

    /** Registration on chain, then the row, which a uniqueness constraint may still refuse. */
    method IssueHec(v: nat, hash: Hash, cid: string, anchored: bool) returns (r: Result<nat, Failure>)
      modifies this`hecs, chain
      ensures match CustodyModel.IssueHec(old(State()), old(chain.State()), v, hash, cid, anchored)
              case Success(db, c) => r == Ok(old(|hecs|)) && State() == db && chain.State() == c
              case Failed(c, e) => r == Err(e) && State() == old(State()) && chain.State() == c
    {
      if v >= |validations| {
        return Err(ValidationNotFound);
      }
      if validations[v].verdict != Approved {
        return Err(NotApproved);
      }
      var tx: Option<TxHash> := None;
      if anchored {
        var registered := chain.RegisterCertificate(hash, cid);
        if registered.Err? {
          return Err(ChainRefused(registered.error));
        }
        tx := Some(registered.value);
      }
      var status := if tx.Some? then Registered else Pending;
      if Certified(hecs, v) {
        return Err(AlreadyCertified);
      }
      if HashUsed(hecs, hash) {
        return Err(DuplicateHash);
      }
      hecs := hecs + [Hec(v, hash, validations[v].reading.energy, Some(cid), tx, None, status)];
      return Ok(|hecs| - 1);
    }

    method IssueEndpoint(v: nat, hash: Hash, cid: string, anchored: bool) returns (r: Result<nat, Failure>)
      modifies this`hecs, chain
      ensures match IssueOnRequest(old(State()), old(chain.State()), v, hash, cid, anchored)
              case Success(db, c) => r == Ok(old(|hecs|)) && State() == db && chain.State() == c
              case Failed(c, e) => r == Err(e) && State() == old(State()) && chain.State() == c
    {
      hide Register, InsertHec;
      if v >= |validations| {
        return Err(ValidationNotFound);
      }
      if validations[v].verdict != Approved {
        return Err(NotApproved);
      }
      if Certified(hecs, v) {
        return Err(AlreadyCertified);
      }
      r := IssueHec(v, hash, cid, anchored);
    }

    method RegisterEndpoint(h: HecId) returns (r: Result<TxHash, Failure>)
      modifies this`hecs, chain
      ensures match RegisterHec(old(State()), old(chain.State()), h)
              case Success(db, c) => r.Ok? && State() == db && chain.State() == c && hecs[h].tx == Some(r.value)
              case Failed(c, e) => r == Err(e) && State() == old(State()) && chain.State() == c
    {
      if h >= |hecs| {
        return Err(HecNotFound);
      }
      if hecs[h].tx.Some? {
        return Err(AlreadyAnchored);
      }
      if hecs[h].cid == None || hecs[h].cid == Some("") {
        return Err(MissingCid);
      }
      var registered := chain.RegisterCertificate(hecs[h].hash, hecs[h].cid.value);
      if registered.Err? {
        return Err(ChainRefused(registered.error));
      }
      hecs := hecs[h := hecs[h].(tx := Some(registered.value), status := Registered)];
      return Ok(registered.value);
    }

    /** Two transactions: the validation is committed, then a certificate is issued for it if it is approved. */
    method IngestTelemetry(reading: Reading, hash: Hash, cid: string, anchored: bool) returns (verdict: Verdict)
      modifies this`validations, this`hecs, chain
      ensures verdict == Validate(reading)
      ensures (State(), chain.State())
           == CustodyModel.IngestTelemetry(old(State()), old(chain.State()), reading, hash, cid, anchored)
    {
      hide Register, InsertHec, Score;
      verdict := VerdictOf(Score(true, NtpPass(reading), PhysicsPass(reading), SatellitePass(reading),
                                 reading.consensus));
      validations := validations + [Validation(reading, verdict)];
      if verdict == Approved {
        var issued := IssueHec(|validations| - 1, hash, cid, anchored);
      }
    }

    // -------------------------------------------------------------- lots

    method RemoveRepetitions(requested: seq<HecId>) returns (ids: seq<HecId>)
      ensures ids == Dedup(requested)
    {
      var seen: set<HecId> := {};
      ids := [];
      for j := 0 to |requested|
        invariant ids == Dedup(requested[..j]) && seen == set i | i in ids
      {
        assert requested[..j + 1][..j] == requested[..j];
        if requested[j] !in seen {
          seen := seen + {requested[j]};
          ids := ids + [requested[j]];
        }
      }
      assert requested[..|requested|] == requested;
    }

    /** Without certificates there is no period, and both bounds are the current time. */
    method PeriodBounds(ids: seq<HecId>, now: int) returns (start: int, end: int)
      ensures if ids == [] then start == end == now
              else start == EarliestStart(State(), ids) && end == LatestEnd(State(), ids)
    {
      if ids == [] {
        return now, now;
      }
      start, end := StartOf(Tables(), ids[0]), EndOf(Tables(), ids[0]);
      for j := 1 to |ids|
        invariant start == EarliestStart(State(), ids[..j]) && end == LatestEnd(State(), ids[..j])
      {
        assert ids[..j + 1][..j] == ids[..j];
        var s, e := StartOf(Tables(), ids[j]), EndOf(Tables(), ids[j]);
        if s < start { start := s; }
        if e > end { end := e; }
      }
      assert ids[..|ids|] == ids;
    }

    /** A copy of the tables, as the session can read them. */
    function Tables(): (db: Db)
      reads this
      ensures db == State()
    {
      Db(validations, hecs, lots, users, wallets, transactions, positions, burns, events)
    }

    /** All-or-nothing validation: every requested row is looked up before any is judged. */
    method ValidateRequest(ids: seq<HecId>) returns (failure: Option<Failure>)
      ensures failure == if exists i | i in ids :: i >= |hecs| then Some(HecNotFound)
                         else if exists i | i in ids :: !Backed(hecs[i]) then Some(NotBacked)
                         else None
    {
      for j := 0 to |ids|
        invariant forall i | 0 <= i < j :: ids[i] < |hecs|
      {
        if ids[j] >= |hecs| {
          assert ids[j] in ids;
          return Some(HecNotFound);
        }
      }
      var errors := 0;
      for j := 0 to |ids|
        invariant errors == 0 <==> forall i | 0 <= i < j :: Backed(hecs[ids[i]])
        invariant errors >= 0
      {
        if !Backed(hecs[ids[j]]) {
          errors := errors + 1;
        }
      }
      return if errors > 0 then Some(NotBacked) else None;
    }

    /** The new lot row, and the assignment of its certificates. */
    method AddLot(ids: seq<HecId>, energy: nat, price: Option<int>, batch: nat)
      requires energy == EnergyOf(hecs, ids) && forall i | i in ids :: i < |hecs|
      modifies this`lots, this`hecs
      ensures State() == StageLot(old(State()), ids, price, batch)
    {
      var lot := |lots|;
      lots := lots + [Lot(|ids|, |ids|, energy, price, Open, Issued, batch)];
      ghost var staged := lots;
      for j := 0 to |ids|
        invariant lots == staged && hecs == UpdateAt(old(hecs), ids[..j], PutInLot(lot))
      {
        assert ids[j] in ids;
        assert ids[..j + 1] == ids[..j] + [ids[j]];
        hecs := hecs[ids[j] := hecs[ids[j]].(lot := Some(lot), status := Custodied)];
      }
      assert ids[..|ids|] == ids;
    }

    /** Lot creation: nothing is staged unless every certificate passes and the batch is issued. */
    method CreateLot(requested: seq<HecId>, hash: Hash, manifest: string, price: Option<int>, now: int)
      returns (r: Result<nat, Failure>)
      modifies this, chain
      ensures match CustodyModel.CreateLot(old(State()), old(chain.State()), requested, hash, manifest, price)
              case Success(db, c) => r == Ok(old(|lots|)) && State() == db && chain.State() == c
              case Failed(c, e) => r == Err(e) && State() == old(State()) && chain.State() == c
    {
      hide IssueBatch, EarliestStart, LatestEnd, Dedup, EnergyOf, Backed;
      if requested == [] {
        return Err(EmptyHecList);
      }
      var ids := RemoveRepetitions(requested);
      DedupOk(requested);
      var failure := ValidateRequest(ids);
      if failure.Some? {
        return Err(failure.value);
      }
      var energy := TotalEnergy(ids);
      var start, end := PeriodBounds(ids, now);
      var issued := chain.IssueInventoryBatch(hash, manifest, start, end, |ids| * UNIT_SCALE, "HEC-CUSTODY-1.0", "1.0");
      if issued.Err? {
        return Err(ChainRefused(issued.error));
      }
      AddLot(ids, energy, price, issued.value);
      return Ok(|lots| - 1);
    }

    // -------------------------------------------------------------- purchases

    method SelectCustodied(lot: nat, limit: nat) returns (ids: seq<HecId>)
      ensures ids == FirstCustodied(hecs, lot, limit)
    {
      ids := [];
      for j := 0 to |hecs|
        invariant ids == FirstCustodied(hecs[..j], lot, limit)
      {
        assert hecs[..j + 1][..j] == hecs[..j];
        if |ids| < limit && InCustody(hecs[j], lot) {
          ids := ids + [j];
        }
      }
      assert hecs[..|hecs|] == hecs;
    }

    method BuyFromLot(buyer: UserId, lot: nat, quantity: int) returns (r: Result<nat, Failure>)
      modifies this
      ensures match Buy(old(State()), buyer, lot, quantity)
              case Ok(db) => r == Ok(old(|transactions|)) && State() == db
              case Err(e) => r == Err(e) && State() == old(State())
    {
      if quantity <= 0 {
        return Err(InvalidQuantity);
      }
      if lot >= |lots| {
        return Err(LotNotFound);
      }
      var l := lots[lot];
      if l.status != Open {
        return Err(LotNotOpen);
      }
      if l.inventory != Issued || l.batch == 0 {
        return Err(InventoryNotIssued);
      }
      if l.price.None? || l.price.value <= 0 {
        return Err(NoPrice);
      }
      if quantity > l.avail {
        return Err(ExceedsAvailable);
      }
      if buyer !in users {
        return Err(BuyerNotFound);
      }
      if !users[buyer] {
        return Err(BuyerDisabled);
      }
      if buyer !in wallets {
        return Err(WalletNotFound);
      }
      var ids := SelectCustodied(lot, quantity);
      if |ids| < quantity {
        return Err(TooFewCustodied);
      }
      var energy := TotalEnergy(ids);
      var price := Price(l.price.value, energy);
      if wallets[buyer].brl < price {
        return Err(InsufficientFunds);
      }
      SettlePurchase(buyer, lot, quantity, ids, energy, l.price.value, price);
      return Ok(|transactions| - 1);
    }

    /** The updates of a purchase that passed every check. */
    method SettlePurchase(buyer: UserId, lot: nat, quantity: nat, ids: seq<HecId>, energy: nat, unit: nat, price: nat)
      requires lot < |lots| && quantity <= lots[lot].avail && buyer in wallets
      modifies this
      ensures State() == Settle(old(State()), buyer, lot, quantity, ids, energy, unit, price)
    {
      var w := wallets[buyer];
      wallets := wallets[buyer := Wallet(w.brl - price, w.hec + quantity, w.energy + energy)];
      lots := lots[lot := lots[lot].(avail := lots[lot].avail - quantity)];
      if lots[lot].avail == 0 {
        lots := lots[lot := lots[lot].(status := Closed)];
      }
      MarkRows(ids, Allocated);
      var tx := |transactions|;
      transactions := transactions + [Transaction(buyer, lot, quantity, energy, unit, price, ids)];
      positions := positions + [Position(buyer, lot, tx, quantity, quantity, 0, energy, energy, ids, Active)];
    }

    // -------------------------------------------------------------- burns

    method SelectPositions(user: UserId) returns (ks: seq<nat>)
      ensures ks == Considered(positions, user)
    {
      ks := [];
      for j := 0 to |positions|
        invariant ks == Considered(positions[..j], user)
      {
        assert positions[..j + 1][..j] == positions[..j];
        if Burnable(positions[j], user) {
          ks := ks + [j];
        }
      }
      assert positions[..|positions|] == positions;
    }

    method AvailableTotal(ks: seq<nat>) returns (available: int)
      ensures available == Sum(ks, AvailAt(positions))
    {
      available := 0;
      for j := 0 to |ks|
        invariant available == Sum(ks[..j], AvailAt(positions))
      {
        assert ks[..j + 1][..j] == ks[..j];
        available := available + if ks[j] < |positions| then positions[ks[j]].avail else 0;
      }
      assert ks[..|ks|] == ks;
    }

    /** The session as the loop leaves it, once its pending events are added. */
    ghost function Staged(pending: seq<RetirementEvent>, remaining: nat, energy: nat, ids: seq<HecId>): BurnState
      reads this, chain
    {
      BurnState(State().(events := events + pending), chain.State(), remaining, energy, ids)
    }

    /** All of the position's energy with its last certificates, otherwise a rounded share. */
    method EnergyToConsume(p: Position, c: nat) returns (energy: nat)
      requires 0 < c <= p.avail
      ensures energy == ConsumedEnergy(p, c)
    {
      energy := p.energyAvail;
      if c != p.avail {
        RoundHalfUpShare(p.energyAvail, c, p.avail);
        energy := RoundHalfUp(p.energyAvail * c, p.avail);
      }
    }

    /** One turn of the allocation loop. */
    method ConsumePosition(k: nat, remaining: nat, ghost energy: nat, ghost ids: seq<HecId>,
                           pending: seq<RetirementEvent>)
      returns (r: Result<RetirementEvent, Failure>)
      requires k < |positions| && positions[k].avail > 0 && remaining > 0
      modifies this`positions, this`hecs, chain
      ensures match BurnStep(old(Staged(pending, remaining, energy, ids)), k)
              case Broken(c, e) => r == Err(e) && chain.State() == c
              case Done(next) =>
                && r.Ok? && r.value.amount <= remaining
                && next == Staged(pending + [r.value], remaining - r.value.amount,
                                  energy + r.value.energy, ids + r.value.ids)
    {
      hide RetireBatch, UpdateAt, ConsumedEnergy;
      var p := positions[k];
      var c := Min(remaining, p.avail);
      if p.lot >= |lots| || lots[p.lot].batch == 0 {
        return Err(MissingBatch);
      }
      var consumedIds := p.ids[..Min(c, |p.ids|)];
      if |consumedIds| < c {
        return Err(TooFewSourceIds);
      }
      var consumedEnergy := EnergyToConsume(p, c);
      var batch := lots[p.lot].batch;
      var retired := chain.RetireInventoryBatch(batch, c * UNIT_SCALE);
      if retired.Err? {
        return Err(ChainRefused(retired.error));
      }
      var left := p.(avail := p.avail - c, retired := p.retired + c,
                     energyAvail := p.energyAvail - consumedEnergy, ids := p.ids[c..]);
      if left.avail == 0 {
        left := left.(status := Exhausted);
      }
      positions := positions[k := left];
      MarkRows(consumedIds, Retired);
      var event := RetirementEvent(|burns|, p.user, p.lot, batch, k, c, consumedEnergy, consumedIds, retired.value);
      assert events + (pending + [event]) == events + pending + [event];
      return Ok(event);
    }

    /** The allocation loop over the considered positions. */
    method AllocateBurn(ks: seq<nat>, user: UserId, quantity: nat)
      returns (failure: Option<Failure>, remaining: nat, energy: nat, ids: seq<HecId>, pending: seq<RetirementEvent>)
      requires ks == Considered(positions, user)
      modifies this`positions, this`hecs, chain
      ensures match BurnLoop(BurnState(old(State()), old(chain.State()), quantity, 0, []), ks)
              case Broken(c, e) => failure == Some(e) && chain.State() == c
              case Done(st) => failure == None && st == Staged(pending, remaining, energy, ids)
    {
      hide BurnStep, BurnLoop, Considered;
      failure, remaining, energy, ids, pending := None, quantity, 0, [], [];
      ghost var init := BurnState(State(), chain.State(), quantity, 0, []);
      ConsideredExactly(positions, user);
      assert forall j | 0 <= j < |ks| :: ks[j] in ks;
      assert events + [] == events && ks[0..] == ks;
      var i := 0;
      while i < |ks| && remaining != 0
        invariant 0 <= i <= |ks| && failure == None
        invariant |positions| == old(|positions|)
        invariant forall j | i <= j < |ks| :: ks[j] < |positions| && positions[ks[j]] == old(positions)[ks[j]]
        invariant BurnLoop(init, ks) == BurnLoop(Staged(pending, remaining, energy, ids), ks[i..])
      {
        ghost var st := Staged(pending, remaining, energy, ids);
        assert ks[i] in ks;
        StepTouchesOne(st, ks[i]);
        LoopTurn(st, ks, i);
        var step := ConsumePosition(ks[i], remaining, energy, ids, pending);
        if step.Err? {
          failure := Some(step.error);
          return;
        }
        pending := pending + [step.value];
        ids := ids + step.value.ids;
        energy := energy + step.value.energy;
        remaining := remaining - step.value.amount;
        i := i + 1;
      }
      LoopEnd(Staged(pending, remaining, energy, ids), ks[i..]);
    }

    /** The wallet deduction, the certificate and the retirement events. */
    method RecordBurn(user: UserId, quantity: nat, energy: nat, ids: seq<HecId>, hash: Hash,
                      pending: seq<RetirementEvent>)
      requires user in wallets
      modifies this`wallets, this`burns, this`events
      ensures State() == CloseBurn(old(State()).(events := old(events) + pending), user, quantity, energy, ids, hash)
    {
      var w := wallets[user];
      wallets := wallets[user := Wallet(w.brl, w.hec - quantity, w.energy - energy)];
      burns := burns + [BurnCertificate(user, quantity, energy, quantity * UNIT_SCALE, ids, hash)];
      ghost var paid, certified := wallets, burns;
      for j := 0 to |pending|
        invariant wallets == paid && burns == certified && events == old(events) + pending[..j]
      {
        events := events + [pending[j]];
      }
      assert pending[..|pending|] == pending;
    }

    /** The burn service. An error leaves the session for its caller to roll back. */
    method ExecuteBurn(user: UserId, quantity: int, reason: string, hash: Hash, cid: string)
      returns (r: Result<nat, Failure>)
      modifies this, chain
      ensures match CustodyModel.ExecuteBurn(old(State()), old(chain.State()), user, quantity, reason, hash, cid)
              case Success(db, c) => r == Ok(old(|burns|)) && State() == db && chain.State() == c
              case Failed(c, e) => r == Err(e) && chain.State() == c
    {
      hide BurnLoop, Considered, Register, Sum;
      if quantity <= 0 {
        return Err(InvalidQuantity);
      }
      if !ValidReason(reason) {
        return Err(InvalidReason);
      }
      if user !in wallets {
        return Err(WalletNotFound);
      }
      if wallets[user].hec < quantity {
        return Err(InsufficientBalance);
      }
      var ks := SelectPositions(user);
      var available := AvailableTotal(ks);
      if available < quantity {
        return Err(InsufficientInventory);
      }
      var failure, remaining, energy, ids, pending := AllocateBurn(ks, user, quantity);
      if failure.Some? {
        return Err(failure.value);
      }
      if remaining != 0 {
        return Err(LeftoverRemaining);
      }
      var registered := chain.RegisterCertificate(hash, cid);
      if registered.Err? {
        return Err(ChainRefused(registered.error));
      }
      RecordBurn(user, quantity, energy, ids, hash, pending);
      return Ok(|burns| - 1);
    }

    /** Puts the tables back to an earlier state; the chain stays as it is. */
    method Rollback(saved: Db)
      modifies this
      ensures State() == saved
    {
      validations, hecs, lots := saved.validations, saved.hecs, saved.lots;
      users, wallets := saved.users, saved.wallets;
      transactions, positions := saved.transactions, saved.positions;
      burns, events := saved.burns, saved.events;
    }

    /** The burn endpoint: commit on success, otherwise roll the tables back. */
    method BurnEndpoint(user: UserId, quantity: int, reason: string, hash: Hash, cid: string, ghost exact: bool)
      returns (r: Result<nat, Failure>)
      modifies this, chain
      ensures match CustodyModel.ExecuteBurn(old(State()), old(chain.State()), user, quantity, reason, hash, cid)
              case Success(db, c) => r == Ok(old(|burns|)) && State() == db && chain.State() == c
              case Failed(c, e) => r == Err(e) && State() == old(State()) && chain.State() == c
      ensures old(Inv(State(), chain.State(), NO_BURN, exact)) ==>
                Inv(State(), chain.State(), NO_BURN, exact && (r.Ok? || chain.State() == old(chain.State())))
    {
      hide Inv, CustodyModel.ExecuteBurn;
      ghost var before, chainBefore := State(), chain.State();
      var saved := Tables();
      r := ExecuteBurn(user, quantity, reason, hash, cid);
      if r.Err? {
        Rollback(saved);
      }
      if Inv(before, chainBefore, NO_BURN, exact) {
        BurnKeepsInvariant(before, chainBefore, user, quantity, reason, hash, cid, exact);
      }
    }

    // -------------------------------------------------------------- the mint worker

    /** The rows the worker picks up: unanchored, with a content id, oldest first, up to its batch size. */
    method SelectPending(limit: nat) returns (rows: seq<HecId>)
      ensures rows == FirstUnanchored(hecs, limit)
    {
      rows := [];
      for j := 0 to |hecs|
        invariant rows == FirstUnanchored(hecs[..j], limit)
      {
        assert hecs[..j + 1][..j] == hecs[..j];
        if |rows| < limit && Unanchored(hecs[j]) {
          rows := rows + [j];
        }
      }
      assert hecs[..|hecs|] == hecs;
    }

    /** One row: registered on chain and committed, or left alone. */
    method AnchorPending(h: HecId) returns (done: bool)
      modifies this`hecs, chain
      ensures match AnchorRow(old(State()), old(chain.State()), h)
              case Success(db, c) => done && State() == db && chain.State() == c
              case Failed(c, _) => !done && State() == old(State()) && chain.State() == c
    {
      if h >= |hecs| || hecs[h].cid.None? {
        return false;
      }
      var registered := chain.RegisterCertificate(hecs[h].hash, hecs[h].cid.value);
      if registered.Err? {
        return false;
      }
      hecs := hecs[h := hecs[h].(tx := Some(registered.value), status := Registered)];
      return true;
    }

    /** The worker's pass. It works through the snapshot without looking at a row's status again. */
    method ProcessPending(limit: nat, ghost exact: bool) returns (processed: nat)
      modifies this`hecs, chain
      ensures MintPass(State(), chain.State(), processed)
           == MintAll(old(State()), old(chain.State()), FirstUnanchored(old(hecs), limit))
      ensures processed <= limit
      ensures old(Inv(State(), chain.State(), NO_BURN, exact)) ==>
                && Inv(State(), chain.State(), NO_BURN, exact)
                && LottedUntouched(old(hecs), hecs)
    {
      hide Inv, AnchorRow;
      ghost var before, chainBefore := State(), chain.State();
      var rows := SelectPending(limit);
      FirstUnanchoredOk(hecs, limit);
      processed := 0;
      for j := 0 to |rows|
        invariant processed <= j
        invariant MintPass(State(), chain.State(), processed) == MintAll(before, chainBefore, rows[..j])
      {
        assert rows[..j + 1][..j] == rows[..j];
        var done := AnchorPending(rows[j]);
        if done {
          processed := processed + 1;
        }
      }
      assert rows[..|rows|] == rows;
      if Inv(before, chainBefore, NO_BURN, exact) {
        MintAllKeeps(before, chainBefore, rows, exact);
      }
    }
  }

  lemma LoopTurn(st: BurnState, ks: seq<nat>, i: nat)
    requires i < |ks| && st.remaining != 0
    ensures BurnLoop(st, ks[i..]) ==
            match BurnStep(st, ks[i])
            case Broken(chain, e) => Broken(chain, e)
            case Done(next) => BurnLoop(next, ks[i + 1..])
  {
    assert ks[i..][1..] == ks[i + 1..];
  }

  lemma LoopEnd(st: BurnState, ks: seq<nat>)
    requires ks == [] || st.remaining == 0
    ensures BurnLoop(st, ks) == Done(st)
  {
  }

  lemma StepTouchesOne(st: BurnState, k: nat)
    ensures BurnStep(st, k).Done? ==>
              var next := BurnStep(st, k).st;
              && |next.db.positions| == |st.db.positions|
              && forall j | 0 <= j < |st.db.positions| && j != k :: next.db.positions[j] == st.db.positions[j]
  {
    hide ConsumedEnergy, RetireBatch;
  }
}
