/** Supply, freezing and receipts over every interleaving of registry calls. */
module TokenSupply {
  import opened Collections
  import opened MockChain
  import opened TokenContract

  // ---------------------------------------------------------------- sums over holders

  ghost function Pick(row: map<Address, nat>): (who: Address)
    requires row != map[]
    ensures who in row
  {
    var who :| who in row;
    who
  }

  /** The balances of all holders of one id, added up. */
  ghost function Supply(row: map<Address, nat>): nat
    decreases |row|
  {
    if row == map[] then 0
    else row[Pick(row)] + Supply(row - {Pick(row)})
  }

  lemma {:induction false} SupplyRemove(row: map<Address, nat>, who: Address)
    requires who in row
    ensures Supply(row) == row[who] + Supply(row - {who})
    decreases |row|
  {
    var first := Pick(row);
    if first != who {
      SupplyRemove(row - {first}, who);
      SupplyRemove(row - {who}, first);
      assert row - {first} - {who} == row - {who} - {first};
    }
  }

  lemma SupplyPut(row: map<Address, nat>, who: Address, amount: nat)
    ensures Supply(row[who := amount]) == Supply(row) - BalanceIn(row, who) + amount
  {
    var row' := row[who := amount];
    SupplyRemove(row', who);
    assert row' - {who} == row - {who};
    if who in row {
      SupplyRemove(row, who);
    } else {
      assert row - {who} == row;
    }
  }

  lemma BalanceAtMostSupply(row: map<Address, nat>, who: Address)
    ensures BalanceIn(row, who) <= Supply(row)
  {
    if who in row {
      SupplyRemove(row, who);
    }
  }

  /** One move shifts exactly `value` between two holders of one id, and touches no other id. */
  lemma MoveOneSupply(b: Balances, from: Address, to: Address, id: nat, value: nat)
    requires MoveOne(b, from, to, id, value).Ok?
    ensures var b' := MoveOne(b, from, to, id, value).value;
            && Supply(Row(b', id))
               == Supply(Row(b, id)) + (if to == 0 then 0 else value) - (if from == 0 then 0 else value)
            && (forall i | i != id :: Row(b', i) == Row(b, i))
            && (forall i :: i in b' ==> i in b || i == id)
  {
    var taken := if from != 0 then Put(b, id, from, BalanceOf(b, id, from) - value) else b;
    if from != 0 { SupplyPut(Row(b, id), from, BalanceOf(b, id, from) - value); }
    if to != 0 { SupplyPut(Row(taken, id), to, BalanceOf(taken, id, to) + value); }
  }

  /** A transfer between holders changes no supply, and only the rows of its ids. */
  lemma {:induction false} MoveAllSupply(b: Balances, from: Address, to: Address, ids: seq<nat>, values: seq<nat>)
    requires |ids| == |values| && from != 0 && to != 0 && MoveAll(b, from, to, ids, values).Ok?
    ensures var b' := MoveAll(b, from, to, ids, values).value;
            && (forall i :: Supply(Row(b', i)) == Supply(Row(b, i)))
            && (forall i | i !in ids :: Row(b', i) == Row(b, i))
            && (forall i :: i in b' ==> i in b || i in ids)
  {
    if ids != [] {
      var n := |ids| - 1;
      MoveAllSupply(b, from, to, ids[..n], values[..n]);
      var front := MoveAll(b, from, to, ids[..n], values[..n]).value;
      MoveOneSupply(front, from, to, ids[n], values[n]);
      var b' := MoveAll(b, from, to, ids, values).value;
      forall i ensures Supply(Row(b', i)) == Supply(Row(b, i)) {
        assert Supply(Row(front, i)) == Supply(Row(b, i));
      }
    }
  }

  // ---------------------------------------------------------------- the invariant

  function RecordedAmount(retirements: map<nat, TokenRetirement>, next: nat, id: nat): int {
    if next <= 1 then 0
    else RecordedAmount(retirements, next - 1, id)
         + if next - 1 in retirements && retirements[next - 1].batch == id then retirements[next - 1].amount else 0
  }

  ghost predicate BatchOk(t: Token, id: nat)
    requires id in t.batches
  {
    var batch := t.batches[id];
    && 0 < batch.issued <= MAX_UINT256
    && batch.retired <= batch.issued
    && Supply(Row(t.balances, id)) == batch.issued - batch.retired
    && batch.retired == RecordedAmount(t.retirements, t.nextRetirement, id)
    && batch.status != NoStatus
    && batch.hash in t.byHash && t.byHash[batch.hash] == id
  }

  ghost predicate ReceiptsOk(r: Receipts) {
    && r.nextId >= 1
    && (forall i :: i in r.owners <==> 1 <= i < r.nextId)
    && r.data.Keys == r.owners.Keys
    && (forall i | i in r.owners :: r.owners[i] != 0)
  }

  /** A retirement that reports a receipt has one, for the same batch and amount, owned by who retired. */
  ghost predicate RetirementOk(t: Token, r: nat)
    requires r in t.retirements
  {
    var record := t.retirements[r];
    && record.batch in t.batches && record.amount > 0
    && (record.receipt != 0 ==>
          && record.receipt in t.receipts.owners && t.receipts.owners[record.receipt] == record.retiredBy
          && record.receipt in t.receipts.data
          && t.receipts.data[record.receipt] == ReceiptData(record.batch, record.amount))
  }

  /** Dense ids, and hashes and ids inverse to each other. */
  ghost predicate IdsOk(t: Token) {
    && t.nextBatch >= 1 && t.nextRetirement >= 1
    && (forall id :: id in t.batches <==> 1 <= id < t.nextBatch)
    && (forall id | id in t.balances :: id in t.batches)
    && (forall h | h in t.byHash :: t.byHash[h] in t.batches && t.batches[t.byHash[h]].hash == h)
    && (forall r :: r in t.retirements <==> 1 <= r < t.nextRetirement)
  }

  ghost predicate TokenOk(t: Token) {
    && IdsOk(t)
    && (forall id | id in t.batches :: BatchOk(t, id))
    && (forall r | r in t.retirements :: RetirementOk(t, r))
    && ReceiptsOk(t.receipts)
  }

  lemma {:induction false} RecordedAmountFrame(m: map<nat, TokenRetirement>, next: nat, id: nat, k: nat,
                                               r: TokenRetirement)
    requires k >= next
    ensures RecordedAmount(m[k := r], next, id) == RecordedAmount(m, next, id)
  {
    if next > 1 {
      RecordedAmountFrame(m, next - 1, id, k, r);
    }
  }

  lemma {:induction false} RecordedAmountAbsent(m: map<nat, TokenRetirement>, next: nat, id: nat)
    requires forall r | r in m :: m[r].batch != id
    ensures RecordedAmount(m, next, id) == 0
  {
    if next > 1 {
      RecordedAmountAbsent(m, next - 1, id);
    }
  }

  /** Issue amounts are uint256 values, as the call's encoding makes them. */
  predicate Encodable(call: Call) {
    call.CallIssue? ==> call.units <= MAX_UINT256
  }

  /** What an accepted issue changes: the batch, its hash, and the treasury's balance of the new id. */
  ghost predicate Issued(t: Token, t': Token, units: nat) {
    && t.nextBatch in t'.batches
    && var batch := t'.batches[t.nextBatch];
    && batch.issued == units && batch.retired == 0 && batch.status == Active && batch.hash !in t.byHash
    && t' == t.(nextBatch := t.nextBatch + 1, byHash := t.byHash[batch.hash := t.nextBatch],
                batches := t.batches[t.nextBatch := batch],
                balances := Put(t.balances, t.nextBatch, t.treasury,
                                BalanceOf(t.balances, t.nextBatch, t.treasury) + units))
  }

  lemma IssueChanges(t: Token, sender: Address, hash: Hash, cid: string, s: int, e: int, units: nat, m: string,
                     v: string)
    requires IssueTokens(t, sender, hash, cid, s, e, units, m, v).Ok?
    ensures var done := IssueTokens(t, sender, hash, cid, s, e, units, m, v).value;
            Issued(t, done.0, units) && done.1 == t.nextBatch && units > 0 && !t.paused && t.treasury != 0
  {
    assert [t.nextBatch][..0] == [] && [units][..0] == [];
    assert MoveAll(t.balances, 0, t.treasury, [t.nextBatch], [units])
           == MoveOne(t.balances, 0, t.treasury, t.nextBatch, units);
  }

  /**
   * What an accepted retirement changes: the batch's counter, the holder's balance, one record, perhaps
   * one receipt.
   */
  ghost predicate Retired(t: Token, t': Token, sender: Address, id: nat, amount: nat) {
    && id in t.batches && amount <= BalanceOf(t.balances, id, sender)
    && var receipt := if t.receiptAttached then t.receipts.nextId else 0;
    && t' == t.(batches := t.batches[id := t.batches[id].(retired := t.batches[id].retired + amount)],
                balances := Put(t.balances, id, sender, BalanceOf(t.balances, id, sender) - amount),
                retirements := t.retirements[t.nextRetirement := TokenRetirement(id, sender, amount, receipt)],
                nextRetirement := t.nextRetirement + 1,
                receipts := if t.receiptAttached then Certified(t.receipts, sender, id, amount) else t.receipts)
  }

  function Certified(r: Receipts, to: Address, batch: nat, amount: nat): Receipts {
    r.(nextId := r.nextId + 1, owners := r.owners[r.nextId := to],
       data := r.data[r.nextId := ReceiptData(batch, amount)])
  }

  lemma RetireChanges(t: Token, sender: Address, id: nat, amount: nat)
    requires Retire(t, sender, id, amount).Ok?
    ensures var done := Retire(t, sender, id, amount).value;
            && Retired(t, done.0, sender, id, amount) && done.1 == t.nextRetirement
            && amount > 0 && sender != 0 && !t.paused && t.batches[id].status == Active
  {
    assert [id][..0] == [] && [amount][..0] == [];
    assert MoveAll(t.balances, sender, 0, [id], [amount]) == MoveOne(t.balances, sender, 0, id, amount);
  }

  lemma IssueKeepsOldBatch(t: Token, t': Token, units: nat, b: nat)
    requires b in t.batches && BatchOk(t, b) && b != t.nextBatch && Issued(t, t', units)
    ensures BatchOk(t', b)
  {
  }

  lemma IssueMakesBatch(t: Token, t': Token, units: nat)
    requires TokenOk(t) && 0 < units <= MAX_UINT256 && Issued(t, t', units)
    ensures BatchOk(t', t.nextBatch)
  {
    hide ReceiptsOk, BatchOk;
    assert forall k | k in t.retirements :: RetirementOk(t, k);
    assert Row(t.balances, t.nextBatch) == map[];
    SupplyPut(Row(t.balances, t.nextBatch), t.treasury, units);
    RecordedAmountAbsent(t.retirements, t.nextRetirement, t.nextBatch);
    NewBatchOk(t, t', units);
  }

  lemma NewBatchOk(t: Token, t': Token, units: nat)
    requires 0 < units <= MAX_UINT256 && Issued(t, t', units)
    requires RecordedAmount(t.retirements, t.nextRetirement, t.nextBatch) == 0
    requires Supply(Row(t'.balances, t.nextBatch)) == units
    ensures BatchOk(t', t.nextBatch)
  {
  }

  lemma IssueKeepsIds(t: Token, t': Token, units: nat)
    requires IdsOk(t) && Issued(t, t', units)
    ensures IdsOk(t')
  {
    assert forall h | h in t.byHash :: t'.byHash[h] == t.byHash[h];
    assert forall id | id in t.batches :: t'.batches[id] == t.batches[id];
    forall id | id in t'.balances ensures id in t'.batches {
      assert id in t.balances || id == t.nextBatch;
    }
  }

  lemma IssueKeepsToken(t: Token, t': Token, units: nat)
    requires TokenOk(t) && 0 < units <= MAX_UINT256 && Issued(t, t', units)
    ensures TokenOk(t')
  {
    hide BatchOk, ReceiptsOk;
    IssueKeepsIds(t, t', units);
    forall b | b in t'.batches ensures BatchOk(t', b) {
      if b == t.nextBatch {
        IssueMakesBatch(t, t', units);
      } else {
        assert BatchOk(t, b);
        IssueKeepsOldBatch(t, t', units, b);
      }
    }
    forall k | k in t'.retirements ensures RetirementOk(t', k) { assert RetirementOk(t, k); }
  }

  lemma RetireKeepsBatch(t: Token, t': Token, sender: Address, id: nat, amount: nat, b: nat)
    requires b in t.batches && BatchOk(t, b) && t.nextRetirement >= 1 && Retired(t, t', sender, id, amount)
    ensures BatchOk(t', b)
  {
    hide Supply;
    RecordedAmountFrame(t.retirements, t.nextRetirement, b, t.nextRetirement, t'.retirements[t.nextRetirement]);
    if b == id {
      BalanceAtMostSupply(Row(t.balances, id), sender);
      SupplyPut(Row(t.balances, id), sender, BalanceOf(t.balances, id, sender) - amount);
    }
  }

  lemma RetireKeepsToken(t: Token, t': Token, sender: Address, id: nat, amount: nat)
    requires TokenOk(t) && sender != 0 && amount > 0 && Retired(t, t', sender, id, amount)
    ensures TokenOk(t')
  {
    hide BatchOk;
    forall b | b in t'.batches ensures BatchOk(t', b) {
      assert BatchOk(t, b);
      RetireKeepsBatch(t, t', sender, id, amount, b);
    }
    forall k | k in t'.retirements ensures RetirementOk(t', k) {
      if k != t.nextRetirement { assert RetirementOk(t, k); }
    }
  }

  lemma TransferKeepsToken(t: Token, sender: Address, from: Address, to: Address, ids: seq<nat>, values: seq<nat>)
    requires TokenOk(t)
    ensures var r := Transfer(t, sender, from, to, ids, values);
            r.Ok? ==> TokenOk(r.value)
  {
    var r := Transfer(t, sender, from, to, ids, values);
    if r.Ok? {
      var t' := r.value;
      MoveAllSupply(t.balances, from, to, ids, values);
      forall b | b in t'.batches ensures BatchOk(t', b) { assert BatchOk(t, b); }
      forall k | k in t'.retirements ensures RetirementOk(t', k) { assert RetirementOk(t, k); }
    }
  }

  lemma SetStatusKeepsIds(t: Token, sender: Address, id: nat, status: BatchStatus, reason: string)
    requires IdsOk(t)
    ensures var r := SetBatchStatus(t, sender, id, status, reason);
            r.Ok? ==> IdsOk(r.value)
  {
  }

  lemma SetStatusKeepsToken(t: Token, sender: Address, id: nat, status: BatchStatus, reason: string)
    requires TokenOk(t)
    ensures var r := SetBatchStatus(t, sender, id, status, reason);
            r.Ok? ==> TokenOk(r.value)
  {
    hide Supply, RecordedAmount, ReceiptsOk;
    var r := SetBatchStatus(t, sender, id, status, reason);
    if r.Ok? {
      var t' := r.value;
      SetStatusKeepsIds(t, sender, id, status, reason);
      hide IdsOk;
      forall b | b in t'.batches ensures BatchOk(t', b) { assert BatchOk(t, b); assert BatchOk(t, id); }
      forall k | k in t'.retirements ensures RetirementOk(t', k) { assert RetirementOk(t, k); }
    }
  }

  /** The receipt calls only ever add a receipt; a transfer of one is refused. */
  ghost predicate ReceiptsGrow(r: Receipts, r': Receipts) {
    && ReceiptsOk(r')
    && (forall i | i in r.owners :: i in r'.owners && r'.owners[i] == r.owners[i])
    && (forall i | i in r.data :: i in r'.data && r'.data[i] == r.data[i])
  }

  lemma MintReceiptGrows(r: Receipts, sender: Address, to: Address, batch: nat, amount: nat)
    requires ReceiptsOk(r)
    ensures var done := MintReceipt(r, sender, to, batch, amount);
            && (done.Ok? <==> sender in r.minters && to != 0)
            && (done.Ok? ==> ReceiptsGrow(r, done.value.0) && done.value.0 == Certified(r, to, batch, amount))
  {
  }

  /** Whoever calls, a minted receipt cannot be transferred, and an unminted one does not exist. */
  lemma TransferReceiptRefused(r: Receipts, sender: Address, from: Address, to: Address, id: nat)
    ensures TransferReceipt(r, sender, from, to, id).Err?
    ensures OwnerOf(r, id) != 0 && to != 0 ==> TransferReceipt(r, sender, from, to, id) == Err(NonTransferable)
  {
  }

  lemma ReceiptsMayGrow(t: Token, r: Receipts)
    requires TokenOk(t) && ReceiptsGrow(t.receipts, r)
    ensures TokenOk(t.(receipts := r))
  {
    hide Supply, RecordedAmount, ReceiptsOk;
    var t' := t.(receipts := r);
    forall b | b in t'.batches ensures BatchOk(t', b) { assert BatchOk(t, b); }
    forall k | k in t'.retirements ensures RetirementOk(t', k) { assert RetirementOk(t, k); }
  }

  /** Roles, pausing, approvals and the treasury play no part in the invariant. */
  lemma SettingsKeepToken(t: Token, t': Token)
    requires TokenOk(t)
    requires t' == t.(paused := t'.paused, treasury := t'.treasury, approvals := t'.approvals,
                    receiptAttached := t'.receiptAttached)
    ensures TokenOk(t')
  {
    forall b | b in t'.batches ensures BatchOk(t', b) { assert BatchOk(t, b); }
    forall k | k in t'.retirements ensures RetirementOk(t', k) { assert RetirementOk(t, k); }
  }

  lemma IssueCallKeepsToken(t: Token, sender: Address, hash: Hash, cid: string, s: int, e: int, units: nat, m: string,
                            v: string)
    requires TokenOk(t) && units <= MAX_UINT256
    ensures var r := IssueTokens(t, sender, hash, cid, s, e, units, m, v);
            r.Ok? ==> TokenOk(r.value.0)
  {
    hide TokenOk, Issued, IssueTokens;
    if IssueTokens(t, sender, hash, cid, s, e, units, m, v).Ok? {
      IssueChanges(t, sender, hash, cid, s, e, units, m, v);
      IssueKeepsToken(t, IssueTokens(t, sender, hash, cid, s, e, units, m, v).value.0, units);
    }
  }

  lemma RetireCallKeepsToken(t: Token, sender: Address, id: nat, amount: nat)
    requires TokenOk(t)
    ensures var r := Retire(t, sender, id, amount);
            r.Ok? ==> TokenOk(r.value.0)
  {
    hide TokenOk, Retired, Retire;
    if Retire(t, sender, id, amount).Ok? {
      RetireChanges(t, sender, id, amount);
      RetireKeepsToken(t, Retire(t, sender, id, amount).value.0, sender, id, amount);
    }
  }

  lemma ExecuteKeepsToken(t: Token, sender: Address, call: Call)
    requires TokenOk(t) && Encodable(call)
    ensures TokenOk(Execute(t, sender, call))
  {
    hide IdsOk, BatchOk, RetirementOk, ReceiptsOk, Issued, Retired, IssueTokens, Retire, Transfer,
         MintReceipt, TransferReceipt;
    var t' := Execute(t, sender, call);
    if t' != t {
      match call
      case CallIssue(hash, cid, s, e, units, m, v) => IssueCallKeepsToken(t, sender, hash, cid, s, e, units, m, v);
      case CallRetire(id, amount) => RetireCallKeepsToken(t, sender, id, amount);
      case CallTransfer(from, to, ids, values) =>
        TransferKeepsToken(t, sender, from, to, ids, values);
      case CallSetStatus(id, status, reason) => SetStatusKeepsToken(t, sender, id, status, reason);
      case CallMintReceipt(to, batch, amount) =>
        MintReceiptGrows(t.receipts, sender, to, batch, amount);
        ReceiptsMayGrow(t, t'.receipts);
      case CallTransferReceipt(from, to, id) => TransferReceiptRefused(t.receipts, sender, from, to, id);
      case _ => SettingsKeepToken(t, t');
    }
  }

  lemma {:induction false} EveryRunKeepsToken(t: Token, calls: seq<(Address, Call)>)
    requires TokenOk(t) && forall i | 0 <= i < |calls| :: Encodable(calls[i].1)
    ensures TokenOk(ExecuteAll(t, calls))
  {
    if calls != [] {
      var n := |calls| - 1;
      EveryRunKeepsToken(t, calls[..n]);
      ExecuteKeepsToken(ExecuteAll(t, calls[..n]), calls[n].0, calls[n].1);
    }
  }

  /** Holders' balances of an id add up to its circulating supply, and its hash leads back to it alone. */
  ghost predicate Conserved(t: Token, id: nat)
    requires id in t.batches
  {
    var batch := t.batches[id];
    && CirculatingSupply(t, id) == Ok(Supply(Row(t.balances, id)))
    && Supply(Row(t.balances, id)) + batch.retired == batch.issued
    && batch.retired == RecordedAmount(t.retirements, t.nextRetirement, id)
    && (forall h :: h in t.byHash && t.byHash[h] == id <==> h == batch.hash)
  }

  /** Supply conservation over any interleaving of calls, by anybody, since deployment. */
  lemma SupplyConservation(self: Address, roles: Roles, treasury: Address, minters: set<Address>,
                           calls: seq<(Address, Call)>)
    requires forall i | 0 <= i < |calls| :: Encodable(calls[i].1)
    ensures var t := ExecuteAll(Deploy(self, roles, treasury, minters), calls);
            forall id | id in t.batches :: Conserved(t, id)
  {
    var t := ExecuteAll(Deploy(self, roles, treasury, minters), calls);
    EveryRunKeepsToken(Deploy(self, roles, treasury, minters), calls);
    hide ExecuteAll, Supply, RecordedAmount, RetirementOk, ReceiptsOk;
    forall id | id in t.batches ensures Conserved(t, id) {
      assert BatchOk(t, id);
    }
  }

  /**
   * No call moves a balance of an issued id that is suspended or revoked, or of any id while paused
   * (Safe Transfer Rules of EIP-1155).
   */
  lemma FrozenBalances(t: Token, sender: Address, call: Call, id: nat)
    requires TokenOk(t)
    requires t.paused || (id in t.batches && t.batches[id].status != Active)
    ensures Row(Execute(t, sender, call).balances, id) == Row(t.balances, id)
  {
    hide BatchOk, RetirementOk, ReceiptsOk, IssueTokens, Retire, MintReceipt, TransferReceipt, Supply;
    if Execute(t, sender, call) != t {
      match call
      case CallIssue(hash, cid, s, e, units, m, v) => IssueChanges(t, sender, hash, cid, s, e, units, m, v);
      case CallRetire(b, amount) => RetireChanges(t, sender, b, amount);
      case CallTransfer(from, to, ids, values) => MoveAllSupply(t.balances, from, to, ids, values);
      case _ =>
    }
  }

  /** A single transfer is accepted exactly when it should be; the addition can never overflow. */
  lemma TransferAcceptsExactly(t: Token, sender: Address, from: Address, to: Address, id: nat, value: nat)
    requires TokenOk(t)
    ensures Transfer(t, sender, from, to, [id], [value]).Ok? <==>
              && (sender == from || (from, sender) in t.approvals)
              && from != 0 && to != 0 && !t.paused
              && id in t.batches && t.batches[id].status == Active && value <= BalanceOf(t.balances, id, from)
  {
    hide BatchOk, RetirementOk, ReceiptsOk;
    assert [id][..0] == [] && [value][..0] == [];
    assert AllActive(t, [id]) <==> StatusOf(t, id) == Active by { assert id in [id]; }
    assert MoveAll(t.balances, from, to, [id], [value]) == MoveOne(t.balances, from, to, id, value);
    if id in t.batches && from != 0 && to != 0 {
      assert BatchOk(t, id);
      SupplyBound(t, id);
      MovesExactly(t.balances, from, to, id, value);
    }
  }

  lemma SupplyBound(t: Token, id: nat)
    requires id in t.batches && BatchOk(t, id)
    ensures Supply(Row(t.balances, id)) <= MAX_UINT256
  {
  }

  lemma MovesExactly(b: Balances, from: Address, to: Address, id: nat, value: nat)
    requires from != 0 && to != 0 && Supply(Row(b, id)) <= MAX_UINT256
    ensures MoveOne(b, from, to, id, value).Ok? <==> value <= BalanceOf(b, id, from)
  {
    if value <= BalanceOf(b, id, from) {
      var taken := Put(b, id, from, BalanceOf(b, id, from) - value);
      SupplyPut(Row(b, id), from, BalanceOf(b, id, from) - value);
      BalanceAtMostSupply(Row(taken, id), to);
    }
  }

  /** What a batch transfer takes of one id: an id may be listed more than once. */
  function Moved(ids: seq<nat>, values: seq<nat>, id: nat): nat
    requires |ids| == |values|
  {
    if ids == [] then 0
    else
      var n := |ids| - 1;
      Moved(ids[..n], values[..n], id) + if ids[n] == id then values[n] else 0
  }

  /** A batch transfer takes from the holder and gives to the recipient exactly what it lists, id by id. */
  lemma {:induction false} BatchTransferMoves(b: Balances, from: Address, to: Address, ids: seq<nat>, values: seq<nat>,
                                              id: nat, who: Address)
    requires |ids| == |values| && from != 0 && to != 0 && MoveAll(b, from, to, ids, values).Ok?
    ensures BalanceOf(MoveAll(b, from, to, ids, values).value, id, who)
            == BalanceOf(b, id, who) - (if who == from then Moved(ids, values, id) else 0)
               + (if who == to then Moved(ids, values, id) else 0)
  {
    if ids != [] {
      var n := |ids| - 1;
      BatchTransferMoves(b, from, to, ids[..n], values[..n], id, who);
    }
  }

  ghost predicate Covers(b: Balances, from: Address, ids: seq<nat>, values: seq<nat>)
    requires |ids| == |values|
  {
    forall id :: Moved(ids, values, id) <= BalanceOf(b, id, from)
  }

  /** Between two holders a batch goes through exactly when the sender holds the total of every id. */
  lemma {:induction false} BatchMovesExactly(b: Balances, from: Address, to: Address, ids: seq<nat>, values: seq<nat>)
    requires |ids| == |values| && from != 0 && to != 0 && from != to
    requires forall id :: Supply(Row(b, id)) <= MAX_UINT256
    ensures MoveAll(b, from, to, ids, values).Ok? <==> Covers(b, from, ids, values)
  {
    if ids != [] {
      var n := |ids| - 1;
      BatchMovesExactly(b, from, to, ids[..n], values[..n]);
      if MoveAll(b, from, to, ids[..n], values[..n]).Ok? {
        var front := MoveAll(b, from, to, ids[..n], values[..n]).value;
        MoveAllSupply(b, from, to, ids[..n], values[..n]);
        BatchTransferMoves(b, from, to, ids[..n], values[..n], ids[n], from);
        assert Supply(Row(front, ids[n])) <= MAX_UINT256;
        MovesExactly(front, from, to, ids[n], values[n]);
        forall id
          ensures Moved(ids, values, id) == Moved(ids[..n], values[..n], id) + if ids[n] == id then values[n] else 0
        {
        }
        assert Moved(ids, values, ids[n]) <= BalanceOf(b, ids[n], from)
               <==> values[n] <= BalanceOf(front, ids[n], from);
      } else {
        var id :| Moved(ids[..n], values[..n], id) > BalanceOf(b, id, from);
        assert Moved(ids, values, id) > BalanceOf(b, id, from);
      }
    }
  }

  /** To oneself, each entry alone must be covered: nothing ever leaves. */
  ghost predicate CoversEach(b: Balances, from: Address, ids: seq<nat>, values: seq<nat>)
    requires |ids| == |values|
  {
    forall i | 0 <= i < |ids| :: values[i] <= BalanceOf(b, ids[i], from)
  }

  lemma CoversLast(b: Balances, from: Address, ids: seq<nat>, values: seq<nat>, n: nat)
    requires |ids| == |values| == n + 1
    ensures CoversEach(b, from, ids, values)
            <==> CoversEach(b, from, ids[..n], values[..n]) && values[n] <= BalanceOf(b, ids[n], from)
  {
    if CoversEach(b, from, ids[..n], values[..n]) {
      forall i | 0 <= i < n ensures values[i] <= BalanceOf(b, ids[i], from) {
        assert values[..n][i] <= BalanceOf(b, ids[..n][i], from);
      }
    }
  }

  lemma {:induction false} BatchToSelfExactly(b: Balances, from: Address, ids: seq<nat>, values: seq<nat>)
    requires |ids| == |values| && from != 0
    requires forall id :: Supply(Row(b, id)) <= MAX_UINT256
    ensures MoveAll(b, from, from, ids, values).Ok? <==> CoversEach(b, from, ids, values)
  {
    hide Supply, MoveOne, CoversEach, Row;
    if ids == [] {
      NothingToCover(b, from);
    } else {
      var n := |ids| - 1;
      BatchToSelfExactly(b, from, ids[..n], values[..n]);
      CoversLast(b, from, ids, values, n);
      if MoveAll(b, from, from, ids[..n], values[..n]).Ok? {
        var front := MoveAll(b, from, from, ids[..n], values[..n]).value;
        MoveAllSupply(b, from, from, ids[..n], values[..n]);
        BatchTransferMoves(b, from, from, ids[..n], values[..n], ids[n], from);
        assert Supply(Row(front, ids[n])) <= MAX_UINT256;
        MovesExactly(front, from, from, ids[n], values[n]);
      }
    }
  }

  lemma NothingToCover(b: Balances, from: Address)
    ensures CoversEach(b, from, [], [])
  {
  }

  lemma BatchTransferAcceptsExactly(t: Token, sender: Address, from: Address, to: Address, ids: seq<nat>,
                                    values: seq<nat>)
    requires TokenOk(t)
    ensures Transfer(t, sender, from, to, ids, values).Ok? <==>
              && (sender == from || (from, sender) in t.approvals)
              && from != 0 && to != 0 && !t.paused
              && (forall i | i in ids :: i in t.batches && t.batches[i].status == Active)
              && |ids| == |values|
              && if from == to then CoversEach(t.balances, from, ids, values) else Covers(t.balances, from, ids, values)
  {
    forall id ensures Supply(Row(t.balances, id)) <= MAX_UINT256 {
      if id in t.batches { assert BatchOk(t, id); }
    }
    if from != 0 && to != 0 && |ids| == |values| {
      if from == to {
        BatchToSelfExactly(t.balances, from, ids, values);
      } else {
        BatchMovesExactly(t.balances, from, to, ids, values);
      }
    }
  }

  // ---------------------------------------------------------------- receipts

  /** No call changes a receipt that has been minted. */
  lemma ReceiptKept(t: Token, sender: Address, call: Call, receipt: nat)
    requires TokenOk(t) && receipt in t.receipts.owners
    ensures var t' := Execute(t, sender, call);
            && OwnerOf(t'.receipts, receipt) == OwnerOf(t.receipts, receipt)
            && receipt in t'.receipts.owners
            && receipt in t'.receipts.data && t'.receipts.data[receipt] == t.receipts.data[receipt]
  {
    hide BatchOk, RetirementOk, IssueTokens, Retire, Transfer;
    if Execute(t, sender, call) != t {
      match call
      case CallIssue(hash, cid, s, e, units, m, v) => IssueChanges(t, sender, hash, cid, s, e, units, m, v);
      case CallRetire(b, amount) => RetireChanges(t, sender, b, amount);
      case CallTransfer(from, to, ids, values) => TransferKeepsReceipts(t, sender, from, to, ids, values);
      case _ =>
    }
  }

  lemma TransferKeepsReceipts(t: Token, sender: Address, from: Address, to: Address, ids: seq<nat>, values: seq<nat>)
    requires Transfer(t, sender, from, to, ids, values).Ok?
    ensures Transfer(t, sender, from, to, ids, values).value.receipts == t.receipts
  {
  }

  /** Soulbound: once minted, a receipt keeps its owner and its contents for ever. */
  lemma {:induction false} ReceiptsAreSoulbound(t: Token, calls: seq<(Address, Call)>, receipt: nat)
    requires TokenOk(t) && receipt in t.receipts.owners
    requires forall i | 0 <= i < |calls| :: Encodable(calls[i].1)
    ensures var t' := ExecuteAll(t, calls);
            && OwnerOf(t'.receipts, receipt) == OwnerOf(t.receipts, receipt)
            && receipt in t'.receipts.owners
            && receipt in t'.receipts.data && t'.receipts.data[receipt] == t.receipts.data[receipt]
  {
    hide Execute, IdsOk, BatchOk, RetirementOk;
    if calls != [] {
      var n := |calls| - 1;
      var before := ExecuteAll(t, calls[..n]);
      EveryRunKeepsToken(t, calls[..n]);
      ReceiptsAreSoulbound(t, calls[..n], receipt);
      ReceiptKept(before, calls[n].0, calls[n].1, receipt);
    }
  }

  /** Every retirement since the receipts were attached is certified by its own receipt. */
  lemma RetirementIsReceipted(t: Token, sender: Address, id: nat, amount: nat)
    requires TokenOk(t) && t.receiptAttached && Retire(t, sender, id, amount).Ok?
    ensures var done := Retire(t, sender, id, amount).value;
            var record := done.0.retirements[done.1];
            && record.receipt == t.receipts.nextId && record.receipt !in t.receipts.owners
            && done.0.receipts.owners[record.receipt] == sender
            && done.0.receipts.data[record.receipt] == ReceiptData(id, amount)
            && BalanceOf(done.0.balances, id, sender) == BalanceOf(t.balances, id, sender) - amount
  {
    RetireChanges(t, sender, id, amount);
  }
}
