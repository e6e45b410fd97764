/** When each call of the contracts is accepted, what it changes, and what it means for the calls after it. */
module TokenEffects {
  import opened Collections
  import opened MockChain
  import opened TokenContract
  import opened TokenSupply

  // ---------------------------------------------------------------- status

  /** A status call is accepted exactly from a manager, not paused, for a known id, with a reason and a status. */
  lemma StatusAcceptsExactly(t: Token, sender: Address, id: nat, status: BatchStatus, reason: string)
    ensures SetBatchStatus(t, sender, id, status, reason).Ok? <==>
              && sender in t.roles.statusManagers && !t.paused && id in t.batches
              && reason != "" && status != NoStatus
  {
  }

  /** The batch then has the status and the reason; no other batch, no balance and nothing else has changed. */
  lemma StatusIsSet(t: Token, sender: Address, id: nat, status: BatchStatus, reason: string)
    requires SetBatchStatus(t, sender, id, status, reason).Ok?
    ensures var t' := SetBatchStatus(t, sender, id, status, reason).value;
            && StatusOf(t', id) == status && t'.batches.Keys == t.batches.Keys
            && id in t.batches && t'.batches[id] == t.batches[id].(status := status, reason := reason)
            && (forall b | b in t.batches && b != id :: t'.batches[b] == t.batches[b])
            && t' == t.(batches := t'.batches)
  {
  }

  /** Neither a transfer that lists an id that is not active nor a retirement from it is accepted, whoever calls. */
  lemma InactiveIsRefused(t: Token, id: nat, sender: Address, from: Address, to: Address, ids: seq<nat>,
                          values: seq<nat>, amount: nat)
    requires id !in t.batches || t.batches[id].status != Active
    ensures Retire(t, sender, id, amount).Err?
    ensures id in ids ==> Transfer(t, sender, from, to, ids, values).Err?
  {
  }

  /** So a suspended or revoked batch can be neither transferred nor retired from, until its status is active again. */
  lemma SuspensionStops(t: Token, manager: Address, id: nat, status: BatchStatus, reason: string,
                        sender: Address, from: Address, to: Address, ids: seq<nat>, values: seq<nat>, amount: nat)
    requires SetBatchStatus(t, manager, id, status, reason).Ok? && status != Active
    ensures var t' := SetBatchStatus(t, manager, id, status, reason).value;
            && Retire(t', sender, id, amount).Err?
            && (id in ids ==> Transfer(t', sender, from, to, ids, values).Err?)
            && (forall again | again != "" ::
                  var t'' := SetBatchStatus(t', manager, id, Active, again);
                  t''.Ok? && StatusOf(t''.value, id) == Active && t''.value.balances == t.balances)
  {
    StatusIsSet(t, manager, id, status, reason);
    InactiveIsRefused(SetBatchStatus(t, manager, id, status, reason).value, id, sender, from, to, ids, values, amount);
  }

  // ---------------------------------------------------------------- pausing

  /** A pauser stops a running contract, and starts a stopped one; nothing else changes. */
  lemma PauseExactly(t: Token, sender: Address)
    ensures Pause(t, sender).Ok? <==> sender in t.roles.pausers && !t.paused
    ensures Unpause(t, sender).Ok? <==> sender in t.roles.pausers && t.paused
    ensures Pause(t, sender).Ok? ==> Pause(t, sender).value == t.(paused := true)
    ensures Unpause(t, sender).Ok? ==> Unpause(t, sender).value == t.(paused := false)
  {
  }

  /** While paused, every call that moves units or changes a status is refused, whoever calls. */
  lemma PauseStops(t: Token, sender: Address, call: Call)
    requires t.paused && (call.CallIssue? || call.CallRetire? || call.CallTransfer? || call.CallSetStatus?)
    ensures Execute(t, sender, call) == t
  {
  }

  /** Pausing and unpausing again leaves everything as it was. */
  lemma PauseRoundTrip(t: Token, sender: Address)
    requires Pause(t, sender).Ok?
    ensures Unpause(Pause(t, sender).value, sender) == Ok(t)
  {
  }

  // ---------------------------------------------------------------- settings

  /** An approval changes what this operator may do for this holder, and nothing for anybody else. */
  lemma ApprovalTakesEffect(t: Token, holder: Address, operator: Address, approved: bool)
    ensures SetApproval(t, holder, operator, approved).Ok? <==> operator != 0
    ensures SetApproval(t, holder, operator, approved).Ok? ==>
              var t' := SetApproval(t, holder, operator, approved).value;
              && ((holder, operator) in t'.approvals <==> approved)
              && (forall h, o | (h, o) != (holder, operator) :: (h, o) in t'.approvals <==> (h, o) in t.approvals)
              && t' == t.(approvals := t'.approvals)
  {
  }

  /** An operator without an approval moves nothing of another holder. */
  lemma RevokedOperatorIsRefused(t: Token, holder: Address, operator: Address, to: Address, ids: seq<nat>,
                                 values: seq<nat>)
    requires operator != 0 && operator != holder
    ensures var t' := SetApproval(t, holder, operator, false).value;
            Transfer(t', operator, holder, to, ids, values) == Err(NotApproved)
  {
  }

  /** A deployed contract runs, and holds nothing and no approvals yet. */
  lemma DeploymentIs(self: Address, roles: Roles, treasury: Address, minters: set<Address>)
    ensures var t := Deploy(self, roles, treasury, minters);
            && !t.paused && t.roles == roles && t.treasury == treasury && t.self == self && !t.receiptAttached
            && t.batches == map[] && t.balances == map[] && t.approvals == {} && t.retirements == map[]
            && t.receipts.minters == minters && t.receipts.owners == map[]
            && TokenOk(t)
  {
  }

  // ---------------------------------------------------------------- issue and retirement

  /** When a batch is issued: the addition to the treasury's balance of a new id cannot overflow. */
  lemma IssueAcceptsExactly(t: Token, sender: Address, hash: Hash, cid: string, s: int, e: int, units: nat,
                            m: string, v: string)
    requires TokenOk(t) && units <= MAX_UINT256
    ensures IssueTokens(t, sender, hash, cid, s, e, units, m, v).Ok? <==>
              && sender in t.roles.registrars && !t.paused && t.treasury != 0
              && hash != 0 && hash !in t.byHash && cid != "" && m != "" && v != "" && units > 0 && s <= e
  {
    hide BatchOk, RetirementOk, ReceiptsOk;
    assert [t.nextBatch][..0] == [] && [units][..0] == [];
    assert MoveAll(t.balances, 0, t.treasury, [t.nextBatch], [units])
           == MoveOne(t.balances, 0, t.treasury, t.nextBatch, units);
    assert Row(t.balances, t.nextBatch) == map[];
  }

  /** What an issue records: the batch under its hash, active, and all its units with the treasury of the day. */
  lemma IssueIs(t: Token, sender: Address, hash: Hash, cid: string, s: int, e: int, units: nat, m: string, v: string)
    requires TokenOk(t) && IssueTokens(t, sender, hash, cid, s, e, units, m, v).Ok?
    ensures var (t', id) := IssueTokens(t, sender, hash, cid, s, e, units, m, v).value;
            && id == t.nextBatch && id !in t.batches && t'.nextBatch == id + 1
            && t'.batches == t.batches[id := TokenBatch(hash, cid, s, e, units, 0, Active, m, v, "INITIAL_ISSUANCE")]
            && t'.byHash == t.byHash[hash := id]
            && (forall i, who :: BalanceOf(t'.balances, i, who)
                                 == if i == id && who == t.treasury then units else BalanceOf(t.balances, i, who))
            && t' == t.(nextBatch := id + 1, byHash := t'.byHash, batches := t'.batches, balances := t'.balances)
  {
    hide BatchOk, RetirementOk, ReceiptsOk;
    IssueChanges(t, sender, hash, cid, s, e, units, m, v);
    assert Row(t.balances, t.nextBatch) == map[];
  }

  /** When units are retired: whoever holds them may, without a role. */
  lemma RetireAcceptsExactly(t: Token, sender: Address, id: nat, amount: nat)
    requires TokenOk(t)
    ensures Retire(t, sender, id, amount).Ok? <==>
              && !t.paused && id in t.batches && t.batches[id].status == Active
              && 0 < amount <= BalanceOf(t.balances, id, sender) && sender != 0
              && (t.receiptAttached ==> t.self in t.receipts.minters)
  {
    hide BatchOk, RetirementOk;
    assert [id][..0] == [] && [amount][..0] == [];
    assert MoveAll(t.balances, sender, 0, [id], [amount]) == MoveOne(t.balances, sender, 0, id, amount);
    MintReceiptGrows(t.receipts, t.self, sender, id, amount);
    hide ReceiptsOk, MintReceipt;
  }

  /** What a retirement changes: the holder's balance, the batch's counter, one record, perhaps one receipt. */
  lemma RetireIs(t: Token, sender: Address, id: nat, amount: nat)
    requires TokenOk(t) && Retire(t, sender, id, amount).Ok?
    ensures var (t', r) := Retire(t, sender, id, amount).value;
            var receipt := if t.receiptAttached then t.receipts.nextId else 0;
            && r == t.nextRetirement && r !in t.retirements && id in t.batches
            && t'.retirements == t.retirements[r := TokenRetirement(id, sender, amount, receipt)]
            && t'.batches == t.batches[id := t.batches[id].(retired := t.batches[id].retired + amount)]
            && (forall i, who :: BalanceOf(t'.balances, i, who)
                                 == BalanceOf(t.balances, i, who) - if i == id && who == sender then amount else 0)
            && (t.receiptAttached ==> t'.receipts.owners == t.receipts.owners[receipt := sender]
                                      && t'.receipts.data == t.receipts.data[receipt := ReceiptData(id, amount)])
            && (!t.receiptAttached ==> t'.receipts == t.receipts)
            && t' == t.(retirements := t'.retirements, nextRetirement := r + 1, batches := t'.batches,
                        balances := t'.balances, receipts := t'.receipts)
  {
    hide BatchOk, RetirementOk, ReceiptsOk;
    RetireChanges(t, sender, id, amount);
  }

  /** What a reverted status call says is so. */
  lemma StatusRevertIsTrue(t: Token, sender: Address, id: nat, status: BatchStatus, reason: string)
    requires SetBatchStatus(t, sender, id, status, reason).Err?
    ensures match SetBatchStatus(t, sender, id, status, reason).error
            case MissingRole => sender !in t.roles.statusManagers
            case EnforcedPause => t.paused
            case UnknownBatch => id !in t.batches
            case EmptyString => reason == ""
            case InvalidStatus => status == NoStatus
            case _ => false
  {
  }

  /** What a reverted issue says is so. */
  lemma IssueRevertIsTrue(t: Token, sender: Address, hash: Hash, cid: string, s: int, e: int, units: nat,
                          m: string, v: string)
    requires TokenOk(t) && units <= MAX_UINT256 && IssueTokens(t, sender, hash, cid, s, e, units, m, v).Err?
    ensures match IssueTokens(t, sender, hash, cid, s, e, units, m, v).error
            case MissingRole => sender !in t.roles.registrars
            case EnforcedPause => t.paused
            case ZeroHashError => hash == 0
            case EmptyString => cid == "" || m == "" || v == ""
            case InvalidAmount => units == 0
            case InvalidPeriod => e < s
            case BatchAlreadyRegistered => hash in t.byHash
            case ZeroAddress => t.treasury == 0
            case _ => false
  {
    IssueAcceptsExactly(t, sender, hash, cid, s, e, units, m, v);
    hide TokenOk, Update;
  }

  /** What a reverted retirement says is so. */
  lemma RetireRevertIsTrue(t: Token, sender: Address, id: nat, amount: nat)
    requires TokenOk(t) && Retire(t, sender, id, amount).Err?
    ensures match Retire(t, sender, id, amount).error
            case EnforcedPause => t.paused
            case UnknownBatch => id !in t.batches
            case BatchNotActive => id in t.batches && t.batches[id].status != Active
            case InvalidAmount => amount == 0
            case ZeroAddress => sender == 0
            case InsufficientBalance => BalanceOf(t.balances, id, sender) < amount
            case MissingRole => t.receiptAttached && t.self !in t.receipts.minters
            case _ => false
  {
    RetireAcceptsExactly(t, sender, id, amount);
    if sender != 0 && !t.paused { OneBurnError(t, sender, id, amount); }
    hide TokenOk, Update, BalanceOf, UpdateReceipt;
  }

  lemma OneBurnError(t: Token, from: Address, id: nat, amount: nat)
    requires from != 0 && !t.paused
    ensures Update(t, from, 0, [id], [amount]).Err? <==> BalanceOf(t.balances, id, from) < amount
    ensures Update(t, from, 0, [id], [amount]).Err? ==>
              Update(t, from, 0, [id], [amount]).error == InsufficientBalance
  {
    assert [id][..0] == [] && [amount][..0] == [];
    assert MoveAll(t.balances, from, 0, [id], [amount]) == MoveOne(t.balances, from, 0, id, amount);
  }

  /** The receipts' hook: an unowned receipt may be given, an owned one only be taken out, by its owner or by nobody. */
  lemma ReceiptHookExactly(r: Receipts, to: Address, id: nat, auth: Address)
    ensures var done := UpdateReceipt(r, to, id, auth);
            && (done.Ok? <==>
                  && (OwnerOf(r, id) == 0 || to == 0) && (auth == 0 || (auth == OwnerOf(r, id) && OwnerOf(r, id) != 0)))
            && (done.Ok? ==>
                  && done.value.1 == OwnerOf(r, id) && OwnerOf(done.value.0, id) == to
                  && (forall other | other != id :: OwnerOf(done.value.0, other) == OwnerOf(r, other))
                  && done.value.0 == r.(owners := done.value.0.owners))
  {
  }

  /** An administrator sets a treasury other than zero, nothing else changes, and the next issue is credited to it. */
  lemma NextIssueGoesToTreasury(t: Token, admin: Address, treasury: Address, sender: Address, hash: Hash, cid: string,
                                s: int, e: int, units: nat, m: string, v: string)
    requires TokenOk(t)
    ensures var changed := SetTreasury(t, admin, treasury);
            && (changed.Ok? <==> admin in t.roles.admins && treasury != 0)
            && (changed.Ok? ==> changed.value == t.(treasury := treasury))
            && (changed.Ok? && IssueTokens(changed.value, sender, hash, cid, s, e, units, m, v).Ok? ==>
                  var (t', id) := IssueTokens(changed.value, sender, hash, cid, s, e, units, m, v).value;
                  BalanceOf(t'.balances, id, treasury) == units)
  {
    var changed := SetTreasury(t, admin, treasury);
    if changed.Ok? && IssueTokens(changed.value, sender, hash, cid, s, e, units, m, v).Ok? {
      SettingsKeepToken(t, changed.value);
      IssueIs(changed.value, sender, hash, cid, s, e, units, m, v);
    }
  }

  /** An administrator attaches the receipts, nothing else changes, and the next retirement gets a receipt. */
  lemma NextRetirementIsReceipted(t: Token, admin: Address, receipts: Address, sender: Address, id: nat, amount: nat)
    requires TokenOk(t)
    ensures var changed := AttachReceipts(t, admin, receipts);
            && (changed.Ok? <==> admin in t.roles.admins && receipts != 0)
            && (changed.Ok? ==> changed.value == t.(receiptAttached := true))
            && (changed.Ok? && Retire(changed.value, sender, id, amount).Ok? ==>
                  var (t', r) := Retire(changed.value, sender, id, amount).value;
                  && r in t'.retirements && OwnerOf(t'.receipts, t'.retirements[r].receipt) == sender
                  && t'.retirements[r].receipt in t'.receipts.data
                  && t'.receipts.data[t'.retirements[r].receipt] == ReceiptData(id, amount))
  {
    var changed := AttachReceipts(t, admin, receipts);
    if changed.Ok? && Retire(changed.value, sender, id, amount).Ok? {
      SettingsKeepToken(t, changed.value);
      RetireIs(changed.value, sender, id, amount);
    }
  }
}
