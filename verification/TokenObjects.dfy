/**
 * The two contracts as objects: storage fields changed in place, and undone as a whole by a revert.
 * Every external call keeps the contract invariant.
 */
module TokenObjects {
  import opened Collections
  import opened MockChain
  import opened TokenContract
  import opened TokenSupply

  class HECRetirementReceipt {
    var minters: set<Address>
    var nextId: nat
    var owners: map<nat, Address>
    var data: map<nat, ReceiptData>

    function State(): Receipts
      reads this
    {
      Receipts(minters, nextId, owners, data)
    }

    constructor (admin: Address)
      ensures State() == Receipts({admin}, 1, map[], map[]) && ReceiptsOk(State())
    {
      minters, nextId, owners, data := {admin}, 1, map[], map[];
    }

    method UpdateHook(to: Address, id: nat, auth: Address) returns (r: Result<Address, Revert>)
      modifies `owners
      ensures match UpdateReceipt(old(State()), to, id, auth)
              case Ok(done) => State() == done.0 && r == Ok(done.1)
              case Err(e) => State() == old(State()) && r == Err(e)
    {
      var from := if id in owners then owners[id] else 0;
      if from != 0 && to != 0 {
        return Err(NonTransferable);
      }
      if auth != 0 {
        if from == 0 {
          return Err(NonexistentReceipt);
        }
        if auth != from {
          return Err(NotApproved);
        }
      }
      if to == 0 {
        owners := owners - {id};
      } else {
        owners := owners[id := to];
      }
      return Ok(from);
    }

    method Mint(sender: Address, to: Address, batch: nat, amount: nat) returns (r: Result<nat, Revert>)
      modifies this
      ensures old(ReceiptsOk(State())) ==> ReceiptsGrow(old(State()), State())
      ensures match MintReceipt(old(State()), sender, to, batch, amount)
              case Ok(done) => State() == done.0 && r == Ok(done.1)
              case Err(e) => State() == old(State()) && r == Err(e)
    {
      if sender !in minters {
        return Err(MissingRole);
      }
      if to == 0 {
        return Err(ZeroAddress);
      }
      var id := nextId;
      nextId := nextId + 1;
      var previous := UpdateHook(to, id, 0);
      if previous.Err? {
        nextId := id;
        return Err(previous.error);
      }
      // The hook has just refused every receipt with an owner, so there was none.
      assert previous.value == 0;
      data := data[id := ReceiptData(batch, amount)];
      return Ok(id);
    }

    /** Nobody can make this succeed: a receipt has an owner, who cannot part with it, or does not exist. */
    method TransferFrom(sender: Address, from: Address, to: Address, id: nat) returns (r: Revert)
      modifies `owners
      ensures State() == old(State())
      ensures TransferReceipt(State(), sender, from, to, id) == Err(r)
    {
      if to == 0 {
        return ZeroAddress;
      }
      var saved := owners;
      var previous := UpdateHook(to, id, sender);
      if previous.Err? {
        return previous.error;
      }
      owners := saved;
      return NotApproved;
    }
  }

  /** An update that fails on some prefix of its ids fails as a whole, for the same reason. */
  lemma {:induction false} PrefixFails(b: Balances, from: Address, to: Address, ids: seq<nat>, values: seq<nat>, n: nat)
    requires |ids| == |values| && n <= |ids| && MoveAll(b, from, to, ids[..n], values[..n]).Err?
    ensures MoveAll(b, from, to, ids, values) == MoveAll(b, from, to, ids[..n], values[..n])
  {
    if n < |ids| {
      var m := |ids| - 1;
      assert ids[..m][..n] == ids[..n] && values[..m][..n] == values[..n];
      PrefixFails(b, from, to, ids[..m], values[..m], n);
    } else {
      assert ids[..n] == ids && values[..n] == values;
    }
  }

  class HEC1155Registry {
    const self: Address
    const receiptContract: HECRetirementReceipt
    var receiptAttached: bool
    var roles: Roles
    var paused: bool
    var treasury: Address
    var nextBatch: nat
    var byHash: map<Hash, nat>
    var batches: map<nat, TokenBatch>
    var balances: Balances
    var approvals: set<(Address, Address)>
    var nextRetirement: nat
    var retirements: map<nat, TokenRetirement>

    function State(): Token
      reads this, receiptContract
    {
      Token(self, roles, paused, treasury, nextBatch, byHash, batches, balances, approvals,
            nextRetirement, retirements, receiptAttached, receiptContract.State())
    }

    constructor (self: Address, admin: Address, treasury: Address, receiptContract: HECRetirementReceipt)
      requires admin != 0 && treasury != 0
      ensures State() == Deploy(self, Roles({admin}, {admin}, {admin}, {admin}), treasury, {})
                           .(receipts := receiptContract.State())
      ensures this.receiptContract == receiptContract
      ensures ReceiptsOk(receiptContract.State()) ==> TokenOk(State())
    {
      this.self, this.receiptContract, receiptAttached := self, receiptContract, false;
      roles, paused := Roles({admin}, {admin}, {admin}, {admin}), false;
      this.treasury, nextBatch, byHash, batches := treasury, 1, map[], map[];
      balances, approvals, nextRetirement, retirements := map[], {}, 1, map[];
    }

    /** One turn of the base contract's loop; the caller undoes the turns before a failing one. */
    method MoveUnits(from: Address, to: Address, id: nat, value: nat) returns (r: Option<Revert>)
      modifies `balances
      ensures match MoveOne(old(balances), from, to, id, value)
              case Ok(b) => balances == b && r == None
              case Err(e) => r == Some(e)
    {
      if from != 0 {
        var held := BalanceOf(balances, id, from);
        if held < value {
          return Some(InsufficientBalance);
        }
        balances := Put(balances, id, from, held - value);
      }
      if to != 0 {
        var held := BalanceOf(balances, id, to);
        if held + value > MAX_UINT256 {
          return Some(Overflow);
        }
        balances := Put(balances, id, to, held + value);
      }
      return None;
    }

    method UpdateHook(from: Address, to: Address, ids: seq<nat>, values: seq<nat>) returns (r: Option<Revert>)
      modifies `balances
      ensures match Update(old(State()), from, to, ids, values)
              case Ok(t) => State() == t && r == None
              case Err(e) => State() == old(State()) && r == Some(e)
    {
      hide MoveOne;
      if paused {
        return Some(EnforcedPause);
      }
      if from != 0 && to != 0 {
        for i := 0 to |ids|
          invariant balances == old(balances)
          invariant forall k | 0 <= k < i :: ids[k] in batches && batches[ids[k]].status == Active
        {
          if ids[i] !in batches || batches[ids[i]].status != Active {
            assert StatusOf(State(), ids[i]) != Active;
            return Some(NonTransferableStatus);
          }
        }
      }
      if |ids| != |values| {
        return Some(LengthMismatch);
      }
      var saved := balances;
      for i := 0 to |ids|
        invariant saved == old(balances)
        invariant MoveAll(saved, from, to, ids[..i], values[..i]) == Ok(balances)
      {
        assert ids[..i + 1][..i] == ids[..i] && values[..i + 1][..i] == values[..i];
        var failed := MoveUnits(from, to, ids[i], values[i]);
        if failed.Some? {
          balances := saved;
          PrefixFails(saved, from, to, ids, values, i + 1);
          return failed;
        }
      }
      assert ids[..|ids|] == ids && values[..|ids|] == values;
      return None;
    }

    method Issue(sender: Address, hash: Hash, cid: string, periodStart: int, periodEnd: int,
                 units: nat, methodology: string, schema: string) returns (r: Result<nat, Revert>)
      modifies this
      ensures old(TokenOk(State())) && units <= MAX_UINT256 ==> TokenOk(State())
      ensures match IssueTokens(old(State()), sender, hash, cid, periodStart, periodEnd, units, methodology, schema)
              case Ok(done) => State() == done.0 && r == Ok(done.1)
              case Err(e) => State() == old(State()) && r == Err(e)
    {
      hide MoveAll, Update, TokenOk;
      ghost var before := State();
      if TokenOk(before) && units <= MAX_UINT256 {
        IssueCallKeepsToken(before, sender, hash, cid, periodStart, periodEnd, units, methodology, schema);
      }
      if sender !in roles.registrars {
        return Err(MissingRole);
      }
      if paused {
        return Err(EnforcedPause);
      }
      if hash == 0 {
        return Err(ZeroHashError);
      }
      if cid == "" || methodology == "" || schema == "" {
        return Err(EmptyString);
      }
      if units == 0 {
        return Err(InvalidAmount);
      }
      if periodEnd < periodStart {
        return Err(InvalidPeriod);
      }
      if hash in byHash {
        return Err(BatchAlreadyRegistered);
      }
      if treasury == 0 {
        return Err(ZeroAddress);
      }
      var savedHashes, savedBatches := byHash, batches;
      var id := nextBatch;
      nextBatch := nextBatch + 1;
      byHash := byHash[hash := id];
      batches := batches[id := TokenBatch(hash, cid, periodStart, periodEnd, units, 0, Active, methodology, schema,
                                          "INITIAL_ISSUANCE")];
      var reverted := UpdateHook(0, treasury, [id], [units]);
      if reverted.Some? {
        nextBatch, byHash, batches := id, savedHashes, savedBatches;
        return Err(reverted.value);
      }
      return Ok(id);
    }

    method RetireUnits(sender: Address, id: nat, amount: nat) returns (r: Result<nat, Revert>)
      modifies this, receiptContract
      ensures old(TokenOk(State())) ==> TokenOk(State())
      ensures match Retire(old(State()), sender, id, amount)
              case Ok(done) => State() == done.0 && r == Ok(done.1)
              case Err(e) => State() == old(State()) && r == Err(e)
    {
      hide MoveAll, Update, MintReceipt, TokenOk;
      ghost var before := State();
      if TokenOk(before) {
        RetireCallKeepsToken(before, sender, id, amount);
      }
      if paused {
        return Err(EnforcedPause);
      }
      if id !in batches {
        return Err(UnknownBatch);
      }
      if batches[id].status != Active {
        return Err(BatchNotActive);
      }
      if amount == 0 {
        return Err(InvalidAmount);
      }
      if sender == 0 {
        return Err(ZeroAddress);
      }
      var savedBatches, savedBalances := batches, balances;
      var reverted := UpdateHook(sender, 0, [id], [amount]);
      if reverted.Some? {
        return Err(reverted.value);
      }
      batches := batches[id := batches[id].(retired := batches[id].retired + amount)];
      var receipt := 0;
      if receiptAttached {
        var minted := receiptContract.Mint(self, sender, id, amount);
        if minted.Err? {
          batches, balances := savedBatches, savedBalances;
          return Err(minted.error);
        }
        receipt := minted.value;
      }
      var retirement := nextRetirement;
      nextRetirement := nextRetirement + 1;
      retirements := retirements[retirement := TokenRetirement(id, sender, amount, receipt)];
      return Ok(retirement);
    }

    method SafeBatchTransferFrom(sender: Address, from: Address, to: Address, ids: seq<nat>, values: seq<nat>)
      returns (r: Option<Revert>)
      modifies `balances
      ensures old(TokenOk(State())) ==> TokenOk(State())
      ensures match Transfer(old(State()), sender, from, to, ids, values)
              case Ok(t) => State() == t && r == None
              case Err(e) => State() == old(State()) && r == Some(e)
    {
      hide MoveAll, Update, TokenOk;
      ghost var before := State();
      if TokenOk(before) {
        TransferKeepsToken(before, sender, from, to, ids, values);
      }
      if sender != from && (from, sender) !in approvals {
        return Some(NotApproved);
      }
      if to == 0 || from == 0 {
        return Some(ZeroAddress);
      }
      r := UpdateHook(from, to, ids, values);
    }

    method ChangeStatus(sender: Address, id: nat, status: BatchStatus, reason: string) returns (r: Option<Revert>)
      modifies `batches
      ensures old(TokenOk(State())) ==> TokenOk(State())
      ensures match SetBatchStatus(old(State()), sender, id, status, reason)
              case Ok(t) => State() == t && r == None
              case Err(e) => State() == old(State()) && r == Some(e)
    {
      hide TokenOk;
      ghost var before := State();
      if TokenOk(before) {
        SetStatusKeepsToken(before, sender, id, status, reason);
      }
      if sender !in roles.statusManagers {
        return Some(MissingRole);
      }
      if paused {
        return Some(EnforcedPause);
      }
      if id !in batches {
        return Some(UnknownBatch);
      }
      if reason == "" {
        return Some(EmptyString);
      }
      if status == NoStatus {
        return Some(InvalidStatus);
      }
      batches := batches[id := batches[id].(status := status, reason := reason)];
      return None;
    }

    method PauseCalls(sender: Address) returns (r: Option<Revert>)
      modifies `paused
      ensures old(TokenOk(State())) ==> TokenOk(State())
      ensures match Pause(old(State()), sender)
              case Ok(t) => State() == t && r == None
              case Err(e) => State() == old(State()) && r == Some(e)
    {
      hide TokenOk;
      ghost var before := State();
      if TokenOk(before) {
        ExecuteKeepsToken(before, sender, CallPause);
      }
      if sender !in roles.pausers {
        return Some(MissingRole);
      }
      if paused {
        return Some(EnforcedPause);
      }
      paused := true;
      return None;
    }

    method UnpauseCalls(sender: Address) returns (r: Option<Revert>)
      modifies `paused
      ensures old(TokenOk(State())) ==> TokenOk(State())
      ensures match Unpause(old(State()), sender)
              case Ok(t) => State() == t && r == None
              case Err(e) => State() == old(State()) && r == Some(e)
    {
      hide TokenOk;
      ghost var before := State();
      if TokenOk(before) {
        ExecuteKeepsToken(before, sender, CallUnpause);
      }
      if sender !in roles.pausers {
        return Some(MissingRole);
      }
      if !paused {
        return Some(ExpectedPause);
      }
      paused := false;
      return None;
    }

    method ChangeTreasury(sender: Address, newTreasury: Address) returns (r: Option<Revert>)
      modifies `treasury
      ensures old(TokenOk(State())) ==> TokenOk(State())
      ensures match SetTreasury(old(State()), sender, newTreasury)
              case Ok(t) => State() == t && r == None
              case Err(e) => State() == old(State()) && r == Some(e)
    {
      hide TokenOk;
      ghost var before := State();
      if TokenOk(before) {
        ExecuteKeepsToken(before, sender, CallSetTreasury(newTreasury));
      }
      if sender !in roles.admins {
        return Some(MissingRole);
      }
      if newTreasury == 0 {
        return Some(ZeroAddress);
      }
      treasury := newTreasury;
      return None;
    }

    method SetReceiptContract(sender: Address, contractAddress: Address) returns (r: Option<Revert>)
      modifies `receiptAttached
      ensures old(TokenOk(State())) ==> TokenOk(State())
      ensures match AttachReceipts(old(State()), sender, contractAddress)
              case Ok(t) => State() == t && r == None
              case Err(e) => State() == old(State()) && r == Some(e)
    {
      hide TokenOk;
      ghost var before := State();
      if TokenOk(before) {
        ExecuteKeepsToken(before, sender, CallAttachReceipts(contractAddress));
      }
      if sender !in roles.admins {
        return Some(MissingRole);
      }
      if contractAddress == 0 {
        return Some(ZeroAddress);
      }
      receiptAttached := true;
      return None;
    }

    method SetApprovalForAll(sender: Address, operator: Address, approved: bool) returns (r: Option<Revert>)
      modifies `approvals
      ensures old(TokenOk(State())) ==> TokenOk(State())
      ensures match SetApproval(old(State()), sender, operator, approved)
              case Ok(t) => State() == t && r == None
              case Err(e) => State() == old(State()) && r == Some(e)
    {
      hide TokenOk;
      ghost var before := State();
      if TokenOk(before) {
        ExecuteKeepsToken(before, sender, CallSetApproval(operator, approved));
      }
      if operator == 0 {
        return Some(ZeroAddress);
      }
      if approved {
        approvals := approvals + {(sender, operator)};
      } else {
        approvals := approvals - {(sender, operator)};
      }
      return None;
    }
  }
}
