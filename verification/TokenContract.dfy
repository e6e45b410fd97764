/**
 * The HEC1155 registry and its soulbound retirement receipts, as values: one function per external
 * call, which either yields the next state or reverts.
 */
module TokenContract {
  import opened Collections
  import opened MockChain

  /** 0 is the zero address. */
  type Address = nat

  const MAX_UINT64 := 0xFFFF_FFFF_FFFF_FFFF
  const MAX_UINT256 := 115792089237316195423570985008687907853269984665640564039457584007913129639935

  datatype BatchStatus = NoStatus | Active | Suspended | Revoked

  datatype TokenBatch = TokenBatch(
    hash: Hash, cid: string, periodStart: int, periodEnd: int, issued: nat, retired: nat,
    status: BatchStatus, methodology: string, schema: string, reason: string)

  datatype TokenRetirement = TokenRetirement(batch: nat, retiredBy: Address, amount: nat, receipt: nat)

  datatype ReceiptData = ReceiptData(batch: nat, amount: nat)

  /** The ERC-721 receipt contract. */
  datatype Receipts = Receipts(minters: set<Address>, nextId: nat, owners: map<nat, Address>,
                               data: map<nat, ReceiptData>)

  datatype Roles = Roles(
    admins: set<Address>, registrars: set<Address>, pausers: set<Address>, statusManagers: set<Address>)

  type Balances = map<nat, map<Address, nat>>

  datatype Token = Token(
    self: Address, roles: Roles, paused: bool, treasury: Address,
    nextBatch: nat, byHash: map<Hash, nat>, batches: map<nat, TokenBatch>,
    balances: Balances, approvals: set<(Address, Address)>,
    nextRetirement: nat, retirements: map<nat, TokenRetirement>,
    receiptAttached: bool, receipts: Receipts)

  datatype Revert =
    | MissingRole | EnforcedPause | ExpectedPause | ZeroHashError | EmptyString | InvalidAmount | InvalidPeriod
    | BatchAlreadyRegistered | UnknownBatch | BatchNotActive | NonTransferableStatus | InvalidStatus
    | ZeroAddress | InsufficientBalance | Overflow | LengthMismatch | NotApproved | NonTransferable | NonexistentReceipt

  type Outcome = Result<Token, Revert>

  // ---------------------------------------------------------------- balances

  function Row(b: Balances, id: nat): map<Address, nat> {
    if id in b then b[id] else map[]
  }

  function BalanceIn(row: map<Address, nat>, who: Address): nat {
    if who in row then row[who] else 0
  }

  function BalanceOf(b: Balances, id: nat, who: Address): nat {
    BalanceIn(Row(b, id), who)
  }

  function Put(b: Balances, id: nat, who: Address, amount: nat): Balances {
    b[id := Row(b, id)[who := amount]]
  }

  /** One (id, value) pair of the ERC-1155 update; address 0 mints or burns. */
  function MoveOne(b: Balances, from: Address, to: Address, id: nat, value: nat): Result<Balances, Revert> {
    if from != 0 && BalanceOf(b, id, from) < value then Err(InsufficientBalance)
    else
      var taken := if from != 0 then Put(b, id, from, BalanceOf(b, id, from) - value) else b;
      if to == 0 then Ok(taken)
      else if BalanceOf(taken, id, to) + value > MAX_UINT256 then Err(Overflow)
      else Ok(Put(taken, id, to, BalanceOf(taken, id, to) + value))
  }

  function MoveAll(b: Balances, from: Address, to: Address, ids: seq<nat>, values: seq<nat>): Result<Balances, Revert>
    requires |ids| == |values|
  {
    if ids == [] then Ok(b)
    else
      var n := |ids| - 1;
      match MoveAll(b, from, to, ids[..n], values[..n])
      case Err(e) => Err(e)
      case Ok(front) => MoveOne(front, from, to, ids[n], values[n])
  }

  function StatusOf(t: Token, id: nat): BatchStatus {
    if id in t.batches then t.batches[id].status else NoStatus
  }

  predicate AllActive(t: Token, ids: seq<nat>) {
    forall i | i in ids :: StatusOf(t, i) == Active
  }

  /** The overridden update hook: pause first, then the status of every id of a transfer, then the move. */
  function Update(t: Token, from: Address, to: Address, ids: seq<nat>, values: seq<nat>): Outcome {
    if t.paused then Err(EnforcedPause)
    else if from != 0 && to != 0 && !AllActive(t, ids) then Err(NonTransferableStatus)
    else if |ids| != |values| then Err(LengthMismatch)
    else
      match MoveAll(t.balances, from, to, ids, values)
      case Err(e) => Err(e)
      case Ok(b) => Ok(t.(balances := b))
  }

  // ---------------------------------------------------------------- calls

  function IssueTokens(t: Token, sender: Address, hash: Hash, cid: string, periodStart: int, periodEnd: int,
                      units: nat, methodology: string, schema: string): Result<(Token, nat), Revert> {
    if sender !in t.roles.registrars then Err(MissingRole)
    else if t.paused then Err(EnforcedPause)
    else if hash == 0 then Err(ZeroHashError)
    else if cid == "" || methodology == "" || schema == "" then Err(EmptyString)
    else if units == 0 then Err(InvalidAmount)
    else if periodEnd < periodStart then Err(InvalidPeriod)
    else if hash in t.byHash then Err(BatchAlreadyRegistered)
    else if t.treasury == 0 then Err(ZeroAddress)
    else
      var id := t.nextBatch;
      var batch := TokenBatch(hash, cid, periodStart, periodEnd, units, 0, Active, methodology, schema,
                              "INITIAL_ISSUANCE");
      match Update(t.(nextBatch := id + 1, byHash := t.byHash[hash := id], batches := t.batches[id := batch]),
                   0, t.treasury, [id], [units])
      case Err(e) => Err(e)
      case Ok(t') => Ok((t', id))
  }

  /** The owner of a receipt, 0 when it has not been minted. */
  function OwnerOf(r: Receipts, id: nat): Address {
    if id in r.owners then r.owners[id] else 0
  }

  /** The receipts' overridden update hook: an owned receipt may only be burnt. Yields the previous owner. */
  function UpdateReceipt(r: Receipts, to: Address, id: nat, auth: Address): Result<(Receipts, Address), Revert> {
    var from := OwnerOf(r, id);
    if from != 0 && to != 0 then Err(NonTransferable)
    else if auth != 0 && from == 0 then Err(NonexistentReceipt)
    else if auth != 0 && auth != from then Err(NotApproved)
    else Ok((r.(owners := if to == 0 then r.owners - {id} else r.owners[id := to]), from))
  }

  function MintReceipt(r: Receipts, sender: Address, to: Address, batch: nat,
                       amount: nat): Result<(Receipts, nat), Revert>
  {
    if sender !in r.minters then Err(MissingRole)
    else if to == 0 then Err(ZeroAddress)
    else
      var id := r.nextId;
      match UpdateReceipt(r.(nextId := id + 1), to, id, 0)
      case Err(e) => Err(e)
      case Ok(done) =>
        if done.1 != 0 then Err(NotApproved)
        else Ok((done.0.(data := done.0.data[id := ReceiptData(batch, amount)]), id))
  }

  function Retire(t: Token, sender: Address, id: nat, amount: nat): Result<(Token, nat), Revert> {
    if t.paused then Err(EnforcedPause)
    else if id !in t.batches then Err(UnknownBatch)
    else if t.batches[id].status != Active then Err(BatchNotActive)
    else if amount == 0 then Err(InvalidAmount)
    else if sender == 0 then Err(ZeroAddress)
    else
      match Update(t, sender, 0, [id], [amount])
      case Err(e) => Err(e)
      case Ok(burned) =>
        var batch := t.batches[id];
        var counted := burned.(batches := burned.batches[id := batch.(retired := batch.retired + amount)]);
        if !t.receiptAttached then Ok(Record(counted, sender, id, amount, 0))
        else
          match MintReceipt(t.receipts, t.self, sender, id, amount)
          case Err(e) => Err(e)
          case Ok(minted) => Ok(Record(counted.(receipts := minted.0), sender, id, amount, minted.1))
  }

  function Record(t: Token, sender: Address, id: nat, amount: nat, receipt: nat): (Token, nat) {
    (t.(retirements := t.retirements[t.nextRetirement := TokenRetirement(id, sender, amount, receipt)],
        nextRetirement := t.nextRetirement + 1), t.nextRetirement)
  }

  /** safeTransferFrom is the case of one id. */
  function Transfer(t: Token, sender: Address, from: Address, to: Address, ids: seq<nat>, values: seq<nat>): Outcome {
    if sender != from && (from, sender) !in t.approvals then Err(NotApproved)
    else if to == 0 || from == 0 then Err(ZeroAddress)
    else Update(t, from, to, ids, values)
  }

  function SetBatchStatus(t: Token, sender: Address, id: nat, status: BatchStatus, reason: string): Outcome {
    if sender !in t.roles.statusManagers then Err(MissingRole)
    else if t.paused then Err(EnforcedPause)
    else if id !in t.batches then Err(UnknownBatch)
    else if reason == "" then Err(EmptyString)
    else if status == NoStatus then Err(InvalidStatus)
    else Ok(t.(batches := t.batches[id := t.batches[id].(status := status, reason := reason)]))
  }

  function Pause(t: Token, sender: Address): Outcome {
    if sender !in t.roles.pausers then Err(MissingRole)
    else if t.paused then Err(EnforcedPause)
    else Ok(t.(paused := true))
  }

  function Unpause(t: Token, sender: Address): Outcome {
    if sender !in t.roles.pausers then Err(MissingRole)
    else if !t.paused then Err(ExpectedPause)
    else Ok(t.(paused := false))
  }

  function SetTreasury(t: Token, sender: Address, treasury: Address): Outcome {
    if sender !in t.roles.admins then Err(MissingRole)
    else if treasury == 0 then Err(ZeroAddress)
    else Ok(t.(treasury := treasury))
  }

  /** A non-zero address stands for the one receipt contract. */
  function AttachReceipts(t: Token, sender: Address, receiptContract: Address): Outcome {
    if sender !in t.roles.admins then Err(MissingRole)
    else if receiptContract == 0 then Err(ZeroAddress)
    else Ok(t.(receiptAttached := true))
  }

  function SetApproval(t: Token, sender: Address, operator: Address, approved: bool): Outcome {
    if operator == 0 then Err(ZeroAddress)
    else Ok(t.(approvals := if approved then t.approvals + {(sender, operator)}
                            else t.approvals - {(sender, operator)}))
  }

  function CirculatingSupply(t: Token, id: nat): Result<int, Revert> {
    if id !in t.batches then Err(UnknownBatch)
    else Ok(t.batches[id].issued - t.batches[id].retired)
  }

  function TransferReceipt(r: Receipts, sender: Address, from: Address, to: Address,
                           id: nat): Result<Receipts, Revert>
  {
    if to == 0 then Err(ZeroAddress)
    else
      match UpdateReceipt(r, to, id, sender)
      case Err(e) => Err(e)
      case Ok(done) => if done.1 == 0 || done.1 != from then Err(NotApproved) else Ok(done.0)
  }

  datatype Call =
    | CallIssue(hash: Hash, cid: string, periodStart: int, periodEnd: int, units: nat,
                methodology: string, schema: string)
    | CallRetire(id: nat, amount: nat)
    | CallTransfer(from: Address, to: Address, ids: seq<nat>, values: seq<nat>)
    | CallSetStatus(id: nat, status: BatchStatus, reason: string)
    | CallPause
    | CallUnpause
    | CallSetTreasury(treasury: Address)
    | CallAttachReceipts(receiptContract: Address)
    | CallSetApproval(operator: Address, approved: bool)
    | CallMintReceipt(to: Address, batch: nat, amount: nat)
    | CallTransferReceipt(from: Address, to: Address, id: nat)

  function Settled(t: Token, r: Outcome): Token {
    if r.Ok? then r.value else t
  }

  /** The state after a call by `sender`; a revert changes nothing. */
  function Execute(t: Token, sender: Address, call: Call): Token {
    match call
    case CallIssue(hash, cid, s, e, units, m, v) =>
      var r := IssueTokens(t, sender, hash, cid, s, e, units, m, v);
      if r.Ok? then r.value.0 else t
    case CallRetire(id, amount) =>
      var r := Retire(t, sender, id, amount);
      if r.Ok? then r.value.0 else t
    case CallTransfer(from, to, ids, values) => Settled(t, Transfer(t, sender, from, to, ids, values))
    case CallSetStatus(id, status, reason) => Settled(t, SetBatchStatus(t, sender, id, status, reason))
    case CallPause => Settled(t, Pause(t, sender))
    case CallUnpause => Settled(t, Unpause(t, sender))
    case CallSetTreasury(treasury) => Settled(t, SetTreasury(t, sender, treasury))
    case CallAttachReceipts(receiptContract) => Settled(t, AttachReceipts(t, sender, receiptContract))
    case CallSetApproval(operator, approved) => Settled(t, SetApproval(t, sender, operator, approved))
    case CallMintReceipt(to, batch, amount) =>
      var r := MintReceipt(t.receipts, sender, to, batch, amount);
      if r.Ok? then t.(receipts := r.value.0) else t
    case CallTransferReceipt(from, to, id) =>
      var r := TransferReceipt(t.receipts, sender, from, to, id);
      if r.Ok? then t.(receipts := r.value) else t
  }

  function Deploy(self: Address, roles: Roles, treasury: Address, minters: set<Address>): Token {
    Token(self, roles, false, treasury, 1, map[], map[], map[], {}, 1, map[], false,
          Receipts(minters, 1, map[], map[]))
  }

  function ExecuteAll(t: Token, calls: seq<(Address, Call)>): Token {
    if calls == [] then t
    else
      var n := |calls| - 1;
      Execute(ExecuteAll(t, calls[..n]), calls[n].0, calls[n].1)
  }
}
