/**
 * The in-memory provider against the contracts it stands in for: with the treasury as sole caller and
 * holder, both answer every run of issue and retire calls alike, until the provider accepts a call the
 * contract cannot.
 */
module ChainSimulation {
  import opened Collections
  import C = MockChain
  import opened TokenContract
  import S = TokenSupply

  datatype InventoryCall =
    | Issue(hash: C.Hash, manifest: string, periodStart: int, periodEnd: int, units: int,
            methodology: string, schema: string)
    | RetireFrom(id: nat, units: int)

  /** An answer is the new batch or retirement number, or a refusal. */
  type Answer = Option<nat>

  function AskProvider(c: C.Chain, call: InventoryCall): (C.Chain, Answer) {
    match call
    case Issue(hash, manifest, s, e, units, m, v) =>
      var r := C.IssueBatch(c, hash, manifest, s, e, units, m, v);
      if r.Ok? then (r.value.0, Some(r.value.1)) else (c, None)
    case RetireFrom(id, units) =>
      var r := C.RetireBatch(c, id, units);
      if r.Ok? then (r.value.0, Some(r.value.1)) else (c, None)
  }

  predicate Uint64(x: int) { 0 <= x <= MAX_UINT64 }

  predicate Uint256(x: int) { 0 <= x <= MAX_UINT256 }

  /** Amounts that are not a uint256 and periods that are not a uint64 cannot be sent to the contract at all. */
  function AskContract(t: Token, call: InventoryCall): (Token, Answer) {
    match call
    case Issue(hash, manifest, s, e, units, m, v) =>
      if !Uint256(units) || !Uint64(s) || !Uint64(e) then (t, None)
      else
        var r := IssueTokens(t, t.treasury, hash, manifest, s, e, units, m, v);
        if r.Ok? then (r.value.0, Some(r.value.1)) else (t, None)
    case RetireFrom(id, units) =>
      if !Uint256(units) then (t, None)
      else
        var r := Retire(t, t.treasury, id, units);
        if r.Ok? then (r.value.0, Some(r.value.1)) else (t, None)
  }

  /** What the contract wants of an issue and the provider does not check: version strings and widths. */
  predicate Portable(call: InventoryCall) {
    call.Issue? ==>
      && call.methodology != "" && call.schema != ""
      && 0 <= call.periodStart < 0x1_0000_0000_0000_0000 && 0 <= call.periodEnd < 0x1_0000_0000_0000_0000
      && call.units <= 0xFFFF_FFFF_FFFF_FFFF_FFFF_FFFF_FFFF_FFFF_FFFF_FFFF_FFFF_FFFF_FFFF_FFFF_FFFF_FFFF
  }

  /** Each missing check shows at a first call: the provider answers 1, no contract accepts it. */
  lemma ProviderAcceptsTooMuch(t: Token)
    ensures var noVersion := Issue(1, "m", 0, 3600, 1000, "", "1.0");
            var noSchema := Issue(1, "m", 0, 3600, 1000, "1.0", "");
            var early := Issue(1, "m", -1, 0, 1000, "1.0", "1.0");
            var late := Issue(1, "m", 0, 0x1_0000_0000_0000_0000, 1000, "1.0", "1.0");
            var tooMany := 0x1_0000_0000_0000_0000_0000_0000_0000_0000_0000_0000_0000_0000_0000_0000_0000_0000;
            var wide := Issue(1, "m", 0, 3600, tooMany, "1.0", "1.0");
            forall call | call in [noVersion, noSchema, early, late, wide] ::
              AskProvider(C.GENESIS, call).1 == Some(1) && AskContract(t, call).1 == None
  {
    hide Update;
  }

  // ---------------------------------------------------------------- the relation

  ghost predicate SameBatch(b: C.Batch, tb: TokenBatch) {
    && tb.hash == b.hash && tb.cid == b.manifest && tb.periodStart == b.periodStart && tb.periodEnd == b.periodEnd
    && tb.issued == b.totalUnits <= MAX_UINT256 && tb.retired == b.retiredUnits && tb.status == Active
    && tb.methodology == b.methodology && tb.schema == b.schema
  }

  ghost predicate SameRetirement(r: C.Retirement, tr: TokenRetirement) {
    tr.batch == r.batch && tr.amount == r.amount && tr.receipt == r.receipt
  }

  /** The treasury may call, holds everything, and nothing is paused or suspended. */
  ghost predicate TreasuryRuns(t: Token) {
    && t.treasury != 0 && t.treasury in t.roles.registrars && !t.paused
    && t.receiptAttached && t.self in t.receipts.minters
  }

  ghost predicate Held(c: C.Chain, t: Token, id: nat)
    requires id in c.batches
  {
    && (forall who | who != t.treasury :: BalanceOf(t.balances, id, who) == 0)
    && BalanceOf(t.balances, id, t.treasury) == c.batches[id].totalUnits - c.batches[id].retiredUnits
  }

  ghost predicate SameBatches(c: C.Chain, t: Token) {
    && c.nextBatch == t.nextBatch && c.byHash == t.byHash && c.batches.Keys == t.batches.Keys
    && (forall id | id in c.batches :: id < c.nextBatch && SameBatch(c.batches[id], t.batches[id]))
  }

  ghost predicate SameRetirements(c: C.Chain, t: Token) {
    && c.nextRetirement == t.nextRetirement && c.nextReceipt == t.receipts.nextId
    && c.retirements.Keys == t.retirements.Keys
    && (forall r | r in c.retirements :: SameRetirement(c.retirements[r], t.retirements[r]))
    && (forall i | i in t.receipts.owners :: i < t.receipts.nextId)
  }

  ghost predicate Balanced(c: C.Chain, t: Token) {
    && (forall id | id in c.batches :: Held(c, t, id))
    && (forall id | id in t.balances :: id in c.batches)
  }

  ghost predicate Simulates(c: C.Chain, t: Token) {
    TreasuryRuns(t) && SameBatches(c, t) && SameRetirements(c, t) && Balanced(c, t)
  }

  // ---------------------------------------------------------------- one step

  lemma PutOne(b: Balances, i: nat, w: Address, amount: nat, id: nat, who: Address)
    ensures BalanceOf(Put(b, i, w, amount), id, who) == if id == i && who == w then amount else BalanceOf(b, id, who)
  {
  }

  /** One balance of the treasury changes: everything stays held by it. */
  lemma HeldAfterPut(c: C.Chain, c': C.Chain, t: Token, t': Token, id: nat, amount: nat)
    requires Balanced(c, t) && t'.treasury == t.treasury && t'.balances == Put(t.balances, id, t.treasury, amount)
    requires c'.batches.Keys == c.batches.Keys + {id}
             && amount == c'.batches[id].totalUnits - c'.batches[id].retiredUnits
    requires forall b | b in c.batches && b != id :: c'.batches[b] == c.batches[b]
    ensures Balanced(c', t')
  {
    forall b | b in c'.batches ensures Held(c', t', b) {
      if b in c.batches {
        assert Held(c, t, b);
      } else {
        assert Row(t.balances, b) == map[];
      }
      forall who ensures BalanceOf(t'.balances, b, who)
                         == if b == id && who == t.treasury then amount else BalanceOf(t.balances, b, who)
      {
        PutOne(t.balances, id, t.treasury, amount, b, who);
      }
    }
  }

  lemma IssueAnswered(c: C.Chain, t: Token, call: InventoryCall)
    requires Simulates(c, t) && call.Issue?
    ensures AskContract(t, call).1 == if Portable(call) then AskProvider(c, call).1 else None
  {
    hide SameRetirement, SameBatch, Held;
    if 0 <= call.units <= MAX_UINT256 {
      var id := t.nextBatch;
      assert Row(t.balances, id) == map[];
      assert [id][..0] == [] && [call.units as nat][..0] == [];
      assert MoveAll(t.balances, 0, t.treasury, [id], [call.units as nat])
          == MoveOne(t.balances, 0, t.treasury, id, call.units);
    }
  }

  lemma IssueKeepsTables(c: C.Chain, t: Token, call: InventoryCall)
    requires SameBatches(c, t) && SameRetirements(c, t) && TreasuryRuns(t) && call.Issue?
    requires AskProvider(c, call).1.Some? && AskContract(t, call).1.Some?
    requires S.Issued(t, AskContract(t, call).0, call.units)
    ensures var c' := AskProvider(c, call).0;
            var t' := AskContract(t, call).0;
            SameBatches(c', t') && SameRetirements(c', t') && TreasuryRuns(t')
  {
    hide SameRetirement, MoveAll;
  }

  lemma IssueSimulates(c: C.Chain, t: Token, call: InventoryCall)
    requires Simulates(c, t) && call.Issue? && Portable(call)
    ensures Simulates(AskProvider(c, call).0, AskContract(t, call).0)
  {
    hide SameBatches, SameRetirements, TreasuryRuns, Balanced, IssueTokens;
    IssueAnswered(c, t, call);
    var (t', answer) := AskContract(t, call);
    if answer.Some? {
      S.IssueChanges(t, t.treasury, call.hash, call.manifest, call.periodStart, call.periodEnd, call.units,
                     call.methodology, call.schema);
      IssueKeepsTables(c, t, call);
      IssueKeepsHeld(c, t, t', call);
    }
  }

  lemma IssueKeepsHeld(c: C.Chain, t: Token, t': Token, call: InventoryCall)
    requires Balanced(c, t) && SameBatches(c, t) && call.Issue? && AskProvider(c, call).1.Some?
    requires S.Issued(t, t', call.units)
    ensures Balanced(AskProvider(c, call).0, t')
  {
    hide Held;
    assert Row(t.balances, t.nextBatch) == map[];
    HeldAfterPut(c, AskProvider(c, call).0, t, t', t.nextBatch, call.units);
  }

  lemma RetireAnswered(c: C.Chain, t: Token, call: InventoryCall)
    requires Simulates(c, t) && call.RetireFrom?
    ensures AskContract(t, call).1 == AskProvider(c, call).1
  {
    hide SameRetirement;
    var id := call.id;
    if id in c.batches {
      assert SameBatch(c.batches[id], t.batches[id]) && Held(c, t, id);
      if 0 < call.units <= MAX_UINT256 {
        assert [id][..0] == [] && [call.units as nat][..0] == [];
        assert MoveAll(t.balances, t.treasury, 0, [id], [call.units as nat])
            == MoveOne(t.balances, t.treasury, 0, id, call.units);
      }
    }
  }

  lemma RetireKeepsTables(c: C.Chain, t: Token, t': Token, id: nat, units: nat)
    requires SameBatches(c, t) && SameRetirements(c, t) && TreasuryRuns(t) && C.RetireBatch(c, id, units).Ok?
    requires S.Retired(t, t', t.treasury, id, units)
    ensures var c' := C.RetireBatch(c, id, units).value.0;
            SameBatches(c', t') && SameRetirements(c', t') && TreasuryRuns(t')
  {
    assert SameBatch(c.batches[id], t.batches[id]);
  }

  lemma RetireSimulates(c: C.Chain, t: Token, call: InventoryCall)
    requires Simulates(c, t) && call.RetireFrom?
    ensures Simulates(AskProvider(c, call).0, AskContract(t, call).0)
  {
    hide Retire, Held, SameBatches, SameRetirements, TreasuryRuns;
    RetireAnswered(c, t, call);
    var (t', answer) := AskContract(t, call);
    var id := call.id;
    if answer.Some? {
      S.RetireChanges(t, t.treasury, id, call.units);
      RetireKeepsTables(c, t, t', id, call.units);
      RetireKeepsHeld(c, t, t', id, call.units);
    }
  }

  lemma RetireKeepsHeld(c: C.Chain, t: Token, t': Token, id: nat, units: nat)
    requires Balanced(c, t) && C.RetireBatch(c, id, units).Ok? && S.Retired(t, t', t.treasury, id, units)
    ensures Balanced(C.RetireBatch(c, id, units).value.0, t')
  {
    hide Held;
    assert Held(c, t, id);
    HeldBalance(c, t, id);
    HeldAfterPut(c, C.RetireBatch(c, id, units).value.0, t, t', id, BalanceOf(t.balances, id, t.treasury) - units);
  }

  lemma HeldBalance(c: C.Chain, t: Token, id: nat)
    requires id in c.batches && Held(c, t, id)
    ensures BalanceOf(t.balances, id, t.treasury) == c.batches[id].totalUnits - c.batches[id].retiredUnits
  {
  }

  /** A step is answered differently exactly when the provider accepts what the contract's extra checks refuse. */
  lemma StepSimulated(c: C.Chain, t: Token, call: InventoryCall)
    requires Simulates(c, t)
    ensures AskProvider(c, call).1 == AskContract(t, call).1 <==> AskProvider(c, call).1.None? || Portable(call)
    ensures AskProvider(c, call).1.None? || Portable(call) ==> Simulates(AskProvider(c, call).0, AskContract(t, call).0)
  {
    hide Simulates;
    if call.Issue? {
      IssueAnswered(c, t, call);
      if Portable(call) {
        IssueSimulates(c, t, call);
      }
    } else {
      RetireAnswered(c, t, call);
      RetireSimulates(c, t, call);
    }
  }

  // ---------------------------------------------------------------- whole runs

  function ProviderRun(c: C.Chain, calls: seq<InventoryCall>): (C.Chain, seq<Answer>) {
    if calls == [] then (c, [])
    else
      var n := |calls| - 1;
      var (before, answers) := ProviderRun(c, calls[..n]);
      var (after, answer) := AskProvider(before, calls[n]);
      (after, answers + [answer])
  }

  function ContractRun(t: Token, calls: seq<InventoryCall>): (Token, seq<Answer>) {
    if calls == [] then (t, [])
    else
      var n := |calls| - 1;
      var (before, answers) := ContractRun(t, calls[..n]);
      var (after, answer) := AskContract(before, calls[n]);
      (after, answers + [answer])
  }

  /** No call that the provider accepts lacks a version string or exceeds the contract's widths. */
  predicate AcceptsOnlyPortable(c: C.Chain, calls: seq<InventoryCall>) {
    calls == [] ||
    var n := |calls| - 1;
    AcceptsOnlyPortable(c, calls[..n])
    && (AskProvider(ProviderRun(c, calls[..n]).0, calls[n]).1.None? || Portable(calls[n]))
  }

  lemma {:induction false} RunLengths(c: C.Chain, t: Token, calls: seq<InventoryCall>)
    ensures |ProviderRun(c, calls).1| == |ContractRun(t, calls).1| == |calls|
  {
    if calls != [] {
      RunLengths(c, t, calls[..|calls| - 1]);
    }
  }

  lemma {:induction false} RunSimulated(c: C.Chain, t: Token, calls: seq<InventoryCall>)
    requires Simulates(c, t)
    ensures ProviderRun(c, calls).1 == ContractRun(t, calls).1 <==> AcceptsOnlyPortable(c, calls)
    ensures AcceptsOnlyPortable(c, calls) ==> Simulates(ProviderRun(c, calls).0, ContractRun(t, calls).0)
  {
    hide Simulates, Portable, AskProvider, AskContract;
    if calls != [] {
      var n := |calls| - 1;
      RunSimulated(c, t, calls[..n]);
      RunLengths(c, t, calls[..n]);
      var (pc, pa) := ProviderRun(c, calls[..n]);
      var (tc, ta) := ContractRun(t, calls[..n]);
      var a, b := AskProvider(pc, calls[n]).1, AskContract(tc, calls[n]).1;
      assert pa + [a] == ta + [b] <==> pa == ta && a == b by {
        assert (pa + [a])[..n] == pa && (ta + [b])[..n] == ta;
        assert (pa + [a])[n] == a && (ta + [b])[n] == b;
      }
      if AcceptsOnlyPortable(c, calls[..n]) {
        StepSimulated(pc, tc, calls[n]);
      }
    }
  }

  /** Equal tables, and the provider's retired units are what the treasury no longer holds. */
  ghost predicate SameInventory(c: C.Chain, t: Token, treasury: Address) {
    && c.byHash == t.byHash && c.batches.Keys == t.batches.Keys && c.retirements.Keys == t.retirements.Keys
    && (forall r | r in c.retirements :: SameRetirement(c.retirements[r], t.retirements[r]))
    && (forall id | id in c.batches ::
          && SameBatch(c.batches[id], t.batches[id])
          && c.batches[id].retiredUnits == t.batches[id].issued - BalanceOf(t.balances, id, treasury))
  }

  /** The deployed contract with receipts attached, ready for the treasury. */
  function Deployed(self: Address, roles: Roles, treasury: Address, minters: set<Address>): Token {
    Deploy(self, roles, treasury, minters).(receiptAttached := true)
  }

  /**
   * From deployment both sides give the same answers and ids exactly as long as accepted issues carry
   * version strings, uint64 periods and a uint256 total, and then their inventories are the same.
   */
  lemma ProviderStandsInForContract(self: Address, roles: Roles, treasury: Address, minters: set<Address>,
                                    calls: seq<InventoryCall>)
    requires treasury != 0 && treasury in roles.registrars && self in minters
    ensures var t0 := Deployed(self, roles, treasury, minters);
            (ProviderRun(C.GENESIS, calls).1 == ContractRun(t0, calls).1 <==> AcceptsOnlyPortable(C.GENESIS, calls))
    ensures var t := ContractRun(Deployed(self, roles, treasury, minters), calls).0;
            AcceptsOnlyPortable(C.GENESIS, calls) ==> SameInventory(ProviderRun(C.GENESIS, calls).0, t, treasury)
  {
    var t0 := Deployed(self, roles, treasury, minters);
    RunSimulated(C.GENESIS, t0, calls);
    TreasuryStays(t0, calls);
    hide ProviderRun, ContractRun, AcceptsOnlyPortable;
    if AcceptsOnlyPortable(C.GENESIS, calls) {
      SimulatedInventory(ProviderRun(C.GENESIS, calls).0, ContractRun(t0, calls).0);
    }
  }

  lemma SimulatedInventory(c: C.Chain, t: Token)
    requires Simulates(c, t)
    ensures SameInventory(c, t, t.treasury)
  {
    forall id | id in c.batches
      ensures c.batches[id].retiredUnits == t.batches[id].issued - BalanceOf(t.balances, id, t.treasury)
    {
      assert Held(c, t, id) && SameBatch(c.batches[id], t.batches[id]);
    }
  }

  lemma {:induction false} TreasuryStays(t: Token, calls: seq<InventoryCall>)
    ensures ContractRun(t, calls).0.treasury == t.treasury
  {
    if calls != [] {
      var n := |calls| - 1;
      TreasuryStays(t, calls[..n]);
      var before := ContractRun(t, calls[..n]).0;
      if AskContract(before, calls[n]).1.Some? {
        match calls[n]
        case Issue(hash, manifest, s, e, units, m, v) =>
          S.IssueChanges(before, before.treasury, hash, manifest, s, e, units, m, v);
        case RetireFrom(id, units) => S.RetireChanges(before, before.treasury, id, units);
      }
    }
  }
}
