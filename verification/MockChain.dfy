/**
 * The in-memory blockchain provider: a certificate registry and an inventory of lot batches.
 * `Chain` is the abstract value of the provider; `MockBlockchainProvider` is the object.
 */
module MockChain {
  import opened Collections

  /** SHA-256 digests; 0 stands for the empty and the all-zero digest, which the provider refuses. */
  type Hash = nat

  /** Transaction hashes are derived from the block number, which grows by one with every call. */
  type TxHash = nat

  const UNIT_SCALE := 1000

  datatype ChainError =
    | ZeroHash | EmptyCid | AlreadyRegistered
    | AlreadyIssued | EmptyManifest | BadUnits | BadPeriod
    | BatchNotFound | BadAmount | InsufficientUnits

  datatype Batch = Batch(
    hash: Hash, manifest: string, periodStart: int, periodEnd: int,
    totalUnits: int, retiredUnits: int, methodology: string, schema: string)

  datatype Retirement = Retirement(batch: nat, amount: int, receipt: nat)

  datatype Chain = Chain(
    registry: map<Hash, string>,
    byHash: map<Hash, nat>,
    batches: map<nat, Batch>,
    retirements: map<nat, Retirement>,
    nextBatch: nat,
    nextRetirement: nat,
    nextReceipt: nat,
    block: nat)

  const GENESIS := Chain(map[], map[], map[], map[], 1, 1, 1, 50000000)

  function Register(c: Chain, hash: Hash, cid: string): Result<(Chain, TxHash), ChainError> {
    if hash == 0 then Err(ZeroHash)
    else if cid == "" then Err(EmptyCid)
    else if hash in c.registry then Err(AlreadyRegistered)
    else Ok((c.(registry := c.registry[hash := cid], block := c.block + 1), c.block + 1))
  }

  function IssueBatch(c: Chain, hash: Hash, manifest: string, periodStart: int, periodEnd: int,
                      units: int, methodology: string, schema: string): Result<(Chain, nat), ChainError> {
    if hash == 0 then Err(ZeroHash)
    else if hash in c.byHash then Err(AlreadyIssued)
    else if manifest == "" then Err(EmptyManifest)
    else if units <= 0 then Err(BadUnits)
    else if periodEnd < periodStart then Err(BadPeriod)
    else
      var id := c.nextBatch;
      var batch := Batch(hash, manifest, periodStart, periodEnd, units, 0, methodology, schema);
      Ok((c.(byHash := c.byHash[hash := id], batches := c.batches[id := batch],
             nextBatch := id + 1, block := c.block + 1), id))
  }

  function RetireBatch(c: Chain, id: nat, units: int): Result<(Chain, nat), ChainError> {
    if id !in c.batches then Err(BatchNotFound)
    else if units <= 0 then Err(BadAmount)
    else
      var batch := c.batches[id];
      if batch.retiredUnits + units > batch.totalUnits then Err(InsufficientUnits)
      else
        var record := Retirement(id, units, c.nextReceipt);
        Ok((c.(batches := c.batches[id := batch.(retiredUnits := batch.retiredUnits + units)],
               retirements := c.retirements[c.nextRetirement := record],
               nextRetirement := c.nextRetirement + 1, nextReceipt := c.nextReceipt + 1,
               block := c.block + 1),
            c.nextRetirement))
  }

  /** Units recorded by the retirements numbered below `next` against batch `id`. */
  function RecordedUnits(retirements: map<nat, Retirement>, next: nat, id: nat): int {
    if next <= 1 then 0
    else RecordedUnits(retirements, next - 1, id)
         + if next - 1 in retirements && retirements[next - 1].batch == id then retirements[next - 1].amount else 0
  }

  /** What every call keeps: dense ids, an exact hash index, and totals that match the retirement records. */
  ghost predicate ChainOk(c: Chain) {
    && c.nextBatch >= 1 && c.nextRetirement >= 1 && c.nextReceipt == c.nextRetirement
    && (forall id :: id in c.batches <==> 1 <= id < c.nextBatch)
    && (forall r :: r in c.retirements <==> 1 <= r < c.nextRetirement)
    && (forall r | r in c.retirements :: c.retirements[r].batch in c.batches && c.retirements[r].amount > 0
                                         && c.retirements[r].receipt == r)
    && (forall h | h in c.byHash :: c.byHash[h] in c.batches && c.batches[c.byHash[h]].hash == h)
    && (forall id | id in c.batches :: c.batches[id].hash in c.byHash && c.byHash[c.batches[id].hash] == id)
    && (forall id | id in c.batches ::
          && 0 <= c.batches[id].retiredUnits <= c.batches[id].totalUnits
          && c.batches[id].retiredUnits == RecordedUnits(c.retirements, c.nextRetirement, id))
  }

  lemma {:induction false} RecordedUnitsFrame(m: map<nat, Retirement>, next: nat, id: nat, k: nat, r: Retirement)
    requires k >= next
    ensures RecordedUnits(m[k := r], next, id) == RecordedUnits(m, next, id)
  {
    if next > 1 {
      RecordedUnitsFrame(m, next - 1, id, k, r);
    }
  }

  lemma {:induction false} RecordedUnitsAbsent(m: map<nat, Retirement>, next: nat, id: nat)
    requires forall r | r in m :: m[r].batch != id
    ensures RecordedUnits(m, next, id) == 0
  {
    if next > 1 {
      RecordedUnitsAbsent(m, next - 1, id);
    }
  }

  lemma IssueKeepsChain(c: Chain, hash: Hash, manifest: string, s: int, e: int, units: int, mv: string, sv: string)
    requires ChainOk(c)
    ensures var r := IssueBatch(c, hash, manifest, s, e, units, mv, sv);
            r.Ok? ==> ChainOk(r.value.0)
  {
    var r := IssueBatch(c, hash, manifest, s, e, units, mv, sv);
    if r.Ok? {
      RecordedUnitsAbsent(c.retirements, c.nextRetirement, c.nextBatch);
    }
  }

  lemma RetireKeepsChain(c: Chain, id: nat, units: int)
    requires ChainOk(c)
    ensures var r := RetireBatch(c, id, units);
            r.Ok? ==> ChainOk(r.value.0)
  {
    var r := RetireBatch(c, id, units);
    if r.Ok? {
      var c' := r.value.0;
      forall b | b in c'.batches
        ensures c'.batches[b].retiredUnits == RecordedUnits(c'.retirements, c'.nextRetirement, b)
      {
        RecordedUnitsFrame(c.retirements, c.nextRetirement, b, c.nextRetirement, c'.retirements[c.nextRetirement]);
      }
    }
  }

  /** Everything a registry lookup reports is what was registered under that hash, and only that. */
  lemma RegisterThenVerify(c: Chain, hash: Hash, cid: string, probe: Hash)
    ensures var r := Register(c, hash, cid);
            && (r.Ok? <==> hash != 0 && cid != "" && hash !in c.registry)
            && (r.Ok? ==> Lookup(r.value.0, probe) == if probe == hash then Some(cid) else Lookup(c, probe))
            && (r.Ok? ==> r.value.1 == r.value.0.block == c.block + 1)
            && (r.Ok? ==> r.value.0 == c.(registry := r.value.0.registry, block := r.value.0.block))
  {
  }

  /** When a batch is issued, what is recorded of it, and that nothing else of the inventory changes. */
  lemma IssueBatchExactly(c: Chain, hash: Hash, manifest: string, s: int, e: int, units: int, mv: string, sv: string)
    ensures var r := IssueBatch(c, hash, manifest, s, e, units, mv, sv);
            && (r.Ok? <==> hash != 0 && hash !in c.byHash && manifest != "" && units > 0 && s <= e)
            && (r.Ok? ==>
                  && r.value.1 == c.nextBatch
                  && r.value.0 == c.(byHash := c.byHash[hash := c.nextBatch],
                                     batches := c.batches[c.nextBatch := Batch(hash, manifest, s, e, units, 0, mv, sv)],
                                     nextBatch := c.nextBatch + 1, block := c.block + 1))
  {
  }

  /** When units are retired, the record that is kept of it, and that nothing else changes. */
  lemma RetireBatchExactly(c: Chain, id: nat, units: int)
    ensures var r := RetireBatch(c, id, units);
            && (r.Ok? <==> id in c.batches
                           && 0 < units <= c.batches[id].totalUnits - c.batches[id].retiredUnits)
            && (r.Ok? ==>
                  && r.value.1 == c.nextRetirement
                  && r.value.0.retirements == c.retirements[c.nextRetirement := Retirement(id, units, c.nextReceipt)]
                  && id in r.value.0.batches
                  && r.value.0.batches[id].retiredUnits == c.batches[id].retiredUnits + units
                  && (forall b | b in c.batches && b != id ::
                        b in r.value.0.batches && r.value.0.batches[b] == c.batches[b])
                  && r.value.0 == c.(batches := r.value.0.batches, retirements := r.value.0.retirements,
                                     nextRetirement := c.nextRetirement + 1, nextReceipt := c.nextReceipt + 1,
                                     block := c.block + 1))
  {
  }

  function Lookup(c: Chain, hash: Hash): Option<string> {
    if hash in c.registry then Some(c.registry[hash]) else None
  }

  class MockBlockchainProvider {
    var registry: map<Hash, string>
    var byHash: map<Hash, nat>
    var batches: map<nat, Batch>
    var retirements: map<nat, Retirement>
    var nextBatch: nat
    var nextRetirement: nat
    var nextReceipt: nat
    var block: nat

    ghost function State(): Chain
      reads this
    {
      Chain(registry, byHash, batches, retirements, nextBatch, nextRetirement, nextReceipt, block)
    }

    constructor ()
      ensures State() == GENESIS && ChainOk(State())
    {
      registry, byHash, batches, retirements := map[], map[], map[], map[];
      nextBatch, nextRetirement, nextReceipt, block := 1, 1, 1, 50000000;
    }

    method RegisterCertificate(hash: Hash, cid: string) returns (r: Result<TxHash, ChainError>)
      modifies this
      ensures match Register(old(State()), hash, cid)
              case Ok(done) => r == Ok(done.1) && State() == done.0
              case Err(error) => r == Err(error) && State() == old(State())
    {
      if hash == 0 {
        return Err(ZeroHash);
      }
      if cid == "" {
        return Err(EmptyCid);
      }
      if hash in registry {
        return Err(AlreadyRegistered);
      }
      block := block + 1;
      registry := registry[hash := cid];
      return Ok(block);
    }

    method Verify(hash: Hash) returns (cid: Option<string>)
      ensures cid == Lookup(State(), hash)
    {
      if hash in registry {
        return Some(registry[hash]);
      }
      return None;
    }

    method IssueInventoryBatch(hash: Hash, manifest: string, periodStart: int, periodEnd: int,
                               units: int, methodology: string, schema: string)
      returns (r: Result<nat, ChainError>)
      modifies this
      ensures old(ChainOk(State())) ==> ChainOk(State())
      ensures match IssueBatch(old(State()), hash, manifest, periodStart, periodEnd, units, methodology, schema)
              case Ok(done) => r == Ok(done.1) && State() == done.0
              case Err(error) => r == Err(error) && State() == old(State())
    {
      hide ChainOk, RecordedUnits;
      ghost var before := State();
      if hash == 0 {
        return Err(ZeroHash);
      }
      if hash in byHash {
        return Err(AlreadyIssued);
      }
      if manifest == "" {
        return Err(EmptyManifest);
      }
      if units <= 0 {
        return Err(BadUnits);
      }
      if periodEnd < periodStart {
        return Err(BadPeriod);
      }
      block := block + 1;
      var id := nextBatch;
      nextBatch := nextBatch + 1;
      byHash := byHash[hash := id];
      batches := batches[id := Batch(hash, manifest, periodStart, periodEnd, units, 0, methodology, schema)];
      if ChainOk(before) {
        IssueKeepsChain(before, hash, manifest, periodStart, periodEnd, units, methodology, schema);
      }
      return Ok(id);
    }

    method RetireInventoryBatch(id: nat, units: int) returns (r: Result<nat, ChainError>)
      modifies this
      ensures old(ChainOk(State())) ==> ChainOk(State())
      ensures match RetireBatch(old(State()), id, units)
              case Ok(done) => r == Ok(done.1) && State() == done.0
              case Err(error) => r == Err(error) && State() == old(State())
    {
      hide ChainOk, RecordedUnits;
      ghost var before := State();
      if id !in batches {
        return Err(BatchNotFound);
      }
      if units <= 0 {
        return Err(BadAmount);
      }
      var batch := batches[id];
      if batch.retiredUnits + units > batch.totalUnits {
        return Err(InsufficientUnits);
      }
      block := block + 1;
      var retirement, receipt := nextRetirement, nextReceipt;
      nextRetirement, nextReceipt := nextRetirement + 1, nextReceipt + 1;
      batches := batches[id := batch.(retiredUnits := batch.retiredUnits + units)];
      retirements := retirements[retirement := Retirement(id, units, receipt)];
      if ChainOk(before) {
        RetireKeepsChain(before, id, units);
      }
      return Ok(retirement);
    }
  }
}
