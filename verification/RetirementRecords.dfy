/** Every unit the chain has retired is accounted for: by a retirement event, or by a burn that was rolled back. */
module RetirementRecords {
  import opened Collections
  import opened MockChain
  import opened CustodyModel
  import opened CustodyInvariant
  import opened CustodyRuns

  predicate Named(events: seq<RetirementEvent>, r: nat) {
    exists i | 0 <= i < |events| :: events[i].retirement == r
  }

  /** Units of batch `id` in the records below `next` that events name, or that none does. */
  function UnitsOf(retirements: map<nat, Retirement>, events: seq<RetirementEvent>, next: nat, id: nat,
                   named: bool): int
  {
    if next <= 1 then 0
    else
      var r := next - 1;
      UnitsOf(retirements, events, r, id, named)
      + if r in retirements && retirements[r].batch == id && Named(events, r) == named then retirements[r].amount else 0
  }

  /** What a rolled-back burn has left on the chain: records that no event names. */
  function UnnamedUnits(chain: Chain, events: seq<RetirementEvent>, id: nat): int {
    UnitsOf(chain.retirements, events, chain.nextRetirement, id, false)
  }

  lemma {:induction false} RecordsSplit(m: map<nat, Retirement>, events: seq<RetirementEvent>, next: nat, id: nat)
    ensures RecordedUnits(m, next, id) == UnitsOf(m, events, next, id, true) + UnitsOf(m, events, next, id, false)
  {
    if next > 1 {
      RecordsSplit(m, events, next - 1, id);
    }
  }

  function UnitsInBatch(id: nat): RetirementEvent -> int {
    (e: RetirementEvent) => if e.batch == id then UNIT_SCALE * e.amount else 0
  }

  /** Each event names a record of its own, with its batch and units. */
  ghost predicate OwnRecords(m: map<nat, Retirement>, next: nat, events: seq<RetirementEvent>) {
    && (forall i | 0 <= i < |events| ::
          && 1 <= events[i].retirement < next && events[i].retirement in m
          && m[events[i].retirement].batch == events[i].batch
          && m[events[i].retirement].amount == UNIT_SCALE * events[i].amount)
    && (forall i, j | 0 <= i < j < |events| :: events[i].retirement != events[j].retirement)
  }

  lemma {:induction false} NobodyNames(m: map<nat, Retirement>, next: nat, id: nat)
    ensures UnitsOf(m, [], next, id, true) == 0
  {
    if next > 1 {
      NobodyNames(m, next - 1, id);
    }
  }

  /** One event more names one record more. */
  lemma {:induction false} NamesOneMore(m: map<nat, Retirement>, events: seq<RetirementEvent>, e: RetirementEvent,
                                        next: nat, id: nat)
    requires !Named(events, e.retirement) && e.retirement >= 1
    ensures UnitsOf(m, events + [e], next, id, true)
         == UnitsOf(m, events, next, id, true)
            + if e.retirement < next && e.retirement in m && m[e.retirement].batch == id
              then m[e.retirement].amount else 0
  {
    if next > 1 {
      NamesOneMore(m, events, e, next - 1, id);
      NamedAppend(events, e, next - 1);
    }
  }

  lemma NamedAppend(events: seq<RetirementEvent>, e: RetirementEvent, r: nat)
    ensures Named(events + [e], r) <==> Named(events, r) || e.retirement == r
  {
    if Named(events, r) {
      var i :| 0 <= i < |events| && events[i].retirement == r;
      assert (events + [e])[i].retirement == r;
    }
    assert (events + [e])[|events|] == e;
  }

  lemma {:induction false} NamedUnitsAddUp(m: map<nat, Retirement>, next: nat, events: seq<RetirementEvent>, id: nat)
    requires OwnRecords(m, next, events)
    ensures UnitsOf(m, events, next, id, true) == Sum(events, UnitsInBatch(id))
  {
    if events == [] {
      NobodyNames(m, next, id);
    } else {
      var n := |events| - 1;
      var front, e := events[..n], events[n];
      NamedUnitsAddUp(m, next, front, id);
      assert events == front + [e];
      NamesOneMore(m, front, e, next, id);
    }
  }

  // ---------------------------------------------------------------- events and positions

  function DrawnBelow(n: nat, lot: nat): RetirementEvent -> int {
    (e: RetirementEvent) => if e.position < n && e.lot == lot then e.amount else 0
  }

  function DrawnAt(k: nat, lot: nat): RetirementEvent -> int {
    (e: RetirementEvent) => if e.position == k && e.lot == lot then e.amount else 0
  }

  /** What positions say was retired out of a lot is what the events drawn from them say. */
  lemma {:induction false} RetiredByEvents(db: Db, chain: Chain, n: nat, lot: nat)
    requires PositionsOk(db) && EventsOk(db, chain) && n <= |db.positions|
    ensures Sum(db.positions[..n], RetiredIn(lot)) == Sum(db.events, DrawnBelow(n, lot))
  {
    if n == 0 {
      SumZero(db.events, DrawnBelow(0, lot));
    } else {
      var k := n - 1;
      RetiredByEvents(db, chain, k, lot);
      assert db.positions[..n][..k] == db.positions[..k];
      SumAdd(db.events, DrawnBelow(n, lot), DrawnBelow(k, lot), DrawnAt(k, lot));
      RetiredAt(db, chain, k, lot);
    }
  }

  lemma RetiredAt(db: Db, chain: Chain, k: nat, lot: nat)
    requires PositionsOk(db) && EventsOk(db, chain) && k < |db.positions|
    ensures Sum(db.events, DrawnAt(k, lot)) == RetiredIn(lot)(db.positions[k])
  {
    assert PositionOk(db, k);
    assert forall i | 0 <= i < |db.events| :: EventOk(db, chain, db.events[i]);
    if db.positions[k].lot == lot {
      SumEqual(db.events, db.events, DrawnAt(k, lot), AmountDrawn(k));
    } else {
      SumZero(db.events, DrawnAt(k, lot));
    }
  }

  lemma LotUnitsByEvents(db: Db, chain: Chain, l: nat)
    requires PositionsOk(db) && EventsOk(db, chain) && LotsOk(db, chain) && l < |db.lots|
    ensures Sum(db.events, UnitsInBatch(db.lots[l].batch)) == UNIT_SCALE * Sum(db.positions, RetiredIn(l))
  {
    var n := |db.positions|;
    RetiredByEvents(db, chain, n, l);
    assert db.positions[..n] == db.positions;
    hide Sum;
    forall i | 0 <= i < |db.events|
      ensures UnitsInBatch(db.lots[l].batch)(db.events[i]) == UNIT_SCALE * DrawnBelow(n, l)(db.events[i])
    {
      assert EventOk(db, chain, db.events[i]);
    }
    SumScaled(db.events, UnitsInBatch(db.lots[l].batch), DrawnBelow(n, l), UNIT_SCALE);
  }

  lemma {:induction false} SumScaled<T>(s: seq<T>, f: T -> int, g: T -> int, c: int)
    requires forall i | 0 <= i < |s| :: f(s[i]) == c * g(s[i])
    ensures Sum(s, f) == c * Sum(s, g)
  {
    if s != [] {
      SumScaled(s[..|s| - 1], f, g, c);
    }
  }

  // ---------------------------------------------------------------- the account

  lemma EventsOwnRecords(db: Db, chain: Chain)
    requires EventsOk(db, chain) && ChainOk(chain)
    ensures OwnRecords(chain.retirements, chain.nextRetirement, db.events)
  {
    forall i | 0 <= i < |db.events|
      ensures 1 <= db.events[i].retirement < chain.nextRetirement && db.events[i].retirement in chain.retirements
      ensures chain.retirements[db.events[i].retirement].batch == db.events[i].batch
      ensures chain.retirements[db.events[i].retirement].amount == UNIT_SCALE * db.events[i].amount
    {
      assert EventOk(db, chain, db.events[i]);
    }
  }

  /** A lot's retired units: a thousand for every certificate its positions retired, and the unnamed records. */
  ghost predicate Accounted(w: World, l: nat)
    requires l < |w.db.lots|
  {
    var id := w.db.lots[l].batch;
    && id in w.chain.batches
    && w.chain.batches[id].retiredUnits
       == 1000 * Sum(w.db.positions, RetiredIn(l)) + UnnamedUnits(w.chain, w.db.events, id)
    && (w.clean ==> UnnamedUnits(w.chain, w.db.events, id) == 0)
  }

  /** In every reachable state the chain is ahead of a lot's positions by exactly the records no event names. */
  lemma ExcessIsUnnamed(ops: seq<Op>)
    ensures forall l | 0 <= l < |Run(ops).db.lots| :: Accounted(Run(ops), l)
  {
    hide Run, Sum, RecordedUnits, UnitsOf, PositionsOk, EventsOk, LotsOk;
    ReachableInvariant(ops);
    var w := Run(ops);
    EventsOwnRecords(w.db, w.chain);
    ChainAndLedgerAgree(ops);
    forall l | 0 <= l < |w.db.lots| ensures Accounted(w, l) {
      var id := w.db.lots[l].batch;
      assert LotBacked(w, l);
      RecordsSplit(w.chain.retirements, w.db.events, w.chain.nextRetirement, id);
      NamedUnitsAddUp(w.chain.retirements, w.chain.nextRetirement, w.db.events, id);
      LotUnitsByEvents(w.db, w.chain, l);
    }
  }
}
