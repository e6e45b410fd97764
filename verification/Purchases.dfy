/** Splitting a purchase: the same certificates, and a bounded difference in price. */
module Purchases {
  import opened Collections
  import opened Rounding
  import opened CustodyModel
  import opened CustodyInvariant
  import opened TradeSteps

  // ---------------------------------------------------------------- price

  /** What is paid when certificates are bought in parts, and when they are bought at once. */
  function PaidInParts(hecs: seq<Hec>, parts: seq<seq<HecId>>, unit: nat): nat {
    if parts == [] then 0
    else PaidInParts(hecs, parts[..|parts| - 1], unit) + Price(unit, EnergyOf(hecs, parts[|parts| - 1]))
  }

  function Together(parts: seq<seq<HecId>>): seq<HecId> {
    if parts == [] then [] else Together(parts[..|parts| - 1]) + parts[|parts| - 1]
  }

  /** The price of m parts is within m/2 centavos of exact. */
  lemma {:induction false} PartsNearExact(hecs: seq<Hec>, parts: seq<seq<HecId>>, unit: nat)
    ensures 2 * Abs(PaidInParts(hecs, parts, unit) * 1000000 - unit * EnergyOf(hecs, Together(parts)))
         <= |parts| * 1000000
  {
    if parts == [] {
      assert EnergyOf(hecs, []) == 0;
    } else {
      var front, last := parts[..|parts| - 1], parts[|parts| - 1];
      PartsNearExact(hecs, front, unit);
      EnergyOfConcat(hecs, Together(front), last);
      RoundHalfUpNearest(unit * EnergyOf(hecs, last), PRICE_SCALE);
      Distribute(unit, EnergyOf(hecs, Together(front)), EnergyOf(hecs, last));
    }
  }

  lemma Distribute(a: int, b: int, c: int)
    ensures a * (b + c) == a * b + a * c
  {
  }

  /** Buying in m parts instead of at once changes the total by at most (m + 1) / 2 centavos. */
  lemma SplittingChangesLittle(hecs: seq<Hec>, parts: seq<seq<HecId>>, unit: nat)
    ensures 2 * Abs(PaidInParts(hecs, parts, unit) - Price(unit, EnergyOf(hecs, Together(parts)))) <= |parts| + 1
  {
    hide PaidInParts, Together, EnergyOf;
    PartsNearExact(hecs, parts, unit);
    RoundHalfUpNearest(unit * EnergyOf(hecs, Together(parts)), PRICE_SCALE);
  }

  // ---------------------------------------------------------------- selection

  lemma {:induction false} SelectionComposes(hecs: seq<Hec>, lot: nat, a: nat, b: nat)
    ensures var first := FirstCustodied(hecs, lot, a);
            var second := FirstCustodied(UpdateAt(hecs, first, SetStatus(Allocated)), lot, b);
            && first + second == FirstCustodied(hecs, lot, a + b)
            && (|first| < a ==> second == [])
  {
    if hecs != [] {
      var n := |hecs| - 1;
      var front := hecs[..n];
      SelectionComposes(front, lot, a, b);
      var before := FirstCustodied(front, lot, a);
      var first := FirstCustodied(hecs, lot, a);
      FirstCustodiedOk(front, lot, a);
      var marked := UpdateAt(hecs, first, SetStatus(Allocated));
      assert n !in before;
      assert forall i | 0 <= i < n :: i in first <==> i in before;
      assert marked[..n] == UpdateAt(front, before, SetStatus(Allocated));
    }
  }

  lemma SelectedInRange(a: seq<Hec>, b: seq<Hec>, lot: nat, limit: nat)
    requires |a| == |b|
    ensures forall i | i in FirstCustodied(b, lot, limit) :: i < |a|
  {
    FirstCustodiedOk(b, lot, limit);
  }

  lemma SameMarks(hecs: seq<Hec>, a: seq<HecId>, b: seq<HecId>)
    ensures UpdateAt(UpdateAt(hecs, a, SetStatus(Allocated)), b, SetStatus(Allocated))
         == UpdateAt(hecs, a + b, SetStatus(Allocated))
  {
  }

  // ---------------------------------------------------------------- any number of purchases

  /** Purchases one after the other; the first that fails ends them. */
  function BuyAll(db: Db, buyer: UserId, lot: nat, quantities: seq<int>): Result<Db, Failure> {
    if quantities == [] then Ok(db)
    else
      match BuyAll(db, buyer, lot, quantities[..|quantities| - 1])
      case Err(e) => Err(e)
      case Ok(before) => Buy(before, buyer, lot, quantities[|quantities| - 1])
  }

  /** The id lists of the transactions numbered from `n` on. */
  function IdLists(db: Db, n: nat): seq<seq<HecId>>
    requires n <= |db.transactions|
  {
    seq(|db.transactions| - n, i requires 0 <= i < |db.transactions| - n => db.transactions[n + i].ids)
  }

  function Left(l: Lot, sold: nat): Lot
    requires sold <= l.avail
  {
    l.(avail := l.avail - sold, status := if sold > 0 && l.avail == sold then Closed else l.status)
  }

  ghost predicate CanStart(db: Db, buyer: UserId, lot: nat) {
    && buyer in db.wallets && lot < |db.lots| && db.lots[lot].price.Some? && db.lots[lot].price.value > 0
    && db.lots[lot].status == Open && db.lots[lot].inventory == Issued && db.lots[lot].batch != 0
    && buyer in db.users && db.users[buyer]
  }

  /** The wallet after certificates `ids` have been paid for in `parts`. */
  function Paid(w: Wallet, hecs: seq<Hec>, ids: seq<HecId>, parts: seq<seq<HecId>>, unit: nat): Wallet {
    Wallet(w.brl - PaidInParts(hecs, parts, unit), w.hec + |ids|, w.energy + EnergyOf(hecs, ids))
  }

  /** What purchases of `total` certificates in all, `ids` in `parts`, have done to the tables. */
  ghost predicate Tables(db: Db, db': Db, buyer: UserId, lot: nat, ids: seq<HecId>, parts: seq<seq<HecId>>)
    requires buyer in db.wallets && lot < |db.lots| && db.lots[lot].price.Some? && db.lots[lot].price.value > 0
  {
    && |ids| <= db.lots[lot].avail
    && db'.hecs == UpdateAt(db.hecs, ids, SetStatus(Allocated))
    && db'.lots == db.lots[lot := Left(db.lots[lot], |ids|)]
    && db'.wallets == db.wallets[buyer := Paid(db.wallets[buyer], db.hecs, ids, parts, db.lots[lot].price.value)]
    && |db.transactions| <= |db'.transactions| && IdLists(db', |db.transactions|) == parts
  }

  /** Purchases of `total` certificates in m goes. */
  ghost predicate BoughtInAll(db: Db, db': Db, buyer: UserId, lot: nat, m: nat, total: int)
    requires CanStart(db, buyer, lot)
  {
    && total >= 0 && |db'.transactions| == |db.transactions| + m
    && var ids, parts := FirstCustodied(db.hecs, lot, total), IdLists(db', |db.transactions|);
    && |ids| == total && Together(parts) == ids && Tables(db, db', buyer, lot, ids, parts)
  }

  lemma {:induction false} FirstOneStarts(db: Db, buyer: UserId, lot: nat, quantities: seq<int>)
    requires quantities != [] && BuyAll(db, buyer, lot, quantities).Ok?
    ensures CanStart(db, buyer, lot)
  {
    if |quantities| > 1 {
      FirstOneStarts(db, buyer, lot, quantities[..|quantities| - 1]);
    }
  }

  lemma NothingBought(db: Db, buyer: UserId, lot: nat)
    requires CanStart(db, buyer, lot)
    ensures BoughtInAll(db, db, buyer, lot, 0, 0)
  {
    NoneSelected(db.hecs, lot);
    hide FirstCustodied;
    assert IdLists(db, |db.transactions|) == [];
    assert UpdateAt(db.hecs, [], SetStatus(Allocated)) == db.hecs;
    assert EnergyOf(db.hecs, []) == 0;
  }

  lemma {:induction false} NoneSelected(hecs: seq<Hec>, lot: nat)
    ensures FirstCustodied(hecs, lot, 0) == []
  {
    if hecs != [] {
      NoneSelected(hecs[..|hecs| - 1], lot);
    }
  }

  lemma BuyChanges(db: Db, buyer: UserId, lot: nat, q: int)
    ensures var r := Buy(db, buyer, lot, q);
            r.Ok? ==>
              && CanStart(db, buyer, lot) && q > 0
              && var ids := FirstCustodied(db.hecs, lot, q);
              && |ids| == q && Tables(db, r.value, buyer, lot, ids, [ids])
              && |r.value.transactions| == |db.transactions| + 1
              && r.value.transactions[..|db.transactions|] == db.transactions
  {
    if Buy(db, buyer, lot, q).Ok? {
      BuyIsSettle(db, buyer, lot, q);
      var db', ids := Buy(db, buyer, lot, q).value, FirstCustodied(db.hecs, lot, q);
      OnePart(db.hecs, ids, db.lots[lot].price.value);
      hide EnergyOf, Price, FirstCustodied, UpdateAt, PaidInParts;
      assert IdLists(db', |db.transactions|) == [ids];
    }
  }

  lemma OnePart(hecs: seq<Hec>, ids: seq<HecId>, unit: nat)
    ensures PaidInParts(hecs, [ids], unit) == Price(unit, EnergyOf(hecs, ids)) && Together([ids]) == ids
  {
    assert [ids][..0] == [];
    assert [] + ids == ids;
  }

  /** The rows and the lot after one more purchase. */
  lemma MoreTables(db: Db, before: Db, after: Db, buyer: UserId, lot: nat, first: seq<HecId>, second: seq<HecId>,
                   parts: seq<seq<HecId>>)
    requires buyer in db.wallets && lot < |db.lots| && db.lots[lot].price.Some? && db.lots[lot].price.value > 0
    requires buyer in before.wallets && lot < |before.lots| && before.lots[lot].price == db.lots[lot].price
    requires Tables(db, before, buyer, lot, first, parts) && Tables(before, after, buyer, lot, second, [second])
    requires before.transactions <= after.transactions
    requires forall i | i in second :: i < |db.hecs|
    ensures Tables(db, after, buyer, lot, first + second, parts + [second])
  {
    hide EnergyOf, Price, PaidInParts;
    assert Tables(db, before, buyer, lot, first, parts);
    SameMarks(db.hecs, first, second);
    EnergyOfFrame(db.hecs, before.hecs, second);
    EnergyOfConcat(db.hecs, first, second);
    PartsAppend(db.hecs, parts, second, db.lots[lot].price.value);
    OnePart(before.hecs, second, db.lots[lot].price.value);
    hide UpdateAt;
    assert IdLists(after, |db.transactions|) == parts + [second];
  }

  /** One purchase more. */
  lemma OneMore(db: Db, before: Db, buyer: UserId, lot: nat, m: nat, total: int, q: int)
    requires CanStart(db, buyer, lot) && BoughtInAll(db, before, buyer, lot, m, total) && Buy(before, buyer, lot, q).Ok?
    ensures BoughtInAll(db, Buy(before, buyer, lot, q).value, buyer, lot, m + 1, total + q)
  {
    assert |before.hecs| == |db.hecs|;
    hide Buy, EnergyOf, Price, FirstCustodied, PaidInParts, Together, UpdateAt;
    var after := Buy(before, buyer, lot, q).value;
    BuyChanges(before, buyer, lot, q);
    var first, second := FirstCustodied(db.hecs, lot, total), FirstCustodied(before.hecs, lot, q);
    var parts := IdLists(before, |db.transactions|);
    SelectionComposes(db.hecs, lot, total, q);
    SelectedInRange(db.hecs, before.hecs, lot, q);
    MoreTables(db, before, after, buyer, lot, first, second, parts);
    PartsAppend(db.hecs, parts, second, db.lots[lot].price.value);
    hide Tables, IdLists;
  }

  lemma PartsAppend(hecs: seq<Hec>, parts: seq<seq<HecId>>, last: seq<HecId>, unit: nat)
    ensures Together(parts + [last]) == Together(parts) + last
    ensures PaidInParts(hecs, parts + [last], unit)
            == PaidInParts(hecs, parts, unit) + Price(unit, EnergyOf(hecs, last))
  {
    hide EnergyOf, Price;
    assert (parts + [last])[..|parts|] == parts;
  }

  lemma {:induction false} BuyAllBuys(db: Db, buyer: UserId, lot: nat, quantities: seq<int>)
    requires CanStart(db, buyer, lot) && BuyAll(db, buyer, lot, quantities).Ok?
    ensures BoughtInAll(db, BuyAll(db, buyer, lot, quantities).value, buyer, lot, |quantities|, Total(quantities))
    ensures quantities != [] ==> Total(quantities) > 0
  {
    hide Buy, BoughtInAll, CanStart;
    if quantities == [] {
      NothingBought(db, buyer, lot);
    } else {
      var front, q := quantities[..|quantities| - 1], quantities[|quantities| - 1];
      BuyAllBuys(db, buyer, lot, front);
      var before := BuyAll(db, buyer, lot, front).value;
      BuyChanges(before, buyer, lot, q);
      OneMore(db, before, buyer, lot, |front|, Total(front), q);
    }
  }

  /** Once what a purchase needs is there, only the money decides. */
  lemma OnlyMoneyDecides(db: Db, buyer: UserId, lot: nat, q: int)
    requires CanStart(db, buyer, lot) && 0 < q <= db.lots[lot].avail && |FirstCustodied(db.hecs, lot, q)| == q
    ensures Buy(db, buyer, lot, q).Ok? || Buy(db, buyer, lot, q) == Err(InsufficientFunds)
  {
    hide FirstCustodied, EnergyOf, Price;
  }

  /** The same certificates, bought in `parts` and at once. */
  ghost predicate SameButPrice(db: Db, many: Db, one: Db, buyer: UserId, m: nat) {
    var n := |db.transactions|;
    && |many.transactions| == n + m && |one.transactions| == n + 1
    && Together(IdLists(many, n)) == one.transactions[n].ids
    && many.hecs == one.hecs && many.lots == one.lots
    && buyer in many.wallets && buyer in one.wallets
    && many.wallets[buyer].hec == one.wallets[buyer].hec && many.wallets[buyer].energy == one.wallets[buyer].energy
    && 2 * Abs(many.wallets[buyer].brl - one.wallets[buyer].brl) <= m + 1
  }

  lemma SameTables(db: Db, many: Db, one: Db, buyer: UserId, lot: nat, ids: seq<HecId>, parts: seq<seq<HecId>>)
    requires buyer in db.wallets && lot < |db.lots| && db.lots[lot].price.Some? && db.lots[lot].price.value > 0
    requires Tables(db, many, buyer, lot, ids, parts) && Tables(db, one, buyer, lot, ids, [ids])
             && Together(parts) == ids
    ensures SameButPrice(db, many, one, buyer, |parts|)
  {
    hide EnergyOf, Price, PaidInParts, Together, UpdateAt;
    OnePart(db.hecs, ids, db.lots[lot].price.value);
    SplittingChangesLittle(db.hecs, parts, db.lots[lot].price.value);
    assert IdLists(one, |db.transactions|)[0] == ids;
  }

  /**
   * m purchases against one: if they all go through, the single purchase of their sum does too, unless
   * rounding makes it too dear for the wallet. It takes the same certificates in the same order and leaves
   * the same certificate rows, lot and balances of certificates and energy, and the money differs by at
   * most (m + 1) / 2 centavos.
   */
  lemma ManyPurchasesAreOne(db: Db, buyer: UserId, lot: nat, quantities: seq<int>)
    requires quantities != [] && BuyAll(db, buyer, lot, quantities).Ok?
    ensures var one := Buy(db, buyer, lot, Total(quantities));
            && (one.Ok? || one == Err(InsufficientFunds))
            && (one.Ok? ==> SameButPrice(db, BuyAll(db, buyer, lot, quantities).value, one.value, buyer, |quantities|))
  {
    hide Buy, EnergyOf, FirstCustodied, Together, BuyAll, Total, SameButPrice, UpdateAt;
    FirstOneStarts(db, buyer, lot, quantities);
    BuyAllBuys(db, buyer, lot, quantities);
    var many, total := BuyAll(db, buyer, lot, quantities).value, Total(quantities);
    OnlyMoneyDecides(db, buyer, lot, total);
    if Buy(db, buyer, lot, total).Ok? {
      BuyChanges(db, buyer, lot, total);
      SameTables(db, many, Buy(db, buyer, lot, total).value, buyer, lot, FirstCustodied(db.hecs, lot, total),
                 IdLists(many, |db.transactions|));
    }
  }

  /** The case of two: where rounding does not make the one too dear, the money differs by at most a centavo. */
  lemma PurchasesCompose(db: Db, buyer: UserId, lot: nat, a: int, b: int)
    requires Buy(db, buyer, lot, a).Ok? && Buy(Buy(db, buyer, lot, a).value, buyer, lot, b).Ok?
    ensures var two, one := Buy(Buy(db, buyer, lot, a).value, buyer, lot, b).value, Buy(db, buyer, lot, a + b);
            && (one.Ok? || one == Err(InsufficientFunds))
            && (one.Ok? ==> SameButPrice(db, two, one.value, buyer, 2)
                            && Abs(two.wallets[buyer].brl - one.value.wallets[buyer].brl) <= 1)
  {
    hide Buy, IdLists, Together;
    var quantities := [a, b];
    assert quantities[..1] == [a] && [a][..0] == [];
    assert BuyAll(db, buyer, lot, [a]) == Buy(db, buyer, lot, a) && Total([a]) == a;
    ManyPurchasesAreOne(db, buyer, lot, quantities);
  }
}
