/** First in, first out: what a burn takes from which position, and how two burns compose. */
module BurnOrder {
  import opened Collections
  import opened MockChain
  import opened CustodyModel
  import opened CustodyInvariant

  /** What a burn of `q` certificates leaves and takes: the greedy split over the positions in order. */
  datatype Allocation = Allocation(positions: seq<Position>, ids: seq<HecId>, remaining: nat)

  /** How much of `want` a burn takes from position `p`. */
  function Share(p: Position, user: UserId, want: nat): (c: nat)
    ensures c <= p.avail && c <= want
  {
    if Burnable(p, user) then Min(want, p.avail) else 0
  }

  function TakeFrom(p: Position, c: nat): Position
    requires c <= p.avail
  {
    if c == 0 || c > |p.ids| then p else Consume(p, c)
  }

  function Allocate(positions: seq<Position>, user: UserId, q: nat): Allocation {
    if positions == [] then Allocation([], [], q)
    else
      var n := |positions| - 1;
      var front := Allocate(positions[..n], user, q);
      var c := Share(positions[n], user, front.remaining);
      Allocation(front.positions + [TakeFrom(positions[n], c)],
                 front.ids + (if c <= |positions[n].ids| then positions[n].ids[..c] else []),
                 front.remaining - c)
  }

  lemma TakeFromFacts(p: Position, c: nat)
    requires c <= p.avail == |p.ids|
    ensures var r := TakeFrom(p, c);
            && r.user == p.user && r.avail == p.avail - c == |r.ids| && r.ids == p.ids[c..]
            && (c == 0 ==> r == p)
            && (c > 0 ==> r == Consume(p, c) && (r.status == if r.avail == 0 then Exhausted else p.status))
  {
    hide ConsumedEnergy;
  }

  // ---------------------------------------------------------------- the loop computes the allocation

  lemma {:induction false} LoopAppend(st: BurnState, ks: seq<nat>, k: nat)
    ensures BurnLoop(st, ks + [k]) ==
            match BurnLoop(st, ks)
            case Broken(c, e) => Broken(c, e)
            case Done(next) => if next.remaining == 0 then Done(next) else BurnStep(next, k)
    decreases |ks|
  {
    if ks == [] {
      assert [k][1..] == [];
    } else if st.remaining > 0 {
      assert (ks + [k])[0] == ks[0] && (ks + [k])[1..] == ks[1..] + [k];
      match BurnStep(st, ks[0])
      case Broken(_, _) =>
      case Done(next) => LoopAppend(next, ks[1..], k);
    }
  }

  ghost predicate ListsFull(positions: seq<Position>) {
    forall k | 0 <= k < |positions| :: |positions[k].ids| == positions[k].avail
  }

  /** Wherever the loop gets to the end, it has made exactly the greedy allocation, and retired exactly its ids. */
  lemma {:induction false} LoopAllocates(db: Db, chain: Chain, user: UserId, q: nat, m: nat)
    requires m <= |db.positions| && ListsFull(db.positions)
    requires BurnLoop(BurnState(db, chain, q, 0, []), Considered(db.positions[..m], user)).Done?
    ensures var st := BurnLoop(BurnState(db, chain, q, 0, []), Considered(db.positions[..m], user)).st;
            var a := Allocate(db.positions[..m], user, q);
            && st.db.positions == a.positions + db.positions[m..]
            && |a.positions| == m && ListsFull(a.positions)
            && st.remaining == a.remaining && st.ids == a.ids
            && st.db.hecs == UpdateAt(db.hecs, a.ids, SetStatus(Retired))
            && st.db.lots == db.lots
  {
    hide BurnStep, TakeFrom, Register;
    var init := BurnState(db, chain, q, 0, []);
    if m == 0 {
      assert db.positions[..0] == [];
      assert UpdateAt(db.hecs, [], SetStatus(Retired)) == db.hecs;
    } else {
      var n := m - 1;
      var front := db.positions[..n];
      assert db.positions[..m][..n] == front && db.positions[..m][n] == db.positions[n];
      if Burnable(db.positions[n], user) {
        LoopAppend(init, Considered(front, user), n);
      }
      LoopAllocates(db, chain, user, q, n);
      AllocateTurn(db, BurnLoop(init, Considered(front, user)).st, user, q, n);
    }
  }

  /** One turn of the loop is one position of the allocation. */
  lemma AllocateTurn(db: Db, st: BurnState, user: UserId, q: nat, n: nat)
    requires n < |db.positions| && ListsFull(db.positions)
    requires var a := Allocate(db.positions[..n], user, q);
             && st.db.positions == a.positions + db.positions[n..]
             && |a.positions| == n && ListsFull(a.positions)
             && st.remaining == a.remaining && st.ids == a.ids
             && st.db.hecs == UpdateAt(db.hecs, a.ids, SetStatus(Retired))
    ensures db.positions[..n + 1][..n] == db.positions[..n]
    ensures var a := Allocate(db.positions[..n + 1], user, q);
            var turn := if Burnable(db.positions[n], user) && st.remaining > 0 then BurnStep(st, n) else Done(st);
            && |a.positions| == n + 1 && ListsFull(a.positions)
            && (turn.Done? ==>
                  && turn.st.db.positions == a.positions + db.positions[n + 1..]
                  && turn.st.remaining == a.remaining && turn.st.ids == a.ids
                  && turn.st.db.hecs == UpdateAt(db.hecs, a.ids, SetStatus(Retired))
                  && turn.st.db.lots == st.db.lots)
  {
    hide ConsumedEnergy, RetireBatch, TakeFrom;
    var a := Allocate(db.positions[..n], user, q);
    var p := db.positions[n];
    var c := Share(p, user, a.remaining);
    assert db.positions[..n + 1][..n] == db.positions[..n] && st.db.positions[n] == p;
    TakeFromFacts(p, c);
    if c == 0 {
      assert a.ids + p.ids[..0] == a.ids;
      assert a.positions + [p] + db.positions[n + 1..] == a.positions + db.positions[n..];
    } else {
      UpdateTwice(db.hecs, a.ids, p.ids[..c]);
      assert st.db.positions[n := Consume(p, c)] == a.positions + [Consume(p, c)] + db.positions[n + 1..];
    }
  }

  lemma UpdateTwice(hecs: seq<Hec>, a: seq<HecId>, b: seq<HecId>)
    ensures UpdateAt(UpdateAt(hecs, a, SetStatus(Retired)), b, SetStatus(Retired))
         == UpdateAt(hecs, a + b, SetStatus(Retired))
  {
  }

  // ---------------------------------------------------------------- order

  lemma {:induction false} AllocateShape(positions: seq<Position>, user: UserId, q: nat)
    requires ListsFull(positions)
    ensures var a := Allocate(positions, user, q);
            && |a.positions| == |positions| && ListsFull(a.positions)
            && a.remaining + |a.ids| == q
            && (forall k | 0 <= k < |positions| && !Burnable(positions[k], user) :: a.positions[k] == positions[k])
            && (forall k | 0 <= k < |positions| ::
                  a.positions[k].user == positions[k].user && a.positions[k].avail <= positions[k].avail)
            && (a.remaining > 0 ==> forall k | 0 <= k < |positions| :: !Burnable(a.positions[k], user))
  {
    hide TakeFrom;
    if positions != [] {
      var n := |positions| - 1;
      AllocateShape(positions[..n], user, q);
      TakeFromFacts(positions[n], Share(positions[n], user, Allocate(positions[..n], user, q).remaining));
    }
  }

  /**
   * Oldest first: when a burn touches a position, every older position it considered is exhausted.
   * So the considered positions form an exhausted prefix, at most one partial, and an untouched rest.
   */
  lemma {:induction false} OldestFirst(positions: seq<Position>, user: UserId, q: nat, j: nat, k: nat)
    requires ListsFull(positions) && j < k < |positions|
    requires Burnable(positions[j], user) && Burnable(positions[k], user)
    ensures |Allocate(positions, user, q).positions| == |positions|
    ensures var left := Allocate(positions, user, q).positions;
            left[k] != positions[k] ==> left[j].avail == 0 && left[j].status == Exhausted
  {
    var n := |positions| - 1;
    AllocateShape(positions, user, q);
    AllocateShape(positions[..n], user, q);
    if k < n {
      OldestFirst(positions[..n], user, q, j, k);
    } else {
      StatusFollows(positions[..n], user, q, j);
    }
  }

  lemma {:induction false} StatusFollows(positions: seq<Position>, user: UserId, q: nat, j: nat)
    requires ListsFull(positions) && j < |positions| && Burnable(positions[j], user)
    ensures |Allocate(positions, user, q).positions| == |positions|
    ensures var p := Allocate(positions, user, q).positions[j];
            p.user == user && (p.avail == 0 <==> p.status == Exhausted)
  {
    AllocateShape(positions, user, q);
    AllocateShape(positions[..|positions| - 1], user, q);
    if j < |positions| - 1 {
      StatusFollows(positions[..|positions| - 1], user, q, j);
    }
  }

  // ---------------------------------------------------------------- composition

  /** Equal in everything but the rounded remaining energy. */
  ghost predicate SameButEnergy(p: Position, r: Position) {
    p == r.(energyAvail := p.energyAvail)
  }

  /** Burning a and then b takes the same ids in the same order, and leaves the same rows, as burning a + b. */
  lemma {:induction false} AllocateComposes(positions: seq<Position>, user: UserId, a: nat, b: nat)
    requires ListsFull(positions)
    ensures var first := Allocate(positions, user, a);
            var second := Allocate(first.positions, user, b);
            var whole := Allocate(positions, user, a + b);
            && |second.positions| == |whole.positions| == |positions| == |first.positions|
            && (forall k | 0 <= k < |positions| :: SameButEnergy(second.positions[k], whole.positions[k]))
            && first.ids + second.ids == whole.ids
            && first.remaining + second.remaining == whole.remaining
            && (first.remaining > 0 ==> second.ids == [] && second.remaining == b)
  {
    hide Allocate, TakeFrom, Share;
    if positions == [] {
      AllocateNothing(user, a, b);
    } else {
      var n := |positions| - 1;
      var front, p := positions[..n], positions[n];
      AllocateComposes(front, user, a, b);
      AllocateShape(front, user, a);
      var first, whole := Allocate(front, user, a), Allocate(front, user, a + b);
      var second := Allocate(first.positions, user, b);
      SplitShare(p, user, first.remaining, second.remaining);
      var ca := Share(p, user, first.remaining);
      var p' := TakeFrom(p, ca);
      var cb := Share(p', user, second.remaining);
      assert positions == front + [p];
      AllocateLast(front, p, user, a);
      AllocateLast(front, p, user, a + b);
      AllocateLast(first.positions, p', user, b);
      MergeIds(first.ids, p.ids[..ca], second.ids, p'.ids[..cb]);
    }
  }

  lemma AllocateLast(front: seq<Position>, p: Position, user: UserId, q: nat)
    requires |p.ids| == p.avail
    ensures var a := Allocate(front, user, q);
            var c := Share(p, user, a.remaining);
            Allocate(front + [p], user, q)
              == Allocation(a.positions + [TakeFrom(p, c)], a.ids + p.ids[..c], a.remaining - c)
  {
    assert (front + [p])[..|front|] == front;
  }

  lemma AllocateNothing(user: UserId, a: nat, b: nat)
    ensures Allocate([], user, a) == Allocation([], [], a) && Allocate([], user, b) == Allocation([], [], b)
    ensures Allocate([], user, a + b) == Allocation([], [], a + b)
  {
  }

  lemma MergeIds(a: seq<HecId>, x: seq<HecId>, b: seq<HecId>, y: seq<HecId>)
    requires b == [] || x == []
    ensures (a + x) + (b + y) == (a + b) + (x + y)
  {
  }

  /** Two successive shares of one position add up to the share of the sum. */
  lemma SplitShare(p: Position, user: UserId, x: nat, y: nat)
    requires |p.ids| == p.avail
    ensures var ca := Share(p, user, x);
            var p' := TakeFrom(p, ca);
            var cb := Share(p', user, y);
            && Share(p, user, x + y) == ca + cb
            && |p'.ids| == p'.avail == p.avail - ca
            && p'.ids == p.ids[ca..]
            && SameButEnergy(TakeFrom(p', cb), TakeFrom(p, ca + cb))
            && (x > ca ==> cb == 0) && (ca > 0 ==> x > 0)
            && p.ids[..ca] + p'.ids[..cb] == p.ids[..ca + cb]
  {
    hide ConsumedEnergy;
    var ca := Share(p, user, x);
    var p' := TakeFrom(p, ca);
    var cb := Share(p', user, y);
    assert p.ids[ca..][cb..] == p.ids[ca + cb..];
  }

  // ---------------------------------------------------------------- whole burns

  lemma PositionsListFull(db: Db)
    requires PositionsOk(db)
    ensures ListsFull(db.positions)
  {
    forall k | 0 <= k < |db.positions| ensures |db.positions[k].ids| == db.positions[k].avail {
      assert PositionOk(db, k);
    }
  }

  /** A successful burn retires the greedy allocation and certifies exactly its ids. */
  lemma BurnAllocates(db: Db, chain: Chain, user: UserId, q: nat, reason: string, hash: Hash, cid: string)
    requires ListsFull(db.positions) && ExecuteBurn(db, chain, user, q, reason, hash, cid).Success?
    ensures var db' := ExecuteBurn(db, chain, user, q, reason, hash, cid).db;
            var a := Allocate(db.positions, user, q);
            && db'.positions == a.positions && a.remaining == 0 && |a.ids| == q && ListsFull(a.positions)
            && db'.hecs == UpdateAt(db.hecs, a.ids, SetStatus(Retired))
            && db.burns < db'.burns && |db'.burns| == |db.burns| + 1
            && var burn := db'.burns[|db.burns|];
            && burn.ids == a.ids && burn.user == user && burn.hash == hash
            && burn.quantity == q && burn.retiredMhec == 1000 * q
            && user in db.wallets && user in db'.wallets && db'.wallets[user].hec == db.wallets[user].hec - q
            && db'.wallets[user].brl == db.wallets[user].brl
            && db'.wallets[user].energy == db.wallets[user].energy - burn.energy
            && (forall u | u in db.wallets && u != user :: u in db'.wallets && db'.wallets[u] == db.wallets[u])
            && db' == db.(wallets := db'.wallets, burns := db'.burns, positions := db'.positions,
                          hecs := db'.hecs, events := db'.events)
  {
    assert db.positions[..|db.positions|] == db.positions;
    LoopAllocates(db, chain, user, q, |db.positions|);
    AllocateShape(db.positions, user, q);
    LoopFrame(BurnState(db, chain, q, 0, []), Considered(db.positions, user));
  }

  lemma {:induction false} LoopFrame(st: BurnState, ks: seq<nat>)
    requires BurnLoop(st, ks).Done?
    ensures var next := BurnLoop(st, ks).st;
            next.db == st.db.(positions := next.db.positions, hecs := next.db.hecs, events := next.db.events)
    decreases |ks|
  {
    if ks != [] && st.remaining > 0 {
      LoopFrame(BurnStep(st, ks[0]).st, ks[1..]);
    }
  }

  /**
   * Burning a and then b, whatever the chain did in between, retires the same certificates in the
   * same order as burning a + b, and leaves the same certificate rows, positions (energy apart) and
   * certificate balance.
   */
  lemma BurnsCompose(db: Db, chain: Chain, chain1: Chain, user: UserId, a: nat, b: nat, reason: string,
                     hashes: (Hash, Hash, Hash), cid: string)
    requires PositionsOk(db)
    requires ExecuteBurn(db, chain, user, a, reason, hashes.0, cid).Success?
    requires var db1 := ExecuteBurn(db, chain, user, a, reason, hashes.0, cid).db;
             ExecuteBurn(db1, chain1, user, b, reason, hashes.1, cid).Success?
    requires ExecuteBurn(db, chain, user, a + b, reason, hashes.2, cid).Success?
    ensures var db1 := ExecuteBurn(db, chain, user, a, reason, hashes.0, cid).db;
            var db2 := ExecuteBurn(db1, chain1, user, b, reason, hashes.1, cid).db;
            var whole := ExecuteBurn(db, chain, user, a + b, reason, hashes.2, cid).db;
            var n := |db.burns|;
            && |db1.burns| == n + 1 == |whole.burns| && |db2.burns| == n + 2
            && db1.burns[n].ids + db2.burns[n + 1].ids == whole.burns[n].ids
            && db2.hecs == whole.hecs
            && |db2.positions| == |whole.positions|
            && (forall k | 0 <= k < |db2.positions| :: SameButEnergy(db2.positions[k], whole.positions[k]))
            && user in db2.wallets && user in whole.wallets && db2.wallets[user].hec == whole.wallets[user].hec
  {
    hide ExecuteBurn, Allocate, SameButEnergy, PositionsOk;
    PositionsListFull(db);
    var db1 := ExecuteBurn(db, chain, user, a, reason, hashes.0, cid).db;
    BurnAllocates(db, chain, user, a, reason, hashes.0, cid);
    BurnAllocates(db1, chain1, user, b, reason, hashes.1, cid);
    BurnAllocates(db, chain, user, a + b, reason, hashes.2, cid);
    AllocateComposes(db.positions, user, a, b);
    UpdateTwice(db.hecs, Allocate(db.positions, user, a).ids, Allocate(db1.positions, user, b).ids);
  }
}
