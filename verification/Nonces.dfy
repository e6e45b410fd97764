/**
 * The anti-replay nonces. Requests check, stamp, insert and commit in any interleaving, clean-ups run
 * whenever they like, and the clock never goes back. Safety rests on the primary key, not on the check.
 */
module Nonces {
  type Nonce = nat
  type PlantId = nat
  type RequestId = nat

  /** Microseconds. */
  const WINDOW := 60_000_000

  /** A row of `used_nonces`; a row that is not committed is seen by nobody else, but holds the key. */
  datatype Row = Row(plant: PlantId, usedAt: int, owner: RequestId, committed: bool)

  type Table = map<Nonce, Row>

  datatype Phase =
    | Checked(nonce: Nonce, plant: PlantId)
    | Stamped(nonce: Nonce, plant: PlantId, stamp: int)
    | Inserted(nonce: Nonce, plant: PlantId, stamp: int, insertedAt: int)
    | Accepted
    | Refused

  datatype Acceptance = Acceptance(request: RequestId, nonce: Nonce, plant: PlantId, stamp: int, insertedAt: int,
                                   committedAt: int)

  datatype State = State(clock: int, rows: Table, phases: map<RequestId, Phase>, log: seq<Acceptance>)

  /** A cutoff is taken from the clock `lag` before the statement that uses it runs. */
  datatype Step =
    | Tick(elapsed: nat)
    | Check(request: RequestId, nonce: Nonce, plant: PlantId, lag: nat)
    | Stamp(request: RequestId)
    | Insert(request: RequestId)
    | Commit(request: RequestId)
    | Abort(request: RequestId)
    | Cleanup(lag: nat)

  // ---------------------------------------------------------------- the table

  predicate IsReplay(rows: Table, nonce: Nonce, plant: PlantId, cutoff: int) {
    nonce in rows && rows[nonce].committed && rows[nonce].plant == plant && rows[nonce].usedAt >= cutoff
  }

  predicate Expired(row: Row, cutoff: int) {
    row.committed && row.usedAt < cutoff
  }

  function Swept(rows: Table, cutoff: int): Table {
    map n | n in rows && !Expired(rows[n], cutoff) :: rows[n]
  }

  // ---------------------------------------------------------------- the protocol

  function Enter(s: State, request: RequestId, phase: Phase): State {
    s.(phases := s.phases[request := phase])
  }

  function DoCheck(s: State, request: RequestId, nonce: Nonce, plant: PlantId, lag: nat): State {
    if request in s.phases then s
    else Enter(s, request, if IsReplay(s.rows, nonce, plant, s.clock - lag - WINDOW)
                           then Refused else Checked(nonce, plant))
  }

  /** A key held by a committed row refuses the insert; a key held by an open transaction makes it wait. */
  function DoInsert(s: State, request: RequestId, p: Phase): State
    requires p.Stamped?
  {
    if p.nonce !in s.rows then
      Enter(s, request, Inserted(p.nonce, p.plant, p.stamp, s.clock))
        .(rows := s.rows[p.nonce := Row(p.plant, p.stamp, request, false)])
    else if s.rows[p.nonce].committed then Enter(s, request, Refused)
    else s
  }

  function DoCommit(s: State, request: RequestId, p: Phase): State
    requires p.Inserted?
  {
    Enter(s, request, Accepted).(
      rows := s.rows[p.nonce := Row(p.plant, p.stamp, request, true)],
      log := s.log + [Acceptance(request, p.nonce, p.plant, p.stamp, p.insertedAt, s.clock)])
  }

  function Apply(s: State, step: Step): State {
    match step
    case Tick(d) => s.(clock := s.clock + d)
    case Check(request, nonce, plant, lag) => DoCheck(s, request, nonce, plant, lag)
    case Cleanup(lag) => s.(rows := Swept(s.rows, s.clock - lag - WINDOW))
    case _ =>
      if step.request !in s.phases then s
      else
        var p := s.phases[step.request];
        match step
        case Stamp(r) => if p.Checked? then Enter(s, r, Stamped(p.nonce, p.plant, s.clock)) else s
        case Insert(r) => if p.Stamped? then DoInsert(s, r, p) else s
        case Commit(r) => if p.Inserted? then DoCommit(s, r, p) else s
        case Abort(r) =>
          if p.Inserted? then Enter(s, r, Refused).(rows := s.rows - {p.nonce})
          else if p.Checked? || p.Stamped? then Enter(s, r, Refused)
          else s
        case _ => s
  }

  function Run(s: State, steps: seq<Step>): State {
    if steps == [] then s
    else
      var n := |steps| - 1;
      Apply(Run(s, steps[..n]), steps[n])
  }

  function Start(clock: int): State {
    State(clock, map[], map[], [])
  }

  // ---------------------------------------------------------------- the invariant

  /** An accepted nonce is still in the table, or its window is over. */
  ghost predicate Guarded(s: State, e: Acceptance) {
    || (e.nonce in s.rows && s.rows[e.nonce] == Row(e.plant, e.stamp, e.request, true))
    || s.clock > e.stamp + WINDOW
  }

  ghost predicate PhaseOk(s: State, r: RequestId)
    requires r in s.phases
  {
    match s.phases[r]
    case Stamped(n, plant, stamp) => stamp <= s.clock
    case Inserted(n, plant, stamp, at) =>
      && stamp <= at <= s.clock
      && n in s.rows && s.rows[n] == Row(plant, stamp, r, false)
      && (forall e | e in s.log && e.nonce == n :: at > e.stamp + WINDOW)
    case _ => true
  }

  ghost predicate Apart(earlier: Acceptance, later: Acceptance) {
    earlier.nonce == later.nonce ==> later.insertedAt > earlier.stamp + WINDOW
  }

  ghost predicate NonceOk(s: State) {
    && (forall r | r in s.phases :: PhaseOk(s, r))
    && (forall e | e in s.log :: Guarded(s, e) && e.stamp <= e.insertedAt <= e.committedAt <= s.clock)
    && (forall i, j | 0 <= i < j < |s.log| :: Apart(s.log[i], s.log[j]))
  }

  lemma InsertKeepsNonces(s: State, r: RequestId)
    requires NonceOk(s) && r in s.phases && s.phases[r].Stamped?
    ensures NonceOk(DoInsert(s, r, s.phases[r]))
  {
    hide Apart;
    var p := s.phases[r];
    var s' := DoInsert(s, r, p);
    assert PhaseOk(s, r);
    forall e | e in s'.log ensures Guarded(s', e) { assert Guarded(s, e); }
    forall q | q in s'.phases ensures PhaseOk(s', q) {
      if q != r {
        assert PhaseOk(s, q);
      } else if p.nonce !in s.rows {
        forall e | e in s.log && e.nonce == p.nonce ensures s.clock > e.stamp + WINDOW { assert Guarded(s, e); }
      }
    }
  }

  lemma CommitKeepsNonces(s: State, r: RequestId)
    requires NonceOk(s) && r in s.phases && s.phases[r].Inserted?
    ensures NonceOk(DoCommit(s, r, s.phases[r]))
  {
    var p := s.phases[r];
    var s' := DoCommit(s, r, p);
    assert PhaseOk(s, r);
    var last := s'.log[|s.log|];
    forall e | e in s'.log ensures Guarded(s', e) && e.stamp <= e.insertedAt <= e.committedAt <= s'.clock {
      if e != last { assert e in s.log && Guarded(s, e); }
    }
    forall q | q in s'.phases ensures PhaseOk(s', q) {
      if q != r { assert PhaseOk(s, q); }
    }
    forall i, j | 0 <= i < j < |s'.log| ensures Apart(s'.log[i], s'.log[j]) {
      assert s'.log[i] in s.log;
      if j < |s.log| { assert Apart(s.log[i], s.log[j]); }
    }
  }

  lemma AbortKeepsNonces(s: State, r: RequestId)
    requires NonceOk(s)
    ensures NonceOk(Apply(s, Abort(r)))
  {
    hide Apart;
    var s' := Apply(s, Abort(r));
    forall e | e in s'.log ensures Guarded(s', e) {
      assert Guarded(s, e);
      if r in s.phases { assert PhaseOk(s, r); }
    }
    forall q | q in s'.phases ensures PhaseOk(s', q) {
      if q != r { assert PhaseOk(s, q); assert r in s.phases ==> PhaseOk(s, r); }
    }
  }

  lemma CleanupKeepsNonces(s: State, lag: nat)
    requires NonceOk(s)
    ensures NonceOk(Apply(s, Cleanup(lag)))
  {
    hide Apart;
    var s' := Apply(s, Cleanup(lag));
    forall e | e in s'.log ensures Guarded(s', e) { assert Guarded(s, e); }
    forall q | q in s'.phases ensures PhaseOk(s', q) { assert PhaseOk(s, q); }
  }

  lemma StepKeepsNonces(s: State, step: Step)
    requires NonceOk(s)
    ensures NonceOk(Apply(s, step))
  {
    match step
    case Cleanup(lag) => CleanupKeepsNonces(s, lag);
    case Abort(r) => AbortKeepsNonces(s, r);
    case Insert(r) => if r in s.phases && s.phases[r].Stamped? { InsertKeepsNonces(s, r); }
    case Commit(r) => if r in s.phases && s.phases[r].Inserted? { CommitKeepsNonces(s, r); }
    case _ =>
      hide Apart;
      var s' := Apply(s, step);
      forall e | e in s'.log ensures Guarded(s', e) { assert Guarded(s, e); }
      forall q | q in s'.phases ensures PhaseOk(s', q) { if q in s.phases { assert PhaseOk(s, q); } }
  }

  lemma {:induction false} RunKeepsNonces(s: State, steps: seq<Step>)
    requires NonceOk(s)
    ensures NonceOk(Run(s, steps))
  {
    if steps != [] {
      var n := |steps| - 1;
      RunKeepsNonces(s, steps[..n]);
      StepKeepsNonces(Run(s, steps[..n]), steps[n]);
    }
  }

  // ---------------------------------------------------------------- safety

  /**
   * However requests and clean-ups interleave, of two accepted requests with one nonce the later one
   * wrote its row more than 60 s after the earlier one took its time stamp. Between the insertions, and
   * between the acceptances, the delay of the earlier one is missing from the 60 s.
   */
  lemma NonceReuseIsLate(clock: int, steps: seq<Step>, i: nat, j: nat)
    requires i < j < |Run(Start(clock), steps).log|
    requires Run(Start(clock), steps).log[i].nonce == Run(Start(clock), steps).log[j].nonce
    ensures var log := Run(Start(clock), steps).log;
            && log[j].insertedAt > log[i].stamp + 60_000_000
            && log[j].insertedAt - log[i].insertedAt > 60_000_000 - (log[i].insertedAt - log[i].stamp)
            && log[j].committedAt - log[i].committedAt > 60_000_000 - (log[i].committedAt - log[i].stamp)
  {
    RunKeepsNonces(Start(clock), steps);
    var log := Run(Start(clock), steps).log;
    assert log[j] in log && Apart(log[i], log[j]);
  }

  /** Requests that stamp and insert in one instant, as the statements stand side by side in the source. */
  predicate Prompt(log: seq<Acceptance>) {
    forall e | e in log :: e.insertedAt == e.stamp
  }

  /** Prompt requests with one nonce are more than 60 s apart, by stamp and by insertion. */
  lemma PromptRequestsAreApart(clock: int, steps: seq<Step>, i: nat, j: nat)
    requires Prompt(Run(Start(clock), steps).log)
    requires i < j < |Run(Start(clock), steps).log|
    requires Run(Start(clock), steps).log[i].nonce == Run(Start(clock), steps).log[j].nonce
    ensures var log := Run(Start(clock), steps).log;
            log[j].stamp - log[i].stamp > 60_000_000 && log[j].insertedAt - log[i].insertedAt > 60_000_000
  {
    NonceReuseIsLate(clock, steps, i, j);
    var log := Run(Start(clock), steps).log;
    assert log[i] in log && log[j] in log;
  }

  /** Requests, clean-up and acceptance of `request` at the first instant the nonce is free again. */
  function Reuse(wait: nat, request: RequestId, nonce: Nonce, plant: PlantId): seq<Step> {
    [Tick(wait)] + [Cleanup(0)] + [Check(request, nonce, plant, 0)] + [Stamp(request)]
    + [Insert(request)] + [Commit(request)]
  }

  lemma RunNext(s: State, steps: seq<Step>, step: Step)
    ensures Run(s, steps + [step]) == Apply(Run(s, steps), step)
  {
    assert (steps + [step])[..|steps|] == steps;
  }

  /** A fresh request that checks, stamps and inserts at once. */
  function Attempt(s: State, request: RequestId, nonce: Nonce, plant: PlantId): State {
    Apply(Apply(Apply(s, Check(request, nonce, plant, 0)), Stamp(request)), Insert(request))
  }

  lemma RunReuse(s: State, wait: nat, r: RequestId, n: Nonce, plant: PlantId)
    ensures Run(s, Reuse(wait, r, n, plant))
         == Apply(Attempt(Apply(Apply(s, Tick(wait)), Cleanup(0)), r, n, plant), Commit(r))
  {
    var one := [Tick(wait)];
    assert one == [] + [Tick(wait)];
    RunNext(s, [], Tick(wait));
    RunNext(s, one, Cleanup(0));
    var two := one + [Cleanup(0)];
    RunNext(s, two, Check(r, n, plant, 0));
    var three := two + [Check(r, n, plant, 0)];
    RunNext(s, three, Stamp(r));
    RunNext(s, three + [Stamp(r)], Insert(r));
    RunNext(s, three + [Stamp(r)] + [Insert(r)], Commit(r));
  }

  /** A request number that has not been used. */
  lemma {:induction false} FreshRequest(used: set<RequestId>) returns (r: RequestId)
    ensures r !in used && forall q | q in used :: q < r
    decreases |used|
  {
    if used == {} {
      r := 0;
    } else {
      var q :| q in used;
      var r' := FreshRequest(used - {q});
      r := if q < r' then r' else q + 1;
      forall p | p in used ensures p < r {
        assert p == q || p in used - {q};
      }
    }
  }

  /** A whole request in one go. */
  function Whole(r: RequestId, nonce: Nonce, plant: PlantId): seq<Step> {
    [Check(r, nonce, plant, 0)] + [Stamp(r)] + [Insert(r)] + [Commit(r)]
  }

  lemma RunWhole(s: State, r: RequestId, nonce: Nonce, plant: PlantId)
    ensures Run(s, Whole(r, nonce, plant)) == Apply(Attempt(s, r, nonce, plant), Commit(r))
  {
    var one: seq<Step> := [Check(r, nonce, plant, 0)];
    assert one == [] + [Check(r, nonce, plant, 0)];
    RunNext(s, [], Check(r, nonce, plant, 0));
    RunNext(s, one, Stamp(r));
    RunNext(s, one + [Stamp(r)], Insert(r));
    RunNext(s, one + [Stamp(r)] + [Insert(r)], Commit(r));
  }

  /**
   * The bound is exact: a waiting fresh request for a nonce that is in the table gets it exactly when
   * the clock is past the stamp by more than 60 s, for any plant.
   */
  lemma ReuseExactlyAfterWindow(s: State, wait: nat, request: RequestId, nonce: Nonce, plant: PlantId)
    requires nonce in s.rows && s.rows[nonce].committed && request !in s.phases
    ensures var s' := Run(s, Reuse(wait, request, nonce, plant));
            var now := s.clock + wait;
            if now > s.rows[nonce].usedAt + 60_000_000
            then s'.log == s.log + [Acceptance(request, nonce, plant, now, now, now)]
            else s'.log == s.log
  {
    RunReuse(s, wait, request, nonce, plant);
  }

  /** A request delayed between its stamp and its insert: both it and a second one are accepted in the same instant. */
  lemma DelayedInsertDefeatsTheWindow()
    ensures var first := [Check(1, 7, 5, 0)] + [Stamp(1)] + [Tick(WINDOW + 1)] + [Insert(1)] + [Commit(1)];
            var s := Run(Run(Start(0), first), Reuse(0, 2, 7, 5));
            && |s.log| == 2 && s.log[0].nonce == s.log[1].nonce && s.log[0].plant == s.log[1].plant
            && s.log[0].insertedAt == s.log[1].insertedAt
  {
    var first := [Check(1, 7, 5, 0)] + [Stamp(1)] + [Tick(WINDOW + 1)] + [Insert(1)] + [Commit(1)];
    var one: seq<Step> := [Check(1, 7, 5, 0)];
    assert one == [] + [Check(1, 7, 5, 0)];
    RunNext(Start(0), [], Check(1, 7, 5, 0));
    RunNext(Start(0), one, Stamp(1));
    RunNext(Start(0), one + [Stamp(1)], Tick(WINDOW + 1));
    RunNext(Start(0), one + [Stamp(1)] + [Tick(WINDOW + 1)], Insert(1));
    RunNext(Start(0), one + [Stamp(1)] + [Tick(WINDOW + 1)] + [Insert(1)], Commit(1));
    var s := Run(Start(0), first);
    assert s.rows[7] == Row(5, 0, 1, true);
    ReuseExactlyAfterWindow(s, 0, 2, 7, 5);
  }

  lemma {:induction false} LogGrows(s: State, steps: seq<Step>)
    ensures s.log <= Run(s, steps).log
  {
    if steps != [] {
      LogGrows(s, steps[..|steps| - 1]);
    }
  }

  // ---------------------------------------------------------------- checks and clean-ups

  /** A clean-up changes the answer of a check exactly when a matching row lies between the two cutoffs. */
  lemma CleanupChangesCheckExactly(rows: Table, nonce: Nonce, plant: PlantId, swept: int, checked: int)
    ensures IsReplay(Swept(rows, swept), nonce, plant, checked) == IsReplay(rows, nonce, plant, checked)
            <==> !(IsReplay(rows, nonce, plant, checked) && rows[nonce].usedAt < swept)
  {
  }

  /**
   * The check filters by plant and by age, the key does neither: a request that passes the check is
   * refused at its insert exactly when some plant's row with that nonce is still in the table.
   */
  lemma CheckedInsertSucceedsExactly(s: State, request: RequestId, nonce: Nonce, plant: PlantId)
    requires request !in s.phases && !IsReplay(s.rows, nonce, plant, s.clock - 60_000_000)
    ensures request in Attempt(s, request, nonce, plant).phases
    ensures Attempt(s, request, nonce, plant).phases[request].Inserted? <==> nonce !in s.rows
  {
  }

  lemma UsedOnce()
    ensures Run(Start(0), Whole(1, 7, 5))
         == State(0, map[7 := Row(5, 0, 1, true)], map[1 := Accepted], [Acceptance(1, 7, 5, 0, 0, 0)])
  {
    RunWhole(Start(0), 1, 7, 5);
  }

  lemma CheckedLater(s: State, wait: nat)
    requires s == State(0, map[7 := Row(5, 0, 1, true)], map[1 := Accepted], [Acceptance(1, 7, 5, 0, 0, 0)])
    ensures var later := Apply(s, Tick(wait));
            && Apply(later, Check(2, 7, 5, 0)).phases
               == map[1 := Accepted, 2 := if wait <= 60_000_000 then Refused else Checked(7, 5)]
            && (7 in Apply(later, Cleanup(0)).rows <==> wait <= 60_000_000)
  {
  }

  /** The window is sixty seconds: at its end a check still reports a replay, a microsecond later it does not. */
  lemma WindowIsSixtySeconds()
    ensures var (atTheEnd, after) := (Run(Start(0), Whole(1, 7, 5) + [Tick(60_000_000)]),
                                      Run(Start(0), Whole(1, 7, 5) + [Tick(60_000_001)]));
            && Apply(atTheEnd, Check(2, 7, 5, 0)).phases == map[1 := Accepted, 2 := Refused]
            && Apply(after, Check(2, 7, 5, 0)).phases == map[1 := Accepted, 2 := Checked(7, 5)]
            && 7 in Apply(atTheEnd, Cleanup(0)).rows && 7 !in Apply(after, Cleanup(0)).rows
  {
    UsedOnce();
    RunNext(Start(0), Whole(1, 7, 5), Tick(60_000_000));
    RunNext(Start(0), Whole(1, 7, 5), Tick(60_000_001));
    var s := Run(Start(0), Whole(1, 7, 5));
    hide Run, Apply, Whole;
    CheckedLater(s, 60_000_000);
    CheckedLater(s, 60_000_001);
  }

  /** A plant's nonce is used by another plant at the same instant: the check passes, the insert is refused. */
  lemma CheckedRequestIsRefused()
    ensures var s := Run(Start(0), Whole(1, 7, 5));
            && !IsReplay(s.rows, 7, 6, s.clock - 60_000_000)
            && Attempt(s, 2, 7, 6).phases == map[1 := Accepted, 2 := Refused]
  {
    RunWhole(Start(0), 1, 7, 5);
  }

  // ---------------------------------------------------------------- the session's view

  /** The table as one session changes it, each call being its own transaction. */
  class NonceStore {
    var rows: Table

    constructor ()
      ensures rows == map[]
    {
      rows := map[];
    }

    method CheckNonceReplay(nonce: Nonce, plant: PlantId, now: int) returns (replay: bool)
      ensures replay == IsReplay(rows, nonce, plant, now - WINDOW)
      ensures replay <==> && nonce in rows && rows[nonce].committed && rows[nonce].plant == plant
                          && now - rows[nonce].usedAt <= 60_000_000
    {
      var cutoff := now - WINDOW;
      if nonce in rows {
        var row := rows[nonce];
        return row.committed && row.plant == plant && row.usedAt >= cutoff;
      }
      return false;
    }

    /** False is the integrity error of a key that is taken, whoever holds it. */
    method RegisterNonce(nonce: Nonce, plant: PlantId, request: RequestId, now: int) returns (ok: bool)
      modifies this
      ensures ok <==> nonce !in old(rows)
      ensures rows == if ok then old(rows)[nonce := Row(plant, now, request, true)] else old(rows)
      ensures ok ==> forall cutoff :: IsReplay(rows, nonce, plant, cutoff) <==> cutoff <= now
    {
      if nonce in rows {
        return false;
      }
      rows := rows[nonce := Row(plant, now, request, true)];
      return true;
    }

    method CleanupExpiredNonces(now: int) returns (removed: nat)
      modifies this
      ensures rows == Swept(old(rows), now - WINDOW)
      ensures removed + |rows| == |old(rows)|
      ensures forall n | n in rows :: n in old(rows) && rows[n] == old(rows)[n]
      ensures forall n | n in old(rows) ::
                n !in rows <==> old(rows)[n].committed && now - old(rows)[n].usedAt > 60_000_000
    {
      var cutoff := now - WINDOW;
      var expired := set n | n in rows && Expired(rows[n], cutoff);
      removed := |expired|;
      assert rows.Keys - expired == (rows - expired).Keys;
      assert rows - expired == Swept(rows, cutoff);
      rows := rows - expired;
    }
  }
}
