/**
 * What a clean-up changes for the checks that come after it. Two runs take the same steps, one of them
 * after a clean-up: their answers about a nonce are compared.
 */
module NonceCleanup {
  import opened Nonces

  /** The run with the clean-up in front. */
  function Cleaned(s: State, lag: nat): State {
    Apply(s, Cleanup(lag))
  }

  function SweepCutoff(s: State, lag: nat): int {
    s.clock - lag - WINDOW
  }

  /** Whether the clean-up removes the nonce's row. */
  predicate IsSwept(s: State, lag: nat, nonce: Nonce) {
    nonce in s.rows && Expired(s.rows[nonce], SweepCutoff(s, lag))
  }

  /**
   * After the steps, checks of the nonce answer alike with and without the clean-up, for any plant and
   * later cutoff.
   */
  ghost predicate Agree(s: State, lag: nat, steps: seq<Step>, nonce: Nonce) {
    forall plant, cutoff | cutoff >= SweepCutoff(s, lag) ::
      IsReplay(Run(Cleaned(s, lag), steps).rows, nonce, plant, cutoff)
      == IsReplay(Run(s, steps).rows, nonce, plant, cutoff)
  }

  // ---------------------------------------------------------------- the answer is in the log

  /** A request for the nonce of that plant has been accepted since, with a stamp not before the cutoff. */
  ghost predicate AcceptedSince(before: State, after: State, nonce: Nonce, plant: PlantId, cutoff: int) {
    exists j | |before.log| <= j < |after.log| ::
      after.log[j].nonce == nonce && after.log[j].plant == plant && after.log[j].stamp >= cutoff
  }

  /** No clean-up among the steps sweeps past the cutoff; so it is for every check that is not stale. */
  predicate NotPast(s: State, steps: seq<Step>, cutoff: int) {
    steps == [] ||
    var front := Run(s, steps[..|steps| - 1]);
    && NotPast(s, steps[..|steps| - 1], cutoff)
    && (steps[|steps| - 1].Cleanup? ==> front.clock - steps[|steps| - 1].lag - WINDOW <= cutoff)
  }

  lemma {:induction false} FreshCheckIsNotPast(s: State, steps: seq<Step>)
    ensures NotPast(s, steps, Run(s, steps).clock - WINDOW) && s.clock <= Run(s, steps).clock
  {
    if steps != [] {
      var front := steps[..|steps| - 1];
      FreshCheckIsNotPast(s, front);
      NotPastLater(s, front, Run(s, front).clock - WINDOW, Run(s, steps).clock - WINDOW);
    }
  }

  lemma {:induction false} NotPastLater(s: State, steps: seq<Step>, cutoff: int, later: int)
    requires NotPast(s, steps, cutoff) && cutoff <= later
    ensures NotPast(s, steps, later)
  {
    if steps != [] {
      NotPastLater(s, steps[..|steps| - 1], cutoff, later);
    }
  }

  lemma StepAnswers(s: State, step: Step, nonce: Nonce, plant: PlantId, cutoff: int)
    requires NonceOk(s) && (step.Cleanup? ==> s.clock - step.lag - WINDOW <= cutoff)
    ensures var s' := Apply(s, step);
            && s.log <= s'.log
            && (IsReplay(s'.rows, nonce, plant, cutoff)
                <==> IsReplay(s.rows, nonce, plant, cutoff) || AcceptedSince(s, s', nonce, plant, cutoff))
  {
    var s' := Apply(s, step);
    if step.Commit? && step.request in s.phases && s.phases[step.request].Inserted? {
      assert PhaseOk(s, step.request);
      assert s'.log[|s.log|] == Acceptance(step.request, s.phases[step.request].nonce, s.phases[step.request].plant,
                                           s.phases[step.request].stamp, s.phases[step.request].insertedAt, s.clock);
    } else {
      assert s'.log == s.log;
      if step.Abort? && step.request in s.phases { assert PhaseOk(s, step.request); }
    }
  }

  /** A check that is not stale reports what was in the table and what was accepted since, and nothing else. */
  lemma {:induction false} AnswerIsInLog(s: State, steps: seq<Step>, nonce: Nonce, plant: PlantId, cutoff: int)
    requires NonceOk(s) && NotPast(s, steps, cutoff)
    ensures IsReplay(Run(s, steps).rows, nonce, plant, cutoff)
            <==> IsReplay(s.rows, nonce, plant, cutoff) || AcceptedSince(s, Run(s, steps), nonce, plant, cutoff)
  {
    if steps != [] {
      var front, last := steps[..|steps| - 1], steps[|steps| - 1];
      var before, after := Run(s, front), Run(s, steps);
      AnswerIsInLog(s, front, nonce, plant, cutoff);
      RunKeepsNonces(s, front);
      LogGrows(s, front);
      StepAnswers(before, last, nonce, plant, cutoff);
      SinceSplits(s, before, after, nonce, plant, cutoff);
    }
  }

  /** At the time of the check: it reports what was in the table and is recent, and what was accepted since and is. */
  lemma FreshAnswerIsInLog(s: State, steps: seq<Step>, nonce: Nonce, plant: PlantId)
    requires NonceOk(s)
    ensures var after := Run(s, steps);
            var cutoff := after.clock - 60_000_000;
            IsReplay(after.rows, nonce, plant, cutoff)
            <==> IsReplay(s.rows, nonce, plant, cutoff) || AcceptedSince(s, after, nonce, plant, cutoff)
  {
    FreshCheckIsNotPast(s, steps);
    AnswerIsInLog(s, steps, nonce, plant, Run(s, steps).clock - WINDOW);
  }

  lemma SinceSplits(a: State, b: State, c: State, nonce: Nonce, plant: PlantId, cutoff: int)
    requires a.log <= b.log <= c.log
    ensures AcceptedSince(a, c, nonce, plant, cutoff)
            <==> AcceptedSince(a, b, nonce, plant, cutoff) || AcceptedSince(b, c, nonce, plant, cutoff)
  {
    if AcceptedSince(a, b, nonce, plant, cutoff) {
      var j :| |a.log| <= j < |b.log| && b.log[j].nonce == nonce && b.log[j].plant == plant && b.log[j].stamp >= cutoff;
      assert c.log[j] == b.log[j];
    }
    if AcceptedSince(a, c, nonce, plant, cutoff) && !AcceptedSince(b, c, nonce, plant, cutoff) {
      var j :| |a.log| <= j < |c.log| && c.log[j].nonce == nonce && c.log[j].plant == plant && c.log[j].stamp >= cutoff;
      assert j < |b.log| && b.log[j] == c.log[j];
    }
  }

  lemma StepClock(s: State, step: Step)
    ensures Apply(s, step).clock == s.clock + if step.Tick? then step.elapsed else 0
  {
  }

  lemma {:induction false} SameClock(a: State, b: State, steps: seq<Step>, cutoff: int)
    requires a.clock == b.clock
    ensures Run(a, steps).clock == Run(b, steps).clock
    ensures NotPast(a, steps, cutoff) <==> NotPast(b, steps, cutoff)
  {
    hide Apply;
    if steps != [] {
      var front, last := steps[..|steps| - 1], steps[|steps| - 1];
      SameClock(a, b, front, cutoff);
      StepClock(Run(a, front), last);
      StepClock(Run(b, front), last);
    }
  }

  /**
   * For all steps: a check that is not stale answers alike in both runs exactly when the row that it
   * matches was there from the start, or both runs have accepted such a request, or neither has.
   */
  lemma AnswersAgreeExactly(s: State, lag: nat, steps: seq<Step>, nonce: Nonce, plant: PlantId, cutoff: int)
    requires NonceOk(s) && cutoff >= SweepCutoff(s, lag) && NotPast(s, steps, cutoff)
    ensures IsReplay(Run(Cleaned(s, lag), steps).rows, nonce, plant, cutoff)
            == IsReplay(Run(s, steps).rows, nonce, plant, cutoff)
            <==> (|| IsReplay(s.rows, nonce, plant, cutoff)
                  || (AcceptedSince(s, Run(Cleaned(s, lag), steps), nonce, plant, cutoff)
                      <==> AcceptedSince(s, Run(s, steps), nonce, plant, cutoff)))
  {
    CleanupKeepsNonces(s, lag);
    SameClock(s, Cleaned(s, lag), steps, cutoff);
    AnswerIsInLog(s, steps, nonce, plant, cutoff);
    AnswerIsInLog(Cleaned(s, lag), steps, nonce, plant, cutoff);
    CleanupChangesCheckExactly(s.rows, nonce, plant, SweepCutoff(s, lag), cutoff);
  }

  /** The check that comes after the steps: it answers alike in both runs exactly under the same condition. */
  lemma FreshAnswersAgreeExactly(s: State, lag: nat, steps: seq<Step>, nonce: Nonce, plant: PlantId)
    requires NonceOk(s)
    ensures var (swept, kept) := (Run(Cleaned(s, lag), steps), Run(s, steps));
            var cutoff := kept.clock - 60_000_000;
            && swept.clock == kept.clock
            && (IsReplay(swept.rows, nonce, plant, cutoff) == IsReplay(kept.rows, nonce, plant, cutoff)
                <==> (|| IsReplay(s.rows, nonce, plant, cutoff)
                      || (AcceptedSince(s, swept, nonce, plant, cutoff)
                          <==> AcceptedSince(s, kept, nonce, plant, cutoff))))
  {
    FreshCheckIsNotPast(s, steps);
    SameClock(s, Cleaned(s, lag), steps, Run(s, steps).clock - WINDOW);
    AnswersAgreeExactly(s, lag, steps, nonce, plant, Run(s, steps).clock - WINDOW);
  }

  // ---------------------------------------------------------------- a nonce whose row is not swept

  predicate About(p: Phase, nonce: Nonce) {
    (p.Checked? || p.Stamped? || p.Inserted?) && p.nonce == nonce
  }

  predicate SamePhase(p: Phase, q: Phase, nonce: Nonce) {
    About(p, nonce) || About(q, nonce) ==> p == q
  }

  /** Two states that a nonce cannot tell apart. */
  ghost predicate SameFor(a: State, b: State, nonce: Nonce) {
    && a.clock == b.clock && a.phases.Keys == b.phases.Keys
    && (nonce in a.rows <==> nonce in b.rows) && (nonce in a.rows ==> a.rows[nonce] == b.rows[nonce])
    && (forall r | r in a.phases :: SamePhase(a.phases[r], b.phases[r], nonce))
  }

  /** A state in which at most the phase of `r` and the row of another nonce have changed. */
  ghost predicate OnlyRequest(a: State, a': State, r: RequestId, nonce: Nonce) {
    && a'.clock == a.clock && a'.phases.Keys == a.phases.Keys + {r}
    && (nonce in a'.rows <==> nonce in a.rows) && (nonce in a.rows ==> a'.rows[nonce] == a.rows[nonce])
    && (forall q | q in a.phases && q != r :: a'.phases[q] == a.phases[q])
    && !About(a'.phases[r], nonce)
  }

  /** A step of a request that is not about the nonce leaves what the nonce sees. */
  lemma ForeignStep(a: State, step: Step, r: RequestId, nonce: Nonce)
    requires r in a.phases && !About(a.phases[r], nonce)
    requires step in [Stamp(r), Insert(r), Commit(r), Abort(r)]
    ensures OnlyRequest(a, Apply(a, step), r, nonce)
  {
  }

  lemma ForeignSteps(a: State, a': State, b: State, b': State, r: RequestId, nonce: Nonce)
    requires SameFor(a, b, nonce) && OnlyRequest(a, a', r, nonce) && OnlyRequest(b, b', r, nonce)
    ensures SameFor(a', b', nonce)
  {
  }

  /** A step of a request about the nonce is the same step in both. */
  lemma OwnStep(a: State, b: State, step: Step, r: RequestId, nonce: Nonce)
    requires SameFor(a, b, nonce) && r in a.phases && About(a.phases[r], nonce)
    requires step in [Stamp(r), Insert(r), Commit(r), Abort(r)]
    ensures SameFor(Apply(a, step), Apply(b, step), nonce)
  {
    assert SamePhase(a.phases[r], b.phases[r], nonce);
    assert a.phases[r] == b.phases[r];
  }

  lemma StepSameFor(a: State, b: State, step: Step, nonce: Nonce)
    requires SameFor(a, b, nonce)
    ensures SameFor(Apply(a, step), Apply(b, step), nonce)
  {
    match step
    case Tick(_) =>
    case Cleanup(_) =>
    case Check(r, n, _, _) =>
    case _ =>
      var r := step.request;
      if r in a.phases {
        assert SamePhase(a.phases[r], b.phases[r], nonce);
        if About(a.phases[r], nonce) {
          OwnStep(a, b, step, r, nonce);
        } else {
          hide Apply;
          ForeignStep(a, step, r, nonce);
          ForeignStep(b, step, r, nonce);
          ForeignSteps(a, Apply(a, step), b, Apply(b, step), r, nonce);
        }
      }
  }

  lemma {:induction false} RunSameFor(a: State, b: State, steps: seq<Step>, nonce: Nonce)
    requires SameFor(a, b, nonce)
    ensures SameFor(Run(a, steps), Run(b, steps), nonce)
  {
    if steps != [] {
      var front := steps[..|steps| - 1];
      RunSameFor(a, b, front, nonce);
      StepSameFor(Run(a, front), Run(b, front), steps[|steps| - 1], nonce);
    }
  }

  // ---------------------------------------------------------------- a nonce that nobody inserts

  /** Among the steps, no request for the nonce gets to its insert. */
  ghost predicate NoInsert(s: State, steps: seq<Step>, nonce: Nonce) {
    steps == [] ||
    var front, last := Run(s, steps[..|steps| - 1]), steps[|steps| - 1];
    && NoInsert(s, steps[..|steps| - 1], nonce)
    && !(last.Insert? && last.request in front.phases && front.phases[last.request].Stamped?
         && front.phases[last.request].nonce == nonce)
  }

  /** The run without the clean-up has at most the old row; its checks may have refused more requests. */
  ghost predicate Lags(a: State, b: State, nonce: Nonce, row: Row) {
    && a.clock == b.clock && a.phases.Keys == b.phases.Keys
    && nonce !in b.rows && (nonce in a.rows ==> a.rows[nonce] == row)
    && (forall r | r in a.phases :: !(b.phases[r].Inserted? && b.phases[r].nonce == nonce))
    && (forall r | r in a.phases && About(a.phases[r], nonce) :: a.phases[r] == b.phases[r])
  }

  lemma StepLags(a: State, b: State, step: Step, nonce: Nonce, row: Row)
    requires Lags(a, b, nonce, row)
    requires !(step.Insert? && step.request in b.phases && b.phases[step.request].Stamped?
               && b.phases[step.request].nonce == nonce)
    ensures Lags(Apply(a, step), Apply(b, step), nonce, row)
  {
    match step
    case Tick(_) =>
    case Cleanup(_) =>
    case Check(r, n, _, _) =>
    case Insert(r) => InsertLags(a, b, r, nonce, row);
    case _ => OtherLags(a, b, step, nonce, row);
  }

  lemma InsertLags(a: State, b: State, r: RequestId, nonce: Nonce, row: Row)
    requires Lags(a, b, nonce, row)
    requires !(r in b.phases && b.phases[r].Stamped? && b.phases[r].nonce == nonce)
    ensures Lags(Apply(a, Insert(r)), Apply(b, Insert(r)), nonce, row)
  {
  }

  lemma OtherLags(a: State, b: State, step: Step, nonce: Nonce, row: Row)
    requires Lags(a, b, nonce, row) && (step.Stamp? || step.Commit? || step.Abort?)
    ensures Lags(Apply(a, step), Apply(b, step), nonce, row)
  {
    if step.request in a.phases {
      match step
      case Stamp(r) =>
      case Commit(r) =>
      case Abort(r) =>
    }
  }

  lemma {:induction false} RunLags(a: State, b: State, steps: seq<Step>, nonce: Nonce, row: Row)
    requires Lags(a, b, nonce, row) && NoInsert(b, steps, nonce)
    ensures Lags(Run(a, steps), Run(b, steps), nonce, row)
  {
    if steps != [] {
      var front := steps[..|steps| - 1];
      RunLags(a, b, front, nonce, row);
      StepLags(Run(a, front), Run(b, front), steps[|steps| - 1], nonce, row);
    }
  }

  /**
   * A clean-up cannot be noticed, after whatever steps, by checks of a nonce whose row it does not
   * sweep, or whose requests do not get to an insert afterwards.
   */
  lemma CleanupInvisible(s: State, lag: nat, steps: seq<Step>, nonce: Nonce)
    requires NonceOk(s) && (IsSwept(s, lag, nonce) ==> NoInsert(Cleaned(s, lag), steps, nonce))
    ensures Agree(s, lag, steps, nonce)
  {
    if IsSwept(s, lag, nonce) {
      forall r | r in s.phases ensures !(s.phases[r].Inserted? && s.phases[r].nonce == nonce) {
        assert PhaseOk(s, r);
      }
      RunLags(s, Cleaned(s, lag), steps, nonce, s.rows[nonce]);
    } else {
      RunSameFor(s, Cleaned(s, lag), steps, nonce);
    }
  }

  // ---------------------------------------------------------------- exactly when

  /** One request in between is enough: it is accepted after the clean-up, and refused without it. */
  lemma SweptRowIsMissed(s: State, lag: nat, r: RequestId, nonce: Nonce, plant: PlantId)
    requires IsSwept(s, lag, nonce) && r !in s.phases
    ensures var (swept, kept) := (Run(Cleaned(s, lag), Whole(r, nonce, plant)), Run(s, Whole(r, nonce, plant)));
            && swept.clock == kept.clock == s.clock
            && forall cutoff | SweepCutoff(s, lag) <= cutoff <= s.clock ::
                 IsReplay(swept.rows, nonce, plant, cutoff) && !IsReplay(kept.rows, nonce, plant, cutoff)
  {
    RunWhole(s, r, nonce, plant);
    RunWhole(Cleaned(s, lag), r, nonce, plant);
  }

  /** Every later check of a nonce answers as if there had been no clean-up, exactly when its row is not swept. */
  lemma CleanupHarmlessExactly(s: State, lag: nat, nonce: Nonce)
    requires NonceOk(s)
    ensures (forall steps :: Agree(s, lag, steps, nonce)) <==> !IsSwept(s, lag, nonce)
  {
    if IsSwept(s, lag, nonce) {
      var r := FreshRequest(s.phases.Keys);
      SweptRowIsMissed(s, lag, r, nonce, 0);
      assert s.clock >= SweepCutoff(s, lag);
      assert IsReplay(Run(Cleaned(s, lag), Whole(r, nonce, 0)).rows, nonce, 0, s.clock);
      assert !Agree(s, lag, Whole(r, nonce, 0), nonce);
    } else {
      forall steps ensures Agree(s, lag, steps, nonce) {
        CleanupInvisible(s, lag, steps, nonce);
      }
    }
  }

  /** As long as the other clean-ups among the steps spare the row that this one sweeps, nobody else gets the nonce. */
  lemma {:induction false} SparedRowStays(s: State, steps: seq<Step>, nonce: Nonce)
    requires NonceOk(s) && nonce in s.rows && s.rows[nonce].committed && NotPast(s, steps, s.rows[nonce].usedAt)
    ensures nonce in Run(s, steps).rows && Run(s, steps).rows[nonce] == s.rows[nonce]
  {
    if steps != [] {
      var front, last := steps[..|steps| - 1], steps[|steps| - 1];
      SparedRowStays(s, front, nonce);
      RunKeepsNonces(s, front);
      var before := Run(s, front);
      if (last.Commit? || last.Abort?) && last.request in before.phases {
        assert PhaseOk(before, last.request);
      }
    }
  }

  /**
   * When the row is swept, and no clean-up among the steps would have swept it: a check answers alike in
   * both runs exactly when the run with the clean-up has accepted no such request in between.
   */
  lemma CleanupNoticedExactly(s: State, lag: nat, steps: seq<Step>, nonce: Nonce, plant: PlantId, cutoff: int)
    requires NonceOk(s) && IsSwept(s, lag, nonce) && NotPast(s, steps, s.rows[nonce].usedAt)
    requires cutoff >= SweepCutoff(s, lag)
    ensures IsReplay(Run(Cleaned(s, lag), steps).rows, nonce, plant, cutoff)
            == IsReplay(Run(s, steps).rows, nonce, plant, cutoff)
            <==> !AcceptedSince(s, Run(Cleaned(s, lag), steps), nonce, plant, cutoff)
  {
    NotPastLater(s, steps, s.rows[nonce].usedAt, cutoff);
    CleanupKeepsNonces(s, lag);
    SameClock(s, Cleaned(s, lag), steps, cutoff);
    AnswerIsInLog(Cleaned(s, lag), steps, nonce, plant, cutoff);
    SparedRowStays(s, steps, nonce);
  }

  /** A run in which it shows: a used nonce, 60 s, a second request for it, and the check of a third. */
  lemma CleanupChangesALaterAnswer()
    ensures var s := Run(Start(0), Whole(1, 7, 5) + [Tick(WINDOW + 1)]);
            var (swept, kept) := (Run(Cleaned(s, 0), Whole(2, 7, 5)), Run(s, Whole(2, 7, 5)));
            && swept.clock == kept.clock
            && IsReplay(swept.rows, 7, 5, swept.clock - WINDOW) && !IsReplay(kept.rows, 7, 5, kept.clock - WINDOW)
  {
    RunWhole(Start(0), 1, 7, 5);
    RunNext(Start(0), Whole(1, 7, 5), Tick(WINDOW + 1));
    var s := Run(Start(0), Whole(1, 7, 5) + [Tick(WINDOW + 1)]);
    assert s.rows[7] == Row(5, 0, 1, true) && s.phases.Keys == {1};
    hide Run, Apply;
    SweptRowIsMissed(s, 0, 2, 7, 5);
  }
}
