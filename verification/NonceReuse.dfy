/**
 * How soon a nonce can be accepted again. Time stamps are more than 60 s apart from later insertions;
 * between two insertions, or two acceptances, it depends on how long the earlier request took.
 */
module NonceReuse {
  import opened Nonces

  // ---------------------------------------------------------------- where rows come from

  /** The latest request accepted with the nonce is the one that the committed row belongs to. */
  ghost predicate LatestIs(log: seq<Acceptance>, k: nat, nonce: Nonce, row: Row) {
    && k < |log| && log[k].nonce == nonce && row == Row(log[k].plant, log[k].stamp, log[k].request, true)
    && forall j | k < j < |log| :: log[j].nonce != nonce
  }

  lemma LatestIsLast(log: seq<Acceptance>, k: nat, nonce: Nonce, row: Row, i: nat)
    requires LatestIs(log, k, nonce, row) && i < |log| && log[i].nonce == nonce
    ensures i <= k
  {
  }

  ghost predicate RowHasOrigin(s: State, nonce: Nonce)
    requires nonce in s.rows
  {
    var row := s.rows[nonce];
    if row.committed then exists k: nat :: LatestIs(s.log, k, nonce, row)
    else row.owner in s.phases && s.phases[row.owner].Inserted? && s.phases[row.owner].nonce == nonce
  }

  ghost predicate RowsOk(s: State) {
    forall n | n in s.rows :: RowHasOrigin(s, n)
  }

  lemma CommitKeepsRows(s: State, r: RequestId)
    requires RowsOk(s) && r in s.phases && s.phases[r].Inserted?
    ensures RowsOk(DoCommit(s, r, s.phases[r]))
  {
    var nonce, s' := s.phases[r].nonce, DoCommit(s, r, s.phases[r]);
    forall n | n in s'.rows ensures RowHasOrigin(s', n) {
      if n == nonce {
        assert LatestIs(s'.log, |s.log|, n, s'.rows[n]);
      } else {
        assert RowHasOrigin(s, n);
        if s.rows[n].committed {
          var k: nat :| LatestIs(s.log, k, n, s.rows[n]);
          assert LatestIs(s'.log, k, n, s'.rows[n]);
        }
      }
    }
  }

  lemma StepKeepsRows(s: State, step: Step)
    requires RowsOk(s)
    ensures RowsOk(Apply(s, step))
  {
    hide LatestIs;
    if step.Commit? && step.request in s.phases && s.phases[step.request].Inserted? {
      CommitKeepsRows(s, step.request);
    } else {
      var s' := Apply(s, step);
      assert s'.log == s.log;
      forall n | n in s'.rows ensures RowHasOrigin(s', n) {
        if n in s.rows { assert RowHasOrigin(s, n); }
      }
    }
  }

  lemma {:induction false} RunKeepsRows(s: State, steps: seq<Step>)
    requires RowsOk(s)
    ensures RowsOk(Run(s, steps))
  {
    if steps != [] {
      RunKeepsRows(s, steps[..|steps| - 1]);
      StepKeepsRows(Run(s, steps[..|steps| - 1]), steps[|steps| - 1]);
    }
  }

  // ---------------------------------------------------------------- again, by a deadline

  /** After the steps the nonce of entry `i` has been accepted again, and that no later than the deadline. */
  ghost predicate AcceptedAgain(s: State, i: nat, steps: seq<Step>, deadline: int)
    requires i < |s.log|
  {
    var log := Run(s, steps).log;
    exists j | i < j < |log| :: log[j].nonce == s.log[i].nonce && log[j].committedAt <= deadline
  }

  /** The same of the insertion of a request that has been accepted. */
  ghost predicate InsertedAgain(s: State, i: nat, steps: seq<Step>, deadline: int)
    requires i < |s.log|
  {
    var log := Run(s, steps).log;
    exists j | i < j < |log| :: log[j].nonce == s.log[i].nonce && log[j].insertedAt <= deadline
  }

  /** Whatever holds the key by now, there is a way to have the nonce accepted again by any deadline past the window. */
  lemma AgainByDeadline(s: State, i: nat, deadline: int) returns (steps: seq<Step>)
    requires NonceOk(s) && RowsOk(s) && i < |s.log|
    requires s.clock <= deadline && s.log[i].stamp + WINDOW < deadline
    ensures AcceptedAgain(s, i, steps, deadline)
  {
    var e, n := s.log[i], s.log[i].nonce;
    var next := FreshRequest(s.phases.Keys);
    if n !in s.rows {
      steps := Whole(next, n, e.plant);
      RunWhole(s, next, n, e.plant);
      assert Run(s, steps).log == s.log + [Acceptance(next, n, e.plant, s.clock, s.clock, s.clock)];
      assert Run(s, steps).log[|s.log|].nonce == n;
    } else if !s.rows[n].committed {
      steps := AgainByCommit(s, i, deadline);
    } else {
      assert RowHasOrigin(s, n);
      var k: nat :| LatestIs(s.log, k, n, s.rows[n]);
      LatestIsLast(s.log, k, n, s.rows[n], i);
      if k > i {
        steps := [];
        assert s.log[k] in s.log && Run(s, steps).log[k].nonce == n;
      } else {
        var wait := deadline - s.clock;
        steps := Reuse(wait, next, n, e.plant);
        ReuseExactlyAfterWindow(s, wait, next, n, e.plant);
        assert Run(s, steps).log[|s.log|].nonce == n;
      }
    }
  }

  /** The request that holds the key only has to be committed. */
  lemma AgainByCommit(s: State, i: nat, deadline: int) returns (steps: seq<Step>)
    requires RowsOk(s) && i < |s.log| && s.clock <= deadline
    requires s.log[i].nonce in s.rows && !s.rows[s.log[i].nonce].committed
    ensures AcceptedAgain(s, i, steps, deadline)
  {
    var n := s.log[i].nonce;
    assert RowHasOrigin(s, n);
    var owner := s.rows[n].owner;
    steps := [Commit(owner)];
    assert steps[..0] == [];
    assert Run(s, steps) == DoCommit(s, owner, s.phases[owner]);
    assert Run(s, steps).log[|s.log|].nonce == n;
  }

  /** A later insertion, and so a later acceptance, is past the stamp by more than the window. */
  lemma NeverBeforeWindow(s: State, i: nat, steps: seq<Step>, deadline: int)
    requires NonceOk(s) && i < |s.log| && InsertedAgain(s, i, steps, deadline)
    ensures s.log[i].stamp + WINDOW < deadline
  {
    RunKeepsNonces(s, steps);
    LogGrows(s, steps);
    var log := Run(s, steps).log;
    var j :| i < j < |log| && log[j].nonce == s.log[i].nonce && log[j].insertedAt <= deadline;
    assert Apart(log[i], log[j]);
  }

  lemma AcceptedMeansInserted(s: State, i: nat, steps: seq<Step>, deadline: int)
    requires NonceOk(s) && i < |s.log| && AcceptedAgain(s, i, steps, deadline)
    ensures InsertedAgain(s, i, steps, deadline)
  {
    RunKeepsNonces(s, steps);
    var log := Run(s, steps).log;
    var j :| i < j < |log| && log[j].nonce == s.log[i].nonce && log[j].committedAt <= deadline;
    assert log[j] in log;
  }

  ghost predicate AcceptedEarly(s: State, i: nat, steps: seq<Step>)
    requires i < |s.log|
  {
    AcceptedAgain(s, i, steps, s.log[i].committedAt + 60_000_000)
  }

  ghost predicate InsertedEarly(s: State, i: nat, steps: seq<Step>)
    requires i < |s.log|
  {
    InsertedAgain(s, i, steps, s.log[i].insertedAt + 60_000_000)
  }

  /**
   * When the 60 s hold between acceptances: as long as they are not over, some continuation accepts the
   * nonce again within them exactly when the earlier request was accepted later than it took its stamp.
   */
  lemma EarlyAcceptanceExactly(s: State, i: nat)
    requires NonceOk(s) && RowsOk(s) && i < |s.log| && s.clock <= s.log[i].committedAt + 60_000_000
    ensures (exists steps :: AcceptedEarly(s, i, steps)) <==> s.log[i].stamp < s.log[i].committedAt
  {
    hide AcceptedAgain, InsertedAgain;
    var deadline := s.log[i].committedAt + WINDOW;
    if steps :| AcceptedEarly(s, i, steps) {
      AcceptedMeansInserted(s, i, steps, deadline);
      NeverBeforeWindow(s, i, steps, deadline);
    }
    if s.log[i].stamp < s.log[i].committedAt {
      var steps := AgainByDeadline(s, i, deadline);
      assert AcceptedEarly(s, i, steps);
    }
  }

  /** The same between insertions: exactly when the earlier request inserted its row later than it took its stamp. */
  lemma EarlyReuseExactly(s: State, i: nat)
    requires NonceOk(s) && RowsOk(s) && i < |s.log| && s.clock <= s.log[i].insertedAt + 60_000_000
    ensures (exists steps :: InsertedEarly(s, i, steps)) <==> s.log[i].stamp < s.log[i].insertedAt
  {
    hide AcceptedAgain, InsertedAgain;
    var deadline := s.log[i].insertedAt + WINDOW;
    if steps :| InsertedEarly(s, i, steps) {
      NeverBeforeWindow(s, i, steps, deadline);
    }
    if s.log[i].stamp < s.log[i].insertedAt {
      var steps := AgainByDeadline(s, i, deadline);
      AcceptedMeansInserted(s, i, steps, deadline);
      assert InsertedEarly(s, i, steps);
    }
  }

  // ---------------------------------------------------------------- at an input

  /** A request that stamps and inserts at once, and is committed 59 s later. */
  const LATE_COMMIT: seq<Step> := [Check(1, 7, 5, 0)] + [Stamp(1)] + [Insert(1)] + [Tick(59_000_000)] + [Commit(1)]

  lemma LateCommitRuns()
    ensures Run(Start(0), LATE_COMMIT)
         == State(59_000_000, map[7 := Row(5, 0, 1, true)], map[1 := Accepted], [Acceptance(1, 7, 5, 0, 0, 59_000_000)])
  {
    var one: seq<Step> := [Check(1, 7, 5, 0)];
    assert one == [] + [Check(1, 7, 5, 0)];
    RunNext(Start(0), [], Check(1, 7, 5, 0));
    RunNext(Start(0), one, Stamp(1));
    RunNext(Start(0), one + [Stamp(1)], Insert(1));
    RunNext(Start(0), one + [Stamp(1)] + [Insert(1)], Tick(59_000_000));
    RunNext(Start(0), one + [Stamp(1)] + [Insert(1)] + [Tick(59_000_000)], Commit(1));
  }

  /** Both requests are prompt, and still they are accepted only a second apart. */
  lemma PromptAcceptancesCanBeClose()
    ensures var log := Run(Run(Start(0), LATE_COMMIT), Reuse(1_000_001, 2, 7, 5)).log;
            && |log| == 2 && Prompt(log) && log[0].nonce == log[1].nonce == 7
            && log[1].committedAt - log[0].committedAt == 1_000_001
  {
    LateCommitRuns();
    ReuseExactlyAfterWindow(Run(Start(0), LATE_COMMIT), 1_000_001, 2, 7, 5);
  }
}
