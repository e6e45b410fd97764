/** The endpoints and the worker as they are called, and the steps that `CustodyRuns` takes them apart into. */
module Endpoints {
  import opened MockChain
  import opened Confidence
  import opened CustodyModel
  import opened CustodyInvariant
  import opened CustodyRuns
  import opened MintWorker

  /** What a caller asks for; the endpoints that are one step of a run are asked for by that step. */
  datatype Request =
    | Call(op: Op)
    | SendTelemetry(reading: Reading, hash: Hash, cid: string, anchored: bool)
    | RequestIssue(validation: nat, hash: Hash, cid: string, anchored: bool, commit: bool)
    | MintBatch(rows: seq<HecId>)

  function Serve(w: World, request: Request): World {
    match request
    case Call(op) => Apply(w, op)
    case SendTelemetry(reading, hash, cid, anchored) =>
      var (db, c) := IngestTelemetry(w.db, w.chain, reading, hash, cid, anchored);
      World(db, c, w.clean)
    case RequestIssue(v, hash, cid, anchored, commit) =>
      Finish(w, IssueOnRequest(w.db, w.chain, v, hash, cid, anchored), commit)
    case MintBatch(rows) =>
      var m := MintAll(w.db, w.chain, rows);
      World(m.db, m.chain, w.clean)
  }

  function ServeAll(requests: seq<Request>): World {
    if requests == [] then START else Serve(ServeAll(requests[..|requests| - 1]), requests[|requests| - 1])
  }

  lemma TelemetryIsSteps(w: World, reading: Reading, hash: Hash, cid: string, anchored: bool)
    ensures var stored := Apply(w, IngestReading(reading));
            Serve(w, SendTelemetry(reading, hash, cid, anchored))
            == if Validate(reading) == Approved
               then Apply(stored, IssueCertificate(|w.db.validations|, hash, cid, anchored, true)) else stored
  {
    hide IssueHec, Validate;
  }

  /** A request to issue is one step, but for a validation that is certified already: then it does nothing at all. */
  lemma IssueIsAStep(w: World, v: nat, hash: Hash, cid: string, anchored: bool, commit: bool)
    ensures Serve(w, RequestIssue(v, hash, cid, anchored, commit))
         == if && v < |w.db.validations| && w.db.validations[v].verdict == Approved
               && (exists h | 0 <= h < |w.db.hecs| :: w.db.hecs[h].validation == v)
            then w else Apply(w, IssueCertificate(v, hash, cid, anchored, commit))
  {
    hide IssueHec;
  }

  function MintRows(rows: seq<HecId>): seq<Op> {
    seq(|rows|, i requires 0 <= i < |rows| => MintRow(rows[i], true))
  }

  /** A pass of the worker is one step for each row of its snapshot. */
  lemma {:induction false} BatchIsSteps(ops: seq<Op>, rows: seq<HecId>)
    ensures Run(ops + MintRows(rows)) == Serve(Run(ops), MintBatch(rows))
  {
    hide Run, AnchorRow;
    if rows == [] {
      assert ops + MintRows([]) == ops;
    } else {
      var n := |rows| - 1;
      BatchIsSteps(ops, rows[..n]);
      assert ops + MintRows(rows) == ops + MintRows(rows[..n]) + [MintRow(rows[n], true)];
      RunAppend(ops + MintRows(rows[..n]), MintRow(rows[n], true));
    }
  }

  lemma OneRequest(ops: seq<Op>, request: Request) returns (all: seq<Op>)
    ensures ops <= all && Run(all) == Serve(Run(ops), request)
  {
    hide Run, Apply, IssueHec, IngestTelemetry, IssueOnRequest, MintAll, Finish, Validate;
    match request
    case Call(op) =>
      RunAppend(ops, op);
      all := ops + [op];
    case SendTelemetry(reading, hash, cid, anchored) =>
      var issue := IssueCertificate(|Run(ops).db.validations|, hash, cid, anchored, true);
      TelemetryIsSteps(Run(ops), reading, hash, cid, anchored);
      RunAppend(ops, IngestReading(reading));
      RunAppend(ops + [IngestReading(reading)], issue);
      all := ops + [IngestReading(reading)] + if Validate(reading) == Approved then [issue] else [];
      assert Validate(reading) != Approved ==> all == ops + [IngestReading(reading)];
    case RequestIssue(v, hash, cid, anchored, commit) =>
      var issue := IssueCertificate(v, hash, cid, anchored, commit);
      IssueIsAStep(Run(ops), v, hash, cid, anchored, commit);
      RunAppend(ops, issue);
      all := if Serve(Run(ops), request) == Run(ops) then ops else ops + [issue];
    case MintBatch(rows) =>
      BatchIsSteps(ops, rows);
      all := ops + MintRows(rows);
  }

  /** Whatever is asked for, in whatever order, leads to a state of a run; so everything said of runs holds there. */
  lemma {:induction false} EndpointRunsAreRuns(requests: seq<Request>) returns (ops: seq<Op>)
    ensures Run(ops) == ServeAll(requests)
    ensures var w := ServeAll(requests); Inv(w.db, w.chain, NO_BURN, w.clean)
  {
    hide Run, Inv, Serve;
    if requests == [] {
      ops := [];
      EmptyRun();
    } else {
      var before := EndpointRunsAreRuns(requests[..|requests| - 1]);
      ops := OneRequest(before, requests[|requests| - 1]);
    }
    ReachableInvariant(ops);
  }

  lemma EmptyRun()
    ensures Run([]) == START
  {
  }
}
