/**
 * The telemetry endpoint: the nonce decides whether a reading gets in; raw reading, validation and nonce
 * are stored together or not at all.
 */
module Telemetry {
  import opened Collections
  import opened MockChain
  import opened Confidence
  import CustodyModel
  import opened CustodySession
  import N = Nonces

  /** A replay is refused with a conflict; a key that is taken fails the insert and the whole transaction. */
  datatype Refusal = Replay | KeyTaken

  /** The raw reading as it is kept; the consensus of later readings looks at these. */
  datatype TelemetryRow = TelemetryRow(time: int, plant: N.PlantId, energy: nat, driftMicros: int, nonce: N.Nonce)

  /** A validation is stored with the row that it validates. */
  predicate Validates(v: CustodyModel.Validation, row: TelemetryRow) {
    v.reading.start == row.time && v.reading.energy == row.energy && v.reading.driftMicros == row.driftMicros
  }

  lemma ReadingIsStored(db: CustodyModel.Db, chain: Chain, reading: Reading, hash: Hash, cid: string, anchored: bool)
    ensures CustodyModel.IngestTelemetry(db, chain, reading, hash, cid, anchored).0.validations
         == db.validations + [CustodyModel.Validation(reading, Validate(reading))]
  {
    hide Validate;
  }

  class Intake {
    const session: Session
    const nonces: N.NonceStore
    var telemetry: seq<TelemetryRow>

    constructor (session: Session, nonces: N.NonceStore)
      ensures this.session == session && this.nonces == nonces && telemetry == []
      ensures session.validations == [] ==> Matched()
    {
      this.session, this.nonces, telemetry := session, nonces, [];
    }

    /** Rows and validations go in pairs. */
    ghost predicate Matched()
      reads this, session
    {
      && |telemetry| == |session.validations|
      && forall i | 0 <= i < |telemetry| :: Validates(session.validations[i], telemetry[i])
    }

    /** `now` is the instant of the check and of the row's stamp. */
    method Ingest(reading: Reading, nonce: N.Nonce, plant: N.PlantId, request: N.RequestId, now: int,
                  hash: Hash, cid: string, anchored: bool) returns (r: Result<Verdict, Refusal>)
      modifies `telemetry, session`validations, session`hecs, session.chain, nonces
      ensures old(Matched()) ==> Matched()
      ensures var before, chainBefore := old(session.State()), old(session.chain.State());
              if nonce in old(nonces.rows) then
                && r == Err(if N.IsReplay(old(nonces.rows), nonce, plant, now - N.WINDOW) then Replay else KeyTaken)
                && nonces.rows == old(nonces.rows) && telemetry == old(telemetry)
                && session.State() == before && session.chain.State() == chainBefore
              else
                && r == Ok(Validate(reading))
                && nonces.rows == old(nonces.rows)[nonce := N.Row(plant, now, request, true)]
                && telemetry == old(telemetry)
                   + [TelemetryRow(reading.start, plant, reading.energy, reading.driftMicros, nonce)]
                && (session.State(), session.chain.State())
                   == CustodyModel.IngestTelemetry(before, chainBefore, reading, hash, cid, anchored)
    {
      hide CustodyModel.IngestTelemetry, Validate;
      var replay := nonces.CheckNonceReplay(nonce, plant, now);
      if replay {
        return Err(Replay);
      }
      var registered := nonces.RegisterNonce(nonce, plant, request, now);
      if !registered {
        return Err(KeyTaken);
      }
      telemetry := telemetry + [TelemetryRow(reading.start, plant, reading.energy, reading.driftMicros, nonce)];
      ReadingIsStored(session.State(), session.chain.State(), reading, hash, cid, anchored);
      var verdict := session.IngestTelemetry(reading, hash, cid, anchored);
      return Ok(verdict);
    }
  }
}
