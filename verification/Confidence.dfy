/** Telemetry validation: layer checks, the weighted score and the verdict. */
module Confidence {
  import opened Collections

  datatype Verdict = Approved | Review | Rejected

  /**
   * What one telemetry reading yields. Energies are ten-thousandths of a kWh, the drift is in
   * microseconds. The theoretical and satellite maxima and the consensus answer are given.
   */
  datatype Reading = Reading(
    start: int, energy: nat, driftMicros: int,
    theoreticalMax: int, satelliteMax: int, consensus: Option<bool>)

  const MAX_DRIFT_MICROS := 5000

  const WEIGHT_SIGNATURE := 20
  const WEIGHT_NTP := 20
  const WEIGHT_PHYSICS := 30
  const WEIGHT_SATELLITE := 15
  const WEIGHT_CONSENSUS := 15
  const THRESHOLD_APPROVED := 95
  const THRESHOLD_REVIEW := 85

  predicate NtpPass(r: Reading) { -MAX_DRIFT_MICROS <= r.driftMicros <= MAX_DRIFT_MICROS }

  predicate PhysicsPass(r: Reading) { r.energy <= r.theoreticalMax }

  predicate SatellitePass(r: Reading) { r.energy <= r.satelliteMax }

  function Score(signature: bool, ntp: bool, physics: bool, satellite: bool, consensus: Option<bool>): int {
    var sum :=
      (if signature then WEIGHT_SIGNATURE else 0)
      + (if ntp then WEIGHT_NTP else 0)
      + (if physics then WEIGHT_PHYSICS else 0)
      + (if satellite then WEIGHT_SATELLITE else 0)
      + (match consensus
         case None => WEIGHT_CONSENSUS
         case Some(ok) => if ok then WEIGHT_CONSENSUS else 0);
    if sum > 100 then 100 else if sum < 0 then 0 else sum
  }

  function VerdictOf(score: int): Verdict {
    if score >= THRESHOLD_APPROVED then Approved
    else if score >= THRESHOLD_REVIEW then Review
    else Rejected
  }

  /** The verdict stored for an ingested reading; an invalid signature never gets this far. */
  function Validate(r: Reading): Verdict {
    VerdictOf(Score(true, NtpPass(r), PhysicsPass(r), SatellitePass(r), r.consensus))
  }

  /** A reading no layer objects to: within five milliseconds, within both maxima, not divergent. */
  ghost predicate NoLayerFailed(r: Reading) {
    && -5000 <= r.driftMicros <= 5000
    && r.energy <= r.theoreticalMax && r.energy <= r.satelliteMax
    && r.consensus != Some(false)
  }

  /**
   * Approval is all-or-nothing; review means exactly one of the two fifteen-point layers failed.
   * In particular a clock drift alone is rejected, not reviewed.
   */
  lemma VerdictMeaning(signature: bool, ntp: bool, physics: bool, satellite: bool, consensus: Option<bool>)
    ensures var v := VerdictOf(Score(signature, ntp, physics, satellite, consensus));
            var heavy := signature && ntp && physics;
            var diverges := consensus == Some(false);
            && (v == Approved <==> heavy && satellite && !diverges)
            && (v == Review <==> heavy && satellite == diverges)
  {
    match consensus
    case None =>
    case Some(ok) =>
  }

  lemma ApprovedExactlyWhenNoLayerFailed(r: Reading)
    ensures Validate(r) == Approved <==> NoLayerFailed(r)
  {
    VerdictMeaning(true, NtpPass(r), PhysicsPass(r), SatellitePass(r), r.consensus);
  }

  /** A clock failure alone leaves eighty points and is rejected; so is a reading a microsecond too late. */
  lemma ClockFailureIsRejected(r: Reading)
    requires !NtpPass(r) && PhysicsPass(r) && SatellitePass(r) && r.consensus != Some(false)
    ensures Score(true, NtpPass(r), PhysicsPass(r), SatellitePass(r), r.consensus) == 80 && Validate(r) == Rejected
    ensures var late := Reading(0, 10000, MAX_DRIFT_MICROS + 1, 20000, 20000, Some(true));
            !NtpPass(late) && PhysicsPass(late) && SatellitePass(late) && Validate(late) == Rejected
  {
  }

  /** A hundred points, less 20 for signature or clock, 30 for physics, 15 for satellite or consensus. */
  lemma ScoreIs(signature: bool, ntp: bool, physics: bool, satellite: bool, consensus: Option<bool>)
    ensures Score(signature, ntp, physics, satellite, consensus)
         == 100 - (if signature then 0 else 20) - (if ntp then 0 else 20) - (if physics then 0 else 30)
                - (if satellite then 0 else 15) - (if consensus == Some(false) then 15 else 0)
  {
    match consensus
    case None =>
    case Some(_) =>
  }

  /** From 95 on approved, from 85 on up for review. */
  lemma VerdictBounds(score: int)
    ensures VerdictOf(score) == Approved <==> score >= 95
    ensures VerdictOf(score) == Review <==> 85 <= score < 95
  {
  }
}
