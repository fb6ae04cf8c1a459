/**
 Which changes of the risk level are reported over whole runs of one extension's transactions
 (app/notifications.py, app/services.py).
 */
module RiskAlerts {
  import opened Wrappers
  import opened Sequences
  import opened ChangeEvents
  import opened Scoring
  import opened PackageDiff
  import opened Extensions
  import opened FetchRuns

  lemma RiskEventsDetected(before: Row, row: Row, from: Option<string>, diff: Option<CapabilityDiff>,
                           threats: seq<ThreatEntry>)
    ensures OfType(Detected(before, row, from, diff, threats), RiskLevelChange) ==
            if before.lastFetchedAt.None? then []
            else RiskLevelEvents(before.posture.riskScore, row.posture.riskScore)
  {
    var threat := ThreatEvents(before, row, threats);
    if before.lastFetchedAt.None? {
      OfTypeUniform(threat, ThreatMatch, RiskLevelChange);
    } else {
      OfTypeOfParts(RiskLevelEvents(before.posture.riskScore, row.posture.riskScore),
                    PublisherEvents(before.publisher, row.publisher),
                    PermissionEvents(AllPermissions(before), AllPermissions(row)),
                    VersionEvents(before.version, row.version),
                    Extensions.CapabilityEvents(from, row.version, diff), threat, RiskLevelChange);
    }
  }

  /** The step compares the row with what it makes of it: an analyst's decision does not, and neither does
      the fetch of a degraded package. */
  predicate Compares(step: Step) {
    (step.Fetch? && !Degraded(step.input.analysis)) || step.Applied() != []
  }

  /** Both levels are known and differ. */
  predicate Moves(before: Option<int>, after: Option<int>) {
    before.Some? && after.Some? && BandOf(before.value) != BandOf(after.value)
  }

  function Move(before: int, after: int): ChangeEvent {
    ChangeEvent(RiskLevelChange, Band(BandOf(before)), Band(BandOf(after)))
  }

  /** The changes of level that the steps of a run make to a row fetched before, in order. */
  function LevelMoves(steps: seq<Step>): seq<ChangeEvent> {
    if steps == [] then []
    else
      var row, after := Run(Earlier(steps)), Run(steps);
      LevelMoves(Earlier(steps))
      + (if row.lastFetchedAt.Some? && Compares(Last(steps)) && Moves(row.posture.riskScore, after.posture.riskScore)
         then [Move(row.posture.riskScore.value, after.posture.riskScore.value)] else [])
  }

  lemma RiskEventsOfFetch(row: Row, input: FetchInput)
    ensures OfType(FetchDetected(row, input), RiskLevelChange) ==
            if row.lastFetchedAt.None? || Degraded(input.analysis) then []
            else RiskLevelEvents(row.posture.riskScore, FetchedRow(row, input).posture.riskScore)
  {
    var (_, from, diff) := CapturedBy(row, input);
    RiskEventsDetected(row, StoredRow(row, input), from, diff, input.threats);
    MetadataEventsOfType(Detected(row, StoredRow(row, input), from, diff, input.threats), RiskLevelChange);
  }

  lemma RiskEventsOfStep(row: Row, step: Step)
    ensures OfType(EventsOf(row, step), RiskLevelChange) ==
            if row.lastFetchedAt.None? || !Compares(step) then []
            else RiskLevelEvents(row.posture.riskScore, Next(row, step).posture.riskScore)
  {
    if step.Fetch? {
      RiskEventsOfFetch(row, step.input);
    } else if step.Applied() != [] {
      RiskEventsDetected(row, MatchedRow(row, step.Applied()), None, None, step.Applied());
    }
  }

  lemma EventsAreMoves(before: Option<int>, after: Option<int>)
    ensures RiskLevelEvents(before, after) ==
            if Moves(before, after) then [Move(before.value, after.value)] else []
  {
  }

  /** Over every run the risk level events are exactly the changes of level made by fetches of complete
      packages, fetches without one, and threat matches, in order, each with the level before and after. */
  lemma {:induction false} LevelEventsAreMoves(steps: seq<Step>)
    ensures OfType(Log(steps), RiskLevelChange) == LevelMoves(steps)
    decreases |steps|
  {
    if steps != [] {
      var row, step := Run(Earlier(steps)), Last(steps);
      LevelEventsAreMoves(Earlier(steps));
      OfTypeConcat(Log(Earlier(steps)), EventsOf(row, step), RiskLevelChange);
      RiskEventsOfStep(row, step);
      EventsAreMoves(row.posture.riskScore, Next(row, step).posture.riskScore);
    }
  }
}
