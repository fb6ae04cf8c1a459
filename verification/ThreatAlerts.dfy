/**
 How often a threat match is reported over whole runs of one extension's transactions, with refreshes
 that check the threat list before they fetch (app/services.py, app/scheduler.py, app/routes/api.py).
 */
module ThreatAlerts {
  import opened Wrappers
  import opened ChangeEvents
  import opened PackageDiff
  import opened Scoring
  import opened Extensions
  import opened FetchRuns

  lemma ThreatEventsOfStep(row: Row, step: Step)
    ensures OfType(EventsOf(row, step), ThreatMatch) ==
            match step {
              case Fetch(input) =>
                if Degraded(input.analysis) then [] else ThreatEvents(row, StoredRow(row, input), input.threats)
              case _ =>
                if step.Applied() != [] then ThreatEvents(row, MatchedRow(row, step.Applied()), step.Applied()) else []
            }
  {
    match step
    case Fetch(input) =>
      var (_, from, diff) := CapturedBy(row, input);
      ThreatEventsDetected(row, StoredRow(row, input), from, diff, input.threats);
      MetadataEventsOfType(Detected(row, StoredRow(row, input), from, diff, input.threats), ThreatMatch);
    case _ =>
      ThreatEventsDetected(row, MatchedRow(row, step.Applied()), None, None, step.Applied());
  }

  lemma ThreatEventsDetected(before: Row, row: Row, from: Option<string>, diff: Option<CapabilityDiff>,
                             threats: seq<ThreatEntry>)
    ensures OfType(Detected(before, row, from, diff, threats), ThreatMatch) == ThreatEvents(before, row, threats)
  {
    var threat := ThreatEvents(before, row, threats);
    if before.lastFetchedAt.None? {
      OfTypeUniform(threat, ThreatMatch, ThreatMatch);
    } else {
      OfTypeOfParts(RiskLevelEvents(before.posture.riskScore, row.posture.riskScore),
                    PublisherEvents(before.publisher, row.publisher),
                    PermissionEvents(AllPermissions(before), AllPermissions(row)),
                    VersionEvents(before.version, row.version),
                    Extensions.CapabilityEvents(from, row.version, diff), threat, ThreatMatch);
    }
  }

  /** The step sets the threat flag. */
  predicate Matches(row: Row, step: Step) { !row.posture.threatMatch && Next(row, step).posture.threatMatch }

  /** The flag was set by the fetch of a degraded package. */
  predicate MatchedByDegraded(steps: seq<Step>) {
    steps != []
    && (MatchedByDegraded(Earlier(steps))
        || (Matches(Run(Earlier(steps)), Last(steps)) && Last(steps).Fetch? && Degraded(Last(steps).input.analysis)))
  }

  lemma ThreatCountStep(row: Row, step: Step, listed: bool)
    requires FindsList(step, listed) && (row.posture.threatMatch ==> listed)
    ensures row.posture.threatMatch ==> Next(row, step).posture.threatMatch
    ensures Next(row, step).posture.threatMatch ==> ListedBy(listed, step)
    ensures |OfType(EventsOf(row, step), ThreatMatch)| ==
            if Matches(row, step) && !(step.Fetch? && Degraded(step.input.analysis)) then 1 else 0
  {
    NextPosture(row, step);
    ThreatEventsOfStep(row, step);
  }

  /** An extension that matches the threat list is reported once however often it is fetched or named
      again, unless a degraded package set the flag: exactly then it is never reported. */
  lemma {:induction false} ThreatReportedOnceIff(steps: seq<Step>, listed: bool)
    requires Coherent(steps, listed)
    ensures |OfType(Log(steps), ThreatMatch)| ==
            if Run(steps).posture.threatMatch && !MatchedByDegraded(steps) then 1 else 0
    ensures Run(steps).posture.threatMatch ==> ListedAfter(steps, listed)
    ensures MatchedByDegraded(steps) ==> Run(steps).posture.threatMatch
    decreases |steps|
  {
    if steps != [] {
      var row, step := Run(Earlier(steps)), Last(steps);
      ThreatReportedOnceIff(Earlier(steps), listed);
      ThreatCountStep(row, step, ListedAfter(Earlier(steps), listed));
      OfTypeConcat(Log(Earlier(steps)), EventsOf(row, step), ThreatMatch);
    }
  }

  // ------------------------------------------------------------------ prefixes

  lemma {:induction false} CoherentPrefix(steps: seq<Step>, listed: bool, k: nat)
    requires Coherent(steps, listed) && k <= |steps|
    ensures Coherent(steps[..k], listed)
    ensures k < |steps| ==> FindsList(steps[k], ListedAfter(steps[..k], listed))
    decreases |steps|
  {
    if k == |steps| {
      assert steps[..k] == steps;
    } else if k < |steps| - 1 {
      assert Earlier(steps)[..k] == steps[..k];
      CoherentPrefix(Earlier(steps), listed, k);
    }
  }

  /** The step lays the threat posture on the row. */
  predicate FlagsRow(step: Step) { step.Applied() != [] || (step.Fetch? && step.input.threats != []) }

  lemma FlagAfter(steps: seq<Step>, listed: bool)
    requires steps != [] && Coherent(steps, listed)
    ensures Run(steps).posture.threatMatch <==>
            Run(Earlier(steps)).posture.threatMatch || FlagsRow(Last(steps))
  {
    var row := Run(Earlier(steps));
    ThreatReportedOnceIff(Earlier(steps), listed);
    ThreatCountStep(row, Last(steps), ListedAfter(Earlier(steps), listed));
    NextPosture(row, Last(steps));
  }

  ghost predicate SomeFlags(steps: seq<Step>) { exists i :: 0 <= i < |steps| && FlagsRow(steps[i]) }

  lemma SomeFlagsNext(steps: seq<Step>)
    requires steps != []
    ensures SomeFlags(steps) <==> SomeFlags(Earlier(steps)) || FlagsRow(Last(steps))
  {
    assert forall i | 0 <= i < |steps| - 1 :: Earlier(steps)[i] == steps[i];
  }

  /** A row is flagged exactly when some step flagged it. */
  lemma {:induction false} FlaggedIff(steps: seq<Step>, listed: bool)
    requires Coherent(steps, listed)
    ensures Run(steps).posture.threatMatch <==> SomeFlags(steps)
    decreases |steps|
  {
    if steps != [] {
      FlaggedIff(Earlier(steps), listed);
      FlagAfter(steps, listed);
      SomeFlagsNext(steps);
    }
  }

  /** The list names the extension exactly when it did at first or some step named it. */
  lemma {:induction false} ListedIff(steps: seq<Step>, listed: bool)
    ensures ListedAfter(steps, listed) <==> listed || exists i :: 0 <= i < |steps| && GrowsList(steps[i])
    decreases |steps|
  {
    if steps != [] {
      ListedIff(Earlier(steps), listed);
      assert forall i | 0 <= i < |steps| - 1 :: Earlier(steps)[i] == steps[i];
    }
  }

  // ------------------------------------------------------------------ lost matches

  /** The fetch of a degraded package is the first step to flag the row. */
  ghost predicate LostAt(steps: seq<Step>, k: nat) {
    && k < |steps| && steps[k].Fetch? && FlagsRow(steps[k]) && Degraded(steps[k].input.analysis)
    && forall i | 0 <= i < k :: !FlagsRow(steps[i])
  }

  ghost predicate Lost(steps: seq<Step>) { exists k: nat :: LostAt(steps, k) }

  lemma LostNext(steps: seq<Step>)
    requires steps != []
    ensures Lost(steps) <==>
            || Lost(Earlier(steps))
            || (Last(steps).Fetch? && FlagsRow(Last(steps)) && Degraded(Last(steps).input.analysis)
                && !SomeFlags(Earlier(steps)))
  {
    var n := |steps| - 1;
    assert forall i | 0 <= i < n :: Earlier(steps)[i] == steps[i];
    assert forall k: nat | k < n :: LostAt(steps, k) <==> LostAt(Earlier(steps), k);
    var last := Last(steps);
    if last.Fetch? && FlagsRow(last) && Degraded(last.input.analysis) && !SomeFlags(Earlier(steps)) {
      assert LostAt(steps, n);
    }
  }

  lemma {:induction false} MatchedByDegradedIff(steps: seq<Step>, listed: bool)
    requires Coherent(steps, listed)
    ensures MatchedByDegraded(steps) <==> Lost(steps)
    decreases |steps|
  {
    if steps != [] {
      MatchedByDegradedIff(Earlier(steps), listed);
      FlaggedIff(Earlier(steps), listed);
      FlagAfter(steps, listed);
      LostNext(steps);
    }
  }

  /** A refresh's posture check finds nothing, an ingestion that missed the row is committed, and then the
      refresh, with no one else having laid the match on the row, fetches a degraded package. */
  ghost predicate RacedAt(steps: seq<Step>, c: nat, k: nat) {
    && c < k < |steps|
    && steps[c] == CheckPosture([])
    && (exists m :: c < m < k && steps[m].MissedIngestion?)
    && steps[k].Fetch? && FlagsRow(steps[k]) && Degraded(steps[k].input.analysis)
    && forall i | c < i < k :: !FlagsRow(steps[i])
  }

  ghost predicate Raced(steps: seq<Step>) { exists c: nat, k: nat :: RacedAt(steps, c, k) }

  /** Every fetch comes after a posture check, its own refresh's. */
  ghost predicate EachFetchChecked(steps: seq<Step>) {
    forall k | 0 <= k < |steps| && steps[k].Fetch? :: CheckedBefore(steps, k)
  }

  ghost predicate CheckedBefore(steps: seq<Step>, k: int) {
    exists c :: 0 <= c < k < |steps| && steps[c].CheckPosture?
  }

  lemma ListGrewBetween(steps: seq<Step>, listed: bool, c: nat, k: nat)
    requires c <= k <= |steps| && !ListedAfter(steps[..c], listed) && ListedAfter(steps[..k], listed)
    ensures exists m :: c <= m < k && GrowsList(steps[m])
  {
    ListedIff(steps[..c], listed);
    ListedIff(steps[..k], listed);
    var m :| 0 <= m < k && GrowsList(steps[..k][m]);
    assert forall i | 0 <= i < c :: steps[..c][i] == steps[i];
  }

  lemma LostWasRaced(steps: seq<Step>, listed: bool, k: nat)
    requires Coherent(steps, listed) && EachFetchChecked(steps) && LostAt(steps, k)
    ensures Raced(steps)
  {
    assert CheckedBefore(steps, k);
    var c :| 0 <= c < k && steps[c].CheckPosture?;
    assert !FlagsRow(steps[c]);
    CoherentPrefix(steps, listed, c);
    CoherentPrefix(steps, listed, k);
    ListGrewBetween(steps, listed, c, k);
    var m :| c <= m < k && GrowsList(steps[m]);
    assert !FlagsRow(steps[m]);
    assert RacedAt(steps, c, k);
  }

  lemma UnlistedUnflagged(steps: seq<Step>, listed: bool, c: nat)
    requires Coherent(steps, listed) && c <= |steps| && !ListedAfter(steps[..c], listed)
    ensures forall i | 0 <= i < c :: !FlagsRow(steps[i])
  {
    CoherentPrefix(steps, listed, c);
    ThreatReportedOnceIff(steps[..c], listed);
    FlaggedIff(steps[..c], listed);
    assert forall i | 0 <= i < c :: steps[..c][i] == steps[i];
  }

  lemma RacedIsLost(steps: seq<Step>, listed: bool, c: nat, k: nat)
    requires Coherent(steps, listed) && RacedAt(steps, c, k)
    ensures LostAt(steps, k)
  {
    CoherentPrefix(steps, listed, c);
    UnlistedUnflagged(steps, listed, c);
  }

  /** When every refresh checks the list before it fetches, a row that matches it is reported exactly once,
      however often it is fetched or named again, except exactly when a degraded fetch lost the race with
      an ingestion that missed the row: then never. */
  lemma RefreshedThreatReportedOnceIff(steps: seq<Step>, listed: bool)
    requires Coherent(steps, listed) && EachFetchChecked(steps)
    ensures |OfType(Log(steps), ThreatMatch)| == if Run(steps).posture.threatMatch && !Raced(steps) then 1 else 0
    ensures Raced(steps) ==> Run(steps).posture.threatMatch
  {
    ThreatReportedOnceIff(steps, listed);
    MatchedByDegradedIff(steps, listed);
    if Raced(steps) {
      var c: nat, k: nat :| RacedAt(steps, c, k);
      RacedIsLost(steps, listed, c, k);
    }
    if MatchedByDegraded(steps) {
      var k: nat :| LostAt(steps, k);
      LostWasRaced(steps, listed, k);
    }
  }

  /** A match that a posture check finds is reported exactly once, whatever is fetched after it, degraded
      or not, unless it was lost before. */
  lemma CheckedMatchReported(steps: seq<Step>, listed: bool, c: nat)
    requires Coherent(steps, listed) && c < |steps|
    requires steps[c].CheckPosture? && steps[c].threats != []
    requires !MatchedByDegraded(steps[..c])
    ensures |OfType(Log(steps), ThreatMatch)| == 1
  {
    CoherentPrefix(steps, listed, c);
    MatchedByDegradedIff(steps[..c], listed);
    MatchedByDegradedIff(steps, listed);
    FlaggedIff(steps, listed);
    ThreatReportedOnceIff(steps, listed);
    assert FlagsRow(steps[c]);
    if MatchedByDegraded(steps) {
      var k: nat :| LostAt(steps, k);
      LostAtPrefix(steps, c, k);
    }
  }

  lemma LostAtPrefix(steps: seq<Step>, c: nat, k: nat)
    requires c < |steps| && FlagsRow(steps[c]) && !steps[c].Fetch? && LostAt(steps, k)
    ensures LostAt(steps[..c], k)
  {
    assert k < c;
    assert forall i | 0 <= i <= k :: steps[..c][i] == steps[i];
  }

  /** The lost race: the list names the extension only after the refresh has checked it. */
  lemma MatchLost(naming: Naming, threats: seq<ThreatEntry>)
    requires threats != []
    ensures var steps := LostRace(naming, threats);
            && Coherent(steps, false) && EachFetchChecked(steps) && RacedAt(steps, 0, 2)
            && Run(steps).posture.threatMatch && OfType(Log(steps), ThreatMatch) == []
  {
    var steps := LostRace(naming, threats);
    LostRaceCoherent(naming, threats);
    assert CheckedBefore(steps, 2) by {
      assert steps[0].CheckPosture?;
    }
    assert steps[1].MissedIngestion? && RacedAt(steps, 0, 2);
    RefreshedThreatReportedOnceIff(steps, false);
  }

  function LostRace(naming: Naming, threats: seq<ThreatEntry>): seq<Step> {
    [CheckPosture([]), MissedIngestion, BareFetch(naming, "1", [], false, threats), CheckPosture(threats)]
  }

  lemma CoherentNext(steps: seq<Step>, step: Step, listed: bool)
    requires Coherent(steps, listed) && FindsList(step, ListedAfter(steps, listed))
    ensures Coherent(steps + [step], listed)
    ensures ListedAfter(steps + [step], listed) == ListedBy(ListedAfter(steps, listed), step)
  {
    assert Earlier(steps + [step]) == steps;
  }

  lemma LostRaceCoherent(naming: Naming, threats: seq<ThreatEntry>)
    requires threats != []
    ensures Coherent(LostRace(naming, threats), false)
  {
    var steps := LostRace(naming, threats);
    var one, two, three := [] + [steps[0]], [steps[0], steps[1]], [steps[0], steps[1], steps[2]];
    assert two == one + [steps[1]] && three == two + [steps[2]] && steps == three + [steps[3]];
    CoherentNext([], steps[0], false);
    CoherentNext(one, steps[1], false);
    CoherentNext(two, steps[2], false);
    CoherentNext(three, steps[3], false);
  }
}
