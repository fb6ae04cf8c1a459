/**
 The extension record as the transactions update it, field by field (app/models.py,
 app/services.py, app/routes/api.py).  Every method's contract gives the whole new value of the
 record as a function of the old one; what those functions guarantee is proved in ``Posture``,
 ``AlertProtocol`` and ``FetchRuns``.
 */
module ExtensionRecord {
  import opened Wrappers
  import opened ChangeEvents
  import opened PendingAlerts
  import opened PackageDiff
  import opened Scoring
  import opened Extensions
  import P = Posture

  /** The fields of a triage request that it supplies; the inner ``None`` is an explicit null. */
  datatype TriagePatch = TriagePatch(
    triageStatus: Option<Option<string>>, riskOverride: Option<Option<Override>>, otherSupplied: bool)

  datatype TriageError = NothingSupplied | NullStatus | NullOverride

  /** ``detect_changes``, appending to its list. */
  method DetectChanges(before: Row, row: Row, from: Option<string>, diff: Option<CapabilityDiff>,
                       threats: seq<ThreatEntry>)
    returns (events: seq<ChangeEvent>)
    ensures events == Detected(before, row, from, diff, threats)
  {
    events := [];
    var matched := !before.posture.threatMatch && row.posture.threatMatch;
    if before.lastFetchedAt.None? {
      return if matched then [ChangeEvent(ThreatMatch, Nothing, ThreatValue(threats))] else [];
    }
    var oldLevel, newLevel := RiskLevel(before.posture.riskScore), RiskLevel(row.posture.riskScore);
    if oldLevel.Some? && newLevel.Some? && oldLevel != newLevel {
      events := events + [ChangeEvent(RiskLevelChange, Band(oldLevel.value), Band(newLevel.value))];
    }
    ghost var upTo := RiskLevelEvents(before.posture.riskScore, row.posture.riskScore);
    assert events == upTo;
    if before.publisher != "" && row.publisher != "" && before.publisher != row.publisher {
      events := events + [ChangeEvent(PublisherChange, Text(before.publisher), Text(row.publisher))];
    }
    upTo := upTo + PublisherEvents(before.publisher, row.publisher);
    assert events == upTo;
    var oldPermissions, newPermissions := AllPermissions(before), AllPermissions(row);
    if oldPermissions != newPermissions {
      events := events + [ChangeEvent(PermissionChange, Names(oldPermissions), Names(newPermissions))];
    }
    upTo := upTo + PermissionEvents(oldPermissions, newPermissions);
    assert events == upTo;
    if before.version != "" && row.version != "" && before.version != row.version {
      events := events + [ChangeEvent(NewVersion, Text(before.version), Text(row.version))];
    }
    upTo := upTo + VersionEvents(before.version, row.version);
    assert events == upTo;
    if from.Some? && from.value != "" && diff.Some? {
      events := events + [CapabilityEventOf(from.value, row.version, diff.value)];
    }
    upTo := upTo + CapabilityEvents(from, row.version, diff);
    assert events == upTo;
    if matched {
      events := events + [ChangeEvent(ThreatMatch, Nothing, ThreatValue(threats))];
    }
  }

  /** A fetch sets the threat flag before it reads the rest of the row, which does not matter. */
  lemma ValuesIgnoreThreatFlag(row: Row, marked: Row, input: FetchInput)
    requires marked == row.(posture := row.posture.(threatMatch := input.threats != []))
    ensures EffectiveValues(marked, input.metadata, input.analysis) ==
            EffectiveValues(row, input.metadata, input.analysis)
    ensures RiskOf(marked, input) == RiskOf(row, input)
  {
    assert SignalsOf(marked, input) == SignalsOf(row, input);
  }

  class Extension {
    var publisher: string
    var version: string
    var permissions: set<string>
    var packageAnalysis: Option<AnalysisData>
    var installCount: Option<int>
    var lastUpdated: Option<int>
    var lastFetchedAt: Option<int>
    var heuristicRiskScore: Option<int>
    var riskScore: Option<int>
    var riskDetail: Option<P.Detail>
    var riskOverride: Override
    var triageStatus: string
    var threatMatch: bool
    var pendingAlertEvents: Marker
    var snapshots: seq<Snapshot>
    var installReadings: seq<int>

    function GetPosture(): P.Posture
      reads this
    {
      P.Posture(heuristicRiskScore, riskScore, riskDetail, threatMatch, riskOverride)
    }

    function ToRow(): Row
      reads this
    {
      Row(publisher, version, permissions, packageAnalysis, installCount, lastUpdated, lastFetchedAt,
          GetPosture(), pendingAlertEvents, snapshots, installReadings)
    }

    /** A placeholder as enrolment creates it. */
    constructor ()
      ensures ToRow() == ENROLLED && triageStatus == "new"
    {
      publisher, version, permissions, packageAnalysis := "", "", {}, None;
      installCount, lastUpdated, lastFetchedAt := None, None, None;
      heuristicRiskScore, riskScore, riskDetail, riskOverride, threatMatch := None, None, None, NoOverride, false;
      triageStatus, pendingAlertEvents, snapshots, installReadings := "new", Null, [], [];
    }

    // ---------------------------------------------------------------- the marker

    method MergePendingEvents(events: seq<ChangeEvent>) returns (appended: seq<ChangeEvent>)
      modifies this`pendingAlertEvents
      ensures pendingAlertEvents == MergedMarker(old(pendingAlertEvents), events)
      ensures appended == Fresh(Parsed(old(pendingAlertEvents)), events)
    {
      var prior := ParsePendingEvents(pendingAlertEvents);
      var pending := prior;
      appended := [];
      assert events[0..] == events;
      for i := 0 to |events|
        invariant pending == prior + appended
        invariant appended + Fresh(pending, events[i..]) == Fresh(prior, events)
      {
        assert events[i..][0] == events[i] && events[i..][1..] == events[i + 1..];
        if events[i] !in pending {
          pending := pending + [events[i]];
          appended := appended + [events[i]];
        }
      }
      pendingAlertEvents := Dumped(pending);
    }

    method AckPendingEvents(events: seq<ChangeEvent>)
      modifies this`pendingAlertEvents
      ensures pendingAlertEvents ==
              if events == [] then old(pendingAlertEvents) else AckedMarker(old(pendingAlertEvents), events)
    {
      if events == [] {
        return;
      }
      var prior := ParsePendingEvents(pendingAlertEvents);
      var pending := prior;
      assert events[0..] == events;
      for i := 0 to |events|
        invariant RemoveAll(pending, events[i..]) == RemoveAll(prior, events)
      {
        assert events[i..][0] == events[i] && events[i..][1..] == events[i + 1..];
        pending := RemoveFirst(pending, events[i]);
      }
      pendingAlertEvents := Dumped(pending);
    }

    method ClearPendingAlerts(expected: Marker)
      modifies this`pendingAlertEvents
      ensures pendingAlertEvents == ClearedMarker(old(pendingAlertEvents), expected)
    {
      if pendingAlertEvents == expected {
        pendingAlertEvents := Null;
      }
    }

    // ---------------------------------------------------------------- fetch

    method ApplyThreatFinding(threats: seq<ThreatEntry>)
      modifies this`packageAnalysis
      ensures packageAnalysis == WithThreatFinding(old(packageAnalysis), threats)
    {
      if packageAnalysis.None? && threats == [] {
        return;
      }
      var data := if packageAnalysis.Some? then packageAnalysis.value
                  else AnalysisData(NotAList, NotAList, NotAList, NoFindingList, false);
      var findings := WithoutThreatFindings(if data.findings.FindingItems? then data.findings.items else []);
      assert findings + [] == findings;
      if threats != [] {
        findings := findings + [ThreatFinding(threats)];
      }
      packageAnalysis := Some(data.(findings := FindingItems(findings)));
    }

    /** The shared tail of threat ingestion and triage. */
    method RecomputePosture()
      modifies this`heuristicRiskScore, this`riskScore, this`riskDetail
      ensures GetPosture() == P.Recomputed(old(GetPosture()))
    {
      var detail := if riskDetail.Some? then riskDetail.value else map[];
      heuristicRiskScore := P.RecoverHeuristic(heuristicRiskScore, riskScore, detail);
      riskScore := EffectiveRiskScore(heuristicRiskScore, threatMatch, riskOverride);
      detail := detail[P.Total := P.ScoreValue(riskScore)];
      detail := detail[P.Level := P.LevelValue(GetPosture())];
      riskDetail := Some(detail);
    }

    /** The scored part of ``_apply_fetch_results``. */
    method StoreRisk(risk: RiskDetail)
      modifies this`heuristicRiskScore, this`riskScore, this`riskDetail
      ensures GetPosture() == P.Fetched(old(GetPosture()), risk, threatMatch)
    {
      heuristicRiskScore := Some(risk.total);
      riskScore := EffectiveRiskScore(Some(risk.total), threatMatch, riskOverride);
      var detail := P.StoredDetail(risk);
      detail := detail[P.Total := P.ScoreValue(riskScore)];
      detail := detail[P.Level := P.LevelValue(GetPosture())];
      riskDetail := Some(detail);
    }

    /** The fetched part of ``_apply_fetch_results``. */
    method StoreFetched(input: FetchInput, effective: Effective)
      modifies this`publisher, this`version, this`permissions, this`packageAnalysis, this`installCount,
               this`lastUpdated, this`lastFetchedAt
      ensures publisher == effective.publisher
      ensures version == ObservedVersion(old(version), input)
      ensures installCount == effective.installCount && lastUpdated == effective.lastUpdated
      ensures lastFetchedAt == Some(input.now)
      ensures permissions == if input.analysis.Some? then effective.permissions else old(permissions)
      ensures packageAnalysis ==
              if input.analysis.Some? then Some(input.analysis.value.ToData()) else old(packageAnalysis)
    {
      publisher := effective.publisher;
      if input.analysis.Some? && input.analysis.value.version != "" {
        version := input.analysis.value.version;
      } else if input.metadata.version != "" {
        version := input.metadata.version;
      }
      installCount := effective.installCount;
      lastUpdated := effective.lastUpdated;
      lastFetchedAt := Some(input.now);
      if input.analysis.Some? {
        permissions := effective.permissions;
        packageAnalysis := Some(input.analysis.value.ToData());
      }
    }

    method CapturePackageSnapshot(analysis: Option<PackageAnalysis>)
      returns (from: Option<string>, diff: Option<CapabilityDiff>)
      modifies this`snapshots
      ensures (snapshots, from, diff) == Captured(old(ToRow()), analysis)
    {
      from, diff := None, None;
      if analysis.None? || !analysis.value.complete || version == "" {
        return;
      }
      var data := analysis.value.ToData();
      var inserted := !HasVersion(snapshots, version);
      if !inserted {
        return;
      }
      if snapshots != [] {
        var previous := snapshots[|snapshots| - 1];
        from := Some(previous.version);
        diff := ComputeDiff(previous.data, data);
      }
      snapshots := snapshots + [Snapshot(version, data)];
    }

    method ApplyFetchResults(input: FetchInput, effective: Effective, risk: RiskDetail)
      requires threatMatch == (input.threats != [])
      modifies this`publisher, this`version, this`permissions, this`packageAnalysis, this`installCount,
               this`lastUpdated, this`lastFetchedAt, this`heuristicRiskScore, this`riskScore, this`riskDetail,
               this`installReadings
      ensures ToRow() == AppliedWith(old(ToRow()), input, effective, risk)
    {
      StoreRisk(risk);
      StoreFetched(input, effective);
      if input.metadata.installCount.Some? {
        installReadings := installReadings + [input.metadata.installCount.value];
      }
    }

    method StoreValues(input: FetchInput)
      modifies this`publisher, this`version, this`permissions, this`packageAnalysis, this`installCount,
               this`lastUpdated, this`lastFetchedAt, this`heuristicRiskScore, this`riskScore, this`riskDetail,
               this`installReadings, this`threatMatch
      ensures ToRow() == AppliedRow(old(ToRow()), input)
    {
      ghost var before := ToRow();
      threatMatch := input.threats != [];
      var effective, risk := EffectiveValues(ToRow(), input.metadata, input.analysis), RiskOf(ToRow(), input);
      ValuesIgnoreThreatFlag(before, ToRow(), input);
      ApplyFetchResults(input, effective, risk);
      assert ToRow() == AppliedWith(before, input, effective, risk);
    }

    /** Everything a fetch stores except the marker. */
    method StoreFetch(input: FetchInput) returns (from: Option<string>, diff: Option<CapabilityDiff>)
      modifies this`publisher, this`version, this`permissions, this`packageAnalysis, this`installCount,
               this`lastUpdated, this`lastFetchedAt, this`heuristicRiskScore, this`riskScore, this`riskDetail,
               this`installReadings, this`threatMatch, this`snapshots
      ensures ToRow() == StoredRow(old(ToRow()), input)
      ensures (StoredRow(old(ToRow()), input).snapshots, from, diff) == CapturedBy(old(ToRow()), input)
    {
      StoreValues(input);
      ApplyThreatFinding(input.threats);
      from, diff := CapturePackageSnapshot(input.analysis);
    }

    /** One successful fetch: the events it owns are the ones it appended to the marker. */
    method FetchAndStore(input: FetchInput) returns (events: seq<ChangeEvent>)
      modifies this
      ensures ToRow() == FetchedRow(old(ToRow()), input)
      ensures events == Fresh(Parsed(old(pendingAlertEvents)), FetchDetected(old(ToRow()), input))
      ensures triageStatus == old(triageStatus)
    {
      var before := ToRow();
      var from, diff := StoreFetch(input);
      events := DetectChanges(before, ToRow(), from, diff, input.threats);
      if Degraded(input.analysis) {
        events := MetadataEvents(events);
      }
      assert events == FetchDetected(before, input);
      events := MergePendingEvents(events);
    }

    // ---------------------------------------------------------------- threat ingestion and triage

    method MarkThreat(threats: seq<ThreatEntry>)
      modifies this`threatMatch, this`packageAnalysis
      ensures packageAnalysis == WithThreatFinding(old(packageAnalysis), threats)
      ensures GetPosture() == old(GetPosture()).(threatMatch := true)
    {
      threatMatch := true;
      ApplyThreatFinding(threats);
    }

    method LayThreatPosture(threats: seq<ThreatEntry>)
      requires threats != []
      modifies this`threatMatch, this`packageAnalysis, this`heuristicRiskScore, this`riskScore, this`riskDetail
      ensures ToRow() == MatchedRow(old(ToRow()), threats)
    {
      MarkThreat(threats);
      RecomputePosture();
    }

    method ApplyThreatMatch(threats: seq<ThreatEntry>) returns (events: seq<ChangeEvent>)
      requires threats != []
      modifies this
      ensures ToRow() == ThreatenedRow(old(ToRow()), threats)
      ensures events == Fresh(Parsed(old(pendingAlertEvents)), ThreatDetected(old(ToRow()), threats))
      ensures triageStatus == old(triageStatus)
    {
      var before := ToRow();
      LayThreatPosture(threats);
      events := DetectChanges(before, ToRow(), None, None, threats);
      events := MergePendingEvents(events);
    }

    method UpdateTriage(patch: TriagePatch) returns (r: Result<(), TriageError>)
      modifies this
      ensures r.Failure? <==>
              || (patch.triageStatus.None? && patch.riskOverride.None? && !patch.otherSupplied)
              || patch.triageStatus == Some(None)
              || patch.riskOverride == Some(None)
      ensures r.Failure? ==> ToRow() == old(ToRow()) && triageStatus == old(triageStatus)
      ensures r.Success? ==>
                && ToRow() == TriagedRow(old(ToRow()),
                                         if patch.riskOverride.Some? then patch.riskOverride.value else None)
                && triageStatus ==
                    if patch.triageStatus.Some? then patch.triageStatus.value.value else old(triageStatus)
      // In plain terms: the policy afterwards, and what it makes of the score.
      ensures r.Success? ==> riskOverride == if patch.riskOverride.Some? then patch.riskOverride.value.value
                                             else old(riskOverride)
      ensures r.Success? && (riskOverride == Deny || threatMatch) ==> riskScore == Some(100)
      ensures r.Success? && riskOverride == Allow && !threatMatch ==> riskScore == Some(0)
      ensures r.Success? && riskOverride == NoOverride && !threatMatch ==> riskScore == heuristicRiskScore
      ensures old(heuristicRiskScore).Some? ==> heuristicRiskScore == old(heuristicRiskScore)
    {
      if patch.triageStatus.None? && patch.riskOverride.None? && !patch.otherSupplied {
        return Failure(NothingSupplied);
      }
      if patch.triageStatus == Some(None) {
        return Failure(NullStatus);
      }
      if patch.riskOverride == Some(None) {
        return Failure(NullOverride);
      }
      if patch.triageStatus.Some? {
        triageStatus := patch.triageStatus.value.value;
      }
      if patch.riskOverride.Some? {
        riskOverride := patch.riskOverride.value.value;
      }
      RecomputePosture();
      return Success(());
    }
  }
}
