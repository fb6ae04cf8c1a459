/**
 One tracked extension with its snapshots and install readings, and the transactions that
 change it: a fetch, threat ingestion, triage, and the three marker operations
 (app/models.py, app/services.py, app/notifications.py).

 ``Row`` is the value of the record; each transaction is specified as a function on it.  Class
 ``Extension`` performs the transactions the way the source does, field by field.
 */
module Extensions {
  import opened Wrappers
  import opened ChangeEvents
  import opened PendingAlerts
  import opened PackageDiff
  import opened Scoring
  import P = Posture

  const MAX_REASON_LENGTH := 1000

  datatype ThreatEntry = ThreatEntry(source: string, reason: Option<string>)

  /** What a store scrape yields; empty strings and ``None`` mark what it could not parse. */
  datatype Metadata = Metadata(
    version: string, publisher: string, installCount: Option<int>, publisherVerified: Option<bool>,
    lastUpdated: Option<int>)

  /** What inspecting a downloaded package yields; ``complete`` is false for a manifest-only package. */
  datatype PackageAnalysis = PackageAnalysis(
    version: string, author: string, complete: bool,
    permissions: seq<string>, hostPermissions: seq<string>, externalDomains: seq<string>, findings: seq<Finding>,
    usesEval: bool, usesRemoteCode: bool, obfuscationScore: int)
  {
    /** The stored form; version and author are not stored. */
    function ToData(): AnalysisData {
      AnalysisData(Listed(permissions), Listed(hostPermissions), Listed(externalDomains),
                   FindingItems(seq(|findings|, i requires 0 <= i < |findings| => WellFormed(findings[i]))),
                   usesRemoteCode)
    }

    static function Listed(strings: seq<string>): Strings {
      Items(seq(|strings|, i requires 0 <= i < |strings| => Str(strings[i])))
    }

    /** The form scoring reads. */
    function ToCode(): CodeAnalysis {
      CodeAnalysis(seq(|findings|, i requires 0 <= i < |findings| =>
                         ScoredFinding(findings[i].code, findings[i].severity, findings[i].source)),
                   usesEval, usesRemoteCode, obfuscationScore, Members(externalDomains))
    }
  }

  function Members(strings: seq<string>): set<string> { set s | s in strings }

  datatype Snapshot = Snapshot(version: string, data: AnalysisData)

  datatype Row = Row(
    publisher: string, version: string, permissions: set<string>, packageAnalysis: Option<AnalysisData>,
    installCount: Option<int>, lastUpdated: Option<int>, lastFetchedAt: Option<int>,
    posture: P.Posture, pending: Marker,
    snapshots: seq<Snapshot>, installReadings: seq<int>)

  const ENROLLED := Row("", "", {}, None, None, None, None, P.ENROLLED, Null, [], [])

  /** Everything a fetch transaction reads besides the row. ``threats`` are the threat-list entries
      naming the extension when the row lock is taken. */
  datatype FetchInput = FetchInput(
    naming: Naming, metadata: Metadata, analysis: Option<PackageAnalysis>, threats: seq<ThreatEntry>, now: int)

  function HostPermissions(row: Row): set<string> {
    if row.packageAnalysis.Some? then StringsOf(row.packageAnalysis.value.hostPermissions) else {}
  }

  // ------------------------------------------------------------------ fetch: values

  datatype Effective = Effective(
    permissions: set<string>, hostPermissions: set<string>, publisher: string, publisherChanged: bool,
    installCount: Option<int>, lastUpdated: Option<int>)

  /** ``_effective_values``: what a partial scrape or a missing package leaves to the stored row. */
  function EffectiveValues(row: Row, md: Metadata, analysis: Option<PackageAnalysis>): Effective {
    Effective(
      if analysis.Some? then Members(analysis.value.permissions) else row.permissions,
      if analysis.Some? then Members(analysis.value.hostPermissions) else HostPermissions(row),
      if md.publisher != "" then md.publisher
      else if row.publisher != "" then row.publisher
      else if analysis.Some? then analysis.value.author else "",
      row.lastFetchedAt.Some? && row.publisher != "" && md.publisher != "" && row.publisher != md.publisher,
      if md.installCount.Some? then md.installCount else row.installCount,
      if md.lastUpdated.Some? then md.lastUpdated else row.lastUpdated)
  }

  /** The two most recent stored readings, which is all the staging query loads. */
  function LastTwo(readings: seq<int>): seq<int> {
    if |readings| <= 2 then readings else readings[|readings| - 2..]
  }

  function OneReading(reading: Option<int>): seq<int> { if reading.Some? then [reading.value] else [] }

  /** The history ``_stage_install_reading`` returns. */
  function StagedHistory(readings: seq<int>, reading: Option<int>): seq<int> { LastTwo(readings) + OneReading(reading) }

  /** ``history[-2]``. */
  function PreviousCount(history: seq<int>): Option<int> {
    if |history| >= 2 then Some(history[|history| - 2]) else None
  }

  /** Loading two readings instead of the whole history changes no score: the reading before the
      latest one is the same. */
  lemma TwoReadingsSuffice(readings: seq<int>, reading: Option<int>)
    ensures PreviousCount(StagedHistory(readings, reading)) == PreviousCount(readings + OneReading(reading))
  {
  }

  const SECONDS_PER_DAY := 86400

  function SignalsOf(row: Row, input: FetchInput): Signals {
    var e := EffectiveValues(row, input.metadata, input.analysis);
    Signals(e.permissions, e.hostPermissions, e.installCount,
            PreviousCount(StagedHistory(row.installReadings, input.metadata.installCount)),
            e.publisher, e.publisherChanged, input.metadata.publisherVerified,
            if e.lastUpdated.Some? then Some((input.now - e.lastUpdated.value) / SECONDS_PER_DAY) else None,
            if input.analysis.Some? then Some(input.analysis.value.ToCode()) else None)
  }

  function RiskOf(row: Row, input: FetchInput): RiskDetail {
    ComputeRiskScore(input.naming, SignalsOf(row, input))
  }

  /** The version of the inspected bytes first, then the scraped one, then the stored one. */
  function ObservedVersion(stored: string, input: FetchInput): string {
    if input.analysis.Some? && input.analysis.value.version != "" then input.analysis.value.version
    else if input.metadata.version != "" then input.metadata.version
    else stored
  }

  /** The row after the install reading is staged and ``_apply_fetch_results`` has stored the
      effective values and a score. */
  function AppliedWith(row: Row, input: FetchInput, e: Effective, risk: RiskDetail): Row {
    row.(publisher := e.publisher,
         version := ObservedVersion(row.version, input),
         permissions := if input.analysis.Some? then e.permissions else row.permissions,
         packageAnalysis := if input.analysis.Some? then Some(input.analysis.value.ToData()) else row.packageAnalysis,
         installCount := e.installCount,
         lastUpdated := e.lastUpdated,
         lastFetchedAt := Some(input.now),
         posture := P.Fetched(row.posture, risk, input.threats != []),
         installReadings := row.installReadings + OneReading(input.metadata.installCount))
  }

  function AppliedRow(row: Row, input: FetchInput): Row {
    AppliedWith(row, input, EffectiveValues(row, input.metadata, input.analysis), RiskOf(row, input))
  }

  // ------------------------------------------------------------------ threat finding

  function ThreatDetail(threats: seq<ThreatEntry>): string {
    if threats == [] then ""
    else
      var e := threats[0];
      (if e.reason.Some? && e.reason.value != "" then e.source + ": " + e.reason.value else e.source)
      + (if |threats| > 1 then "; " else "") + ThreatDetail(threats[1..])
  }

  function ThreatFinding(threats: seq<ThreatEntry>): FindingItem {
    var detail := ThreatDetail(threats);
    WellFormed(Finding("threat_match", "critical", "Known-bad extension matched a threat list",
                       if |detail| <= MAX_REASON_LENGTH then detail else detail[..MAX_REASON_LENGTH],
                       "threat_list", None, None))
  }

  predicate IsThreatFinding(item: FindingItem) {
    match item
    case WellFormed(f) => f.code == "threat_match"
    case Malformed(tagged) => tagged
  }

  function Own(item: FindingItem): seq<FindingItem> { if IsThreatFinding(item) then [] else [item] }

  function WithoutThreatFindings(items: seq<FindingItem>): seq<FindingItem> {
    if items == [] then [] else Own(items[0]) + WithoutThreatFindings(items[1..])
  }

  /** ``_apply_threat_finding``: the synthetic finding is replaced or removed, all else is kept. */
  function WithThreatFinding(analysis: Option<AnalysisData>, threats: seq<ThreatEntry>): Option<AnalysisData> {
    if analysis.None? && threats == [] then None
    else
      var data := if analysis.Some? then analysis.value
                  else AnalysisData(NotAList, NotAList, NotAList, NoFindingList, false);
      var items := if data.findings.FindingItems? then data.findings.items else [];
      Some(data.(findings := FindingItems(
        WithoutThreatFindings(items) + (if threats == [] then [] else [ThreatFinding(threats)]))))
  }

  // ------------------------------------------------------------------ snapshots

  predicate HasVersion(snapshots: seq<Snapshot>, version: string) {
    exists i :: 0 <= i < |snapshots| && snapshots[i].version == version
  }

  /** Whether ``_capture_package_snapshot`` inserts a snapshot. */
  predicate Captures(row: Row, analysis: Option<PackageAnalysis>) {
    analysis.Some? && analysis.value.complete && row.version != "" && !HasVersion(row.snapshots, row.version)
  }

  /** The snapshots afterwards, and the previous version with the diff from it. */
  function Captured(row: Row, analysis: Option<PackageAnalysis>)
    : (seq<Snapshot>, Option<string>, Option<CapabilityDiff>)
  {
    if !Captures(row, analysis) then (row.snapshots, None, None)
    else
      var data := analysis.value.ToData();
      var after := row.snapshots + [Snapshot(row.version, data)];
      if row.snapshots == [] then (after, None, None)
      else
        var previous := row.snapshots[|row.snapshots| - 1];
        (after, Some(previous.version), DiffAnalysis(previous.data, data))
  }

  // ------------------------------------------------------------------ detection

  function ThreatValue(threats: seq<ThreatEntry>): Value {
    if threats == [] then Json("{\"matched\": true}")
    else ThreatSources(seq(|threats|, i requires 0 <= i < |threats| => (threats[i].source, threats[i].reason)))
  }

  function When(condition: bool, event: ChangeEvent): seq<ChangeEvent> { if condition then [event] else [] }

  function AllPermissions(row: Row): set<string> { row.permissions + HostPermissions(row) }

  function RiskLevelEvents(before: Option<int>, after: Option<int>): seq<ChangeEvent> {
    match (RiskLevel(before), RiskLevel(after))
    case (Some(from), Some(to)) => When(from != to, ChangeEvent(RiskLevelChange, Band(from), Band(to)))
    case _ => []
  }

  function PublisherEvents(before: string, after: string): seq<ChangeEvent> {
    When(before != "" && after != "" && before != after, ChangeEvent(PublisherChange, Text(before), Text(after)))
  }

  function PermissionEvents(before: set<string>, after: set<string>): seq<ChangeEvent> {
    When(before != after, ChangeEvent(PermissionChange, Names(before), Names(after)))
  }

  function VersionEvents(before: string, after: string): seq<ChangeEvent> {
    When(before != "" && after != "" && before != after, ChangeEvent(NewVersion, Text(before), Text(after)))
  }

  function CapabilityEventOf(from: string, to: string, diff: CapabilityDiff): ChangeEvent {
    ChangeEvent(CapabilityChange, Version(from), VersionDiff(to, diff))
  }

  function CapabilityEvents(from: Option<string>, to: string, diff: Option<CapabilityDiff>): seq<ChangeEvent> {
    if from.Some? && from.value != "" && diff.Some? then [CapabilityEventOf(from.value, to, diff.value)] else []
  }

  function ThreatEvents(before: Row, row: Row, threats: seq<ThreatEntry>): seq<ChangeEvent> {
    When(!before.posture.threatMatch && row.posture.threatMatch,
         ChangeEvent(ThreatMatch, Nothing, ThreatValue(threats)))
  }

  /** ``detect_changes``: what differs between two states of the row, in the source's order. */
  function Detected(before: Row, row: Row, capabilityFrom: Option<string>, diff: Option<CapabilityDiff>,
                    threats: seq<ThreatEntry>): seq<ChangeEvent>
  {
    if before.lastFetchedAt.None? then ThreatEvents(before, row, threats)
    else
      RiskLevelEvents(before.posture.riskScore, row.posture.riskScore)
      + PublisherEvents(before.publisher, row.publisher)
      + PermissionEvents(AllPermissions(before), AllPermissions(row))
      + VersionEvents(before.version, row.version)
      + CapabilityEvents(capabilityFrom, row.version, diff)
      + ThreatEvents(before, row, threats)
  }

  predicate Degraded(analysis: Option<PackageAnalysis>) { analysis.Some? && !analysis.value.complete }

  /** What a degraded package may still report. */
  function MetadataEvents(events: seq<ChangeEvent>): seq<ChangeEvent> {
    if events == [] then []
    else (if events[0].eventType.PublisherChange? || events[0].eventType.NewVersion? then [events[0]] else [])
         + MetadataEvents(events[1..])
  }

  // ------------------------------------------------------------------ transactions

  function FlaggedRow(row: Row, input: FetchInput): Row {
    var applied := AppliedRow(row, input);
    applied.(packageAnalysis := WithThreatFinding(applied.packageAnalysis, input.threats))
  }

  function CapturedBy(row: Row, input: FetchInput): (seq<Snapshot>, Option<string>, Option<CapabilityDiff>) {
    Captured(FlaggedRow(row, input), input.analysis)
  }

  /** The row a fetch stores, its marker still untouched. */
  function StoredRow(row: Row, input: FetchInput): Row {
    FlaggedRow(row, input).(snapshots := CapturedBy(row, input).0)
  }

  function FetchDetected(row: Row, input: FetchInput): seq<ChangeEvent> {
    var (_, from, diff) := CapturedBy(row, input);
    var all := Detected(row, StoredRow(row, input), from, diff, input.threats);
    if Degraded(input.analysis) then MetadataEvents(all) else all
  }

  /** The row after ``fetch_and_store``. */
  function FetchedRow(row: Row, input: FetchInput): Row {
    var stored := StoredRow(row, input);
    stored.(pending := MergedMarker(stored.pending, FetchDetected(row, input)))
  }

  /** The row with the threat posture that ``apply_threat_matches`` lays on it. */
  function MatchedRow(row: Row, threats: seq<ThreatEntry>): Row {
    row.(packageAnalysis := WithThreatFinding(row.packageAnalysis, threats), posture := P.ThreatApplied(row.posture))
  }

  function ThreatDetected(row: Row, threats: seq<ThreatEntry>): seq<ChangeEvent> {
    Detected(row, MatchedRow(row, threats), None, None, threats)
  }

  /** ``apply_threat_matches`` on one row that the threat list names. */
  function ThreatenedRow(row: Row, threats: seq<ThreatEntry>): Row {
    MatchedRow(row, threats).(pending := MergedMarker(row.pending, ThreatDetected(row, threats)))
  }

  function TriagedRow(row: Row, policy: Option<Override>): Row {
    row.(posture := P.Triaged(row.posture, policy))
  }
}
