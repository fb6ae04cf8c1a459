/**
 What the detected change events say over whole runs of one extension's transactions, whatever
 the scrapes and packages look like (app/services.py, app/notifications.py).
 */
module FetchRuns {
  import opened Wrappers
  import opened Sequences
  import opened ChangeEvents
  import opened PendingAlerts
  import opened PackageDiff
  import opened Scoring
  import opened Extensions
  import P = Posture

  /** What is committed to one extension's row. A refresh is a posture check, which applies the threat
      entries it finds, and later a fetch, which reads the threat list again; anything may be committed in
      between. An ingestion that looked its rows up before this one was enrolled names the extension in
      the list without touching the row. */
  datatype Step =
    | CheckPosture(threats: seq<ThreatEntry>)
    | Fetch(input: FetchInput)
    | IngestThreat(threats: seq<ThreatEntry>)
    | MissedIngestion
    | Triage(policy: Option<Override>)
    | Deliveries(marker: Marker)     // acknowledgements and clears leave some other marker
  {
    /** The entries that a posture check or an ingestion lays on the row. */
    function Applied(): seq<ThreatEntry> { if CheckPosture? || IngestThreat? then threats else [] }
  }

  function Next(row: Row, step: Step): Row {
    match step
    case Fetch(input) => FetchedRow(row, input)
    case Triage(policy) => TriagedRow(row, policy)
    case Deliveries(marker) => row.(pending := marker)
    case _ => if step.Applied() != [] then ThreatenedRow(row, step.Applied()) else row
  }

  /** The events a step detects. */
  function EventsOf(row: Row, step: Step): seq<ChangeEvent> {
    match step
    case Fetch(input) => FetchDetected(row, input)
    case _ => if step.Applied() != [] then ThreatDetected(row, step.Applied()) else []
  }

  /** The row after a run from enrolment; the newest step is the last. */
  function Run(steps: seq<Step>): Row {
    if steps == [] then ENROLLED else Next(Run(Earlier(steps)), Last(steps))
  }

  /** Every event detected in the run, in commit order. */
  function Log(steps: seq<Step>): seq<ChangeEvent> {
    if steps == [] then [] else Log(Earlier(steps)) + EventsOf(Run(Earlier(steps)), Last(steps))
  }

  function Earlier(steps: seq<Step>): (r: seq<Step>)
    requires steps != []
    ensures |r| < |steps|
  {
    steps[..|steps| - 1]
  }

  function Last(steps: seq<Step>): Step
    requires steps != []
  {
    steps[|steps| - 1]
  }

  // ------------------------------------------------------------------ the events of one type

  ghost predicate AllOfType(events: seq<ChangeEvent>, t: EventType) {
    forall i | 0 <= i < |events| :: events[i].eventType == t
  }

  lemma {:induction false} OfTypeUniform(events: seq<ChangeEvent>, u: EventType, t: EventType)
    requires AllOfType(events, u)
    ensures OfType(events, t) == if t == u then events else []
  {
    if events != [] {
      OfTypeUniform(events[1..], u, t);
    }
  }

  lemma {:induction false} MetadataEventsOfType(events: seq<ChangeEvent>, t: EventType)
    ensures OfType(MetadataEvents(events), t) ==
            if t == PublisherChange || t == NewVersion then OfType(events, t) else []
  {
    if events != [] {
      MetadataEventsOfType(events[1..], t);
      var head := if events[0].eventType.PublisherChange? || events[0].eventType.NewVersion? then [events[0]] else [];
      OfTypeConcat(head, MetadataEvents(events[1..]), t);
    }
  }

  lemma OfTypeOfParts(risk: seq<ChangeEvent>, publisher: seq<ChangeEvent>, permission: seq<ChangeEvent>,
                      version: seq<ChangeEvent>, capability: seq<ChangeEvent>, threat: seq<ChangeEvent>, t: EventType)
    requires AllOfType(risk, RiskLevelChange) && AllOfType(publisher, PublisherChange)
    requires AllOfType(permission, PermissionChange) && AllOfType(version, NewVersion)
    requires AllOfType(capability, CapabilityChange) && AllOfType(threat, ThreatMatch)
    ensures OfType(risk + publisher + permission + version + capability + threat, t) ==
            match t {
              case RiskLevelChange => risk
              case PublisherChange => publisher
              case PermissionChange => permission
              case NewVersion => version
              case CapabilityChange => capability
              case ThreatMatch => threat
              case OtherType(_) => []
            }
  {
    OfTypeOfSum(risk, publisher, permission, version, capability, threat, t);
    OfTypeUniform(risk, RiskLevelChange, t);
    OfTypeUniform(publisher, PublisherChange, t);
    OfTypeUniform(permission, PermissionChange, t);
    OfTypeUniform(version, NewVersion, t);
    OfTypeUniform(capability, CapabilityChange, t);
    OfTypeUniform(threat, ThreatMatch, t);
    SumWithOnePart(OfType(risk, t), OfType(publisher, t), OfType(permission, t), OfType(version, t),
                   OfType(capability, t), OfType(threat, t));
  }

  lemma OfTypeOfSum(a: seq<ChangeEvent>, b: seq<ChangeEvent>, c: seq<ChangeEvent>, d: seq<ChangeEvent>,
                    e: seq<ChangeEvent>, f: seq<ChangeEvent>, t: EventType)
    ensures OfType(a + b + c + d + e + f, t) ==
            OfType(a, t) + OfType(b, t) + OfType(c, t) + OfType(d, t) + OfType(e, t) + OfType(f, t)
  {
    OfTypeConcat(a, b, t);
    OfTypeConcat(a + b, c, t);
    OfTypeConcat(a + b + c, d, t);
    OfTypeConcat(a + b + c + d, e, t);
    OfTypeConcat(a + b + c + d + e, f, t);
  }

  lemma SumWithOnePart<T>(a: seq<T>, b: seq<T>, c: seq<T>, d: seq<T>, e: seq<T>, f: seq<T>)
    ensures b == c == d == e == f == [] ==> a + b + c + d + e + f == a
    ensures a == c == d == e == f == [] ==> a + b + c + d + e + f == b
    ensures a == b == d == e == f == [] ==> a + b + c + d + e + f == c
    ensures a == b == c == e == f == [] ==> a + b + c + d + e + f == d
    ensures a == b == c == d == f == [] ==> a + b + c + d + e + f == e
    ensures a == b == c == d == e == [] ==> a + b + c + d + e + f == f
  {
  }

  /** What ``detect_changes`` yields, type by type. */
  lemma DetectedOfType(before: Row, row: Row, from: Option<string>, diff: Option<CapabilityDiff>,
                       threats: seq<ThreatEntry>)
    ensures var events := Detected(before, row, from, diff, threats);
            var first := before.lastFetchedAt.None?;
            && OfType(events, PublisherChange) ==
                (if first then [] else PublisherEvents(before.publisher, row.publisher))
            && OfType(events, PermissionChange) ==
                 (if first then [] else PermissionEvents(AllPermissions(before), AllPermissions(row)))
            && OfType(events, NewVersion) == (if first then [] else VersionEvents(before.version, row.version))
            && OfType(events, CapabilityChange) ==
                (if first then [] else Extensions.CapabilityEvents(from, row.version, diff))
  {
    var threat := ThreatEvents(before, row, threats);
    forall t: EventType | t != ThreatMatch ensures OfType(threat, t) == [] {
      OfTypeUniform(threat, ThreatMatch, t);
    }
    if before.lastFetchedAt.Some? {
      var risk := RiskLevelEvents(before.posture.riskScore, row.posture.riskScore);
      var publisher := PublisherEvents(before.publisher, row.publisher);
      var permission := PermissionEvents(AllPermissions(before), AllPermissions(row));
      var version := VersionEvents(before.version, row.version);
      var capability := Extensions.CapabilityEvents(from, row.version, diff);
      OfTypeOfParts(risk, publisher, permission, version, capability, threat, PublisherChange);
      OfTypeOfParts(risk, publisher, permission, version, capability, threat, PermissionChange);
      OfTypeOfParts(risk, publisher, permission, version, capability, threat, NewVersion);
      OfTypeOfParts(risk, publisher, permission, version, capability, threat, CapabilityChange);
    }
  }

  lemma OtherStepsKeep(row: Row, step: Step)
    requires !step.Fetch?
    ensures Next(row, step).version == row.version && Next(row, step).publisher == row.publisher
    ensures Next(row, step).snapshots == row.snapshots && Next(row, step).lastFetchedAt == row.lastFetchedAt
  {
  }

  /** The events of the types that form chains: those of a fetch. */
  lemma FetchEventsOfType(row: Row, input: FetchInput)
    ensures var events, after := FetchDetected(row, input), FetchedRow(row, input);
            var silent := row.lastFetchedAt.None?;
            && OfType(events, NewVersion) == (if silent then [] else VersionEvents(row.version, after.version))
            && OfType(events, PublisherChange) ==
                (if silent then [] else PublisherEvents(row.publisher, after.publisher))
  {
    var (_, from, diff) := CapturedBy(row, input);
    var all := Detected(row, StoredRow(row, input), from, diff, input.threats);
    DetectedOfType(row, StoredRow(row, input), from, diff, input.threats);
    MetadataEventsOfType(all, NewVersion);
    MetadataEventsOfType(all, PublisherChange);
  }

  /** An ingestion or a posture check changes neither, and reports neither. */
  lemma OtherEventsOfType(row: Row, step: Step)
    requires !step.Fetch?
    ensures OfType(EventsOf(row, step), NewVersion) == OfType(EventsOf(row, step), PublisherChange) == []
    ensures Next(row, step).version == row.version && Next(row, step).publisher == row.publisher
  {
    OtherStepsKeep(row, step);
    ThreatDetectedOfType(row, step.Applied());
  }

  lemma ThreatDetectedOfType(row: Row, threats: seq<ThreatEntry>)
    ensures OfType(ThreatDetected(row, threats), NewVersion) == []
    ensures OfType(ThreatDetected(row, threats), PublisherChange) == []
    ensures OfType(ThreatDetected(row, threats), CapabilityChange) == []
  {
    DetectedOfType(row, MatchedRow(row, threats), None, None, threats);
  }

  /** The same, step by step. */
  lemma EventsOfType(row: Row, step: Step)
    ensures var events, after := EventsOf(row, step), Next(row, step);
            var silent := row.lastFetchedAt.None?;
            && OfType(events, NewVersion) == (if silent then [] else VersionEvents(row.version, after.version))
            && OfType(events, PublisherChange) ==
                (if silent then [] else PublisherEvents(row.publisher, after.publisher))
  {
    if step.Fetch? {
      FetchEventsOfType(row, step.input);
    } else {
      OtherEventsOfType(row, step);
    }
  }

  /** A fetch's permission events: none on a first fetch or from a degraded package. */
  lemma FetchPermissionEvents(row: Row, input: FetchInput)
    ensures OfType(FetchDetected(row, input), PermissionChange) ==
            if row.lastFetchedAt.None? || Degraded(input.analysis) then []
            else PermissionEvents(AllPermissions(row), AllPermissions(FetchedRow(row, input)))
  {
    var (_, from, diff) := CapturedBy(row, input);
    var all := Detected(row, StoredRow(row, input), from, diff, input.threats);
    DetectedOfType(row, StoredRow(row, input), from, diff, input.threats);
    MetadataEventsOfType(all, PermissionChange);
  }

  /** A step's capability events: those of the snapshot it captured. */
  lemma CapabilityEventsOfStep(row: Row, step: Step)
    requires row.snapshots != [] ==> row.lastFetchedAt.Some?
    ensures OfType(EventsOf(row, step), CapabilityChange) ==
            match step {
              case Fetch(input) =>
                var (_, from, diff) := CapturedBy(row, input);
                Extensions.CapabilityEvents(from, FlaggedRow(row, input).version, diff)
              case _ => []
            }
  {
    if step.Fetch? {
      FetchCapabilityEvents(row, step.input);
    } else {
      ThreatDetectedOfType(row, step.Applied());
    }
  }

  lemma FetchCapabilityEvents(row: Row, input: FetchInput)
    requires row.snapshots != [] ==> row.lastFetchedAt.Some?
    ensures var (_, from, diff) := CapturedBy(row, input);
            OfType(FetchDetected(row, input), CapabilityChange) ==
            Extensions.CapabilityEvents(from, FlaggedRow(row, input).version, diff)
  {
    var (_, from, diff) := CapturedBy(row, input);
    var all := Detected(row, StoredRow(row, input), from, diff, input.threats);
    DetectedOfType(row, StoredRow(row, input), from, diff, input.threats);
    MetadataEventsOfType(all, CapabilityChange);
  }

  // ------------------------------------------------------------------ change chains

  /** Each event starts at the value where the one before it ended, none starts or ends empty or
      goes nowhere, and the last one ends at ``current``. */
  ghost predicate ChainTo(events: seq<ChangeEvent>, current: string) {
    && (forall i | 0 <= i < |events| :: events[i].oldValue.Text? && events[i].newValue.Text?
          && events[i].oldValue.text != "" && events[i].newValue.text != "" && events[i].oldValue != events[i].newValue)
    && (forall i | 0 <= i < |events| - 1 :: events[i].newValue == events[i + 1].oldValue)
    && (events != [] ==> events[|events| - 1].newValue == Text(current))
  }

  lemma ChainExtends(events: seq<ChangeEvent>, current: string, next: string, t: EventType)
    requires ChainTo(events, current)
    requires current != "" && next != "" && current != next
    ensures ChainTo(events + [ChangeEvent(t, Text(current), Text(next))], next)
  {
    var longer := events + [ChangeEvent(t, Text(current), Text(next))];
    forall i | 0 <= i < |longer| - 1 ensures longer[i].newValue == longer[i + 1].oldValue {
      assert longer[i] == events[i];
      assert i + 1 < |events| ==> longer[i + 1] == events[i + 1];
    }
  }

  lemma ChainStep(events: seq<ChangeEvent>, before: string, after: string, more: seq<ChangeEvent>, t: EventType)
    requires ChainTo(events, before) && (events != [] ==> before != "")
    requires before != "" ==> after != ""
    requires more == When(before != "" && before != after, ChangeEvent(t, Text(before), Text(after)))
             || (events == [] && more == [])
    ensures ChainTo(events + more, after) && (events + more != [] ==> after != "")
  {
    if more == [] {
      assert events + more == events;
    } else {
      ChainExtends(events, before, after, t);
    }
  }

  /** A known version or publisher is never forgotten, and neither is having been fetched. */
  lemma NextKeepsKnown(row: Row, step: Step)
    ensures row.version != "" ==> Next(row, step).version != ""
    ensures row.publisher != "" ==> Next(row, step).publisher != ""
    ensures row.lastFetchedAt.Some? ==> Next(row, step).lastFetchedAt.Some?
    ensures !step.Fetch? ==> Next(row, step).version == row.version && Next(row, step).publisher == row.publisher
    ensures !step.Fetch? ==> Next(row, step).snapshots == row.snapshots
    ensures step.Fetch? ==> Next(row, step).lastFetchedAt.Some?
  {
    if !step.Fetch? {
      OtherStepsKeep(row, step);
    }
  }

  ghost predicate ChainsHold(row: Row, log: seq<ChangeEvent>) {
    var versions, publishers := OfType(log, NewVersion), OfType(log, PublisherChange);
    && ChainTo(versions, row.version) && (versions != [] ==> row.version != "")
    && ChainTo(publishers, row.publisher) && (publishers != [] ==> row.publisher != "")
    && (versions != [] || publishers != [] ==> row.lastFetchedAt.Some?)
  }

  lemma ChainsStep(row: Row, log: seq<ChangeEvent>, step: Step)
    requires ChainsHold(row, log)
    ensures ChainsHold(Next(row, step), log + EventsOf(row, step))
  {
    var after, events := Next(row, step), EventsOf(row, step);
    NextKeepsKnown(row, step);
    EventsOfType(row, step);
    OfTypeConcat(log, events, NewVersion);
    OfTypeConcat(log, events, PublisherChange);
    ChainStep(OfType(log, NewVersion), row.version, after.version, OfType(events, NewVersion), NewVersion);
    ChainStep(OfType(log, PublisherChange), row.publisher, after.publisher, OfType(events, PublisherChange),
              PublisherChange);
  }

  /** Over any run of fetches, threat ingestions and triage, including partial scrapes, failed
      downloads and degraded packages, the ``new_version`` events form an unbroken chain that ends
      at the stored version, and the ``publisher_change`` events one that ends at the stored publisher. */
  lemma {:induction false} ChangeChains(steps: seq<Step>)
    ensures ChainsHold(Run(steps), Log(steps))
    decreases |steps|
  {
    if steps != [] {
      ChangeChains(Earlier(steps));
      ChainsStep(Run(Earlier(steps)), Log(Earlier(steps)), Last(steps));
    }
  }

  // ------------------------------------------------------------------ keep-stale rules

  /** What a scrape could not read and no package supplied keeps its stored value. */
  lemma MissingValuesKept(row: Row, input: FetchInput)
    ensures input.metadata.version == "" && (input.analysis.None? || input.analysis.value.version == "") ==>
              FetchedRow(row, input).version == row.version
    ensures input.metadata.publisher == "" && row.publisher != "" ==> FetchedRow(row, input).publisher == row.publisher
    ensures input.metadata.installCount.None? ==> FetchedRow(row, input).installCount == row.installCount
    ensures input.metadata.lastUpdated.None? ==> FetchedRow(row, input).lastUpdated == row.lastUpdated
    ensures input.analysis.None? ==> AllPermissions(FetchedRow(row, input)) == AllPermissions(row)
    ensures input.analysis.None? ==> FetchedRow(row, input).snapshots == row.snapshots
  {
  }

  /** What it could read replaces the stored value; the version of the inspected bytes wins over the
      scraped one, and a package author never replaces a publisher. */
  lemma ReadValuesStored(row: Row, input: FetchInput)
    ensures input.metadata.publisher != "" ==> FetchedRow(row, input).publisher == input.metadata.publisher
    ensures FetchedRow(row, input).publisher in {input.metadata.publisher, row.publisher} || row.publisher == ""
    ensures input.metadata.installCount.Some? ==> FetchedRow(row, input).installCount == input.metadata.installCount
    ensures input.metadata.lastUpdated.Some? ==> FetchedRow(row, input).lastUpdated == input.metadata.lastUpdated
    ensures input.analysis.Some? && input.analysis.value.version != "" ==>
              FetchedRow(row, input).version == input.analysis.value.version
    ensures (input.analysis.None? || input.analysis.value.version == "") && input.metadata.version != "" ==>
              FetchedRow(row, input).version == input.metadata.version
    ensures input.analysis.Some? ==>
              FetchedRow(row, input).permissions == Members(input.analysis.value.permissions)
    ensures FetchedRow(row, input).lastFetchedAt == Some(input.now)
    ensures FetchedRow(row, input).installReadings ==
            if input.metadata.installCount.Some? then row.installReadings + [input.metadata.installCount.value]
            else row.installReadings
  {
  }

  lemma ListedItems(strings: seq<string>)
    ensures StringsOf(PackageAnalysis.Listed(strings)) == Members(strings)
  {
    var items := PackageAnalysis.Listed(strings).items;
    forall s | s in strings ensures s in StringsOf(PackageAnalysis.Listed(strings)) {
      var i :| 0 <= i < |strings| && strings[i] == s;
      assert items[i] == Str(s) && items[i] in items;
    }
  }

  /** The stored analysis is the inspected one, apart from the threat finding. */
  lemma InspectedStored(row: Row, input: FetchInput)
    requires input.analysis.Some?
    ensures var stored, a := FetchedRow(row, input).packageAnalysis, input.analysis.value;
            && stored.Some?
            && StringsOf(stored.value.permissions) == Members(a.permissions)
            && StringsOf(stored.value.hostPermissions) == Members(a.hostPermissions)
            && StringsOf(stored.value.externalDomains) == Members(a.externalDomains)
            && stored.value.usesRemoteCode == a.usesRemoteCode
            && WithoutThreatFindings(ItemsOf(stored)) == WithoutThreatFindings(ItemsOf(Some(a.ToData())))
            && HostPermissions(FetchedRow(row, input)) == Members(a.hostPermissions)
  {
    var a := input.analysis.value;
    ListedItems(a.permissions);
    ListedItems(a.hostPermissions);
    ListedItems(a.externalDomains);
    ThreatFindingExact(Some(a.ToData()), input.threats);
    assert FetchedRow(row, input).packageAnalysis == WithThreatFinding(Some(a.ToData()), input.threats);
  }

  function Synthetic(item: FindingItem): seq<FindingItem> { if IsThreatFinding(item) then [item] else [] }

  function ThreatFindings(items: seq<FindingItem>): seq<FindingItem> {
    if items == [] then [] else Synthetic(items[0]) + ThreatFindings(items[1..])
  }

  lemma {:induction false} WithoutConcat(a: seq<FindingItem>, b: seq<FindingItem>)
    ensures WithoutThreatFindings(a + b) == WithoutThreatFindings(a) + WithoutThreatFindings(b)
  {
    if a == [] {
      EmptyIsNeutral(b);
      EmptyIsNeutral(WithoutThreatFindings(b));
    } else {
      AppendToTail(a, b);
      WithoutConcat(a[1..], b);
      AppendAssociates(Own(a[0]), WithoutThreatFindings(a[1..]), WithoutThreatFindings(b));
    }
  }

  lemma {:induction false} ThreatsConcat(a: seq<FindingItem>, b: seq<FindingItem>)
    ensures ThreatFindings(a + b) == ThreatFindings(a) + ThreatFindings(b)
  {
    if a == [] {
      EmptyIsNeutral(b);
      EmptyIsNeutral(ThreatFindings(b));
    } else {
      AppendToTail(a, b);
      ThreatsConcat(a[1..], b);
      AppendAssociates(Synthetic(a[0]), ThreatFindings(a[1..]), ThreatFindings(b));
    }
  }

  lemma FilterOne(item: FindingItem)
    ensures WithoutThreatFindings([item]) == if IsThreatFinding(item) then [] else [item]
    ensures ThreatFindings([item]) == if IsThreatFinding(item) then [item] else []
  {
    assert [item][1..] == [];
  }

  lemma {:induction false} FilterTwice(items: seq<FindingItem>)
    ensures WithoutThreatFindings(WithoutThreatFindings(items)) == WithoutThreatFindings(items)
    ensures ThreatFindings(WithoutThreatFindings(items)) == []
  {
    if items != [] {
      FilterTwice(items[1..]);
      if IsThreatFinding(items[0]) {
        assert WithoutThreatFindings(items) == WithoutThreatFindings(items[1..]);
      } else {
        FilterOne(items[0]);
        WithoutConcat([items[0]], WithoutThreatFindings(items[1..]));
        ThreatsConcat([items[0]], WithoutThreatFindings(items[1..]));
      }
    }
  }

  function ItemsOf(analysis: Option<AnalysisData>): seq<FindingItem> {
    if analysis.Some? && analysis.value.findings.FindingItems? then analysis.value.findings.items else []
  }

  /** The stored analysis holds exactly one threat finding while the list names the extension and none
      otherwise; the package's own findings stay as they are, in order. */
  lemma ThreatFindingExact(analysis: Option<AnalysisData>, threats: seq<ThreatEntry>)
    ensures var items, after := ItemsOf(analysis), ItemsOf(WithThreatFinding(analysis, threats));
            && ThreatFindings(after) == (if threats == [] then [] else [ThreatFinding(threats)])
            && WithoutThreatFindings(after) == WithoutThreatFindings(items)
    ensures WithThreatFinding(WithThreatFinding(analysis, threats), threats) == WithThreatFinding(analysis, threats)
  {
    var own := WithoutThreatFindings(ItemsOf(analysis));
    FilterTwice(ItemsOf(analysis));
    if threats != [] {
      FilterOne(ThreatFinding(threats));
      WithoutConcat(own, [ThreatFinding(threats)]);
      ThreatsConcat(own, [ThreatFinding(threats)]);
    }
    assert own + [] == own;
  }

  /** How one entry reads in the finding. */
  function Told(e: ThreatEntry): string {
    if e.reason.Some? && e.reason.value != "" then e.source + ": " + e.reason.value else e.source
  }

  /** The detail of the finding tells every entry, in order, with semicolons between. */
  lemma {:induction false} ThreatDetailNext(threats: seq<ThreatEntry>, e: ThreatEntry)
    ensures ThreatDetail(threats + [e]) ==
            if threats == [] then Told(e) else ThreatDetail(threats) + "; " + Told(e)
    decreases |threats|
  {
    if threats == [] {
      EmptyIsNeutral([e]);
      assert [e][1..] == [] && ThreatDetail([]) == "";
    } else {
      AppendToTail(threats, [e]);
      ThreatDetailNext(threats[1..], e);
      if |threats| == 1 {
        assert threats[1..] == [] && ThreatDetail(threats) == Told(threats[0]) + "" + "";
      } else {
        AppendAssociates(Told(threats[0]) + "; ", ThreatDetail(threats[1..]), "; " + Told(e));
        assert ThreatDetail(threats[1..]) + "; " + Told(e) == ThreatDetail(threats[1..]) + ("; " + Told(e));
      }
    }
  }

  /** The finding is a critical one of its own source, and its detail is cut to what the column holds; the
      event of a match carries every entry. */
  lemma ThreatFindingTells(threats: seq<ThreatEntry>)
    requires threats != []
    ensures var item := ThreatFinding(threats);
            && item.WellFormed? && IsThreatFinding(item)
            && item.finding.severity == "critical" && item.finding.source == "threat_list"
            && |item.finding.detail| <= 1000 && item.finding.detail <= ThreatDetail(threats)
            && (item.finding.detail == ThreatDetail(threats) || |item.finding.detail| == 1000)
    ensures var value := ThreatValue(threats);
            && value.ThreatSources? && |value.sources| == |threats|
            && forall i | 0 <= i < |threats| :: value.sources[i] == (threats[i].source, threats[i].reason)
  {
  }

  // ------------------------------------------------------------------ permission changes

  /** A fetch that could not inspect the package never reports a permission change and never
      changes the stored permissions. */
  lemma NoAnalysisNoPermissionChange(row: Row, input: FetchInput)
    requires input.analysis.None?
    ensures OfType(FetchDetected(row, input), PermissionChange) == []
    ensures AllPermissions(FetchedRow(row, input)) == AllPermissions(row)
  {
    FetchPermissionEvents(row, input);
  }

  /** A fetch of an extension fetched before that changes the stored permissions reports exactly that
      change, if and only if the package was not degraded. */
  lemma PermissionChangeReported(row: Row, input: FetchInput)
    requires row.lastFetchedAt.Some? && AllPermissions(FetchedRow(row, input)) != AllPermissions(row)
    ensures OfType(FetchDetected(row, input), PermissionChange) ==
              [ChangeEvent(PermissionChange, Names(AllPermissions(row)), Names(AllPermissions(FetchedRow(row, input))))]
            <==> !Degraded(input.analysis)
  {
    FetchPermissionEvents(row, input);
  }

  // ------------------------------------------------------------------ capability alerts

  /** The capability alerts that a list of snapshots calls for: one for each snapshot whose
      analysis adds something to the one before it. */
  function SnapshotDiffs(snapshots: seq<Snapshot>): seq<ChangeEvent>
    decreases |snapshots|
  {
    var n := |snapshots|;
    if n < 2 then []
    else
      var a, b := snapshots[n - 2], snapshots[n - 1];
      SnapshotDiffs(snapshots[..n - 1])
      + Extensions.CapabilityEvents(Some(a.version), b.version, DiffAnalysis(a.data, b.data))
  }

  ghost predicate OnePerVersion(snapshots: seq<Snapshot>) {
    && (forall i | 0 <= i < |snapshots| :: snapshots[i].version != "")
    && (forall i, j | 0 <= i < j < |snapshots| :: snapshots[i].version != snapshots[j].version)
  }

  lemma CaptureKeepsOnePerVersion(row: Row, analysis: Option<PackageAnalysis>)
    requires OnePerVersion(row.snapshots)
    ensures var (snapshots, from, diff) := Captured(row, analysis);
            && OnePerVersion(snapshots)
            && row.snapshots <= snapshots
            && SnapshotDiffs(snapshots) == SnapshotDiffs(row.snapshots)
                 + Extensions.CapabilityEvents(from, row.version, diff)
  {
    var (snapshots, from, diff) := Captured(row, analysis);
    var n := |row.snapshots|;
    if Captures(row, analysis) {
      assert snapshots[..n] == row.snapshots && snapshots[n].version == row.version;
      forall i, j | 0 <= i < j < |snapshots| ensures snapshots[i].version != snapshots[j].version {
        assert snapshots[i] == row.snapshots[i];
        assert j < n ==> snapshots[j] == row.snapshots[j];
        assert j == n && snapshots[i].version == row.version ==> HasVersion(row.snapshots, row.version);
      }
    }
  }

  ghost predicate AlertsMatchSnapshots(row: Row, log: seq<ChangeEvent>) {
    && OnePerVersion(row.snapshots)
    && OfType(log, CapabilityChange) == SnapshotDiffs(row.snapshots)
    && (row.snapshots != [] ==> row.lastFetchedAt.Some?)
  }

  lemma AlertsMatchSnapshotsStep(row: Row, log: seq<ChangeEvent>, step: Step)
    requires AlertsMatchSnapshots(row, log)
    ensures AlertsMatchSnapshots(Next(row, step), log + EventsOf(row, step))
    ensures row.snapshots <= Next(row, step).snapshots
  {
    NextKeepsKnown(row, step);
    OfTypeConcat(log, EventsOf(row, step), CapabilityChange);
    CapabilityEventsOfStep(row, step);
    match step
    case Fetch(input) =>
      var flagged := FlaggedRow(row, input);
      assert flagged.snapshots == row.snapshots;
      CaptureKeepsOnePerVersion(flagged, input.analysis);
      assert Next(row, step).snapshots == CapturedBy(row, input).0;
    case _ =>
      assert SnapshotDiffs(row.snapshots) + [] == SnapshotDiffs(row.snapshots);
  }

  /** Over every run there is at most one snapshot per version, snapshots are only ever added, and
      the capability alerts are exactly the differences between consecutive snapshots, in order. */
  lemma {:induction false} CapabilityAlertsAreSnapshotDiffs(steps: seq<Step>)
    ensures AlertsMatchSnapshots(Run(steps), Log(steps))
    ensures steps != [] ==> Run(Earlier(steps)).snapshots <= Run(steps).snapshots
    decreases |steps|
  {
    if steps != [] {
      CapabilityAlertsAreSnapshotDiffs(Earlier(steps));
      AlertsMatchSnapshotsStep(Run(Earlier(steps)), Log(Earlier(steps)), Last(steps));
    }
  }

  /** Snapshot ``i`` adds something to the one before it. */
  predicate AddsAt(snapshots: seq<Snapshot>, i: nat) {
    0 < i < |snapshots| && DiffAnalysis(snapshots[i - 1].data, snapshots[i].data).Some?
  }

  /** The alert tells what snapshot ``i`` adds to the one before it, naming both versions. */
  predicate TellsOf(event: ChangeEvent, snapshots: seq<Snapshot>, i: nat) {
    && AddsAt(snapshots, i)
    && event.eventType == CapabilityChange
    && event.oldValue == Version(snapshots[i - 1].version)
    && event.newValue == VersionDiff(snapshots[i].version,
                                     DiffAnalysis(snapshots[i - 1].data, snapshots[i].data).value)
  }

  ghost predicate Tells(event: ChangeEvent, snapshots: seq<Snapshot>) { exists i: nat :: TellsOf(event, snapshots, i) }

  ghost predicate HasAlert(alerts: seq<ChangeEvent>, snapshots: seq<Snapshot>, i: nat) {
    exists e :: e in alerts && TellsOf(e, snapshots, i)
  }

  /** Each alert tells of some snapshot, and of each snapshot that adds something there is an alert. */
  ghost predicate EachTells(alerts: seq<ChangeEvent>, snapshots: seq<Snapshot>) {
    && (forall e | e in alerts :: Tells(e, snapshots))
    && (forall i: nat | AddsAt(snapshots, i) :: HasAlert(alerts, snapshots, i))
  }

  /** An alert tells of the same snapshot when there is one more. */
  lemma TellsMore(event: ChangeEvent, before: seq<Snapshot>, next: Snapshot, i: nat)
    requires i < |before|
    ensures AddsAt(before + [next], i) <==> AddsAt(before, i)
    ensures TellsOf(event, before + [next], i) <==> TellsOf(event, before, i)
  {
  }

  lemma TellsNext(before: seq<Snapshot>, next: Snapshot, earlier: seq<ChangeEvent>, more: seq<ChangeEvent>)
    requires before != [] && before[|before| - 1].version != "" && EachTells(earlier, before)
    requires var last := before[|before| - 1];
             more == Extensions.CapabilityEvents(Some(last.version), next.version, DiffAnalysis(last.data, next.data))
    ensures EachTells(earlier + more, before + [next])
  {
    var all, snapshots := earlier + more, before + [next];
    forall e | e in all ensures Tells(e, snapshots) {
      if e in earlier {
        var i: nat :| TellsOf(e, before, i);
        TellsMore(e, before, next, i);
      } else {
        assert TellsOf(e, snapshots, |before|);
      }
    }
    forall i: nat | AddsAt(snapshots, i) ensures HasAlert(all, snapshots, i) {
      if i < |before| {
        TellsMore(CapabilityEventOf("", "", NO_DIFF), before, next, i);
        assert HasAlert(earlier, before, i);
        var e :| e in earlier && TellsOf(e, before, i);
        TellsMore(e, before, next, i);
        assert e in all;
      } else {
        assert more[0] in all && TellsOf(more[0], snapshots, i);
      }
    }
  }

  lemma {:induction false} DiffsTell(snapshots: seq<Snapshot>)
    requires OnePerVersion(snapshots)
    ensures EachTells(SnapshotDiffs(snapshots), snapshots)
    decreases |snapshots|
  {
    var n := |snapshots|;
    if n >= 2 {
      var before, next := snapshots[..n - 1], snapshots[n - 1];
      DiffsTell(before);
      TellsNext(before, next, SnapshotDiffs(before),
                Extensions.CapabilityEvents(Some(before[n - 2].version), next.version,
                                            DiffAnalysis(before[n - 2].data, next.data)));
      assert before + [next] == snapshots;
    }
  }

  /** Over every run each capability alert names the versions of two consecutive snapshots and tells exactly
      what the second adds, and no snapshot that adds something goes untold. */
  lemma CapabilityAlertsTell(steps: seq<Step>)
    ensures EachTells(OfType(Log(steps), CapabilityChange), Run(steps).snapshots)
  {
    CapabilityAlertsAreSnapshotDiffs(steps);
    DiffsTell(Run(steps).snapshots);
  }

  /** The version a capability alert announces. */
  function AnnouncedVersion(event: ChangeEvent): string {
    if event.newValue.VersionDiff? then event.newValue.version else ""
  }

  /** Each alert announces a version that has a snapshot, and no two announce the same one. */
  ghost predicate EachAnnouncedOnce(snapshots: seq<Snapshot>, alerts: seq<ChangeEvent>) {
    && (forall i | 0 <= i < |alerts| :: HasVersion(snapshots, AnnouncedVersion(alerts[i])))
    && (forall i, j | 0 <= i < j < |alerts| :: AnnouncedVersion(alerts[i]) != AnnouncedVersion(alerts[j]))
  }

  lemma AnnounceAnother(snapshots: seq<Snapshot>, alerts: seq<ChangeEvent>, next: Snapshot, more: seq<ChangeEvent>)
    requires EachAnnouncedOnce(snapshots, alerts) && !HasVersion(snapshots, next.version)
    requires more == [] || (|more| == 1 && AnnouncedVersion(more[0]) == next.version)
    ensures EachAnnouncedOnce(snapshots + [next], alerts + more)
  {
    var all := alerts + more;
    forall i | 0 <= i < |all| ensures HasVersion(snapshots + [next], AnnouncedVersion(all[i])) {
      if i < |alerts| {
        assert HasVersion(snapshots, AnnouncedVersion(alerts[i]));
        var k :| 0 <= k < |snapshots| && snapshots[k].version == AnnouncedVersion(alerts[i]);
        assert (snapshots + [next])[k] == snapshots[k];
      } else {
        assert (snapshots + [next])[|snapshots|] == next;
      }
    }
  }

  lemma {:induction false} AnnouncedOnce(snapshots: seq<Snapshot>)
    requires OnePerVersion(snapshots)
    ensures EachAnnouncedOnce(snapshots, SnapshotDiffs(snapshots))
    decreases |snapshots|
  {
    var n := |snapshots|;
    if n >= 2 {
      var a, b := snapshots[n - 2], snapshots[n - 1];
      AnnouncedOnce(snapshots[..n - 1]);
      assert !HasVersion(snapshots[..n - 1], b.version);
      AnnounceAnother(snapshots[..n - 1], SnapshotDiffs(snapshots[..n - 1]), b,
                      Extensions.CapabilityEvents(Some(a.version), b.version, DiffAnalysis(a.data, b.data)));
      assert snapshots[..n - 1] + [b] == snapshots;
    }
  }

  /** No version of an extension gets a second capability alert, however often it is fetched. */
  lemma OneCapabilityAlertPerVersion(steps: seq<Step>)
    ensures EachAnnouncedOnce(Run(steps).snapshots, OfType(Log(steps), CapabilityChange))
  {
    CapabilityAlertsAreSnapshotDiffs(steps);
    AnnouncedOnce(Run(steps).snapshots);
  }

  // ------------------------------------------------------------------ detected events and the marker

  lemma MergePends(raw: Marker, detected: seq<ChangeEvent>)
    ensures var after := Parsed(MergedMarker(raw, detected));
            && Parsed(raw) <= after
            && forall e :: e in after <==> e in Parsed(raw) || e in detected
  {
    MergeKeepsValues(raw, detected);
    ParseDump(Parsed(raw) + Fresh(Parsed(raw), detected));
  }

  /** What a fetch, an ingestion or a posture check detects is pending from its own commit on, behind what
      was pending before, and nothing else is. */
  lemma DetectedIsPending(row: Row, step: Step)
    requires !step.Deliveries?
    ensures var before, after := Parsed(row.pending), Parsed(Next(row, step).pending);
            && before <= after
            && forall e :: e in after <==> e in before || e in EventsOf(row, step)
  {
    MergePends(row.pending, EventsOf(row, step));
  }

  // ------------------------------------------------------------------ the posture of the row

  /** What a step does to the posture. */
  function PostureStep(row: Row, step: Step): seq<P.Step> {
    match step
    case Fetch(input) => [P.Fetch(input.naming, SignalsOf(row, input))]
    case CheckPosture(_) => [P.ApplyKnownThreat]
    case IngestThreat(threats) => if threats != [] then [P.IngestThreat] else []
    case MissedIngestion => [P.MissedIngestion]
    case Triage(policy) => [P.Triage(policy)]
    case Deliveries(_) => []
  }

  function PostureSteps(steps: seq<Step>): seq<P.Step> {
    if steps == [] then [] else PostureSteps(Earlier(steps)) + PostureStep(Run(Earlier(steps)), Last(steps))
  }

  /** The step names the extension in the threat list. */
  predicate GrowsList(step: Step) { step.MissedIngestion? || (step.IngestThreat? && step.threats != []) }

  function ListedBy(listed: bool, step: Step): bool { listed || GrowsList(step) }

  /** Whether the threat list names the extension after the run, if ``listed`` says it did before. */
  function ListedAfter(steps: seq<Step>, listed: bool): bool {
    if steps == [] then listed else ListedBy(ListedAfter(Earlier(steps), listed), Last(steps))
  }

  predicate FindsList(step: Step, listed: bool) {
    && (step.Fetch? ==> (step.input.threats != [] <==> listed))
    && (step.CheckPosture? ==> (step.threats != [] <==> listed))
  }

  /** The threat list only grows, and a posture check or a fetch finds in it what is there. */
  predicate Coherent(steps: seq<Step>, listed: bool) {
    steps == [] || (Coherent(Earlier(steps), listed) && FindsList(Last(steps), ListedAfter(Earlier(steps), listed)))
  }

  lemma {:induction false} PostureRunConcat(s: P.State, a: seq<P.Step>, b: seq<P.Step>)
    ensures P.Run(s, a + b) == P.Run(P.Run(s, a), b)
    decreases |a|
  {
    if a == [] {
      assert a + b == b;
    } else {
      assert (a + b)[1..] == a[1..] + b;
      PostureRunConcat(P.Apply(s, a[0]), a[1..], b);
    }
  }

  lemma PostureRunOne(s: P.State, step: P.Step)
    ensures P.Run(s, [step]) == P.Apply(s, step)
  {
    assert [step][1..] == [];
    assert P.Run(P.Apply(s, step), []) == P.Apply(s, step);
  }

  lemma StepRefines(row: Row, step: Step, listed: bool)
    requires FindsList(step, listed)
    ensures P.Run(P.State(row.posture, listed), PostureStep(row, step))
              == P.State(Next(row, step).posture, ListedBy(listed, step))
  {
    if PostureStep(row, step) != [] {
      PostureRunOne(P.State(row.posture, listed), PostureStep(row, step)[0]);
    }
  }

  /** The posture of the row moves as the posture state machine does, so in every run the stored score
      is the policy applied to the stored heuristic, and a threat match forces 100. */
  lemma {:induction false} RowPostureRefines(steps: seq<Step>, listed: bool)
    requires Coherent(steps, listed)
    ensures P.State(Run(steps).posture, ListedAfter(steps, listed)) ==
            P.Run(P.State(P.ENROLLED, listed), PostureSteps(steps))
    decreases |steps|
  {
    if steps != [] {
      RowPostureRefines(Earlier(steps), listed);
      StepRefines(Run(Earlier(steps)), Last(steps), ListedAfter(Earlier(steps), listed));
      PostureRunConcat(P.State(P.ENROLLED, listed), PostureSteps(Earlier(steps)),
                       PostureStep(Run(Earlier(steps)), Last(steps)));
    }
  }

  /** In every run of the record the analyst's policy decides what it shows. */
  lemma RowPolicyDecides(steps: seq<Step>, listed: bool)
    requires Coherent(steps, listed)
    ensures var p := Run(steps).posture;
            && (p.policy == Deny || p.threatMatch ==> P.ShowsScore(p, 100, Critical))
            && (p.policy == Allow && !p.threatMatch ==> P.ShowsScore(p, 0, Suppression))
            && (p.policy == NoOverride && !p.threatMatch ==> p.riskScore == p.heuristic)
  {
    RowPostureRefines(steps, listed);
    P.PolicyDecides(listed, PostureSteps(steps));
  }

  lemma RowPostureConsistent(steps: seq<Step>, listed: bool)
    requires Coherent(steps, listed)
    ensures P.Consistent(P.State(Run(steps).posture, ListedAfter(steps, listed)))
  {
    RowPostureRefines(steps, listed);
    P.PostureAlwaysConsistent(P.State(P.ENROLLED, listed), PostureSteps(steps));
  }

  lemma NextPosture(row: Row, step: Step)
    ensures Next(row, step).posture.threatMatch ==
            match step {
              case Fetch(input) => input.threats != []
              case _ => step.Applied() != [] || row.posture.threatMatch
            }
    ensures step.Fetch? ==> StoredRow(row, step.input).posture.threatMatch == Next(row, step).posture.threatMatch
  {
  }

  // ------------------------------------------------------------------ prefixes of a run

  lemma RunNext(steps: seq<Step>, step: Step)
    ensures Run(steps + [step]) == Next(Run(steps), step)
  {
    assert Earlier(steps + [step]) == steps;
  }

  lemma PrefixNext(steps: seq<Step>, k: nat)
    requires k < |steps|
    ensures Earlier(steps[..k + 1]) == steps[..k] && Last(steps[..k + 1]) == steps[k]
  {
  }

  lemma {:induction false} SnapshotsGrow(steps: seq<Step>, k: nat)
    requires k <= |steps|
    ensures Run(steps[..k]).snapshots <= Run(steps).snapshots
    decreases |steps|
  {
    if k == |steps| {
      assert steps[..k] == steps;
    } else {
      assert Earlier(steps)[..k] == steps[..k];
      SnapshotsGrow(Earlier(steps), k);
      CapabilityAlertsAreSnapshotDiffs(steps);
    }
  }

  // ------------------------------------------------------------------ bare packages

  /** A package that asks for the given permissions and has nothing else to tell. */
  function BarePackage(version: string, permissions: seq<string>, complete: bool): PackageAnalysis {
    PackageAnalysis(version, "", complete, permissions, [], [], [], false, false, 0)
  }

  function BareFetch(naming: Naming, version: string, permissions: seq<string>, complete: bool,
                     threats: seq<ThreatEntry>): Step
  {
    Fetch(FetchInput(naming, Metadata("", "", None, None, None),
                     Some(BarePackage(version, permissions, complete)), threats, 0))
  }
}
