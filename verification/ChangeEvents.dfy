/** The change events that the alert pipeline detects, stores and delivers (app/notifications.py). */
module ChangeEvents {
  import opened Wrappers
  import opened Sequences
  import Scoring

  /** The capability diff attached to a ``capability_change`` event. */
  datatype CapabilityDiff = CapabilityDiff(
    addedPermissions: set<string>,
    addedDomains: set<string>,
    newFindings: seq<Finding>,
    remoteCodeEnabled: bool)

  /** A finding as a snapshot stores it: the fields of its identity key. */
  datatype Finding = Finding(code: string, severity: string, title: string, detail: string, source: string,
                             file: Option<string>, line: Option<int>)

  /** A JSON value carried by an event. */
  datatype Value =
    | Nothing
    | Text(text: string)
    | Band(level: Scoring.Level)
    | Names(names: set<string>)
    | Version(version: string)
    | VersionDiff(version: string, diff: CapabilityDiff)
    | ThreatSources(sources: seq<(string, Option<string>)>)
    | Json(json: string)

  /** What kind of change; a hand-edited marker can hold any other name. */
  datatype EventType =
    | RiskLevelChange | PublisherChange | PermissionChange | NewVersion | CapabilityChange | ThreatMatch
    | OtherType(name: string)

  datatype ChangeEvent = ChangeEvent(eventType: EventType, oldValue: Value, newValue: Value)

  function OnlyIf(event: ChangeEvent, eventType: EventType): seq<ChangeEvent> {
    if event.eventType == eventType then [event] else []
  }

  /** The events of one type, in order. */
  function OfType(log: seq<ChangeEvent>, eventType: EventType): seq<ChangeEvent> {
    if log == [] then [] else OnlyIf(log[0], eventType) + OfType(log[1..], eventType)
  }

  lemma {:induction false} OfTypeConcat(a: seq<ChangeEvent>, b: seq<ChangeEvent>, eventType: EventType)
    ensures OfType(a + b, eventType) == OfType(a, eventType) + OfType(b, eventType)
  {
    if a == [] {
      EmptyIsNeutral(b);
      EmptyIsNeutral(OfType(b, eventType));
    } else {
      AppendToTail(a, b);
      OfTypeConcat(a[1..], b, eventType);
      AppendAssociates(OnlyIf(a[0], eventType), OfType(a[1..], eventType), OfType(b, eventType));
    }
  }
}
