/**
 Which added permissions the alerts tell of, over whole runs of one extension's transactions: a
 ``permission_change`` compares a fetch with the stored row, a ``capability_change`` two snapshots of
 complete packages (app/services.py, app/notifications.py, app/package_diff.py).
 */
module PermissionAlerts {
  import opened Wrappers
  import opened Sequences
  import opened ChangeEvents
  import opened PackageDiff
  import opened Scoring
  import opened Extensions
  import opened FetchRuns

  // ------------------------------------------------------------------ permission changes

  /** The event tells that the stored permissions gained this one. */
  predicate Adds(event: ChangeEvent, permission: string) {
    && event.oldValue.Names? && permission !in event.oldValue.names
    && event.newValue.Names? && permission in event.newValue.names
  }

  ghost predicate ReportsChange(log: seq<ChangeEvent>, permission: string) {
    exists e :: e in OfType(log, PermissionChange) && Adds(e, permission)
  }

  /** The step stores the permission, and the package it comes from was neither the first nor degraded. */
  predicate AddsTrusted(row: Row, step: Step, permission: string) {
    && step.Fetch? && row.lastFetchedAt.Some? && !Degraded(step.input.analysis)
    && permission !in AllPermissions(row) && permission in AllPermissions(Next(row, step))
  }

  predicate AddedByTrusted(steps: seq<Step>, permission: string) {
    steps != []
    && (AddedByTrusted(Earlier(steps), permission) || AddsTrusted(Run(Earlier(steps)), Last(steps), permission))
  }

  lemma OtherStepsKeepPermissions(row: Row, step: Step)
    requires !step.Fetch?
    ensures AllPermissions(Next(row, step)) == AllPermissions(row)
    ensures OfType(EventsOf(row, step), PermissionChange) == []
  {
    var matched := MatchedRow(row, step.Applied());
    assert AllPermissions(matched) == AllPermissions(row);
    DetectedOfType(row, matched, None, None, step.Applied());
  }

  lemma ChangeOfStep(row: Row, step: Step, permission: string)
    ensures ReportsChange(EventsOf(row, step), permission) <==> AddsTrusted(row, step, permission)
  {
    if step.Fetch? {
      FetchPermissionEvents(row, step.input);
      var before, after := AllPermissions(row), AllPermissions(Next(row, step));
      if AddsTrusted(row, step, permission) {
        var event := ChangeEvent(PermissionChange, Names(before), Names(after));
        assert event in OfType(EventsOf(row, step), PermissionChange) && Adds(event, permission);
      }
    } else {
      OtherStepsKeepPermissions(row, step);
    }
  }

  lemma ChangesConcat(a: seq<ChangeEvent>, b: seq<ChangeEvent>, permission: string)
    ensures ReportsChange(a + b, permission) <==> ReportsChange(a, permission) || ReportsChange(b, permission)
  {
    OfTypeConcat(a, b, PermissionChange);
    var x, y := OfType(a, PermissionChange), OfType(b, PermissionChange);
    assert forall e :: e in x + y <==> e in x || e in y;
  }

  /** Over every run, a permission change tells of an added permission if and only if a fetch after the
      first one added it from a package that was not degraded. */
  lemma {:induction false} ChangeReportedIff(steps: seq<Step>, permission: string)
    ensures ReportsChange(Log(steps), permission) <==> AddedByTrusted(steps, permission)
    decreases |steps|
  {
    if steps != [] {
      var row, step := Run(Earlier(steps)), Last(steps);
      ChangeReportedIff(Earlier(steps), permission);
      ChangeOfStep(row, step, permission);
      ChangesConcat(Log(Earlier(steps)), EventsOf(row, step), permission);
    }
  }

  // ------------------------------------------------------------------ capability changes

  /** The event tells that a version has this permission and the snapshot before it did not. */
  predicate Introduces(event: ChangeEvent, permission: string) {
    event.newValue.VersionDiff? && permission in event.newValue.diff.addedPermissions
  }

  ghost predicate SomeIntroduces(events: seq<ChangeEvent>, permission: string) {
    exists e :: e in events && Introduces(e, permission)
  }

  lemma SomeIntroducesConcat(a: seq<ChangeEvent>, b: seq<ChangeEvent>, permission: string)
    ensures SomeIntroduces(a + b, permission) <==> SomeIntroduces(a, permission) || SomeIntroduces(b, permission)
  {
    assert forall e :: e in a + b <==> e in a || e in b;
  }

  ghost predicate ReportsCapability(log: seq<ChangeEvent>, permission: string) {
    SomeIntroduces(OfType(log, CapabilityChange), permission)
  }

  /** Snapshot ``i`` has the permission and the one before it has not. */
  predicate GainsAt(snapshots: seq<Snapshot>, i: nat, permission: string) {
    && 0 < i < |snapshots|
    && permission in PermissionsOf(snapshots[i].data) && permission !in PermissionsOf(snapshots[i - 1].data)
  }

  ghost predicate Gains(snapshots: seq<Snapshot>, permission: string) {
    exists i: nat :: GainsAt(snapshots, i, permission)
  }

  /** Adding one snapshot. */
  lemma GainsNext(snapshots: seq<Snapshot>, next: Snapshot, permission: string)
    ensures Gains(snapshots + [next], permission) <==>
            Gains(snapshots, permission) || GainsAt(snapshots + [next], |snapshots|, permission)
  {
    var longer := snapshots + [next];
    forall i: nat | i < |snapshots| ensures GainsAt(longer, i, permission) <==> GainsAt(snapshots, i, permission) {
    }
  }

  lemma DiffIntroduces(a: Snapshot, b: Snapshot, permission: string)
    requires a.version != ""
    ensures var events := Extensions.CapabilityEvents(Some(a.version), b.version, DiffAnalysis(a.data, b.data));
            SomeIntroduces(events, permission) <==>
            permission in PermissionsOf(b.data) && permission !in PermissionsOf(a.data)
  {
    var diff := DiffAnalysis(a.data, b.data);
    var events := Extensions.CapabilityEvents(Some(a.version), b.version, diff);
    if permission in PermissionsOf(b.data) - PermissionsOf(a.data) {
      assert diff.Some? && Introduces(events[0], permission);
    }
  }

  lemma {:induction false} DiffsIntroduce(snapshots: seq<Snapshot>, permission: string)
    requires OnePerVersion(snapshots)
    ensures SomeIntroduces(SnapshotDiffs(snapshots), permission) <==> Gains(snapshots, permission)
    decreases |snapshots|
  {
    var n := |snapshots|;
    if n >= 2 {
      var before, a, b := snapshots[..n - 1], snapshots[n - 2], snapshots[n - 1];
      DiffsIntroduce(before, permission);
      DiffIntroduces(a, b, permission);
      SomeIntroducesConcat(SnapshotDiffs(before),
                           Extensions.CapabilityEvents(Some(a.version), b.version, DiffAnalysis(a.data, b.data)),
                           permission);
      assert before + [b] == snapshots;
      GainsNext(before, b, permission);
    }
  }

  // ------------------------------------------------------------------ any alert

  /** Some alert tells that the permission was added. */
  ghost predicate Alerts(log: seq<ChangeEvent>, permission: string) {
    ReportsChange(log, permission) || ReportsCapability(log, permission)
  }

  /** Over every run, an alert tells of an added permission if and only if a fetch after the first one
      added it from a package that was not degraded, or one of two consecutive snapshots has it and the
      one before has not. */
  lemma AdditionAlertedIff(steps: seq<Step>, permission: string)
    ensures Alerts(Log(steps), permission) <==>
            AddedByTrusted(steps, permission) || Gains(Run(steps).snapshots, permission)
  {
    ChangeReportedIff(steps, permission);
    CapabilityAlertsAreSnapshotDiffs(steps);
    DiffsIntroduce(Run(steps).snapshots, permission);
  }

  // ------------------------------------------------------------------ degraded packages

  /** The permission is stored at every point of the run after its first ``from`` steps. */
  predicate StoredFrom(steps: seq<Step>, from: nat, permission: string)
    requires from <= |steps|
  {
    permission in AllPermissions(Run(steps))
    && (|steps| > from ==> StoredFrom(Earlier(steps), from, permission))
  }

  /** Step ``from - 1`` stores a degraded package, and from then on the permission is stored. */
  predicate DegradedAt(steps: seq<Step>, from: nat, permission: string) {
    && 0 < from <= |steps| && StoredFrom(steps, from, permission)
    && steps[from - 1].Fetch? && Degraded(steps[from - 1].input.analysis)
  }

  lemma EarlierPrefix(steps: seq<Step>, k: nat)
    requires 0 < k < |steps|
    ensures Earlier(steps)[..k - 1] == steps[..k - 1] && Earlier(steps)[k - 1] == steps[k - 1]
  {
  }

  lemma DegradedEarlier(steps: seq<Step>, from: nat, permission: string)
    requires DegradedAt(steps, from, permission) && from < |steps|
    ensures DegradedAt(Earlier(steps), from, permission) && Earlier(steps)[..from - 1] == steps[..from - 1]
    ensures permission in AllPermissions(Run(steps))
  {
    EarlierPrefix(steps, from);
  }

  /** No permission change tells of it, then or later: the next package is compared with what was stored. */
  lemma {:induction false} NoChangeReported(steps: seq<Step>, from: nat, permission: string)
    requires DegradedAt(steps, from, permission)
    ensures AddedByTrusted(steps, permission) <==> AddedByTrusted(steps[..from - 1], permission)
    decreases |steps|
  {
    if |steps| == from {
      assert steps[..from - 1] == Earlier(steps);
    } else {
      DegradedEarlier(steps, from, permission);
      NoChangeReported(Earlier(steps), from, permission);
    }
  }

  /** A step adds at most one snapshot, which holds the permissions stored with it. */
  lemma SnapshotOfStep(row: Row, step: Step)
    ensures var after := Next(row, step);
            || after.snapshots == row.snapshots
            || (&& step.Fetch? && Captures(FlaggedRow(row, step.input), step.input.analysis)
                && after.snapshots == row.snapshots + [Snapshot(after.version, step.input.analysis.value.ToData())]
                && PermissionsOf(step.input.analysis.value.ToData()) == AllPermissions(after))
  {
    if step.Fetch? && step.input.analysis.Some? {
      ListedItems(step.input.analysis.value.permissions);
      ListedItems(step.input.analysis.value.hostPermissions);
    }
  }

  /** While the permission is stored, every new snapshot has it. */
  lemma {:induction false} NewSnapshotsHave(steps: seq<Step>, from: nat, permission: string)
    requires DegradedAt(steps, from, permission)
    ensures var before, all := Run(steps[..from - 1]).snapshots, Run(steps).snapshots;
            && before <= all
            && forall i | |before| <= i < |all| :: permission in PermissionsOf(all[i].data)
    decreases |steps|
  {
    SnapshotOfStep(Run(Earlier(steps)), Last(steps));
    if |steps| == from {
      assert steps[..from - 1] == Earlier(steps);
    } else {
      DegradedEarlier(steps, from, permission);
      NewSnapshotsHave(Earlier(steps), from, permission);
    }
  }

  lemma GainsOnce(before: seq<Snapshot>, all: seq<Snapshot>, permission: string)
    requires before <= all && !Gains(before, permission)
    requires forall i | |before| <= i < |all| :: permission in PermissionsOf(all[i].data)
    ensures Gains(all, permission) <==>
            before != [] && |all| > |before| && permission !in PermissionsOf(before[|before| - 1].data)
  {
    forall i: nat | GainsAt(all, i, permission) ensures i == |before| > 0 || GainsAt(before, i, permission) {
    }
    if before != [] && |all| > |before| && permission !in PermissionsOf(before[|before| - 1].data) {
      assert GainsAt(all, |before|, permission);
    }
  }

  /** A permission that a degraded package stores, untold before, is told of while it stays exactly when a
      complete package without it was snapshotted before, and one with it, of a version that had no
      snapshot, after. */
  lemma DegradedAdditionAlertedIff(steps: seq<Step>, from: nat, permission: string)
    requires DegradedAt(steps, from, permission)
    requires !Alerts(Log(steps[..from - 1]), permission)
    ensures var before := Run(steps[..from - 1]).snapshots;
            Alerts(Log(steps), permission) <==>
            && before != [] && permission !in PermissionsOf(before[|before| - 1].data)
            && |Run(steps).snapshots| > |before|
  {
    AdditionAlertedIff(steps[..from - 1], permission);
    AdditionAlertedIff(steps, permission);
    NoChangeReported(steps, from, permission);
    NewSnapshotsHave(steps, from, permission);
    GainsOnce(Run(steps[..from - 1]).snapshots, Run(steps).snapshots, permission);
  }

  // ------------------------------------------------------------------ an upgrade seen degraded first

  lemma BareFetchStores(row: Row, naming: Naming, version: string, permissions: seq<string>, complete: bool)
    requires version != ""
    ensures var after := Next(row, BareFetch(naming, version, permissions, complete, []));
            && AllPermissions(after) == Members(permissions) && after.version == version
            && after.lastFetchedAt.Some?
            && (if complete && !HasVersion(row.snapshots, version)
                then after.snapshots ==
                     row.snapshots + [Snapshot(version, BarePackage(version, permissions, complete).ToData())]
                else after.snapshots == row.snapshots)
            && PermissionsOf(BarePackage(version, permissions, complete).ToData()) == Members(permissions)
  {
    var step := BareFetch(naming, version, permissions, complete, []);
    var after := Next(row, step);
    ListedItems(permissions);
    ListedItems([]);
    assert HostPermissions(after) == {};
  }

  /** The package of a version is fetched, then one with a further permission, degraded and then complete. */
  function Upgrade(naming: Naming, permission: string, from: string, to: string, firstComplete: bool): seq<Step> {
    [BareFetch(naming, from, [], firstComplete, [])]
    + [BareFetch(naming, to, [permission], false, [])] + [BareFetch(naming, to, [permission], true, [])]
  }

  lemma UpgradeStarts(naming: Naming, permission: string, from: string, to: string, firstComplete: bool)
    ensures Upgrade(naming, permission, from, to, firstComplete)[..1] ==
            [BareFetch(naming, from, [], firstComplete, [])]
  {
  }

  lemma FirstTellsNothing(steps: seq<Step>, permission: string)
    requires |steps| == 1 && |Run(steps).snapshots| <= 1
    ensures !Alerts(Log(steps), permission)
  {
    assert Earlier(steps) == [];
    AdditionAlertedIff(steps, permission);
  }

  /** The snapshots after a first package of the version, without the permission. */
  ghost predicate Baseline(snapshots: seq<Snapshot>, permission: string, version: string, complete: bool) {
    && (snapshots != [] <==> complete)
    && (forall i | 0 <= i < |snapshots| :: permission !in PermissionsOf(snapshots[i].data))
    && (forall v :: HasVersion(snapshots, v) <==> complete && v == version)
  }

  lemma SingleBaseline(snapshot: Snapshot, permission: string)
    requires permission !in PermissionsOf(snapshot.data)
    ensures Baseline([snapshot], permission, snapshot.version, true)
  {
    assert [snapshot][0] == snapshot;
  }

  lemma AfterFirstFetch(naming: Naming, permission: string, version: string, complete: bool)
    requires version != ""
    ensures var steps := [BareFetch(naming, version, [], complete, [])];
            && AllPermissions(Run(steps)) == {}
            && !Alerts(Log(steps), permission) && Baseline(Run(steps).snapshots, permission, version, complete)
  {
    var step := BareFetch(naming, version, [], complete, []);
    RunNext([], step);
    EmptyIsNeutral([step]);
    BareFetchStores(ENROLLED, naming, version, [], complete);
    FirstTellsNothing([step], permission);
    if complete {
      EmptyIsNeutral([Snapshot(version, BarePackage(version, [], complete).ToData())]);
      SingleBaseline(Snapshot(version, BarePackage(version, [], complete).ToData()), permission);
    }
  }

  lemma AfterUpgrade(naming: Naming, permission: string, from: string, to: string, firstComplete: bool)
    requires from != "" && to != ""
    ensures var steps := Upgrade(naming, permission, from, to, firstComplete);
            && |steps| == 3 && steps[1] == BareFetch(naming, to, [permission], false, [])
            && AllPermissions(Run(steps[..2])) == {permission} && AllPermissions(Run(steps)) == {permission}
            && (|Run(steps).snapshots| > |Run(steps[..1]).snapshots| <==> !HasVersion(Run(steps[..1]).snapshots, to))
  {
    var steps := Upgrade(naming, permission, from, to, firstComplete);
    var first, second := steps[..1], steps[..2];
    assert second == first + [steps[1]] && steps == second + [steps[2]];
    assert Members([permission]) == {permission};
    RunNext(first, steps[1]);
    RunNext(second, steps[2]);
    BareFetchStores(Run(first), naming, to, [permission], false);
    BareFetchStores(Run(second), naming, to, [permission], true);
  }

  lemma AlertedAfterThree(steps: seq<Step>, permission: string)
    requires |steps| == 3 && steps[1].Fetch? && Degraded(steps[1].input.analysis)
    requires permission in AllPermissions(Run(steps[..2])) && permission in AllPermissions(Run(steps))
    requires !Alerts(Log(steps[..1]), permission)
    ensures var before := Run(steps[..1]).snapshots;
            Alerts(Log(steps), permission) <==>
            && before != [] && permission !in PermissionsOf(before[|before| - 1].data)
            && |Run(steps).snapshots| > |before|
  {
    assert Earlier(steps) == steps[..2];
    assert StoredFrom(steps[..2], 2, permission);
    DegradedAdditionAlertedIff(steps, 2, permission);
  }

  /** Such an upgrade goes untold exactly when the first package was not complete, so that there is nothing
      to compare with, or the version did not change, so that no second snapshot is taken. */
  lemma UpgradeAlertedIff(naming: Naming, permission: string, from: string, to: string, firstComplete: bool)
    requires from != "" && to != ""
    ensures var steps := Upgrade(naming, permission, from, to, firstComplete);
            && AllPermissions(Run(steps[..1])) == {}
            && AllPermissions(Run(steps[..2])) == AllPermissions(Run(steps)) == {permission}
            && (Alerts(Log(steps), permission) <==> firstComplete && from != to)
  {
    var steps := Upgrade(naming, permission, from, to, firstComplete);
    AfterUpgrade(naming, permission, from, to, firstComplete);
    AfterFirstFetch(naming, permission, from, firstComplete);
    UpgradeStarts(naming, permission, from, to, firstComplete);
    assert Baseline(Run(steps[..1]).snapshots, permission, from, firstComplete);
    AlertedAfterThree(steps, permission);
  }
}
