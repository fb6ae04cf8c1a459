/** The capability diff between two stored package analyses (app/package_diff.py). */
module PackageDiff {
  import opened Wrappers
  import opened ChangeEvents

  /** A stored JSON value where a list of strings is expected. */
  datatype Strings = NotAList | Items(items: seq<Item>)

  datatype Item = Str(s: string) | NotAString

  /** A stored JSON value where a list of findings is expected; an item is malformed when it is no
      object or one of its key fields is neither text, a number nor null (it may still be tagged as
      the threat-list finding). */
  datatype Findings = NoFindingList | FindingItems(items: seq<FindingItem>)

  datatype FindingItem = WellFormed(finding: Finding) | Malformed(taggedThreat: bool)

  /** The part of a stored analysis object that the diff reads; a missing key is ``NotAList``,
      ``NoFindingList`` or ``false``. */
  datatype AnalysisData = AnalysisData(
    permissions: Strings,
    hostPermissions: Strings,
    externalDomains: Strings,
    findings: Findings,
    usesRemoteCode: bool)

  function StringsOf(value: Strings): set<string> {
    if value.Items? then set i | i in value.items && i.Str? :: i.s else {}
  }

  function KeysOf(value: Findings): set<Finding> {
    if value.FindingItems? then set i | i in value.items && i.WellFormed? :: i.finding else {}
  }

  function PermissionsOf(data: AnalysisData): set<string> {
    StringsOf(data.permissions) + StringsOf(data.hostPermissions)
  }

  /** The findings of ``items`` not in ``known``, each once, in their order. */
  function NewItems(known: set<Finding>, items: seq<FindingItem>): seq<Finding>
    decreases |items|
  {
    if items == [] then []
    else if items[0].WellFormed? && items[0].finding !in known then
      [items[0].finding] + NewItems(known + {items[0].finding}, items[1..])
    else NewItems(known, items[1..])
  }

  function NewFindings(before: Findings, after: Findings): seq<Finding> {
    if after.FindingItems? then NewItems(KeysOf(before), after.items) else []
  }

  /** The source's loop over the new findings. */
  method ComputeNewFindings(before: Findings, after: Findings) returns (result: seq<Finding>)
    ensures result == NewFindings(before, after)
  {
    var oldKeys := KeysOf(before);
    result := [];
    var seen: set<Finding> := {};
    if after.NoFindingList? {
      return;
    }
    assert after.items[0..] == after.items && oldKeys + {} == oldKeys;
    for i := 0 to |after.items|
      invariant NewItems(oldKeys, after.items) == result + NewItems(oldKeys + seen, after.items[i..])
    {
      var item := after.items[i];
      assert after.items[i..][0] == item && after.items[i..][1..] == after.items[i + 1..];
      if item.WellFormed? && item.finding !in oldKeys && item.finding !in seen {
        assert oldKeys + seen + {item.finding} == oldKeys + (seen + {item.finding});
        result := result + [item.finding];
        seen := seen + {item.finding};
      }
    }
  }

  function DiffAnalysis(before: AnalysisData, after: AnalysisData): Option<CapabilityDiff> {
    var diff := CapabilityDiff(
      PermissionsOf(after) - PermissionsOf(before),
      StringsOf(after.externalDomains) - StringsOf(before.externalDomains),
      NewFindings(before.findings, after.findings),
      !before.usesRemoteCode && after.usesRemoteCode);
    if diff.addedPermissions == {} && diff.addedDomains == {} && diff.newFindings == [] && !diff.remoteCodeEnabled
    then None else Some(diff)
  }

  /** ``diff_analysis``, filling its result field by field. */
  method ComputeDiff(before: AnalysisData, after: AnalysisData) returns (r: Option<CapabilityDiff>)
    ensures r == DiffAnalysis(before, after)
  {
    var permissions := PermissionsOf(after) - PermissionsOf(before);
    var domains := StringsOf(after.externalDomains) - StringsOf(before.externalDomains);
    var findings := ComputeNewFindings(before.findings, after.findings);
    var remote := !before.usesRemoteCode && after.usesRemoteCode;
    var result := NO_DIFF;
    if permissions != {} {
      result := result.(addedPermissions := permissions);
    }
    if remote {
      result := result.(remoteCodeEnabled := true);
    }
    if domains != {} {
      result := result.(addedDomains := domains);
    }
    if findings != [] {
      result := result.(newFindings := findings);
    }
    r := if result == NO_DIFF then None else Some(result);
  }

  lemma {:induction false} NewItemsExact(known: set<Finding>, items: seq<FindingItem>)
    ensures forall f :: f in NewItems(known, items) <==> WellFormed(f) in items && f !in known
    ensures forall i, j | 0 <= i < j < |NewItems(known, items)| ::
            NewItems(known, items)[i] != NewItems(known, items)[j]
    decreases |items|
  {
    if items != [] {
      assert items == [items[0]] + items[1..];
      if items[0].WellFormed? && items[0].finding !in known {
        NewItemsExact(known + {items[0].finding}, items[1..]);
      } else {
        NewItemsExact(known, items[1..]);
      }
    }
  }

  /** The new findings are the well-formed ones of the new analysis whose key the old one lacks,
      each once. */
  lemma NewFindingsExact(before: Findings, after: Findings)
    ensures forall f :: f in NewFindings(before, after) <==> f in KeysOf(after) && f !in KeysOf(before)
    ensures forall i, j | 0 <= i < j < |NewFindings(before, after)| ::
            NewFindings(before, after)[i] != NewFindings(before, after)[j]
  {
    if after.FindingItems? {
      NewItemsExact(KeysOf(before), after.items);
      forall f ensures f in KeysOf(after) <==> WellFormed(f) in after.items {
        assert WellFormed(f).finding == f;
      }
    }
  }

  lemma EmptyDifference(a: set<string>, b: set<string>)
    ensures a - b == {} <==> a <= b
  {
    if a - b == {} {
      forall x | x in a ensures x in b {
        assert x !in a - b;
      }
    }
  }

  /** All capabilities of ``a`` are also in ``b``. */
  ghost predicate NoMoreCapable(a: AnalysisData, b: AnalysisData) {
    && PermissionsOf(a) <= PermissionsOf(b)
    && StringsOf(a.externalDomains) <= StringsOf(b.externalDomains)
    && KeysOf(a.findings) <= KeysOf(b.findings)
    && (a.usesRemoteCode ==> b.usesRemoteCode)
  }

  /** There is no diff exactly when nothing was added; removals never make one. */
  lemma DiffIsNoneIffNothingAdded(before: AnalysisData, after: AnalysisData)
    ensures DiffAnalysis(before, after).None? <==> NoMoreCapable(after, before)
  {
    EmptyDifference(PermissionsOf(after), PermissionsOf(before));
    EmptyDifference(StringsOf(after.externalDomains), StringsOf(before.externalDomains));
    NewFindingsExact(before.findings, after.findings);
    var added := NewFindings(before.findings, after.findings);
    if added != [] {
      assert added[0] in added;
    }
    if !(KeysOf(after.findings) <= KeysOf(before.findings)) {
      var f :| f in KeysOf(after.findings) && f !in KeysOf(before.findings);
      assert f in added;
    }
  }

  const NO_DIFF := CapabilityDiff({}, {}, [], false)

  function Added(before: AnalysisData, after: AnalysisData): CapabilityDiff {
    var diff := DiffAnalysis(before, after);
    if diff.Some? then diff.value else NO_DIFF
  }

  /** Field by field a diff holds exactly what the new analysis has and the old one lacks. */
  lemma DiffExact(before: AnalysisData, after: AnalysisData)
    ensures var added := Added(before, after);
            && (forall p :: p in added.addedPermissions <==>
                  && (p in StringsOf(after.permissions) || p in StringsOf(after.hostPermissions))
                  && p !in StringsOf(before.permissions) && p !in StringsOf(before.hostPermissions))
            && (forall d :: d in added.addedDomains <==>
                  d in StringsOf(after.externalDomains) && d !in StringsOf(before.externalDomains))
            && (forall f :: f in added.newFindings <==> f in KeysOf(after.findings) && f !in KeysOf(before.findings))
            && (forall i, j | 0 <= i < j < |added.newFindings| :: added.newFindings[i] != added.newFindings[j])
            && (added.remoteCodeEnabled <==> after.usesRemoteCode && !before.usesRemoteCode)
  {
    NewFindingsExact(before.findings, after.findings);
    DiffIsNoneIffNothingAdded(before, after);
  }

  /** A damaged value counts as empty, and a damaged item of a list as absent. */
  lemma StringsExact(value: Strings, s: string)
    ensures s in StringsOf(value) <==> value.Items? && Str(s) in value.items
  {
    if value.Items? && Str(s) in value.items {
      assert Str(s).Str? && Str(s).s == s;
    }
  }

  lemma KeysExact(value: Findings, f: Finding)
    ensures f in KeysOf(value) <==> value.FindingItems? && WellFormed(f) in value.items
  {
    if value.FindingItems? && WellFormed(f) in value.items {
      assert WellFormed(f).WellFormed? && WellFormed(f).finding == f;
    }
  }

  /** Nothing slips through a chain of versions: what the step from ``a`` to ``c`` adds was added
      by the step to ``b`` or by the step from it. */
  lemma DiffTriangle(a: AnalysisData, b: AnalysisData, c: AnalysisData)
    ensures Added(a, c).addedPermissions <= Added(a, b).addedPermissions + Added(b, c).addedPermissions
    ensures Added(a, c).addedDomains <= Added(a, b).addedDomains + Added(b, c).addedDomains
    ensures forall f | f in Added(a, c).newFindings :: f in Added(a, b).newFindings || f in Added(b, c).newFindings
    ensures Added(a, c).remoteCodeEnabled ==> Added(a, b).remoteCodeEnabled || Added(b, c).remoteCodeEnabled
  {
    NewFindingsExact(a.findings, c.findings);
    NewFindingsExact(a.findings, b.findings);
    NewFindingsExact(b.findings, c.findings);
  }
}
