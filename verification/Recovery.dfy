/** The recovery pass at the head of a refresh cycle (``recover_pending_alerts``, app/services.py). */
module Recovery {
  import opened Sequences
  import opened ChangeEvents
  import opened PendingAlerts
  import opened AlertProtocol

  /** Where an unexpected error interrupts the recovery of one extension, if anywhere. */
  datatype Fault = NoFault | BeforeFiring | AtClear

  /** What another actor commits on the marker: a refresh's merge or its acknowledgement, or another
      recovery's compare-and-clear. */
  datatype Change =
    | Merge(detected: seq<ChangeEvent>)
    | Ack(delivered: seq<ChangeEvent>)
    | Clear(expected: Marker)

  /** What one extension meets during the pass: whether ``fire_alerts`` returns, an unexpected error,
      and what others commit on its marker between the read and the clear. */
  datatype Circumstances = Circumstances(fires: bool, fault: Fault, meanwhile: seq<Change>)

  function Changed(raw: Marker, change: Change): Marker {
    match change
    case Merge(detected) => MergedMarker(raw, detected)
    case Ack(delivered) => AckedMarker(raw, delivered)
    case Clear(expected) => ClearedMarker(raw, expected)
  }

  function ChangedAll(raw: Marker, changes: seq<Change>): Marker
    decreases |changes|
  {
    if changes == [] then raw else ChangedAll(Changed(raw, changes[0]), changes[1..])
  }

  /** The marker after a list of merges. */
  function MergedAll(raw: Marker, merges: seq<seq<ChangeEvent>>): Marker
    decreases |merges|
  {
    if merges == [] then raw else MergedAll(MergedMarker(raw, merges[0]), merges[1..])
  }

  /** Nothing fails, and no one else touches the marker. */
  predicate Uninterrupted(c: Circumstances) { c.fires && c.fault == NoFault && c.meanwhile == [] }

  /** Whether the events of the marker are fired and the call returns. */
  predicate Handles(raw: Marker, c: Circumstances) {
    Parsed(raw) != [] && c.fault != BeforeFiring && c.fires
  }

  /** Whether the pass gets as far as clearing. A marker with nothing deliverable is cleared unfired. */
  predicate Clears(raw: Marker, c: Circumstances) {
    raw != Null && c.fault == NoFault && (Parsed(raw) == [] || c.fires)
  }

  /** A row after its turn in the pass. */
  function Recovered(raw: Marker, c: Circumstances): Marker {
    if raw == Null || c.fault == BeforeFiring then raw
    else
      var found := ChangedAll(raw, c.meanwhile);
      if Clears(raw, c) then ClearedMarker(found, raw) else found
  }

  /** The extension table; a row's position stands for its id. */
  class AlertStore {
    var markers: seq<Marker>

    constructor (markers: seq<Marker>)
      ensures this.markers == markers
    {
      this.markers := markers;
    }

    /** The scan query: the rows whose marker is set. */
    method Scan() returns (ids: seq<nat>)
      ensures forall k | 0 <= k < |ids| :: ids[k] < |markers| && markers[ids[k]] != Null
      ensures forall id: nat | id < |markers| && markers[id] != Null :: id in ids
      ensures NoDuplicates(ids)
    {
      ids := [];
      for id := 0 to |markers|
        invariant forall k | 0 <= k < |ids| :: ids[k] < id && markers[ids[k]] != Null
        invariant forall k: nat | k < id && markers[k] != Null :: k in ids
        invariant NoDuplicates(ids)
      {
        if markers[id] != Null {
          ids := ids + [id];
        }
      }
    }

    /** The guarded body of the loop: one extension. */
    method RecoverOne(id: nat, c: Circumstances) returns (handled: bool, events: seq<ChangeEvent>)
      requires id < |markers| && markers[id] != Null
      modifies this
      ensures markers == old(markers)[id := Recovered(old(markers)[id], c)]
      ensures handled == Handles(old(markers)[id], c)
      ensures handled ==> events == Parsed(old(markers)[id])
    {
      handled, events := false, [];
      if c.fault == BeforeFiring {
        return;
      }
      var raw := markers[id];
      events := ParsePendingEvents(raw);
      handled := events != [] && c.fires;
      markers := markers[id := ChangedAll(raw, c.meanwhile)];   // others commit meanwhile
      if (events != [] && !c.fires) || c.fault == AtClear {
        return;
      }
      if markers[id] == raw {
        markers := markers[id := Null];
      }
    }

    /** Every row ends as ``Recovered`` says; ``handled`` maps the extensions whose events a returning
        ``fire_alerts`` got to those events. */
    method RecoverPendingAlerts(circumstances: nat -> Circumstances) returns (handled: map<nat, seq<ChangeEvent>>)
      modifies this
      ensures |markers| == |old(markers)|
      ensures forall id: nat | id < |markers| :: markers[id] == Recovered(old(markers)[id], circumstances(id))
      ensures forall id: nat :: id in handled <==> id < |old(markers)| && Handles(old(markers)[id], circumstances(id))
      ensures forall id | id in handled :: handled[id] == Parsed(old(markers)[id])
      // An uninterrupted pass whose deliveries succeed empties every marker, junk or not, and hands over
      // every well-formed event.
      ensures forall id: nat | id < |markers| && Uninterrupted(circumstances(id)) ::
                && markers[id] == Null
                && (Parsed(old(markers)[id]) != [] ==> id in handled)
    {
      ghost var before := markers;
      var ids := Scan();
      handled := map[];
      ghost var done: set<nat> := {};
      for i := 0 to |ids|
        invariant |markers| == |before|
        invariant forall k | 0 <= k < |ids| :: ids[k] in done <==> k < i
        invariant forall id | id in done :: id in ids
        invariant forall id: nat | id < |markers| ::
                    markers[id] == if id in done then Recovered(before[id], circumstances(id)) else before[id]
        invariant forall id: nat ::
                  id in handled <==> id < |before| && id in done && Handles(before[id], circumstances(id))
        invariant forall id | id in handled :: handled[id] == Parsed(before[id])
      {
        var id := ids[i];
        var ok, events := RecoverOne(id, circumstances(id));
        if ok {
          handled := handled[id := events];
        }
        done := done + {id};
      }
    }
  }

  /** A merge leaves the marker text alone exactly when it appends nothing and there was no junk to
      clean out. */
  lemma MergeUnchangedIff(raw: Marker, detected: seq<ChangeEvent>)
    ensures MergedMarker(raw, detected) == raw <==>
            raw == Dumped(Parsed(raw)) && forall e | e in detected :: e in Parsed(raw)
  {
    var appended := Fresh(Parsed(raw), detected);
    FreshIsExact(Parsed(raw), detected);
    ParseDump(Parsed(raw) + appended);
    if appended == [] {
      assert Parsed(raw) + appended == Parsed(raw);
    } else {
      assert appended[0] in appended;
      assert |Parsed(MergedMarker(raw, detected))| > |Parsed(raw)|;
    }
  }

  lemma {:induction false} MergedAllExtends(raw: Marker, merges: seq<seq<ChangeEvent>>)
    ensures Parsed(raw) <= Parsed(MergedAll(raw, merges))
    decreases |merges|
  {
    if merges != [] {
      ParseDump(Parsed(raw) + Fresh(Parsed(raw), merges[0]));
      MergedAllExtends(MergedMarker(raw, merges[0]), merges[1..]);
    }
  }

  lemma {:induction false} MergedAllUnchangedIff(raw: Marker, merges: seq<seq<ChangeEvent>>)
    ensures MergedAll(raw, merges) == raw <==>
            forall i | 0 <= i < |merges| :: MergedMarker(raw, merges[i]) == raw
    decreases |merges|
  {
    if merges != [] {
      var first, rest := MergedMarker(raw, merges[0]), merges[1..];
      if first == raw {
        MergedAllUnchangedIff(raw, rest);
        forall i | 0 <= i < |merges| ensures i == 0 || merges[i] == rest[i - 1] {
        }
        assert forall i | 0 <= i < |rest| :: rest[i] == merges[i + 1];
      } else {
        MergedAllNeverReturns(raw, merges);
      }
    }
  }

  /** Merges never bring a marker back to an earlier text that differs. */
  lemma MergedAllNeverReturns(raw: Marker, merges: seq<seq<ChangeEvent>>)
    requires merges != [] && MergedMarker(raw, merges[0]) != raw
    ensures MergedAll(raw, merges) != raw
  {
    var first := MergedMarker(raw, merges[0]);
    MergedAllExtends(first, merges[1..]);
    MergeUnchangedIff(raw, merges[0]);
    ParseDump(Parsed(raw) + Fresh(Parsed(raw), merges[0]));
    if raw == Dumped(Parsed(raw)) {
      FreshIsExact(Parsed(raw), merges[0]);
      var e :| e in merges[0] && e !in Parsed(raw);
      assert e in Fresh(Parsed(raw), merges[0]);
      assert |Parsed(first)| > |Parsed(raw)|;
    } else {
      MergedAllCanonical(first, merges[1..]);
    }
  }

  lemma {:induction false} MergedAllCanonical(raw: Marker, merges: seq<seq<ChangeEvent>>)
    requires raw == Dumped(Parsed(raw))
    ensures MergedAll(raw, merges) == Dumped(Parsed(MergedAll(raw, merges)))
    decreases |merges|
  {
    if merges != [] {
      ParseDump(Parsed(raw) + Fresh(Parsed(raw), merges[0]));
      MergedAllCanonical(MergedMarker(raw, merges[0]), merges[1..]);
    }
  }

  function Merges(merges: seq<seq<ChangeEvent>>): seq<Change>
    decreases |merges|
  {
    if merges == [] then [] else [Merge(merges[0])] + Merges(merges[1..])
  }

  lemma {:induction false} MergesOnly(raw: Marker, merges: seq<seq<ChangeEvent>>)
    ensures ChangedAll(raw, Merges(merges)) == MergedAll(raw, merges)
    decreases |merges|
  {
    if merges != [] {
      AppendToTail([Merge(merges[0])], Merges(merges[1..]));
      EmptyIsNeutral(Merges(merges[1..]));
      MergesOnly(MergedMarker(raw, merges[0]), merges[1..]);
    }
  }

  /** A row whose recovery gets as far as clearing, and meets only merges, is empty afterwards exactly when
      none of them changed its marker; otherwise the marker stays as they left it, newer events included. */
  lemma RecoveryClearsIff(raw: Marker, c: Circumstances, merges: seq<seq<ChangeEvent>>)
    requires Clears(raw, c) && c.meanwhile == Merges(merges)
    ensures var untouched := forall i | 0 <= i < |merges| ::
                               raw == Dumped(Parsed(raw)) && forall e | e in merges[i] :: e in Parsed(raw);
            Recovered(raw, c) == if untouched then Null else MergedAll(raw, merges)
  {
    MergesOnly(raw, merges);
    MergedAllUnchangedIff(raw, merges);
    forall i | 0 <= i < |merges| {
      MergeUnchangedIff(raw, merges[i]);
    }
  }

  /** Whatever others commit meanwhile, acknowledgements and clears included, a recovery takes out of the
      marker it finds only what it handled, and what it did not handle stays as the others left it. One
      that finds no marker, or fails before firing, leaves the row alone. */
  lemma RecoveryLosesNothing(raw: Marker, c: Circumstances)
    ensures var found := if raw == Null || c.fault == BeforeFiring then raw else ChangedAll(raw, c.meanwhile);
            && (forall e | e in Parsed(found) :: e in Parsed(Recovered(raw, c)) || e in HandledBy(raw, c))
            && (forall e | e in Parsed(Recovered(raw, c)) :: e in Parsed(found))
            && (!Handles(raw, c) ==> Parsed(Recovered(raw, c)) == Parsed(found))
            && (found != raw ==> Recovered(raw, c) == found)
  {
  }

  /** Against merges alone nothing pending at the read is lost unhandled. */
  lemma UnhandledStaysPending(raw: Marker, c: Circumstances, merges: seq<seq<ChangeEvent>>)
    requires c.meanwhile == Merges(merges) && !Handles(raw, c)
    ensures Parsed(raw) <= Parsed(Recovered(raw, c))
  {
    MergesOnly(raw, merges);
    MergedAllExtends(raw, merges);
  }

  /** The values that the pass hands to a ``fire_alerts`` that returns, for one row. */
  function HandledBy(raw: Marker, c: Circumstances): set<ChangeEvent> {
    if Handles(raw, c) then Values(Parsed(raw)) else {}
  }

  // ------------------------------------------------------------------ the pass is a run of the protocol

  /** Steps of actors other than recovery ``r``. */
  predicate ByOther(step: Step, r: nat) { step.OfRecovery() || step.Crash? ==> step.actor != r }

  ghost predicate ByOthers(steps: seq<Step>, r: nat) { forall i | 0 <= i < |steps| :: ByOther(steps[i], r) }

  function ChangeOf(s: State, step: Step): seq<Change> {
    if !Enabled(s, step) then []
    else match step
      case Commit(_, detected) => [Merge(detected)]
      case Acknowledge(a) => [Ack(s.owners[a].events)]
      case ClearMarker(a) => [Clear(s.recoveries[a].raw)]
      case _ => []
  }

  /** What the steps commit on the marker. */
  function ChangesOf(s: State, steps: seq<Step>): seq<Change>
    decreases |steps|
  {
    if steps == [] then [] else ChangeOf(s, steps[0]) + ChangesOf(Attempt(s, steps[0]), steps[1..])
  }

  function HandledAt(s: State, step: Step): set<ChangeEvent> {
    if !Enabled(s, step) then {}
    else match step
      case Deliver(a, ok) => if ok then Values(s.owners[a].events) else {}
      case Redeliver(a, ok) => if ok then Values(Parsed(s.recoveries[a].raw)) else {}
      case _ => {}
  }

  /** What the steps hand to a ``fire_alerts`` that returns. */
  function HandledIn(s: State, steps: seq<Step>): set<ChangeEvent>
    decreases |steps|
  {
    if steps == [] then {} else HandledAt(s, steps[0]) + HandledIn(Attempt(s, steps[0]), steps[1..])
  }

  lemma OtherStep(s: State, step: Step, r: nat)
    requires ByOther(step, r)
    ensures var t := Attempt(s, step);
            && t.marker == ChangedAll(s.marker, ChangeOf(s, step))
            && t.handled == s.handled + HandledAt(s, step)
            && (r in t.recoveries <==> r in s.recoveries)
            && (r in s.recoveries ==> t.recoveries[r] == s.recoveries[r])
  {
    if ChangeOf(s, step) != [] {
      assert ChangeOf(s, step)[1..] == [];
      assert ChangedAll(Changed(s.marker, ChangeOf(s, step)[0]), []) == Changed(s.marker, ChangeOf(s, step)[0]);
    }
    if Enabled(s, step) && step.Redeliver? && Parsed(s.recoveries[step.actor].raw) == [] {
      assert Values(Parsed(s.recoveries[step.actor].raw)) == {};
    }
  }

  lemma {:induction false} ChangedAllConcat(raw: Marker, a: seq<Change>, b: seq<Change>)
    ensures ChangedAll(raw, a + b) == ChangedAll(ChangedAll(raw, a), b)
    decreases |a|
  {
    if a == [] {
      EmptyIsNeutral(b);
    } else {
      AppendToTail(a, b);
      ChangedAllConcat(Changed(raw, a[0]), a[1..], b);
    }
  }

  lemma {:induction false} OthersRun(s: State, steps: seq<Step>, r: nat)
    requires ByOthers(steps, r)
    ensures var t := Run(s, steps);
            && t.marker == ChangedAll(s.marker, ChangesOf(s, steps))
            && t.handled == s.handled + HandledIn(s, steps)
            && (r in t.recoveries <==> r in s.recoveries)
            && (r in s.recoveries ==> t.recoveries[r] == s.recoveries[r])
    decreases |steps|
  {
    if steps != [] {
      assert ByOther(steps[0], r);
      OtherStep(s, steps[0], r);
      OthersRun(Attempt(s, steps[0]), steps[1..], r);
      ChangedAllConcat(s.marker, ChangeOf(s, steps[0]), ChangesOf(Attempt(s, steps[0]), steps[1..]));
    }
  }

  /** One extension's recovery, with what others do while it fires and before it clears. */
  function RecoverySteps(raw: Marker, c: Circumstances, r: nat, during: seq<Step>, after: seq<Step>): seq<Step> {
    if raw == Null || c.fault == BeforeFiring then []
    else
      ([ReadMarker(r)] + during) + ([Redeliver(r, c.fires)] + after) + (if Clears(raw, c) then [ClearMarker(r)] else [])
  }

  function AfterRead(s: State, r: nat): State { Attempt(s, ReadMarker(r)) }

  function AfterFiring(s: State, c: Circumstances, r: nat, during: seq<Step>): State {
    Attempt(Run(AfterRead(s, r), during), Redeliver(r, c.fires))
  }

  /** The circumstances are those that the other actors' steps bring about. */
  ghost predicate BroughtAbout(s: State, c: Circumstances, r: nat, during: seq<Step>, after: seq<Step>) {
    && ByOthers(during, r) && ByOthers(after, r)
    && c.meanwhile == ChangesOf(AfterRead(s, r), during) + ChangesOf(AfterFiring(s, c, r, during), after)
  }

  function OthersHandled(s: State, c: Circumstances, r: nat, during: seq<Step>, after: seq<Step>): set<ChangeEvent> {
    if s.marker == Null || c.fault == BeforeFiring then {}
    else HandledIn(AfterRead(s, r), during) + HandledIn(AfterFiring(s, c, r, during), after)
  }

  lemma RunFirst(s: State, step: Step, rest: seq<Step>)
    ensures Run(s, [step] + rest) == Run(Attempt(s, step), rest)
  {
    AppendToTail([step], rest);
    EmptyIsNeutral(rest);
  }

  lemma Fires(s: State, c: Circumstances, r: nat, during: seq<Step>)
    requires r !in s.recoveries && s.marker != Null && c.fault != BeforeFiring && ByOthers(during, r)
    ensures var t := AfterFiring(s, c, r, during);
            && t == Run(s, ([ReadMarker(r)] + during) + [Redeliver(r, c.fires)])
            && t.marker == ChangedAll(s.marker, ChangesOf(AfterRead(s, r), during))
            && t.handled == s.handled + HandledIn(AfterRead(s, r), during) + HandledBy(s.marker, c)
            && (Clears(s.marker, c) ==> r in t.recoveries && t.recoveries[r] == Redelivered(s.marker))
  {
    var read := AfterRead(s, r);
    RunFirst(s, ReadMarker(r), during);
    OthersRun(read, during, r);
    RunConcat(s, [ReadMarker(r)] + during, [Redeliver(r, c.fires)]);
    RunFirst(Run(read, during), Redeliver(r, c.fires), []);
    EmptyIsNeutral([Redeliver(r, c.fires)]);
    if Parsed(s.marker) == [] {
      assert Values(Parsed(s.marker)) == {};
    }
  }

  lemma UpToClear(s: State, c: Circumstances, r: nat, during: seq<Step>, after: seq<Step>)
    requires r !in s.recoveries && s.marker != Null && c.fault != BeforeFiring && BroughtAbout(s, c, r, during, after)
    ensures var t := Run(s, ([ReadMarker(r)] + during) + ([Redeliver(r, c.fires)] + after));
            && t.marker == ChangedAll(s.marker, c.meanwhile)
            && t.handled == s.handled + HandledBy(s.marker, c) + OthersHandled(s, c, r, during, after)
            && (Clears(s.marker, c) ==> r in t.recoveries && t.recoveries[r] == Redelivered(s.marker))
  {
    var start, fired := [ReadMarker(r)] + during, AfterFiring(s, c, r, during);
    Fires(s, c, r, during);
    OthersRun(fired, after, r);
    AppendAssociates(start, [Redeliver(r, c.fires)], after);
    RunConcat(s, start + [Redeliver(r, c.fires)], after);
    ChangedAllConcat(s.marker, ChangesOf(AfterRead(s, r), during), ChangesOf(fired, after));
  }

  lemma ClearOnly(s: State, r: nat, raw: Marker)
    requires r in s.recoveries && s.recoveries[r] == Redelivered(raw)
    ensures var t := Run(s, [ClearMarker(r)]);
            t.marker == ClearedMarker(s.marker, raw) && t.handled == s.handled && t.committed == s.committed
  {
    RunFirst(s, ClearMarker(r), []);
    EmptyIsNeutral([ClearMarker(r)]);
  }

  /** What the pass does to a row, and what it hands over for it, is a run of the alert protocol, whatever
      other actors do in between. */
  lemma RecoveryIsProtocolRun(s: State, c: Circumstances, r: nat, during: seq<Step>, after: seq<Step>)
    requires r !in s.recoveries && BroughtAbout(s, c, r, during, after)
    ensures var t := Run(s, RecoverySteps(s.marker, c, r, during, after));
            && t.marker == Recovered(s.marker, c)
            && t.handled == s.handled + HandledBy(s.marker, c) + OthersHandled(s, c, r, during, after)
  {
    if s.marker != Null && c.fault != BeforeFiring {
      var steps := ([ReadMarker(r)] + during) + ([Redeliver(r, c.fires)] + after);
      UpToClear(s, c, r, during, after);
      if Clears(s.marker, c) {
        RunConcat(s, steps, [ClearMarker(r)]);
        ClearOnly(Run(s, steps), r, s.marker);
      } else {
        EmptyIsNeutral(steps);
      }
    } else {
      assert s.handled + {} + {} == s.handled;
    }
  }

  /** At least once, for the pass: starting from any run of the protocol, and whatever others do in between,
      every value committed before it or during it is afterwards in the marker it leaves, was handled
      earlier or by the others, or is one of the values the pass reports as handled. */
  lemma PassLosesNothing(marker: Marker, steps: seq<Step>, c: Circumstances, r: nat, during: seq<Step>,
                         after: seq<Step>)
    requires var s := Run(Initial(marker), steps); r !in s.recoveries && BroughtAbout(s, c, r, during, after)
    ensures var s := Run(Initial(marker), steps);
            var t := Run(s, RecoverySteps(s.marker, c, r, during, after));
            && s.committed <= t.committed
            && (forall e | e in t.committed ::
                  || e in Parsed(Recovered(s.marker, c)) || e in HandledBy(s.marker, c)
                  || e in s.handled || e in OthersHandled(s, c, r, during, after))
            && HandledBy(s.marker, c) <= s.committed
  {
    var s := Run(Initial(marker), steps);
    AtLeastOnceAlways(Initial(marker), steps);
    RecoveryIsProtocolRun(s, c, r, during, after);
    AtLeastOnceAlways(s, RecoverySteps(s.marker, c, r, during, after));
    HistoryGrows(s, RecoverySteps(s.marker, c, r, during, after));
  }
}
