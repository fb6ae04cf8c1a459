/**
 The durable pending-alert protocol of one extension as a transition system
 (app/services.py): refreshes that commit events into the shared marker and own the ones
 they appended, deliveries that succeed or fail, per-event acknowledgements by owners,
 recoveries that deliver and compare-and-clear the whole marker, and crashes that drop any
 actor between any two steps.
 */
module AlertProtocol {
  import opened ChangeEvents
  import opened PendingAlerts

  /** A refresh between its commit and its acknowledgement. */
  datatype Owner = Committed(events: seq<ChangeEvent>) | Delivered(events: seq<ChangeEvent>)

  /** A recovery between reading the raw marker and clearing it. */
  datatype Recovery = Read(raw: Marker) | Redelivered(raw: Marker)

  /** The shared row, the actors in flight, and four history variables: every event value
      ever committed, every value handled by a ``fire_alerts`` that returned, how often each
      value was appended to the marker, and how often owners started to fire it. */
  datatype State = State(
    marker: Marker,
    owners: map<nat, Owner>,
    recoveries: map<nat, Recovery>,
    committed: set<ChangeEvent>,
    handled: set<ChangeEvent>,
    staged: multiset<ChangeEvent>,
    fired: multiset<ChangeEvent>)

  datatype Step =
    | Commit(actor: nat, detected: seq<ChangeEvent>)
    | Deliver(actor: nat, ok: bool)
    | Acknowledge(actor: nat)
    | ReadMarker(actor: nat)
    | Redeliver(actor: nat, ok: bool)
    | ClearMarker(actor: nat)
    | Crash(actor: nat)
  {
    predicate OfRecovery() { ReadMarker? || Redeliver? || ClearMarker? }
  }

  function Values(events: seq<ChangeEvent>): (values: set<ChangeEvent>)
    ensures forall e :: e in values <==> e in events
  {
    set e | e in events
  }

  /** Before any actor runs: whatever the marker holds counts as committed and staged. */
  function Initial(marker: Marker): State {
    State(marker, map[], map[], Values(Parsed(marker)), {}, multiset(Parsed(marker)), multiset{})
  }

  /** Whether the step's actor stands where the step starts. */
  predicate Enabled(s: State, step: Step) {
    match step
    case Commit(a, _) => a !in s.owners
    case Deliver(a, _) => a in s.owners && s.owners[a].Committed?
    case Acknowledge(a) => a in s.owners && s.owners[a].Delivered?
    case ReadMarker(a) => a !in s.recoveries && s.marker != Null
    case Redeliver(a, _) => a in s.recoveries && s.recoveries[a].Read?
    case ClearMarker(a) => a in s.recoveries && s.recoveries[a].Redelivered?
    case Crash(_) => true
  }

  /** One atomic step. Each database step is atomic because it runs under the row lock. */
  function Apply(s: State, step: Step): State
    requires Enabled(s, step)
  {
    match step
    case Commit(a, detected) =>
      var appended := Fresh(Parsed(s.marker), detected);
      s.(marker := MergedMarker(s.marker, detected),
         owners := s.owners[a := Committed(appended)],
         committed := s.committed + Values(detected),
         staged := s.staged + multiset(appended))
    case Deliver(a, ok) =>
      var events := s.owners[a].events;
      if ok then
        s.(owners := s.owners[a := Delivered(events)],
           handled := s.handled + Values(events),
           fired := s.fired + multiset(events))
      else
        s.(owners := s.owners - {a}, fired := s.fired + multiset(events))
    case Acknowledge(a) =>
      s.(marker := AckedMarker(s.marker, s.owners[a].events), owners := s.owners - {a})
    case ReadMarker(a) =>
      s.(recoveries := s.recoveries[a := Read(s.marker)])
    case Redeliver(a, ok) =>
      var raw := s.recoveries[a].raw;
      // A marker with nothing deliverable is cleared without firing.
      if ok || Parsed(raw) == [] then
        s.(recoveries := s.recoveries[a := Redelivered(raw)], handled := s.handled + Values(Parsed(raw)))
      else
        s.(recoveries := s.recoveries - {a})
    case ClearMarker(a) =>
      s.(marker := ClearedMarker(s.marker, s.recoveries[a].raw), recoveries := s.recoveries - {a})
    case Crash(a) =>
      s.(owners := s.owners - {a}, recoveries := s.recoveries - {a})
  }

  /** A run: disabled steps do nothing, so every list of steps is a run. */
  function Run(s: State, steps: seq<Step>): State
    decreases |steps|
  {
    if steps == [] then s else Run(Attempt(s, steps[0]), steps[1..])
  }

  function Attempt(s: State, step: Step): State {
    if Enabled(s, step) then Apply(s, step) else s
  }

  lemma {:induction false} RunConcat(s: State, first: seq<Step>, second: seq<Step>)
    ensures Run(s, first + second) == Run(Run(s, first), second)
    decreases |first|
  {
    if first == [] {
      assert first + second == second;
    } else {
      assert (first + second)[1..] == first[1..] + second;
      RunConcat(Attempt(s, first[0]), first[1..], second);
    }
  }

  // ------------------------------------------------------------------ at least once

  /** No committed value is lost, and nothing is handled that was never committed. */
  ghost predicate AtLeastOnce(s: State) {
    && (forall e | e in s.committed :: e in Parsed(s.marker) || e in s.handled)
    && s.handled <= s.committed
    && (forall e | e in Parsed(s.marker) :: e in s.committed)
    && (forall a | a in s.owners :: Values(s.owners[a].events) <= s.committed)
    && (forall a | a in s.owners && s.owners[a].Delivered? :: Values(s.owners[a].events) <= s.handled)
    && (forall a | a in s.recoveries :: Values(Parsed(s.recoveries[a].raw)) <= s.committed)
    && (forall a | a in s.recoveries && s.recoveries[a].Redelivered? ::
          Values(Parsed(s.recoveries[a].raw)) <= s.handled)
  }

  lemma AtLeastOnceStep(s: State, step: Step)
    requires AtLeastOnce(s) && Enabled(s, step)
    ensures AtLeastOnce(Apply(s, step))
  {
    match step
    case Commit(a, detected) =>
      MergeKeepsValues(s.marker, detected);
      FreshIsExact(Parsed(s.marker), detected);
    case Acknowledge(a) =>
      AckKeepsOtherValues(s.marker, s.owners[a].events);
    case _ =>
  }

  /** In every interleaving of merges, deliveries, acknowledgements, recoveries, failures and
      crashes, each event value ever committed is still in the marker or has been handled. */
  lemma {:induction false} AtLeastOnceAlways(s: State, steps: seq<Step>)
    requires AtLeastOnce(s)
    ensures AtLeastOnce(Run(s, steps))
    decreases |steps|
  {
    if steps != [] {
      if Enabled(s, steps[0]) {
        AtLeastOnceStep(s, steps[0]);
      }
      AtLeastOnceAlways(Attempt(s, steps[0]), steps[1..]);
    }
  }

  lemma {:induction false} HistoryGrows(s: State, steps: seq<Step>)
    ensures s.committed <= Run(s, steps).committed && s.handled <= Run(s, steps).handled
    decreases |steps|
  {
    if steps != [] {
      HistoryGrows(Attempt(s, steps[0]), steps[1..]);
    }
  }

  /** Wherever a run stands, every value committed at any earlier point of it is in the marker
      or handled, and every handled value was committed. */
  lemma NoEventIsLost(marker: Marker, before: seq<Step>, after: seq<Step>)
    ensures var earlier, now := Run(Initial(marker), before), Run(Initial(marker), before + after);
            && (forall e | e in earlier.committed :: e in Parsed(now.marker) || e in now.handled)
            && now.handled <= now.committed
  {
    RunConcat(Initial(marker), before, after);
    AtLeastOnceAlways(Initial(marker), before + after);
    HistoryGrows(Run(Initial(marker), before), after);
  }

  // ------------------------------------------------------------------ single ownership

  /** The events of an owner that has not started to fire them. */
  ghost predicate AwaitsDelivery(s: State, e: ChangeEvent) {
    exists a :: a in s.owners && s.owners[a].Committed? && e in s.owners[a].events
  }

  /** The marker and the events of the owners in flight hold every value at most once. */
  ghost predicate Owned(pending: seq<ChangeEvent>, owners: map<nat, Owner>) {
    && NoDuplicates(pending)
    && (forall a | a in owners :: NoDuplicates(owners[a].events))
    && (forall a | a in owners :: forall e | e in owners[a].events :: e in pending)
    && (forall a, b | a in owners && b in owners && a != b ::
          forall e | e in owners[a].events :: e !in owners[b].events)
  }

  /** No value is fired more often than it was appended; one still to be fired, less often. */
  ghost predicate FiredAsStaged(s: State) {
    forall e :: s.fired[e] + (if AwaitsDelivery(s, e) then 1 else 0) <= s.staged[e]
  }

  ghost predicate SingleOwnership(s: State) {
    Owned(Parsed(s.marker), s.owners) && FiredAsStaged(s) && s.recoveries == map[]
  }

  lemma {:induction false} DistinctCounts<T>(s: seq<T>)
    requires NoDuplicates(s)
    ensures forall e :: multiset(s)[e] == if e in s then 1 else 0
  {
    if s != [] {
      DistinctCounts(s[1..]);
      assert s == [s[0]] + s[1..];
      forall e ensures multiset(s)[e] == if e in s then 1 else 0 {
        assert multiset(s)[e] == multiset([s[0]])[e] + multiset(s[1..])[e];
        assert e == s[0] ==> e !in s[1..];
      }
    }
  }

  lemma OwnedCommit(pending: seq<ChangeEvent>, owners: map<nat, Owner>, a: nat, detected: seq<ChangeEvent>)
    requires Owned(pending, owners) && a !in owners
    ensures var appended := Fresh(pending, detected);
            Owned(pending + appended, owners[a := Committed(appended)])
  {
    FreshIsExact(pending, detected);
  }

  lemma SingleOwnershipCommit(s: State, a: nat, detected: seq<ChangeEvent>)
    requires SingleOwnership(s) && a !in s.owners
    ensures SingleOwnership(Apply(s, Commit(a, detected)))
  {
    var t := Apply(s, Commit(a, detected));
    var pending := Parsed(s.marker);
    var appended := Fresh(pending, detected);
    OwnedCommit(pending, s.owners, a, detected);
    ParseDump(pending + appended);
    FreshIsExact(pending, detected);
    DistinctCounts(appended);
    forall e ensures t.fired[e] + (if AwaitsDelivery(t, e) then 1 else 0) <= t.staged[e] {
      assert t.staged[e] == s.staged[e] + multiset(appended)[e];
      if AwaitsDelivery(t, e) && e !in appended {
        assert AwaitsDelivery(s, e);
      }
    }
  }

  lemma SingleOwnershipDeliver(s: State, a: nat, ok: bool)
    requires SingleOwnership(s) && Enabled(s, Deliver(a, ok))
    ensures SingleOwnership(Apply(s, Deliver(a, ok)))
  {
    var t := Apply(s, Deliver(a, ok));
    var events := s.owners[a].events;
    DistinctCounts(events);
    forall e ensures t.fired[e] + (if AwaitsDelivery(t, e) then 1 else 0) <= t.staged[e] {
      assert t.fired[e] == s.fired[e] + multiset(events)[e];
      if e in events {
        assert AwaitsDelivery(s, e) && !AwaitsDelivery(t, e);
      } else if AwaitsDelivery(t, e) {
        assert AwaitsDelivery(s, e);
      }
    }
  }

  lemma SingleOwnershipAcknowledge(s: State, a: nat)
    requires SingleOwnership(s) && Enabled(s, Acknowledge(a))
    ensures SingleOwnership(Apply(s, Acknowledge(a)))
  {
    var t := Apply(s, Acknowledge(a));
    var pending, events := Parsed(s.marker), s.owners[a].events;
    AckIsFilter(pending, events);
    WithoutMembers(pending, events);
    ParseDump(Without(pending, events));
    assert Owned(Without(pending, events), t.owners);
    forall e | AwaitsDelivery(t, e) ensures AwaitsDelivery(s, e) {
    }
  }

  lemma SingleOwnershipCrash(s: State, a: nat)
    requires SingleOwnership(s)
    ensures SingleOwnership(Apply(s, Crash(a)))
  {
    var t := Apply(s, Crash(a));
    forall e | AwaitsDelivery(t, e) ensures AwaitsDelivery(s, e) {
    }
  }

  /** In every run without recoveries the marker stays duplicate-free, the events of the
      refreshes in flight are disjoint and all in the marker, and a value is fired at most as
      often as it was appended: no staged event is fired by two refreshes. */
  lemma {:induction false} SingleOwnershipAlways(s: State, steps: seq<Step>)
    requires SingleOwnership(s)
    requires forall step | step in steps :: !step.OfRecovery()
    ensures SingleOwnership(Run(s, steps))
    decreases |steps|
  {
    if steps != [] {
      var step := steps[0];
      assert !step.OfRecovery();
      if Enabled(s, step) {
        match step
        case Commit(a, detected) => SingleOwnershipCommit(s, a, detected);
        case Deliver(a, ok) => SingleOwnershipDeliver(s, a, ok);
        case Acknowledge(a) => SingleOwnershipAcknowledge(s, a);
        case Crash(a) => SingleOwnershipCrash(s, a);
        case _ =>
      }
      assert forall later | later in steps[1..] :: later in steps;
      SingleOwnershipAlways(Attempt(s, step), steps[1..]);
    }
  }

  lemma SingleOwnershipInitially(marker: Marker)
    ensures SingleOwnership(Initial(marker)) <==> NoDuplicates(Parsed(marker))
  {
  }

  lemma AckOfContained(pending: seq<ChangeEvent>, events: seq<ChangeEvent>)
    requires NoDuplicates(pending) && NoDuplicates(events)
    requires forall e | e in events :: e in pending
    ensures RemoveAll(pending, events) == Without(pending, events)
    ensures multiset(Without(pending, events)) + multiset(events) == multiset(pending)
  {
    AckIsFilter(pending, events);
    RemoveAllCounts(pending, events);
    DistinctCounts(pending);
    DistinctCounts(events);
    assert multiset(events) <= multiset(pending);
  }

  /** In such a run an acknowledgement takes out exactly its owner's events, in place. */
  lemma AcknowledgeRemovesOwnEvents(marker: Marker, steps: seq<Step>, a: nat)
    requires NoDuplicates(Parsed(marker))
    requires forall step | step in steps :: !step.OfRecovery()
    requires Enabled(Run(Initial(marker), steps), Acknowledge(a))
    ensures var s := Run(Initial(marker), steps);
            var left := Parsed(AckedMarker(s.marker, s.owners[a].events));
            && Apply(s, Acknowledge(a)).marker == AckedMarker(s.marker, s.owners[a].events)
            && left == Without(Parsed(s.marker), s.owners[a].events)
            && multiset(left) + multiset(s.owners[a].events) == multiset(Parsed(s.marker))
  {
    SingleOwnershipAlways(Initial(marker), steps);
    var s := Run(Initial(marker), steps);
    AckOfContained(Parsed(s.marker), s.owners[a].events);
    ParseDump(Without(Parsed(s.marker), s.owners[a].events));
  }

  // ------------------------------------------------------------------ recovery

  /** An undisturbed recovery whose delivery succeeds. */
  function RecoveryRound(s: State, r: nat): State {
    Attempt(Attempt(Attempt(s, ReadMarker(r)), Redeliver(r, true)), ClearMarker(r))
  }

  lemma RecoveryRoundIsRun(s: State, r: nat)
    ensures RecoveryRound(s, r) == Run(s, [ReadMarker(r), Redeliver(r, true), ClearMarker(r)])
  {
    var round := [ReadMarker(r), Redeliver(r, true), ClearMarker(r)];
    assert round[1..] == [Redeliver(r, true), ClearMarker(r)] && round[1..][1..] == [ClearMarker(r)];
    var s1 := Attempt(s, ReadMarker(r));
    var s2 := Attempt(s1, Redeliver(r, true));
    assert Run(s2, [ClearMarker(r)]) == Run(Attempt(s2, ClearMarker(r)), []);
  }

  /** After any run whatever, however corrupt the marker, one undisturbed recovery whose
      delivery succeeds empties the marker, and then every value ever committed is handled. */
  lemma RecoveryHeals(marker: Marker, steps: seq<Step>, r: nat)
    requires r !in Run(Initial(marker), steps).recoveries
    ensures var s := Run(Initial(marker), steps);
            var t := RecoveryRound(s, r);
            t.marker == Null && t.committed == s.committed && t.handled == t.committed
  {
    var s := Run(Initial(marker), steps);
    AtLeastOnceAlways(Initial(marker), steps);
    if s.marker != Null {
      var s1 := Apply(s, ReadMarker(r));
      var s2 := Apply(s1, Redeliver(r, true));
      AtLeastOnceStep(s, ReadMarker(r));
      AtLeastOnceStep(s1, Redeliver(r, true));
      AtLeastOnceStep(s2, ClearMarker(r));
    }
  }

  /** Steps that a recovery can meet when no other actor removes anything from the marker. */
  predicate OnlyAdds(step: Step) { !step.Acknowledge? && !step.ClearMarker? }

  lemma {:induction false} AddingOnlyExtends(s: State, steps: seq<Step>)
    requires forall step | step in steps :: OnlyAdds(step)
    ensures Parsed(s.marker) <= Parsed(Run(s, steps).marker)
    decreases |steps|
  {
    if steps != [] {
      var s1 := Attempt(s, steps[0]);
      assert OnlyAdds(steps[0]);
      assert forall step | step in steps[1..] :: step in steps;
      if Enabled(s, steps[0]) && steps[0].Commit? {
        ParseDump(Parsed(s.marker) + Fresh(Parsed(s.marker), steps[0].detected));
      }
      AddingOnlyExtends(s1, steps[1..]);
    }
  }

  /** In any run, whatever other actors do between its read and its clear, a recovery's clear erases an
      appended event still pending exactly when the marker holds the very text it read; the value was
      then in that text and has been handled. Every other appended event survives. */
  lemma AppendSurvivesClear(marker: Marker, before: seq<Step>, a: nat, detected: seq<ChangeEvent>, after: seq<Step>,
                            r: nat, e: ChangeEvent)
    requires var m := Run(Initial(marker), before);
             Enabled(m, Commit(a, detected)) && e in Fresh(Parsed(m.marker), detected)
    requires Enabled(AppendedRun(marker, before, a, detected, after), ClearMarker(r))
    ensures var n := AppendedRun(marker, before, a, detected, after);
            var raw, cleared := n.recoveries[r].raw, Attempt(n, ClearMarker(r)).marker;
            && (e in Parsed(n.marker) ==> (e !in Parsed(cleared) <==> n.marker == raw))
            && (e in Parsed(n.marker) && e !in Parsed(cleared) ==> e in Parsed(raw) && e in n.handled)
            && (e !in Parsed(n.marker) ==> e in n.handled)
  {
    var m := Run(Initial(marker), before);
    var c := Attempt(m, Commit(a, detected));
    AtLeastOnceAlways(Initial(marker), before);
    AtLeastOnceStep(m, Commit(a, detected));
    AtLeastOnceAlways(c, after);
    FreshIsExact(Parsed(m.marker), detected);
    HistoryGrows(c, after);
  }

  /** A run in which refresh ``a`` commits ``detected`` after ``before``. */
  function AppendedRun(marker: Marker, before: seq<Step>, a: nat, detected: seq<ChangeEvent>, after: seq<Step>): State {
    Run(Attempt(Run(Initial(marker), before), Commit(a, detected)), after)
  }

  lemma CommitOnEmpty(s: State, a: nat, e: ChangeEvent)
    requires s.marker == Null && a !in s.owners
    ensures var t := Attempt(s, Commit(a, [e]));
            && t.marker == Dumped([e]) && t.owners == s.owners[a := Committed([e])]
            && t.recoveries == s.recoveries && t.handled == s.handled
    ensures Parsed(Dumped([e])) == [e]
  {
    ParseDump([e]);
    assert [e][1..] == [] && [] + [e] == [e];
    assert Fresh([] + [e], []) == [];
    assert Fresh([], [e]) == [e] + [];
  }

  lemma AcknowledgeOnly(s: State, a: nat, e: ChangeEvent)
    requires s.marker == Dumped([e]) && a in s.owners && s.owners[a] == Delivered([e])
    ensures var t := Attempt(s, Acknowledge(a));
            t.marker == Null && t.owners == s.owners - {a} && t.recoveries == s.recoveries && t.handled == s.handled
  {
    ParseDump([e]);
    assert [e][1..] == [];
    assert RemoveAll([], [e][1..]) == [];
    assert RemoveAll([e], [e]) == [];
  }

  /** Refresh 1 delivers what recovery 7 has read. */
  function DeliverWhileRead(e: ChangeEvent): seq<Step> { [Commit(1, [e]), ReadMarker(7), Deliver(1, true)] }

  /** It acknowledges, and refresh 2 commits the same value, before recovery 7 clears. */
  function ReappendBeforeClear(e: ChangeEvent): seq<Step> {
    [Acknowledge(1), Commit(2, [e]), Redeliver(7, true)]
  }

  lemma DeliverOnly(s: State, a: nat, e: ChangeEvent)
    requires a in s.owners && s.owners[a] == Committed([e])
    ensures var t := Attempt(s, Deliver(a, true));
            && t.marker == s.marker && t.owners == s.owners[a := Delivered([e])]
            && t.recoveries == s.recoveries && e in t.handled
  {
  }

  lemma ReadOnly(s: State, r: nat)
    requires s.marker != Null && r !in s.recoveries
    ensures var t := Attempt(s, ReadMarker(r));
            && t.marker == s.marker && t.owners == s.owners && t.handled == s.handled
            && t.recoveries == s.recoveries[r := Read(s.marker)]
  {
  }

  lemma DeliveredWhileRead(e: ChangeEvent)
    ensures var t := Run(Initial(Null), DeliverWhileRead(e));
            && t.marker == Dumped([e]) && t.owners == map[1 := Delivered([e])]
            && t.recoveries == map[7 := Read(Dumped([e]))] && e in t.handled
  {
    var s := Initial(Null);
    var committed := Attempt(s, Commit(1, [e]));
    RunThree(s, Commit(1, [e]), ReadMarker(7), Deliver(1, true));
    CommitOnEmpty(s, 1, e);
    ReadOnly(committed, 7);
    DeliverOnly(Attempt(committed, ReadMarker(7)), 1, e);
  }

  lemma Reappended(s: State, e: ChangeEvent)
    requires s.marker == Dumped([e]) && s.owners == map[1 := Delivered([e])]
    requires s.recoveries == map[7 := Read(Dumped([e]))] && e in s.handled
    ensures var t := Run(s, ReappendBeforeClear(e));
            && t.marker == Dumped([e]) && t.owners == map[2 := Committed([e])]
            && t.recoveries == map[7 := Redelivered(Dumped([e]))] && e in t.handled
  {
    AcknowledgeOnly(s, 1, e);
    var acked := Attempt(s, Acknowledge(1));
    assert acked.owners == map[];
    CommitOnEmpty(acked, 2, e);
    RunThree(s, Acknowledge(1), Commit(2, [e]), Redeliver(7, true));
  }

  /** The run in which an append is erased although its owner has not delivered it: the value was
      pending when the recovery read, and was acknowledged and detected again before it cleared. */
  lemma ReappendErased(e: ChangeEvent)
    ensures var s := Run(Initial(Null), DeliverWhileRead(e) + ReappendBeforeClear(e));
            && Enabled(s, ClearMarker(7))
            && Parsed(s.marker) == [e]
            && s.owners == map[2 := Committed([e])]
            && Apply(s, ClearMarker(7)).marker == Null
            && e in s.handled
  {
    DeliveredWhileRead(e);
    Reappended(Run(Initial(Null), DeliverWhileRead(e)), e);
    RunConcat(Initial(Null), DeliverWhileRead(e), ReappendBeforeClear(e));
    ParseDump([e]);
  }

  lemma RunThree(s: State, a: Step, b: Step, c: Step)
    ensures Run(s, [a, b, c]) == Attempt(Attempt(Attempt(s, a), b), c)
  {
    assert [a, b, c][1..] == [b, c] && [b, c][1..] == [c] && [c][1..] == [];
    var t := Attempt(Attempt(s, a), b);
    assert Run(t, [c]) == Run(Attempt(t, c), []);
    assert Run(Attempt(s, a), [b, c]) == Run(t, [c]);
  }

  /** When nothing is removed from the marker between a recovery's read and its clear, a merge that
      appends keeps the clear from matching: the marker it finds is longer than the one it read. */
  lemma UndisturbedAppendBlocksClear(s: State, r: nat, before: seq<Step>, a: nat, detected: seq<ChangeEvent>,
                                     after: seq<Step>)
    requires Enabled(s, ReadMarker(r))
    requires forall step | step in before + after :: OnlyAdds(step)
    requires var m := Run(Apply(s, ReadMarker(r)), before);
             Enabled(m, Commit(a, detected)) && Fresh(Parsed(m.marker), detected) != []
    ensures var m := Run(Apply(s, ReadMarker(r)), before);
            var t := Run(Apply(m, Commit(a, detected)), after);
            ClearedMarker(t.marker, s.marker) == t.marker
  {
    var s1 := Apply(s, ReadMarker(r));
    var m := Run(s1, before);
    var n := Apply(m, Commit(a, detected));
    forall step | step in before || step in after ensures OnlyAdds(step) {
      assert step in before + after;
    }
    AddingOnlyExtends(s1, before);
    ParseDump(Parsed(m.marker) + Fresh(Parsed(m.marker), detected));
    AddingOnlyExtends(n, after);
    assert |Parsed(Run(n, after).marker)| > |Parsed(s.marker)|;
  }
}
