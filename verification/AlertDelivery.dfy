/** Delivering events against alert rules (``fire_alerts``, app/notifications.py). */
module AlertDelivery {
  import opened Wrappers
  import opened ChangeEvents

  datatype Rule = Rule(
    userId: int, enabled: bool, eventType: EventType, extensionId: Option<int>, destinationId: int)

  datatype Destination = Destination(enabled: bool)

  /** The extension the events are about; its owner may be gone. */
  datatype Target = Target(id: int, userId: Option<int>)

  /** One delivery, attempted once, as the alert log records it. ``event`` and ``rule`` are
      positions in the lists of events and rules. */
  datatype LogEntry = LogEntry(event: nat, rule: nat, destinationId: int, success: bool)

  /** The rule query for one event type. */
  predicate Selects(rule: Rule, target: Target, eventType: EventType) {
    && target.userId == Some(rule.userId)
    && rule.enabled
    && rule.eventType == eventType
    && (rule.extensionId.None? || rule.extensionId == Some(target.id))
  }

  predicate Live(destinations: map<int, Destination>, id: int) {
    id in destinations && destinations[id].enabled
  }

  predicate Due(event: ChangeEvent, rule: Rule, target: Target, destinations: map<int, Destination>) {
    Selects(rule, target, event.eventType) && Live(destinations, rule.destinationId)
  }

  ghost predicate Recorded(log: seq<LogEntry>, event: nat, rule: nat) {
    exists k :: 0 <= k < |log| && log[k].event == event && log[k].rule == rule
  }

  predicate Before(a: LogEntry, b: LogEntry) {
    a.event < b.event || (a.event == b.event && a.rule < b.rule)
  }

  /** Each due pair of an event and a rule is attempted exactly once, oldest event first, and
      nothing else is. */
  ghost predicate ExactlyTheDueOnes(log: seq<LogEntry>, events: seq<ChangeEvent>, rules: seq<Rule>, target: Target,
                                    destinations: map<int, Destination>, sends: (nat, nat) -> bool)
  {
    && Sound(log, events, rules, target, destinations, sends)
    && (forall k, l | 0 <= k < l < |log| :: Before(log[k], log[l]))
    && (forall i: nat, j: nat | i < |events| && j < |rules| && Due(events[i], rules[j], target, destinations) ::
          Recorded(log, i, j))
  }

  ghost predicate Sound(log: seq<LogEntry>, events: seq<ChangeEvent>, rules: seq<Rule>, target: Target,
                        destinations: map<int, Destination>, sends: (nat, nat) -> bool)
  {
    forall k | 0 <= k < |log| ::
      && log[k].event < |events| && log[k].rule < |rules|
      && Due(events[log[k].event], rules[log[k].rule], target, destinations)
      && log[k].destinationId == rules[log[k].rule].destinationId
      && log[k].success == sends(log[k].event, log[k].rule)
  }

  /** The rules grouped under ``eventType``: positions of rules that select it, in query order. */
  ghost predicate Grouped(group: seq<nat>, upTo: nat, rules: seq<Rule>, target: Target, eventType: EventType)
    requires upTo <= |rules|
  {
    && (forall m | 0 <= m < |group| :: group[m] < upTo && Selects(rules[group[m]], target, eventType))
    && (forall m, n | 0 <= m < n < |group| :: group[m] < group[n])
    && (forall j: nat | j < upTo && Selects(rules[j], target, eventType) :: j in group)
  }

  function GroupOf(groups: map<EventType, seq<nat>>, eventType: EventType): seq<nat> {
    if eventType in groups then groups[eventType] else []
  }

  lemma GroupedSkip(group: seq<nat>, j: nat, rules: seq<Rule>, target: Target, eventType: EventType)
    requires j < |rules| && Grouped(group, j, rules, target, eventType)
    requires !Selects(rules[j], target, eventType)
    ensures Grouped(group, j + 1, rules, target, eventType)
  {
    forall i: nat | i < j + 1 && Selects(rules[i], target, eventType) ensures i in group {
      assert i < j;
    }
  }

  lemma GroupedAdd(group: seq<nat>, j: nat, rules: seq<Rule>, target: Target, eventType: EventType)
    requires j < |rules| && Grouped(group, j, rules, target, eventType)
    requires Selects(rules[j], target, eventType)
    ensures Grouped(group + [j], j + 1, rules, target, eventType)
  {
    var longer := group + [j];
    forall m | 0 <= m < |longer| ensures longer[m] < j + 1 && Selects(rules[longer[m]], target, eventType) {
      assert longer[m] == if m < |group| then group[m] else j;
    }
    forall i: nat | i < j + 1 && Selects(rules[i], target, eventType) ensures i in longer {
      if i < j {
        assert i in group;
      } else {
        assert longer[|group|] == i;
      }
    }
  }

  /** One turn of the grouping loop. */
  function WithRule(groups: map<EventType, seq<nat>>, j: nat, t: EventType): map<EventType, seq<nat>> {
    groups[t := GroupOf(groups, t) + [j]]
  }

  ghost predicate AllGrouped(groups: map<EventType, seq<nat>>, upTo: nat, rules: seq<Rule>, target: Target,
                             eventTypes: set<EventType>)
    requires upTo <= |rules|
  {
    forall t | t in eventTypes :: Grouped(GroupOf(groups, t), upTo, rules, target, t)
  }

  lemma AllGroupedNext(groups: map<EventType, seq<nat>>, j: nat, rules: seq<Rule>, target: Target,
                       eventTypes: set<EventType>)
    requires j < |rules| && AllGrouped(groups, j, rules, target, eventTypes)
    ensures var t := rules[j].eventType;
            AllGrouped(if t in eventTypes && Selects(rules[j], target, t) then WithRule(groups, j, t) else groups,
                       j + 1, rules, target, eventTypes)
  {
    var t := rules[j].eventType;
    var next := if t in eventTypes && Selects(rules[j], target, t) then WithRule(groups, j, t) else groups;
    forall u | u in eventTypes ensures Grouped(GroupOf(next, u), j + 1, rules, target, u) {
      assert Grouped(GroupOf(groups, u), j, rules, target, u);
      if Selects(rules[j], target, u) {
        GroupedAdd(GroupOf(groups, u), j, rules, target, u);
      } else {
        GroupedSkip(GroupOf(groups, u), j, rules, target, u);
      }
    }
  }

  method GroupRules(rules: seq<Rule>, target: Target, eventTypes: set<EventType>)
    returns (groups: map<EventType, seq<nat>>)
    ensures AllGrouped(groups, |rules|, rules, target, eventTypes)
    ensures forall t | t in groups :: t in eventTypes && groups[t] != []
  {
    groups := map[];
    for j := 0 to |rules|
      invariant AllGrouped(groups, j, rules, target, eventTypes)
      invariant forall t | t in groups :: t in eventTypes && groups[t] != []
    {
      AllGroupedNext(groups, j, rules, target, eventTypes);
      var t := rules[j].eventType;
      if t in eventTypes && Selects(rules[j], target, t) {
        groups := WithRule(groups, j, t);
      }
    }
  }

  lemma SelectedIffGrouped(groups: map<EventType, seq<nat>>, events: seq<ChangeEvent>, rules: seq<Rule>, target: Target,
                           eventTypes: set<EventType>)
    requires AllGrouped(groups, |rules|, rules, target, eventTypes)
    requires forall t | t in groups :: t in eventTypes && groups[t] != []
    requires eventTypes == set e | e in events :: e.eventType
    ensures SomeRuleSelected(events, rules, target) <==> groups != map[]
  {
    if SomeRuleSelected(events, rules, target) {
      var i, j :| 0 <= i < |events| && 0 <= j < |rules| && Selects(rules[j], target, events[i].eventType);
      assert events[i].eventType in eventTypes;
      assert Grouped(GroupOf(groups, events[i].eventType), |rules|, rules, target, events[i].eventType);
    }
    if groups != map[] {
      assert groups.Keys != {};
      var t :| t in groups;
      assert Grouped(GroupOf(groups, t), |rules|, rules, target, t);
      var i :| 0 <= i < |events| && events[i].eventType == t;
      assert Selects(rules[groups[t][0]], target, events[i].eventType);
    }
  }

  /** The deliveries of the events before ``i`` are all made. */
  ghost predicate DoneBefore(log: seq<LogEntry>, i: nat, events: seq<ChangeEvent>, rules: seq<Rule>, target: Target,
                             destinations: map<int, Destination>)
    requires i <= |events|
  {
    forall a: nat, j: nat | a < i && j < |rules| && Due(events[a], rules[j], target, destinations) ::
      Recorded(log, a, j)
  }

  lemma DoneNext(log: seq<LogEntry>, more: seq<LogEntry>, i: nat, events: seq<ChangeEvent>, rules: seq<Rule>,
                 target: Target, destinations: map<int, Destination>)
    requires i < |events| && DoneBefore(log, i, events, rules, target, destinations)
    requires forall j: nat | j < |rules| && Due(events[i], rules[j], target, destinations) :: Recorded(more, i, j)
    ensures DoneBefore(log + more, i + 1, events, rules, target, destinations)
  {
    forall a: nat, j: nat | a <= i && j < |rules| && Due(events[a], rules[j], target, destinations)
      ensures Recorded(log + more, a, j)
    {
      if a < i {
        assert Recorded(log, a, j);
        var k :| 0 <= k < |log| && log[k].event == a && log[k].rule == j;
        assert (log + more)[k] == log[k];
      } else {
        var k :| 0 <= k < |more| && more[k].event == a && more[k].rule == j;
        assert (log + more)[|log| + k] == more[k];
      }
    }
  }

  /** A log of events before ``i`` only, in order. */
  ghost predicate InOrder(log: seq<LogEntry>, i: nat) {
    && (forall k | 0 <= k < |log| :: log[k].event < i)
    && (forall k, l | 0 <= k < l < |log| :: Before(log[k], log[l]))
  }

  ghost predicate SomeRuleSelected(events: seq<ChangeEvent>, rules: seq<Rule>, target: Target) {
    exists i, j :: 0 <= i < |events| && 0 <= j < |rules| && Selects(rules[j], target, events[i].eventType)
  }

  /** Which database accesses of a call succeed. */
  datatype Store = Store(rulesLoad: bool, destinationsLoad: bool, logCommits: bool)

  /** ``sends`` says which sends succeed. A failed query is raised before anything is sent, a failed
      write of the log after everything was; a failed send is recorded, not raised. */
  method FireAlerts(events: seq<ChangeEvent>, target: Target, rules: seq<Rule>, destinations: map<int, Destination>,
                    sends: (nat, nat) -> bool, store: Store)
    returns (log: seq<LogEntry>, raised: bool)
    ensures raised <==>
            && events != [] && target.userId.Some?
            && (!store.rulesLoad
                || (SomeRuleSelected(events, rules, target) && !(store.destinationsLoad && store.logCommits)))
    ensures store.rulesLoad && store.destinationsLoad ==>
              ExactlyTheDueOnes(log, events, rules, target, destinations, sends)
    ensures !(store.rulesLoad && store.destinationsLoad) ==> log == []
    // In plain terms: a rule fires for its owner's extension, or the one it names, while it and its
    // destination are enabled, and then for every event of its type.
    ensures forall k | 0 <= k < |log| ::
              var rule := rules[log[k].rule];
              && rule.enabled && target.userId == Some(rule.userId)
              && (rule.extensionId == None || rule.extensionId == Some(target.id))
              && rule.eventType == events[log[k].event].eventType
              && rule.destinationId in destinations && destinations[rule.destinationId].enabled
    ensures store.rulesLoad && store.destinationsLoad ==>
              forall i: nat, j: nat | i < |events| && j < |rules|
                  && rules[j].enabled && target.userId == Some(rules[j].userId)
                  && (rules[j].extensionId == None || rules[j].extensionId == Some(target.id))
                  && rules[j].eventType == events[i].eventType
                  && rules[j].destinationId in destinations && destinations[rules[j].destinationId].enabled ::
                Recorded(log, i, j)
  {
    log, raised := [], false;
    if events == [] || target.userId.None? {
      return;
    }
    if !store.rulesLoad {
      return [], true;
    }
    var eventTypes := set e | e in events :: e.eventType;
    var groups := GroupRules(rules, target, eventTypes);
    forall i | 0 <= i < |events|
      ensures Grouped(GroupOf(groups, events[i].eventType), |rules|, rules, target, events[i].eventType)
    {
      assert events[i].eventType in eventTypes;
    }
    SelectedIffGrouped(groups, events, rules, target, eventTypes);
    if groups == map[] {
      return;
    }
    if !store.destinationsLoad {
      return [], true;
    }
    log := DeliverAll(events, target, rules, destinations, sends, groups);
    raised := !store.logCommits;
  }

  /** The outer loop. */
  method DeliverAll(events: seq<ChangeEvent>, target: Target, rules: seq<Rule>, destinations: map<int, Destination>,
                    sends: (nat, nat) -> bool, groups: map<EventType, seq<nat>>)
    returns (log: seq<LogEntry>)
    requires forall i | 0 <= i < |events| ::
               Grouped(GroupOf(groups, events[i].eventType), |rules|, rules, target, events[i].eventType)
    ensures ExactlyTheDueOnes(log, events, rules, target, destinations, sends)
  {
    log := [];
    for i := 0 to |events|
      invariant Sound(log, events, rules, target, destinations, sends)
      invariant InOrder(log, i)
      invariant DoneBefore(log, i, events, rules, target, destinations)
    {
      var more := DeliverEvent(events[i], i, target, rules, destinations, sends,
                               GroupOf(groups, events[i].eventType));
      DoneNext(log, more, i, events, rules, target, destinations);
      log := log + more;
    }
  }

  /** The inner loop: one event against the rules of its type. */
  method DeliverEvent(event: ChangeEvent, i: nat, target: Target, rules: seq<Rule>,
                      destinations: map<int, Destination>, sends: (nat, nat) -> bool, group: seq<nat>)
    returns (more: seq<LogEntry>)
    requires Grouped(group, |rules|, rules, target, event.eventType)
    ensures forall k | 0 <= k < |more| ::
              && more[k].event == i && more[k].rule < |rules|
              && Due(event, rules[more[k].rule], target, destinations)
              && more[k].destinationId == rules[more[k].rule].destinationId
              && more[k].success == sends(i, more[k].rule)
    ensures forall k, l | 0 <= k < l < |more| :: Before(more[k], more[l])
    ensures forall j: nat | j < |rules| && Due(event, rules[j], target, destinations) :: Recorded(more, i, j)
  {
    more := [];
    for m := 0 to |group|
      invariant forall k | 0 <= k < |more| ::
                  && more[k].event == i && more[k].rule < |rules|
                  && Due(event, rules[more[k].rule], target, destinations)
                  && more[k].destinationId == rules[more[k].rule].destinationId
                  && more[k].success == sends(i, more[k].rule)
                  && (m < |group| ==> more[k].rule < group[m])
      invariant forall k, l | 0 <= k < l < |more| :: Before(more[k], more[l])
      invariant forall n | 0 <= n < m && Live(destinations, rules[group[n]].destinationId) ::
                Recorded(more, i, group[n])
    {
      var rule := rules[group[m]];
      if !Live(destinations, rule.destinationId) {
        continue;
      }
      var entry := LogEntry(i, group[m], rule.destinationId, sends(i, group[m]));
      forall n | 0 <= n <= m && Live(destinations, rules[group[n]].destinationId)
        ensures Recorded(more + [entry], i, group[n])
      {
        if n < m {
          var k :| 0 <= k < |more| && more[k].event == i && more[k].rule == group[n];
          assert (more + [entry])[k].event == i && (more + [entry])[k].rule == group[n];
        } else {
          assert (more + [entry])[|more|].rule == group[n];
        }
      }
      more := more + [entry];
    }
    forall j: nat | j < |rules| && Due(event, rules[j], target, destinations) ensures Recorded(more, i, j) {
      var n :| 0 <= n < |group| && group[n] == j;
    }
  }
}
