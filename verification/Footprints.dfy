/**
 Org install inventory: observations of extensions on assets, and the footprint cached on each
 extension (``ingest_inventory`` and ``_upsert_observation`` in app/routes/api.py,
 ``refresh_install_footprints`` and ``prune_expired`` in app/retention.py).
 */
module Footprints {
  import opened Wrappers

  /** The unique key of an observation. */
  datatype Pair = Pair(extension: nat, asset: string)

  /** ``lastSeen`` by pair. */
  type Observations = map<Pair, int>

  /** One item of a batch: what enrolment resolves its extension to, if anything, and whether that
      extension is new. A blank asset is refused before enrolment. */
  datatype Enrolment = Resolved(extension: nat, deferred: bool) | Invalid | EnrolmentError

  datatype Item = Item(asset: string, enrolment: Enrolment)

  datatype Tally = Tally(deferred: nat, observed: nat, invalid: nat, errors: nat)

  datatype Status = Deferred | Observed | Refused | Erroneous

  /** The status an item is reported with. */
  function StatusOf(item: Item): Status {
    if item.asset == "" then Refused
    else match item.enrolment
      case Invalid => Refused
      case EnrolmentError => Erroneous
      case Resolved(_, deferred) => if deferred then Deferred else Observed
  }

  /** What the response says about an item; the extension's id is given for stored observations only. */
  datatype ItemResult = ItemResult(asset: string, status: Status, id: Option<nat>)

  function ResultOf(item: Item): ItemResult {
    ItemResult(item.asset, StatusOf(item),
               if StatusOf(item) in {Deferred, Observed} then Some(item.enrolment.extension) else None)
  }

  /** One result per item, in the order of the batch. */
  ghost predicate Reports(results: seq<ItemResult>, items: seq<Item>) {
    |results| == |items| && forall i | 0 <= i < |items| :: results[i] == ResultOf(items[i])
  }

  function CountStatus(items: seq<Item>, status: Status): nat {
    if items == [] then 0
    else CountStatus(items[..|items| - 1], status) + (if StatusOf(items[|items| - 1]) == status then 1 else 0)
  }

  function TallyOf(items: seq<Item>): Tally {
    Tally(CountStatus(items, Deferred), CountStatus(items, Observed), CountStatus(items, Refused),
          CountStatus(items, Erroneous))
  }

  /** An observation counts when decay is off (no cutoff) or it was seen at or after the cutoff. */
  predicate FreshAt(lastSeen: int, cutoff: Option<int>) { cutoff.None? || lastSeen >= cutoff.value }

  /** The distinct assets an extension is observed on. */
  function Assets(obs: Observations, extension: nat, cutoff: Option<int>): set<string> {
    set p | p in obs && p.extension == extension && FreshAt(obs[p], cutoff) :: p.asset
  }

  function CountOf(footprint: Option<nat>): nat { if footprint.Some? then footprint.value else 0 }

  function Upserted(obs: Observations, item: Item, now: int): Observations {
    if item.asset != "" && item.enrolment.Resolved? then obs[Pair(item.enrolment.extension, item.asset) := now] else obs
  }

  /** All observations after a batch. */
  function Ingested(obs: Observations, items: seq<Item>, now: int): Observations {
    if items == [] then obs else Upserted(Ingested(obs, items[..|items| - 1], now), items[|items| - 1], now)
  }

  /** The extensions a batch touches. */
  function Touched(items: seq<Item>): set<nat> {
    set i | 0 <= i < |items| && items[i].asset != "" && items[i].enrolment.Resolved? :: items[i].enrolment.extension
  }

  function Kept(obs: Observations, cutoff: int): Observations { map p | p in obs && obs[p] >= cutoff :: obs[p] }

  /** The footprints a batch leaves: those of touched extensions are recounted. */
  function Recounted(footprints: seq<Option<nat>>, items: seq<Item>, obs: Observations,
                     cutoff: Option<int>): seq<Option<nat>>
  {
    seq(|footprints|, e requires 0 <= e < |footprints| =>
      if e in Touched(items) then Some(|Assets(obs, e, cutoff)|) else footprints[e])
  }

  /** The footprints the bulk refresh leaves: every extension with a footprint or an observation. */
  function Refreshed(footprints: seq<Option<nat>>, obs: Observations, cutoff: Option<int>): seq<Option<nat>> {
    seq(|footprints|, e requires 0 <= e < |footprints| =>
      if footprints[e].Some? || Assets(obs, e, None) != {} then Some(|Assets(obs, e, cutoff)|) else None)
  }

  /** The cached footprint of every extension is the number of assets it is observed on. */
  ghost predicate Agrees(footprints: seq<Option<nat>>, obs: Observations, cutoff: Option<int>) {
    forall e: nat | e < |footprints| :: CountOf(footprints[e]) == |Assets(obs, e, cutoff)|
  }

  /** Observations are of extensions that exist. */
  ghost predicate Referenced(footprints: seq<Option<nat>>, obs: Observations) {
    forall p | p in obs :: p.extension < |footprints|
  }

  class Inventory {
    /** The cached footprint of each extension; its position is its id. */
    var footprints: seq<Option<nat>>
    var observations: Observations

    ghost predicate Valid()
      reads this
    {
      Referenced(footprints, observations)
    }

    constructor ()
      ensures Valid() && footprints == [] && observations == map[]
    {
      footprints, observations := [], map[];
    }

    /** Enrolment commits a placeholder with no footprint. */
    method Enrol() returns (id: nat)
      requires Valid()
      modifies this
      ensures Valid() && id == |old(footprints)|
      ensures footprints == old(footprints) + [None] && observations == old(observations)
    {
      id := |footprints|;
      footprints := footprints + [None];
    }

    /** Insert, or refresh ``last_seen`` on the unique pair. */
    method UpsertObservation(extension: nat, asset: string, now: int)
      requires Valid() && extension < |footprints|
      modifies this`observations
      ensures Valid() && observations == old(observations)[Pair(extension, asset) := now]
    {
      observations := observations[Pair(extension, asset) := now];
    }

    /** The loop over the items: ``affected`` lists the extensions touched. */
    method UpsertBatch(items: seq<Item>, now: int)
      returns (tally: Tally, affected: seq<nat>, results: seq<ItemResult>)
      requires Valid()
      requires forall i | 0 <= i < |items| && items[i].enrolment.Resolved? ::
               items[i].enrolment.extension < |footprints|
      modifies this`observations
      ensures Valid() && observations == Ingested(old(observations), items, now)
      ensures forall pair | Reported(items, pair) :: pair in observations && observations[pair] == now
      ensures forall e :: e in affected <==> e in Touched(items)
      ensures forall k | 0 <= k < |affected| :: affected[k] < |footprints|
      ensures tally == TallyOf(items) && Reports(results, items)
    {
      tally := Tally(0, 0, 0, 0);
      affected, results := [], [];
      for i := 0 to |items|
        invariant Valid()
        invariant observations == Ingested(old(observations), items[..i], now)
        invariant forall e :: e in affected <==> e in Touched(items[..i])
        invariant forall k | 0 <= k < |affected| :: affected[k] < |footprints|
        invariant tally == TallyOf(items[..i]) && Reports(results, items[..i])
      {
        var item := items[i];
        assert items[..i + 1][..i] == items[..i];
        TouchedNext(items, i);
        if item.asset == "" {
          tally := tally.(invalid := tally.invalid + 1);
          results := results + [ItemResult(item.asset, Refused, None)];
          continue;
        }
        match item.enrolment
        case Invalid =>
          tally := tally.(invalid := tally.invalid + 1);
          results := results + [ItemResult(item.asset, Refused, None)];
        case EnrolmentError =>
          tally := tally.(errors := tally.errors + 1);
          results := results + [ItemResult(item.asset, Erroneous, None)];
        case Resolved(extension, deferred) =>
          UpsertObservation(extension, item.asset, now);
          affected := affected + [extension];
          results := results + [ItemResult(item.asset, if deferred then Deferred else Observed, Some(extension))];
          if deferred {
            tally := tally.(deferred := tally.deferred + 1);
          } else {
            tally := tally.(observed := tally.observed + 1);
          }
      }
      assert items[..|items|] == items;
      forall pair | Reported(items, pair) ensures pair in observations && observations[pair] == now {
        IngestedExact(old(observations), items, now, pair);
      }
    }

    /** One batch: upserts first, then the footprints of the touched extensions. ``cutoff`` is the
        freshness cutoff read at the end. */
    method IngestInventory(items: seq<Item>, now: int, cutoff: Option<int>)
      returns (tally: Tally, results: seq<ItemResult>)
      requires Valid()
      requires forall i | 0 <= i < |items| && items[i].enrolment.Resolved? ::
               items[i].enrolment.extension < |footprints|
      modifies this
      ensures Valid() && observations == Ingested(old(observations), items, now)
      ensures footprints == Recounted(old(footprints), items, observations, cutoff)
      ensures tally == TallyOf(items) && Reports(results, items)
    {
      var affected;
      tally, affected, results := UpsertBatch(items, now);
      for k := 0 to |affected|
        invariant Valid() && |footprints| == |old(footprints)|
        invariant observations == Ingested(old(observations), items, now)
        invariant forall e: nat | e < |footprints| ::
                    footprints[e] ==
                        if e in affected[..k] then Some(|Assets(observations, e, cutoff)|) else old(footprints)[e]
      {
        var e := affected[k];
        assert affected[..k + 1] == affected[..k] + [e];
        footprints := footprints[e := Some(|Assets(observations, e, cutoff)|)];
      }
      assert affected[..|affected|] == affected;
    }

    /** The bulk update over every extension with observations or a footprint. */
    method RefreshInstallFootprints(cutoff: Option<int>)
      requires Valid()
      modifies this`footprints
      ensures Valid() && footprints == Refreshed(old(footprints), observations, cutoff)
    {
      for e := 0 to |footprints|
        invariant |footprints| == |old(footprints)|
        invariant forall f: nat | e <= f < |footprints| :: footprints[f] == old(footprints)[f]
        invariant forall f: nat | f < e ::
                    footprints[f] == if old(footprints)[f].Some? || Assets(observations, f, None) != {}
                                     then Some(|Assets(observations, f, cutoff)|) else None
      {
        if footprints[e].Some? || Assets(observations, e, None) != {} {
          footprints := footprints[e := Some(|Assets(observations, e, cutoff)|)];
        }
      }
    }

    /** The retention prune: deletes what was last seen before ``oldest`` and, if that deleted anything,
        refreshes. */
    method PruneExpired(oldest: int, cutoff: Option<int>) returns (deleted: nat)
      requires Valid()
      modifies this
      ensures Valid() && observations == Kept(old(observations), oldest)
      ensures forall pair :: pair in observations <==> pair in old(observations) && old(observations)[pair] >= oldest
      ensures forall pair | pair in observations :: observations[pair] == old(observations)[pair]
      ensures deleted == |old(observations)| - |observations|
      ensures footprints == if observations == old(observations) then old(footprints)
                            else Refreshed(old(footprints), observations, cutoff)
    {
      KeptSize(observations, oldest);
      deleted := |observations| - |Kept(observations, oldest)|;
      observations := Kept(observations, oldest);
      if deleted > 0 {
        RefreshInstallFootprints(cutoff);
      }
    }
  }

  lemma TouchedNext(items: seq<Item>, i: nat)
    requires i < |items|
    ensures var item := items[i];
            Touched(items[..i + 1]) ==
              Touched(items[..i])
              + (if item.asset != "" && item.enrolment.Resolved? then {item.enrolment.extension} else {})
  {
    var more := items[..i + 1];
    forall e | e in Touched(more)
      ensures e in Touched(items[..i])
              || (items[i].asset != "" && items[i].enrolment == Resolved(e, items[i].enrolment.deferred))
    {
      var k :| 0 <= k < |more| && more[k].asset != "" && more[k].enrolment.Resolved?
               && more[k].enrolment.extension == e;
      if k < i {
        assert items[..i][k] == more[k];
      }
    }
    forall e | e in Touched(items[..i]) ensures e in Touched(more) {
      var k :| 0 <= k < i && items[..i][k].asset != "" && items[..i][k].enrolment.Resolved?
               && items[..i][k].enrolment.extension == e;
      assert more[k] == items[..i][k];
    }
    if items[i].asset != "" && items[i].enrolment.Resolved? {
      assert more[i] == items[i];
    }
  }

  lemma KeptSize(obs: Observations, oldest: int)
    ensures |Kept(obs, oldest)| <= |obs|
    ensures |Kept(obs, oldest)| == |obs| ==> Kept(obs, oldest) == obs
  {
    var kept := Kept(obs, oldest);
    assert kept.Keys <= obs.Keys;
    assert obs.Keys == kept.Keys + (obs.Keys - kept.Keys);
    assert |kept| == |kept.Keys| && |obs| == |obs.Keys| == |kept.Keys| + |obs.Keys - kept.Keys|;
    if |kept| == |obs| {
      assert obs.Keys - kept.Keys == {};
      assert kept.Keys == obs.Keys;
    }
  }

  // ------------------------------------------------------------------ what the operations keep

  /** An item whose asset is blank or whose extension is invalid is refused, one whose enrolment fails is an
      error, and one that is stored is deferred exactly when its extension is new. */
  lemma StatusExact(item: Item)
    ensures StatusOf(item) == Refused <==> item.asset == "" || item.enrolment.Invalid?
    ensures StatusOf(item) == Erroneous <==> item.asset != "" && item.enrolment.EnrolmentError?
    ensures StatusOf(item) == Deferred <==> ResultOf(item).id.Some? && item.enrolment.deferred
    ensures ResultOf(item).id.Some? <==> item.asset != "" && item.enrolment.Resolved?
    ensures ResultOf(item).id.Some? ==> ReportsPair(item, Pair(ResultOf(item).id.value, item.asset))
  {
  }

  /** Every item of a batch is reported under exactly one status. */
  lemma {:induction false} EveryItemTallied(items: seq<Item>)
    ensures var t := TallyOf(items);
            t.deferred + t.observed + t.invalid + t.errors == |items|
  {
    if items != [] {
      EveryItemTallied(items[..|items| - 1]);
    }
  }

  /** Reporting a pair again never changes the number of observations, nor any asset count when
      decay is off. */
  lemma RepushKeepsCounts(obs: Observations, pair: Pair, now: int)
    requires pair in obs
    ensures |obs[pair := now]| == |obs|
    ensures forall e :: Assets(obs[pair := now], e, None) == Assets(obs, e, None)
  {
    assert obs[pair := now].Keys == obs.Keys;
    assert |obs[pair := now].Keys| == |obs[pair := now]| && |obs.Keys| == |obs|;
  }

  /** Some item of the batch reports the pair. */
  ghost predicate Reported(items: seq<Item>, pair: Pair) {
    exists i :: 0 <= i < |items| && ReportsPair(items[i], pair)
  }

  predicate ReportsPair(item: Item, pair: Pair) {
    item.asset == pair.asset != "" && item.enrolment.Resolved? && item.enrolment.extension == pair.extension
  }

  lemma ReportedNext(items: seq<Item>, item: Item, pair: Pair)
    ensures Reported(items + [item], pair) <==> Reported(items, pair) || ReportsPair(item, pair)
  {
    assert (items + [item])[|items|] == item;
    assert forall i | 0 <= i < |items| :: (items + [item])[i] == items[i];
  }

  /** After a batch an observation exists exactly when it did before or an item reports it; the reported
      ones were last seen now, however long ago that was before, and the others are as they were. */
  lemma {:induction false} IngestedExact(obs: Observations, items: seq<Item>, now: int, pair: Pair)
    ensures var after := Ingested(obs, items, now);
            && (pair in after <==> pair in obs || Reported(items, pair))
            && (Reported(items, pair) ==> pair in after && after[pair] == now)
            && (pair in obs && !Reported(items, pair) ==> after[pair] == obs[pair])
  {
    if items != [] {
      var n := |items| - 1;
      IngestedExact(obs, items[..n], now, pair);
      ReportedNext(items[..n], items[n], pair);
      assert items == items[..n] + [items[n]];
    }
  }

  lemma AssetsExact(obs: Observations, e: nat, cutoff: Option<int>, asset: string)
    ensures asset in Assets(obs, e, cutoff) <==>
            Pair(e, asset) in obs && (cutoff.Some? ==> obs[Pair(e, asset)] >= cutoff.value)
  {
    if Pair(e, asset) in obs {
      assert Pair(e, asset).asset == asset;
    }
  }

  /** A touched extension's footprint counts exactly the assets the batch reports, stale ones revived, and
      those seen at or after the cutoff before; the cutoff is never later than the batch. */
  lemma IngestRevives(s: State, items: seq<Item>, now: int, cutoff: Option<int>, e: nat)
    requires e in Touched(items) && e < |s.footprints| && (cutoff.Some? ==> cutoff.value <= now)
    ensures var t := Apply(s, Ingest(items, now), cutoff);
            var counted := Assets(t.observations, e, cutoff);
            && t.footprints[e] == Some(|counted|)
            && forall asset :: asset in counted <==>
                 || Reported(items, Pair(e, asset))
                 || (Pair(e, asset) in s.observations
                     && (cutoff.Some? ==> s.observations[Pair(e, asset)] >= cutoff.value))
  {
    var obs := Ingested(s.observations, items, now);
    IngestCountsTouched(s, items, now, cutoff, e);
    forall asset
      ensures asset in Assets(obs, e, cutoff) <==>
              || Reported(items, Pair(e, asset))
              || (Pair(e, asset) in s.observations
                  && (cutoff.Some? ==> s.observations[Pair(e, asset)] >= cutoff.value))
    {
      AssetsExact(obs, e, cutoff, asset);
      IngestedExact(s.observations, items, now, Pair(e, asset));
    }
  }

  lemma {:induction false} UntouchedKeepsAssets(obs: Observations, items: seq<Item>, now: int, e: nat,
                                                cutoff: Option<int>)
    requires e !in Touched(items)
    ensures Assets(Ingested(obs, items, now), e, cutoff) == Assets(obs, e, cutoff)
  {
    if items != [] {
      var n := |items| - 1;
      assert items[..n + 1] == items;
      TouchedNext(items, n);
      UntouchedKeepsAssets(obs, items[..n], now, e, cutoff);
      var before, item := Ingested(obs, items[..n], now), items[n];
      assert Assets(Upserted(before, item, now), e, cutoff) == Assets(before, e, cutoff);
    }
  }

  // ------------------------------------------------------------------ runs

  datatype State = State(footprints: seq<Option<nat>>, observations: Observations)

  datatype Step =
    | Enrol
    | Ingest(items: seq<Item>, now: int)
    | Prune(oldest: int)
    | Refresh

  /** Enrolment resolves to extensions that exist. */
  predicate Enabled(s: State, step: Step) {
    step.Ingest? ==> forall i | 0 <= i < |step.items| && step.items[i].enrolment.Resolved? ::
                       step.items[i].enrolment.extension < |s.footprints|
  }

  /** A completed operation, with the freshness cutoff in force at its end. */
  function Apply(s: State, step: Step, cutoff: Option<int>): State {
    match step
    case Enrol => s.(footprints := s.footprints + [None])
    case Ingest(items, now) =>
      var obs := Ingested(s.observations, items, now);
      State(Recounted(s.footprints, items, obs, cutoff), obs)
    case Prune(oldest) =>
      var obs := Kept(s.observations, oldest);
      State(if obs == s.observations then s.footprints else Refreshed(s.footprints, obs, cutoff), obs)
    case Refresh => s.(footprints := Refreshed(s.footprints, s.observations, cutoff))
  }

  function Run(s: State, steps: seq<Step>): State
    decreases |steps|
  {
    if steps == [] then s else Run(if Enabled(s, steps[0]) then Apply(s, steps[0], None) else s, steps[1..])
  }

  ghost predicate Sound(s: State, cutoff: Option<int>) {
    Referenced(s.footprints, s.observations) && Agrees(s.footprints, s.observations, cutoff)
  }

  lemma {:induction false} IngestedReferenced(footprints: seq<Option<nat>>, obs: Observations, items: seq<Item>,
                                              now: int)
    requires Referenced(footprints, obs)
    requires forall i | 0 <= i < |items| && items[i].enrolment.Resolved? :: items[i].enrolment.extension < |footprints|
    ensures Referenced(footprints, Ingested(obs, items, now))
  {
    if items != [] {
      IngestedReferenced(footprints, obs, items[..|items| - 1], now);
    }
  }

  /** The bulk refresh repairs any state: afterwards every footprint is the count of the assets seen
      at or after the cutoff, extensions that no batch mentions any more included. */
  lemma RefreshRepairs(s: State, cutoff: Option<int>)
    requires Referenced(s.footprints, s.observations)
    ensures Sound(Apply(s, Refresh, cutoff), cutoff)
  {
    var t := Apply(s, Refresh, cutoff);
    forall e: nat | e < |t.footprints| ensures CountOf(t.footprints[e]) == |Assets(t.observations, e, cutoff)| {
      if Assets(s.observations, e, None) == {} {
        assert Assets(s.observations, e, cutoff) <= Assets(s.observations, e, None);
        assert Assets(s.observations, e, cutoff) == {};
      }
    }
  }

  /** A batch brings the extensions it touches up to date, whatever their footprints were. */
  lemma IngestCountsTouched(s: State, items: seq<Item>, now: int, cutoff: Option<int>, e: nat)
    requires e in Touched(items) && e < |s.footprints|
    ensures var t := Apply(s, Ingest(items, now), cutoff);
            t.footprints[e] == Some(|Assets(t.observations, e, cutoff)|)
  {
  }

  lemma SoundStep(s: State, step: Step)
    requires Sound(s, None) && Enabled(s, step)
    ensures Sound(Apply(s, step, None), None)
  {
    var t := Apply(s, step, None);
    match step
    case Enrol =>
      forall e: nat | e < |t.footprints| ensures CountOf(t.footprints[e]) == |Assets(t.observations, e, None)| {
        if e == |s.footprints| {
          assert Assets(s.observations, e, None) == {};
        }
      }
    case Ingest(items, now) =>
      IngestedReferenced(s.footprints, s.observations, items, now);
      forall e: nat | e < |t.footprints| ensures CountOf(t.footprints[e]) == |Assets(t.observations, e, None)| {
        if e !in Touched(items) {
          UntouchedKeepsAssets(s.observations, items, now, e, None);
        }
      }
    case Prune(oldest) =>
      RefreshRepairs(State(s.footprints, t.observations), None);
    case Refresh =>
      RefreshRepairs(s, None);
  }

  /** With decay off, after every completed enrolment, batch, prune or refresh of any run, the cached
      footprint of each extension is the number of assets it is observed on. */
  lemma {:induction false} FootprintsAlwaysAgree(s: State, steps: seq<Step>)
    requires Sound(s, None)
    ensures Sound(Run(s, steps), None)
    decreases |steps|
  {
    if steps != [] {
      if Enabled(s, steps[0]) {
        SoundStep(s, steps[0]);
      }
      FootprintsAlwaysAgree(if Enabled(s, steps[0]) then Apply(s, steps[0], None) else s, steps[1..]);
    }
  }
}
