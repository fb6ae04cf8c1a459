/** The watchlist refresh cycle and its per-store circuit breaker (app/scheduler.py). */
module Scheduler {

  datatype Outcome = Success | Failed | Gone | Error

  // ------------------------------------------------------------------ one refresh

  /** The exceptions the refresh tells apart: the two that the circuit breaker reads as a failing
      store, and any other. */
  datatype Raised = FetchError | TransportError | OtherError

  /** How the remote fetch and the inspection end. */
  datatype Remote = Answered | Raises(error: Raised)

  /** What happens to one extension's refresh. ``listed``: the row exists and is on the watchlist;
      ``postureRaises``: applying the known threat list raises; ``deletedMeanwhile``: the row is gone
      when it is re-read under its lock after the fetch; ``storingRaises``: an error from there to the
      commit; ``survives``: the row is still there after the commit; ``delivers``: its alerts go out. */
  datatype Script = Script(listed: bool, postureRaises: bool, remote: Remote, deletedMeanwhile: bool,
                           storingRaises: bool, survives: bool, delivers: bool)

  predicate Reached(script: Script) { script.listed && !script.postureRaises }

  /** The store or the network failed. */
  predicate StoreFailed(script: Script) {
    Reached(script) && script.remote.Raises? && script.remote.error != OtherError
  }

  /** The store answered, but the row was deleted during the fetch. */
  predicate DeletedMidFetch(script: Script) {
    Reached(script) && script.remote.Answered? && script.deletedMeanwhile
  }

  predicate Commits(script: Script) {
    Reached(script) && script.remote.Answered? && !script.deletedMeanwhile && !script.storingRaises
  }

  /** The exceptional paths of ``fetch_and_store`` and the commit after it. */
  method FetchAndStore(script: Script) returns (raised: set<Raised>)
    requires Reached(script)
    ensures |raised| <= 1
    ensures raised == {} <==> Commits(script)
    ensures FetchError in raised || TransportError in raised <==> StoreFailed(script) || DeletedMidFetch(script)
  {
    if script.remote.Raises? {
      return {script.remote.error};
    }
    if script.deletedMeanwhile {
      return {FetchError};      // "extension disappeared during refresh"
    }
    raised := if script.storingRaises then {OtherError} else {};
  }

  /** ``_refresh_one``. A row deleted during its fetch is reported as a failure of the store. */
  method RefreshOne(script: Script) returns (outcome: Outcome)
    ensures outcome == OutcomeOf(script)
    ensures outcome == Failed <==> StoreFailed(script) || DeletedMidFetch(script)
    ensures outcome == Success <==> Commits(script) && script.survives
    ensures outcome == Gone <==> !script.listed || (Commits(script) && !script.survives)
  {
    if !script.listed {
      return Gone;
    }
    if script.postureRaises {
      return Error;
    }
    var raised := FetchAndStore(script);
    if FetchError in raised || TransportError in raised {
      return Failed;
    }
    if raised != {} {
      return Error;
    }
    if !script.survives {
      return Gone;
    }
    return Success;     // whether or not the alerts were delivered
  }

  function OutcomeOf(script: Script): Outcome {
    if StoreFailed(script) || DeletedMidFetch(script) then Failed
    else if script.listed && !Commits(script) then Error
    else if script.listed && script.survives then Success
    else Gone
  }

  // ------------------------------------------------------------------ the breaker

  /** An outcome recorded for a store. */
  datatype Record = Record(store: string, outcome: Outcome)

  /** The recorded outcomes of one store that are evidence about the store. */
  function StoreHistory(history: seq<Record>, store: string): seq<Outcome> {
    if history == [] then []
    else
      var last := history[|history| - 1];
      StoreHistory(history[..|history| - 1], store)
      + (if Evidence(last, store) then [last.outcome] else [])
  }

  function TrailingFailures(h: seq<Outcome>): nat {
    if h == [] || h[|h| - 1] != Failed then 0 else 1 + TrailingFailures(h[..|h| - 1])
  }

  /** ``k`` consecutive failures somewhere in the history. */
  ghost predicate HasFailureRun(h: seq<Outcome>, k: nat) {
    exists i: nat :: FailureRunAt(h, i, k)
  }

  ghost predicate FailureRunAt(h: seq<Outcome>, i: nat, k: nat) {
    i + k <= |h| && forall j | i <= j < i + k :: h[j] == Failed
  }

  ghost predicate Tripped(threshold: int, h: seq<Outcome>) { threshold > 0 && HasFailureRun(h, threshold) }

  /** The counter and the open flag of a store with the history ``h``. */
  ghost predicate Tracks(threshold: int, h: seq<Outcome>, count: nat, open: bool) {
    count == TrailingFailures(h) && (open <==> Tripped(threshold, h))
  }

  function CountOf(consecutive: map<string, nat>, store: string): nat {
    if store in consecutive then consecutive[store] else 0
  }

  class StoreCircuitBreaker {
    const threshold: int
    var consecutive: map<string, nat>
    var openStores: set<string>
    ghost var history: seq<Record>

    /** The counters and the open set agree with everything recorded. */
    ghost predicate Valid()
      reads this
    {
      forall s {:trigger CountOf(consecutive, s)} ::
        Tracks(threshold, StoreHistory(history, s), CountOf(consecutive, s), s in openStores)
    }

    constructor (threshold: int)
      ensures Valid() && this.threshold == threshold && history == []
    {
      this.threshold := threshold;
      consecutive, openStores, history := map[], {}, [];
    }

    /** A store is open iff the record holds ``threshold`` failures of it with no success of it between
        them; in other words, iff its recorded outcomes, without the neutral ones, hold that many in a row. */
    method IsOpen(store: string) returns (r: bool)
      requires Valid()
      ensures r <==> threshold > 0 && FailsRepeatedly(history, store, threshold)
      ensures r <==> Tripped(threshold, StoreHistory(history, store))
    {
      TrippedIff(threshold, history, store);
      assert Tracks(threshold, StoreHistory(history, store), CountOf(consecutive, store), store in openStores);
      r := store in openStores;
    }

    method RecordOutcome(store: string, outcome: Outcome)
      requires Valid()
      modifies this
      ensures Valid() && history == old(history) + [Record(store, outcome)]
    {
      ghost var record := Record(store, outcome);
      ghost var before := history;
      ghost var counts, open := consecutive, openStores;
      if outcome == Success {
        consecutive := consecutive[store := 0];
      } else if outcome == Failed {
        var n := CountOf(consecutive, store) + 1;
        consecutive := consecutive[store := n];
        if threshold > 0 && n >= threshold {
          openStores := openStores + {store};
        }
      }
      history := history + [record];
      forall s ensures Tracks(threshold, StoreHistory(history, s), CountOf(consecutive, s), s in openStores) {
        assert Tracks(threshold, StoreHistory(before, s), CountOf(counts, s), s in open);
        HistoryNext(before, record, s);
        if Evidence(record, s) {
          RunNext(StoreHistory(before, s), outcome, threshold);
        }
      }
    }
  }

  predicate Evidence(record: Record, store: string) {
    record.store == store && (record.outcome.Success? || record.outcome.Failed?)
  }

  lemma HistoryNext(history: seq<Record>, record: Record, s: string)
    ensures StoreHistory(history + [record], s) ==
            if Evidence(record, s) then StoreHistory(history, s) + [record.outcome] else StoreHistory(history, s)
  {
    assert (history + [record])[..|history|] == history;
    assert StoreHistory(history, s) + [] == StoreHistory(history, s);
  }

  lemma {:induction false} TrailingIsRun(h: seq<Outcome>)
    ensures TrailingFailures(h) <= |h| && FailureRunAt(h, |h| - TrailingFailures(h), TrailingFailures(h))
    ensures TrailingFailures(h) < |h| ==> h[|h| - TrailingFailures(h) - 1] != Failed
  {
    if h != [] && h[|h| - 1] == Failed {
      TrailingIsRun(h[..|h| - 1]);
    }
  }

  /** Recording one more outcome. */
  lemma RunNext(h: seq<Outcome>, outcome: Outcome, threshold: int)
    ensures var next := h + [outcome];
            && TrailingFailures(next) == (if outcome == Failed then TrailingFailures(h) + 1 else 0)
            && (threshold > 0 ==>
                  (HasFailureRun(next, threshold) <==>
                      HasFailureRun(h, threshold) || TrailingFailures(next) >= threshold))
  {
    var next := h + [outcome];
    assert next[..|h|] == h;
    TrailingIsRun(next);
    var trailing := TrailingFailures(next);
    if threshold > 0 && HasFailureRun(h, threshold) {
      var i: nat :| FailureRunAt(h, i, threshold);
      assert FailureRunAt(next, i, threshold);
    }
    if threshold > 0 && trailing >= threshold {
      assert FailureRunAt(next, |next| - threshold, threshold);
    }
    if threshold > 0 && HasFailureRun(next, threshold) && trailing < threshold {
      var i: nat :| FailureRunAt(next, i, threshold);
      assert i + threshold != |next|;
      assert FailureRunAt(h, i, threshold);
    }
  }

  // ------------------------------------------------------------------ the record as it is

  /** Where ``history[a..b]`` says that the store failed. */
  function FailuresIn(history: seq<Record>, store: string, a: nat, b: nat): set<nat>
    requires b <= |history|
  {
    set j: nat | a <= j < b && history[j] == Record(store, Failed)
  }

  /** Between ``a`` and ``b`` the store succeeded never and failed ``k`` times or more. */
  ghost predicate FailsThroughout(history: seq<Record>, store: string, a: nat, b: nat, k: int) {
    && a <= b <= |history|
    && (forall j | a <= j < b :: history[j] != Record(store, Success))
    && |FailuresIn(history, store, a, b)| >= k
  }

  /** Somewhere in the record are ``k`` failures of the store with no success of it between them. */
  ghost predicate FailsRepeatedly(history: seq<Record>, store: string, k: int) {
    exists a: nat, b: nat :: FailsThroughout(history, store, a, b, k)
  }

  /** The last success of the store, or the start of the record, is just before ``a``. */
  ghost predicate SinceSuccess(history: seq<Record>, store: string, a: nat) {
    && a <= |history|
    && (a > 0 ==> history[a - 1] == Record(store, Success))
    && forall j | a <= j < |history| :: history[j] != Record(store, Success)
  }

  lemma FailuresNext(history: seq<Record>, r: Record, store: string, a: nat)
    requires a <= |history|
    ensures var n := |history|;
            && FailuresIn(history + [r], store, a, n) == FailuresIn(history, store, a, n)
            && |FailuresIn(history + [r], store, a, n + 1)| ==
               |FailuresIn(history, store, a, n)| + (if r == Record(store, Failed) then 1 else 0)
  {
    var n, longer := |history|, history + [r];
    assert FailuresIn(longer, store, a, n) == FailuresIn(history, store, a, n);
    assert FailuresIn(longer, store, a, n + 1) ==
           FailuresIn(history, store, a, n) + (if r == Record(store, Failed) then {n} else {});
  }

  /** The trailing failures are those since the last success. */
  lemma {:induction false} TrailingSinceSuccess(history: seq<Record>, store: string) returns (a: nat)
    ensures SinceSuccess(history, store, a)
    ensures |FailuresIn(history, store, a, |history|)| == TrailingFailures(StoreHistory(history, store))
    decreases |history|
  {
    a := 0;
    if history != [] {
      var n := |history| - 1;
      var before, r := history[..n], history[n];
      assert history == before + [r];
      HistoryNext(before, r, store);
      if r == Record(store, Success) {
        a := n + 1;
        RunNext(StoreHistory(before, store), Success, 0);
      } else {
        a := TrailingSinceSuccess(before, store);
        FailuresNext(before, r, store, a);
        if Evidence(r, store) {
          RunNext(StoreHistory(before, store), r.outcome, 0);
        }
      }
    }
  }

  lemma FewerFailures(history: seq<Record>, store: string, a: nat, c: nat, b: nat)
    requires a <= c <= b <= |history|
    ensures |FailuresIn(history, store, c, b)| <= |FailuresIn(history, store, a, b)|
  {
    var inner, outer := FailuresIn(history, store, c, b), FailuresIn(history, store, a, b);
    assert outer == inner + (outer - inner);
    assert |outer| == |inner| + |outer - inner|;
  }

  lemma FailsThroughoutPrefix(history: seq<Record>, r: Record, store: string, a: nat, b: nat, k: int)
    requires b <= |history|
    ensures FailsThroughout(history + [r], store, a, b, k) <==> FailsThroughout(history, store, a, b, k)
  {
    assert FailuresIn(history + [r], store, a, b) == FailuresIn(history, store, a, b);
    assert forall j | a <= j < b :: (history + [r])[j] == history[j];
  }

  /** One more record: repeated failures were there before, or the trailing ones are enough now. */
  lemma FailsRepeatedlyNext(history: seq<Record>, r: Record, store: string, k: int)
    requires k > 0
    ensures FailsRepeatedly(history + [r], store, k) <==>
            FailsRepeatedly(history, store, k) || TrailingFailures(StoreHistory(history + [r], store)) >= k
  {
    var longer := history + [r];
    var n := |longer|;
    var start := TrailingSinceSuccess(longer, store);
    if FailsRepeatedly(history, store, k) {
      var a: nat, b: nat :| FailsThroughout(history, store, a, b, k);
      FailsThroughoutPrefix(history, r, store, a, b, k);
    }
    if TrailingFailures(StoreHistory(longer, store)) >= k {
      assert FailsThroughout(longer, store, start, n, k);
    }
    if FailsRepeatedly(longer, store, k) {
      var a: nat, b: nat :| FailsThroughout(longer, store, a, b, k);
      if b < n {
        FailsThroughoutPrefix(history, r, store, a, b, k);
      } else {
        assert start <= a || start == 0;
        FewerFailures(longer, store, start, a, n);
      }
    }
  }

  lemma TrailingFailuresTrip(threshold: int, h: seq<Outcome>)
    requires threshold > 0 && TrailingFailures(h) >= threshold
    ensures Tripped(threshold, h)
  {
    TrailingIsRun(h);
    assert FailureRunAt(h, |h| - threshold, threshold);
  }

  /** A store is open exactly when the threshold is positive and the record, read as it is, holds that many
      failures of it with no success of it between them. */
  lemma {:induction false} TrippedIff(threshold: int, history: seq<Record>, store: string)
    ensures Tripped(threshold, StoreHistory(history, store)) <==>
            threshold > 0 && FailsRepeatedly(history, store, threshold)
    decreases |history|
  {
    if threshold > 0 {
      if history == [] {
        assert !FailsRepeatedly(history, store, threshold);
      } else {
        var n := |history| - 1;
        var before, r := history[..n], history[n];
        assert history == before + [r];
        TrippedIff(threshold, before, store);
        FailsRepeatedlyNext(before, r, store, threshold);
        HistoryNext(before, r, store);
        if Evidence(r, store) {
          RunNext(StoreHistory(before, store), r.outcome, threshold);
        } else if TrailingFailures(StoreHistory(before, store)) >= threshold {
          TrailingFailuresTrip(threshold, StoreHistory(before, store));
        }
      }
    }
  }

  // ------------------------------------------------------------------ the cycle

  /** One watched row: what its refresh would do, and whether an exception escapes the refresh or the
      logging of a skip. */
  datatype Row = Row(id: int, store: string, script: Script, refreshRaises: bool, skipRaises: bool)

  datatype Action = Fetched(outcome: Outcome) | Skipped

  function Attempt(row: Row): Outcome { if row.refreshRaises then Error else OutcomeOf(row.script) }

  /** What the cycle recorded for one row. */
  function Recorded(row: Row, action: Action): seq<Record> {
    match action
    case Fetched(outcome) => [Record(row.store, outcome)]
    case Skipped => if row.skipRaises then [Record(row.store, Error)] else []
  }

  function History(rows: seq<Row>, actions: seq<Action>): seq<Record>
    requires |rows| == |actions|
  {
    if rows == [] then []
    else
      var n := |rows| - 1;
      History(rows[..n], actions[..n]) + Recorded(rows[n], actions[n])
  }

  /** The action taken on a row whose store has the history ``h``. */
  ghost function ActionOn(threshold: int, h: seq<Outcome>, row: Row): Action {
    if Tripped(threshold, h) then Skipped else Fetched(Attempt(row))
  }

  /** What a cycle does with each of its rows. */
  ghost function Actions(threshold: int, rows: seq<Row>): (actions: seq<Action>)
    ensures |actions| == |rows|
  {
    if rows == [] then []
    else
      var n := |rows| - 1;
      var before := Actions(threshold, rows[..n]);
      before + [ActionOn(threshold, StoreHistory(History(rows[..n], before), rows[n].store), rows[n])]
  }

  /** The skips that were logged. */
  function SkipsLogged(rows: seq<Row>, actions: seq<Action>): nat
    requires |rows| == |actions|
  {
    if rows == [] then 0
    else
      var n := |rows| - 1;
      SkipsLogged(rows[..n], actions[..n]) + (if actions[n].Skipped? && !rows[n].skipRaises then 1 else 0)
  }

  /** It is their number. */
  lemma {:induction false} SkipsLoggedIs(rows: seq<Row>, actions: seq<Action>)
    requires |rows| == |actions|
    ensures SkipsLogged(rows, actions) ==
            |set i | 0 <= i < |rows| && actions[i] == Skipped && !rows[i].skipRaises|
    decreases |rows|
  {
    if rows != [] {
      var n := |rows| - 1;
      SkipsLoggedIs(rows[..n], actions[..n]);
      var before := set i | 0 <= i < n && actions[..n][i] == Skipped && !rows[..n][i].skipRaises;
      var all := set i | 0 <= i < |rows| && actions[i] == Skipped && !rows[i].skipRaises;
      assert all == before + (if actions[n] == Skipped && !rows[n].skipRaises then {n} else {});
    }
  }

  /** What the loop has done after ``rows``. */
  ghost predicate Cycled(threshold: int, rows: seq<Row>, actions: seq<Action>, history: seq<Record>, skipped: nat) {
    && actions == Actions(threshold, rows)
    && history == History(rows, actions)
    && skipped == SkipsLogged(rows, actions)
  }

  lemma CycledNext(threshold: int, rows: seq<Row>, actions: seq<Action>, history: seq<Record>, skipped: nat, row: Row)
    requires Cycled(threshold, rows, actions, history, skipped)
    ensures var action := ActionOn(threshold, StoreHistory(history, row.store), row);
            Cycled(threshold, rows + [row], actions + [action], history + Recorded(row, action),
                   skipped + (if action.Skipped? && !row.skipRaises then 1 else 0))
  {
    assert (rows + [row])[..|rows|] == rows;
    var action := ActionOn(threshold, StoreHistory(history, row.store), row);
    assert (actions + [action])[..|rows|] == actions;
  }

  /** The guarded body of the loop: ``logged`` when a skip was counted. */
  method ProcessRow(breaker: StoreCircuitBreaker, row: Row) returns (action: Action, logged: bool)
    requires breaker.Valid()
    modifies breaker
    ensures breaker.Valid()
    ensures action == ActionOn(breaker.threshold, StoreHistory(old(breaker.history), row.store), row)
    ensures breaker.history == old(breaker.history) + Recorded(row, action)
    ensures logged <==> action.Skipped? && !row.skipRaises
  {
    var open := breaker.IsOpen(row.store);
    if open && !row.skipRaises {
      return Skipped, true;
    }
    var outcome := Error;
    action, logged := Skipped, false;
    if !open {
      if !row.refreshRaises {
        outcome := RefreshOne(row.script);
      }
      action := Fetched(outcome);
    }
    breaker.RecordOutcome(row.store, outcome);
  }

  /** The loop of ``refresh_watchlist``: every row gets its action, whatever raises. */
  method RefreshWatchlist(threshold: int, rows: seq<Row>) returns (actions: seq<Action>, skipped: nat)
    ensures actions == Actions(threshold, rows)
    ensures skipped == SkipsLogged(rows, actions)
  {
    actions, skipped := [], 0;
    var breaker := new StoreCircuitBreaker(threshold);
    for i := 0 to |rows|
      invariant breaker.Valid() && breaker.threshold == threshold && fresh(breaker)
      invariant Cycled(threshold, rows[..i], actions, breaker.history, skipped)
    {
      var row := rows[i];
      ghost var h, done, n := breaker.history, actions, skipped;
      var action, logged := ProcessRow(breaker, row);
      actions := actions + [action];
      skipped := skipped + (if logged then 1 else 0);
      assert Cycled(threshold, rows[..i] + [row], actions, breaker.history, skipped) by {
        CycledNext(threshold, rows[..i], done, h, n, row);
      }
      assert rows[..i + 1] == rows[..i] + [row];
    }
    assert rows[..|rows|] == rows;
  }

  // ------------------------------------------------------------------ what a cycle guarantees

  lemma TrippedStays(threshold: int, h: seq<Outcome>, extra: seq<Outcome>)
    requires Tripped(threshold, h)
    ensures Tripped(threshold, h + extra)
  {
    var i: nat :| FailureRunAt(h, i, threshold);
    assert FailureRunAt(h + extra, i, threshold);
  }

  lemma {:induction false} ActionsOfPrefix(threshold: int, rows: seq<Row>, k: nat)
    requires k <= |rows|
    ensures Actions(threshold, rows)[..k] == Actions(threshold, rows[..k])
    decreases |rows|
  {
    if k < |rows| {
      var shorter := rows[..|rows| - 1];
      ActionsOfPrefix(threshold, shorter, k);
      assert shorter[..k] == rows[..k];
      assert Actions(threshold, rows)[..k] == Actions(threshold, shorter)[..k];
    } else {
      assert rows[..k] == rows;
    }
  }

  /** The action on row ``j`` is decided by the rows before it alone. */
  lemma ActionAt(threshold: int, rows: seq<Row>, j: nat)
    requires j < |rows|
    ensures Actions(threshold, rows)[..j] == Actions(threshold, rows[..j])
    ensures Actions(threshold, rows)[j] ==
            ActionOn(threshold, StoreHistory(History(rows[..j], Actions(threshold, rows[..j])), rows[j].store), rows[j])
  {
    ActionsOfPrefix(threshold, rows, j);
    ActionsOfPrefix(threshold, rows, j + 1);
    var upTo := rows[..j + 1];
    assert upTo[..j] == rows[..j] && upTo[j] == rows[j];
    assert Actions(threshold, rows)[j] == Actions(threshold, rows)[..j + 1][j] == Actions(threshold, upTo)[j];
  }

  /** The outcomes that are evidence about ``store``, had every one of its rows been fetched. */
  function Potential(rows: seq<Row>, store: string): seq<Outcome> {
    if rows == [] then []
    else
      var n := |rows| - 1;
      Potential(rows[..n], store) + EvidenceOf(rows[n], Fetched(Attempt(rows[n])), store)
  }

  /** The cycle records what every row would have shown, up to the point where the store opens. */
  lemma {:induction false} RecordedUpToOpening(threshold: int, rows: seq<Row>, store: string)
    ensures var h := StoreHistory(History(rows, Actions(threshold, rows)), store);
            h == Potential(rows, store) || (Tripped(threshold, h) && Tripped(threshold, Potential(rows, store)))
    decreases |rows|
  {
    if rows != [] {
      var n := |rows| - 1;
      var before, all := Actions(threshold, rows[..n]), Actions(threshold, rows);
      var history := History(rows[..n], before);
      RecordedUpToOpening(threshold, rows[..n], store);
      assert all[..n] == before;
      RecordedHistory(history, rows[n], all[n], store);
      var h, p := StoreHistory(history, store), Potential(rows[..n], store);
      if Tripped(threshold, h) && Tripped(threshold, p) {
        TrippedStays(threshold, h, EvidenceOf(rows[n], all[n], store));
        TrippedStays(threshold, p, EvidenceOf(rows[n], Fetched(Attempt(rows[n])), store));
      }
    }
  }

  /** A row is skipped exactly when the rows of its store before it, had all of them been fetched,
      would show ``threshold`` consecutive failures: skipping never changes what is skipped. */
  lemma SkippedIff(threshold: int, rows: seq<Row>, j: nat)
    requires j < |rows|
    ensures Actions(threshold, rows)[j].Skipped? <==> Tripped(threshold, Potential(rows[..j], rows[j].store))
  {
    ActionAt(threshold, rows, j);
    RecordedUpToOpening(threshold, rows[..j], rows[j].store);
  }

  lemma {:induction false} PotentialOfPrefix(rows: seq<Row>, i: nat, store: string)
    requires i <= |rows|
    ensures Potential(rows[..i], store) <= Potential(rows, store)
    decreases |rows|
  {
    if i < |rows| {
      assert rows[..|rows| - 1][..i] == rows[..i];
      PotentialOfPrefix(rows[..|rows| - 1], i, store);
    } else {
      assert rows[..i] == rows;
    }
  }

  lemma TrippedUpTo(threshold: int, rows: seq<Row>, i: nat, store: string)
    requires i <= |rows| && Tripped(threshold, Potential(rows[..i], store))
    ensures Tripped(threshold, Potential(rows, store))
  {
    PotentialOfPrefix(rows, i, store);
    var p, q := Potential(rows[..i], store), Potential(rows, store);
    assert q == p + q[|p|..];
    TrippedStays(threshold, p, q[|p|..]);
  }

  /** From the point where the recorded history of a store trips, none of its rows is fetched. */
  lemma NeverFetchedAfterOpening(threshold: int, rows: seq<Row>, i: nat, j: nat)
    requires i <= j < |rows|
    requires Tripped(threshold, StoreHistory(History(rows[..i], Actions(threshold, rows[..i])), rows[j].store))
    ensures Actions(threshold, rows)[j].Skipped?
  {
    assert rows[..j][..i] == rows[..i];
    RecordedUpToOpening(threshold, rows[..i], rows[j].store);
    TrippedUpTo(threshold, rows[..j], i, rows[j].store);
    SkippedIff(threshold, rows, j);
  }

  /** What the record would be if every row were fetched. */
  function FetchedThroughout(rows: seq<Row>): seq<Record> {
    seq(|rows|, i requires 0 <= i < |rows| => Record(rows[i].store, Attempt(rows[i])))
  }

  lemma {:induction false} PotentialIsHistory(rows: seq<Row>, store: string)
    ensures StoreHistory(FetchedThroughout(rows), store) == Potential(rows, store)
    decreases |rows|
  {
    if rows != [] {
      var n := |rows| - 1;
      PotentialIsHistory(rows[..n], store);
      assert FetchedThroughout(rows) == FetchedThroughout(rows[..n]) + [Record(rows[n].store, Attempt(rows[n]))];
      HistoryNext(FetchedThroughout(rows[..n]), Record(rows[n].store, Attempt(rows[n])), store);
      assert Potential(rows[..n], store) + [] == Potential(rows[..n], store);
    }
  }

  /** In terms of the rows alone: a row is skipped exactly when ``threshold`` rows of its store before it
      would fail with none that would succeed between them. */
  lemma SkippedIffRowsFail(threshold: int, rows: seq<Row>, j: nat)
    requires j < |rows|
    ensures Actions(threshold, rows)[j].Skipped? <==>
            threshold > 0 && FailsRepeatedly(FetchedThroughout(rows[..j]), rows[j].store, threshold)
  {
    SkippedIff(threshold, rows, j);
    PotentialIsHistory(rows[..j], rows[j].store);
    TrippedIff(threshold, FetchedThroughout(rows[..j]), rows[j].store);
  }

  /** Between ``a`` and ``b`` some row of the store would succeed. */
  ghost predicate Interrupted(rows: seq<Row>, store: string, a: nat, b: nat)
    requires b <= |rows|
  {
    exists i :: a <= i < b && FetchedThroughout(rows)[i] == Record(store, Success)
  }

  lemma FailsEarlier(rows: seq<Row>, j: nat, store: string, a: nat, b: nat, k: int)
    requires j <= |rows| && FailsThroughout(FetchedThroughout(rows[..j]), store, a, b, k)
    ensures FailsThroughout(FetchedThroughout(rows), store, a, b, k) && !Interrupted(rows, store, a, b)
  {
    var part, all := FetchedThroughout(rows[..j]), FetchedThroughout(rows);
    assert forall i | 0 <= i < j :: all[i] == part[i];
    assert FailuresIn(all, store, a, b) == FailuresIn(part, store, a, b);
  }

  /** When among every ``threshold`` failures of a store there is a success, none of its rows is skipped,
      however many failures there are altogether. */
  lemma InterruptedStoreNeverSkipped(threshold: int, rows: seq<Row>, store: string, j: nat)
    requires j < |rows| && rows[j].store == store
    requires forall a: nat, b: nat |
               a <= b <= |rows| && |FailuresIn(FetchedThroughout(rows), store, a, b)| >= threshold ::
               Interrupted(rows, store, a, b)
    ensures Actions(threshold, rows)[j] == Fetched(Attempt(rows[j]))
  {
    ActionAt(threshold, rows, j);
    SkippedIffRowsFail(threshold, rows, j);
    if Actions(threshold, rows)[j].Skipped? {
      var a: nat, b: nat :| FailsThroughout(FetchedThroughout(rows[..j]), store, a, b, threshold);
      FailsEarlier(rows, j, store, a, b, threshold);
    }
  }

  // ------------------------------------------------------------------ rows deleted during their fetch

  /** A row of the store that is fetched, answered and deleted meanwhile. */
  predicate Vanishes(row: Row, store: string) {
    row.store == store && !row.refreshRaises && DeletedMidFetch(row.script)
  }

  lemma {:induction false} VanishingRowsFail(rows: seq<Row>, store: string)
    requires forall row | row in rows :: Vanishes(row, store)
    ensures |Potential(rows, store)| == |rows|
    ensures forall k | 0 <= k < |rows| :: Potential(rows, store)[k] == Failed
  {
    if rows != [] {
      var n := |rows| - 1;
      assert rows[n] in rows && forall row | row in rows[..n] :: row in rows;
      VanishingRowsFail(rows[..n], store);
    }
  }

  /** The circuit of a store whose fetches all answered opens once ``threshold`` rows in a row were
      deleted during them: exactly the first ``threshold`` of such rows are fetched. */
  lemma VanishingRowsOpenStore(threshold: int, rows: seq<Row>, store: string, j: nat)
    requires forall row | row in rows :: Vanishes(row, store)
    requires j < |rows|
    ensures !StoreFailed(rows[j].script)
    ensures Actions(threshold, rows)[j] == if threshold > 0 && j >= threshold then Skipped else Fetched(Failed)
  {
    assert Vanishes(rows[j], store);
    assert forall row | row in rows[..j] :: row in rows;
    VanishingRowsFail(rows[..j], store);
    var p := Potential(rows[..j], store);
    SkippedIff(threshold, rows, j);
    ActionAt(threshold, rows, j);
    if threshold > 0 && j >= threshold {
      assert FailureRunAt(p, 0, threshold);
    }
  }

  /** Such a run of rows exists for every threshold. */
  lemma VanishingRowsExist(threshold: nat, store: string)
    ensures var script := Script(true, false, Answered, true, false, false, false);
            var rows := seq(threshold + 1, i requires 0 <= i <= threshold => Row(i, store, script, false, false));
            threshold > 0 ==> Actions(threshold, rows)[threshold] == Skipped
  {
    var script := Script(true, false, Answered, true, false, false, false);
    var rows := seq(threshold + 1, i requires 0 <= i <= threshold => Row(i, store, script, false, false));
    VanishingRowsOpenStore(threshold, rows, store, threshold);
  }

  lemma {:induction false} NoFailureWithoutCause(rows: seq<Row>, store: string)
    requires forall row | row in rows && row.store == store ::
               row.refreshRaises || !(StoreFailed(row.script) || DeletedMidFetch(row.script))
    ensures Failed !in Potential(rows, store)
  {
    if rows != [] {
      var n := |rows| - 1;
      assert rows[n] in rows && forall row | row in rows[..n] :: row in rows;
      NoFailureWithoutCause(rows[..n], store);
    }
  }

  lemma TrippedHasFailure(threshold: int, h: seq<Outcome>)
    requires Tripped(threshold, h)
    ensures Failed in h
  {
    var i: nat :| FailureRunAt(h, i, threshold);
    assert h[i] == Failed;
  }

  /** A store that never fails, and none of whose rows is deleted during its fetch, is never skipped. */
  lemma HealthyStoreNeverSkipped(threshold: int, rows: seq<Row>, j: nat)
    requires j < |rows|
    requires forall row | row in rows && row.store == rows[j].store ::
               row.refreshRaises || !(StoreFailed(row.script) || DeletedMidFetch(row.script))
    ensures Actions(threshold, rows)[j] == Fetched(Attempt(rows[j]))
  {
    assert forall row | row in rows[..j] :: row in rows;
    NoFailureWithoutCause(rows[..j], rows[j].store);
    SkippedIff(threshold, rows, j);
    ActionAt(threshold, rows, j);
    if Tripped(threshold, Potential(rows[..j], rows[j].store)) {
      TrippedHasFailure(threshold, Potential(rows[..j], rows[j].store));
    }
  }

  // ------------------------------------------------------------------ stores do not affect each other

  /** The rows of one store, and the actions on them. */
  function RowsOf(rows: seq<Row>, store: string): seq<Row> {
    if rows == [] then []
    else RowsOf(rows[..|rows| - 1], store) + (if rows[|rows| - 1].store == store then [rows[|rows| - 1]] else [])
  }

  function ActionsOf(rows: seq<Row>, actions: seq<Action>, store: string): seq<Action>
    requires |rows| == |actions|
  {
    if rows == [] then []
    else
      var n := |rows| - 1;
      ActionsOf(rows[..n], actions[..n], store) + (if rows[n].store == store then [actions[n]] else [])
  }

  /** The evidence about ``store`` in what was recorded for a row. */
  function EvidenceOf(row: Row, action: Action, store: string): seq<Outcome> {
    match action
    case Fetched(outcome) => if Evidence(Record(row.store, outcome), store) then [outcome] else []
    case Skipped => []
  }

  lemma RecordedHistory(history: seq<Record>, row: Row, action: Action, store: string)
    ensures StoreHistory(history + Recorded(row, action), store) ==
            StoreHistory(history, store) + EvidenceOf(row, action, store)
  {
    var records := Recorded(row, action);
    if records == [] {
      assert history + records == history;
      assert StoreHistory(history, store) + [] == StoreHistory(history, store);
    } else {
      HistoryNext(history, records[0], store);
      assert records == [records[0]];
      assert StoreHistory(history, store) + [] == StoreHistory(history, store);
    }
  }

  /** Stores do not affect each other: a cycle treats the rows of a store exactly as if they were
      its only rows. */
  lemma {:induction false} StoresAreIndependent(threshold: int, rows: seq<Row>, store: string)
    ensures ActionsOf(rows, Actions(threshold, rows), store) == Actions(threshold, RowsOf(rows, store))
    ensures var own := RowsOf(rows, store);
            StoreHistory(History(rows, Actions(threshold, rows)), store)
              == StoreHistory(History(own, Actions(threshold, own)), store)
    decreases |rows|
  {
    if rows != [] {
      var n := |rows| - 1;
      var row, before, all := rows[n], Actions(threshold, rows[..n]), Actions(threshold, rows);
      var ownBefore, own := RowsOf(rows[..n], store), RowsOf(rows, store);
      StoresAreIndependent(threshold, rows[..n], store);
      assert all[..n] == before;
      RecordedHistory(History(rows[..n], before), row, all[n], store);
      if row.store == store {
        var ownAll := Actions(threshold, own);
        assert own[..|ownBefore|] == ownBefore && own[|ownBefore|] == row;
        assert ownAll[..|ownBefore|] == Actions(threshold, ownBefore);
        RecordedHistory(History(ownBefore, Actions(threshold, ownBefore)), row, ownAll[|ownBefore|], store);
      } else {
        assert own == ownBefore;
      }
    }
  }
}
