/**
 The durable pending-alert marker of one extension row (app/services.py): decoding it,
 merging new events into it, acknowledging delivered ones and compare-and-clearing it.

 Every operation is a pure function on the marker.  ``ExtensionRecord.Extension`` performs the
 same operations by updating its field in place, with the loops of the source.
 */
module PendingAlerts {
  import opened Sequences
  import opened ChangeEvents

  /** One element of the JSON list: a well-formed event, or anything the parser drops. */
  datatype Entry = Good(event: ChangeEvent) | Junk(text: string)

  /** The ``pending_alert_events`` column: NULL, a JSON list, or text that is not a JSON list. */
  datatype Marker = Null | Listed(entries: seq<Entry>) | Corrupt(text: string)

  // ------------------------------------------------------------------ decoding

  function EventOf(entry: Entry): seq<ChangeEvent> { if entry.Good? then [entry.event] else [] }

  function GoodEvents(entries: seq<Entry>): seq<ChangeEvent> {
    if entries == [] then [] else EventOf(entries[0]) + GoodEvents(entries[1..])
  }

  /** What ``_parse_pending_events`` yields. */
  function Parsed(raw: Marker): seq<ChangeEvent> {
    if raw.Listed? then GoodEvents(raw.entries) else []
  }

  /** ``json.dumps(pending) if pending else None``. */
  function Dumped(events: seq<ChangeEvent>): Marker {
    if events == [] then Null else Listed(seq(|events|, i requires 0 <= i < |events| => Good(events[i])))
  }

  lemma {:induction false} GoodEventsAppend(a: seq<Entry>, b: seq<Entry>)
    ensures GoodEvents(a + b) == GoodEvents(a) + GoodEvents(b)
  {
    if a == [] {
      EmptyIsNeutral(b);
      EmptyIsNeutral(GoodEvents(b));
    } else {
      AppendToTail(a, b);
      GoodEventsAppend(a[1..], b);
      AppendAssociates(EventOf(a[0]), GoodEvents(a[1..]), GoodEvents(b));
    }
  }

  /** Writing a marker and decoding it again loses nothing. */
  lemma {:induction false} ParseDump(events: seq<ChangeEvent>)
    ensures Parsed(Dumped(events)) == events
  {
    if events != [] {
      var entries := Dumped(events).entries;
      assert entries[0] == Good(events[0]);
      if |events| == 1 {
        assert entries[1..] == [] && events == [events[0]];
        assert GoodEvents(entries) == [events[0]] + GoodEvents([]);
      } else {
        ParseDump(events[1..]);
        assert entries[1..] == Dumped(events[1..]).entries;
        assert GoodEvents(entries) == [events[0]] + GoodEvents(entries[1..]);
      }
    }
  }

  /** ``_parse_pending_events``. */
  method ParsePendingEvents(raw: Marker) returns (result: seq<ChangeEvent>)
    ensures result == Parsed(raw)
  {
    result := [];
    if !raw.Listed? {
      return;
    }
    var entries := raw.entries;
    for i := 0 to |entries|
      invariant result == GoodEvents(entries[..i])
    {
      assert entries[..i + 1] == entries[..i] + [entries[i]];
      GoodEventsAppend(entries[..i], [entries[i]]);
      if entries[i].Junk? {
        continue;
      }
      result := result + [entries[i].event];
    }
    assert entries[..|entries|] == entries;
  }

  // ------------------------------------------------------------------ merging

  ghost predicate NoDuplicates<T>(s: seq<T>) {
    forall i, j | 0 <= i < j < |s| :: s[i] != s[j]
  }

  /** The events of ``detected`` that the merge appends, in the order it appends them. */
  function Fresh(pending: seq<ChangeEvent>, detected: seq<ChangeEvent>): seq<ChangeEvent>
    decreases |detected|
  {
    if detected == [] then []
    else if detected[0] in pending then Fresh(pending, detected[1..])
    else [detected[0]] + Fresh(pending + [detected[0]], detected[1..])
  }

  /** The marker after ``_merge_pending_events``. */
  function MergedMarker(raw: Marker, detected: seq<ChangeEvent>): Marker {
    Dumped(Parsed(raw) + Fresh(Parsed(raw), detected))
  }

  /** The appended events are exactly the detected values that were not pending, once each. */
  lemma {:induction false} FreshIsExact(pending: seq<ChangeEvent>, detected: seq<ChangeEvent>)
    ensures forall e :: e in Fresh(pending, detected) <==> e in detected && e !in pending
    ensures NoDuplicates(Fresh(pending, detected))
    ensures NoDuplicates(pending) ==> NoDuplicates(pending + Fresh(pending, detected))
    decreases |detected|
  {
    if detected != [] {
      var rest := detected[1..];
      assert detected == [detected[0]] + rest;
      if detected[0] in pending {
        FreshIsExact(pending, rest);
      } else {
        var head := [detected[0]];
        FreshIsExact(pending + head, rest);
        assert head[0] in pending + head;
        assert pending + (head + Fresh(pending + head, rest)) == (pending + head) + Fresh(pending + head, rest);
      }
    }
  }

  /** In the order they were detected: one more detected event is appended last, unless it is pending or was
      detected before. */
  lemma {:induction false} FreshNext(pending: seq<ChangeEvent>, detected: seq<ChangeEvent>, e: ChangeEvent)
    ensures Fresh(pending, detected + [e]) ==
            Fresh(pending, detected) + (if e in pending || e in detected then [] else [e])
    decreases |detected|
  {
    if detected == [] {
      EmptyIsNeutral([e]);
      assert [e][1..] == [] && Fresh(pending + [e], []) == [];
    } else {
      var d, rest := detected[0], detected[1..];
      assert detected == [d] + rest;
      AppendToTail(detected, [e]);
      var before := if d in pending then pending else pending + [d];
      FreshNext(before, rest, e);
      if d !in pending {
        AppendAssociates([d], Fresh(before, rest), if e in before || e in rest then [] else [e]);
      }
    }
  }

  /** A value pending before the merge or detected by it is pending afterwards, and nothing else is. */
  lemma MergeKeepsValues(raw: Marker, detected: seq<ChangeEvent>)
    ensures forall e :: e in Parsed(MergedMarker(raw, detected)) <==> e in Parsed(raw) || e in detected
  {
    FreshIsExact(Parsed(raw), detected);
    ParseDump(Parsed(raw) + Fresh(Parsed(raw), detected));
  }

  // ------------------------------------------------------------------ acknowledging

  /** Python's ``list.remove`` with the ``ValueError`` swallowed: drop the first equal element. */
  function RemoveFirst(pending: seq<ChangeEvent>, e: ChangeEvent): seq<ChangeEvent> {
    if pending == [] then []
    else if pending[0] == e then pending[1..]
    else [pending[0]] + RemoveFirst(pending[1..], e)
  }

  function RemoveAll(pending: seq<ChangeEvent>, delivered: seq<ChangeEvent>): seq<ChangeEvent>
    decreases |delivered|
  {
    if delivered == [] then pending else RemoveAll(RemoveFirst(pending, delivered[0]), delivered[1..])
  }

  /** The marker after ``_ack_pending_events``. */
  function AckedMarker(raw: Marker, delivered: seq<ChangeEvent>): Marker {
    Dumped(RemoveAll(Parsed(raw), delivered))
  }

  /** ``pending`` without the values in ``gone``, in its own order. */
  function Without(pending: seq<ChangeEvent>, gone: seq<ChangeEvent>): seq<ChangeEvent> {
    if pending == [] then []
    else (if pending[0] in gone then [] else [pending[0]]) + Without(pending[1..], gone)
  }

  lemma {:induction false} RemoveFirstCounts(pending: seq<ChangeEvent>, e: ChangeEvent)
    ensures multiset(RemoveFirst(pending, e)) == multiset(pending) - multiset{e}
  {
    if pending != [] {
      assert pending == [pending[0]] + pending[1..];
      if pending[0] != e {
        RemoveFirstCounts(pending[1..], e);
      }
    }
  }

  /** An acknowledgement removes one occurrence per delivered event and nothing else. */
  lemma {:induction false} RemoveAllCounts(pending: seq<ChangeEvent>, delivered: seq<ChangeEvent>)
    ensures multiset(RemoveAll(pending, delivered)) == multiset(pending) - multiset(delivered)
    decreases |delivered|
  {
    if delivered != [] {
      assert delivered == [delivered[0]] + delivered[1..];
      RemoveFirstCounts(pending, delivered[0]);
      RemoveAllCounts(RemoveFirst(pending, delivered[0]), delivered[1..]);
    }
  }

  lemma {:induction false} WithoutMembers(pending: seq<ChangeEvent>, gone: seq<ChangeEvent>)
    ensures forall e :: e in Without(pending, gone) <==> e in pending && e !in gone
    ensures NoDuplicates(pending) ==> NoDuplicates(Without(pending, gone))
  {
    if pending != [] {
      assert pending == [pending[0]] + pending[1..];
      WithoutMembers(pending[1..], gone);
    }
  }

  lemma {:induction false} WithoutNext(pending: seq<ChangeEvent>, e: ChangeEvent, gone: seq<ChangeEvent>)
    ensures Without(pending + [e], gone) == Without(pending, gone) + (if e in gone then [] else [e])
  {
    if pending == [] {
      EmptyIsNeutral([e]);
      assert [e][1..] == [];
    } else {
      AppendToTail(pending, [e]);
      WithoutNext(pending[1..], e, gone);
      AppendAssociates(if pending[0] in gone then [] else [pending[0]], Without(pending[1..], gone),
                       if e in gone then [] else [e]);
    }
  }

  lemma {:induction false} WithoutAbsent(pending: seq<ChangeEvent>, gone: seq<ChangeEvent>)
    requires forall e | e in pending :: e !in gone
    ensures Without(pending, gone) == pending
  {
    if pending != [] {
      assert pending[0] in pending && forall e | e in pending[1..] :: e in pending;
      WithoutAbsent(pending[1..], gone);
    }
  }

  lemma {:induction false} RemoveFirstIsWithout(pending: seq<ChangeEvent>, e: ChangeEvent)
    requires NoDuplicates(pending)
    ensures RemoveFirst(pending, e) == Without(pending, [e])
  {
    if pending != [] {
      if pending[0] == e {
        WithoutAbsent(pending[1..], [e]);
      } else {
        RemoveFirstIsWithout(pending[1..], e);
      }
    }
  }

  lemma {:induction false} WithoutTwice(pending: seq<ChangeEvent>, a: seq<ChangeEvent>, b: seq<ChangeEvent>)
    ensures Without(Without(pending, a), b) == Without(pending, a + b)
  {
    if pending != [] {
      WithoutTwice(pending[1..], a, b);
      var kept := Without(pending[1..], a);
      if pending[0] in a {
        assert Without(pending, a) == kept;
        assert Without(pending, a + b) == Without(pending[1..], a + b);
      } else {
        assert Without(pending, a) == [pending[0]] + kept;
        assert ([pending[0]] + kept)[1..] == kept;
      }
    }
  }

  /** On a duplicate-free list an acknowledgement is a filter: exactly the delivered values go,
      and the others keep their order. */
  lemma {:induction false} AckIsFilter(pending: seq<ChangeEvent>, delivered: seq<ChangeEvent>)
    requires NoDuplicates(pending)
    ensures RemoveAll(pending, delivered) == Without(pending, delivered)
    decreases |delivered|
  {
    if delivered == [] {
      WithoutAbsent(pending, []);
    } else {
      var rest := RemoveFirst(pending, delivered[0]);
      RemoveFirstIsWithout(pending, delivered[0]);
      WithoutMembers(pending, [delivered[0]]);
      AckIsFilter(rest, delivered[1..]);
      WithoutTwice(pending, [delivered[0]], delivered[1..]);
      assert [delivered[0]] + delivered[1..] == delivered;
    }
  }

  lemma AckKeepsOtherValues(raw: Marker, delivered: seq<ChangeEvent>)
    ensures forall e | e in Parsed(raw) && e !in delivered :: e in Parsed(AckedMarker(raw, delivered))
    ensures forall e | e in Parsed(AckedMarker(raw, delivered)) :: e in Parsed(raw)
  {
    var left := RemoveAll(Parsed(raw), delivered);
    RemoveAllCounts(Parsed(raw), delivered);
    ParseDump(left);
    forall e | e in Parsed(raw) && e !in delivered ensures e in left {
      assert e in multiset(Parsed(raw)) && e !in multiset(delivered);
      assert e in multiset(left);
    }
    forall e | e in left ensures e in Parsed(raw) {
      assert e in multiset(left);
      assert e in multiset(Parsed(raw));
    }
  }

  // ------------------------------------------------------------------ clearing

  /** The marker after the compare-and-clear UPDATE of ``_clear_pending_alerts``. */
  function ClearedMarker(raw: Marker, expected: Marker): Marker {
    if raw == expected then Null else raw
  }
}
