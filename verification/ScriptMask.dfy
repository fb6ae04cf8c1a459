/** Reducing an HTML page to its script bodies without moving them off their lines
    (``_mask_non_script``, app/inspector.py). */
module ScriptMask {
  import opened Wrappers

  // ------------------------------------------------------------------ lines

  /** Python's ``count`` of newlines. */
  function Newlines(s: string): nat {
    if s == "" then 0 else (if s[0] == '\n' then 1 else 0) + Newlines(s[1..])
  }

  /** The positions of the newlines. */
  function NewlinePositions(s: string): set<nat> { set k: nat | k < |s| && s[k] == '\n' }

  lemma {:induction false} NewlinesAreCounted(s: string)
    ensures Newlines(s) == |NewlinePositions(s)|
    decreases |s|
  {
    if s != "" {
      var n := |s| - 1;
      NewlinesAreCounted(s[..n]);
      NewlinesConcat(s[..n], s[n..]);
      assert s == s[..n] + s[n..] && s[n..][1..] == "" && s[n..][0] == s[n];
      assert NewlinePositions(s) == NewlinePositions(s[..n]) + (if s[n] == '\n' then {n} else {});
    }
  }

  /** ``_line_number``: the 1-based line of position ``index``. */
  function LineNumber(s: string, index: nat): nat
    requires index <= |s|
  {
    Newlines(s[..index]) + 1
  }

  lemma {:induction false} NewlinesConcat(a: string, b: string)
    ensures Newlines(a + b) == Newlines(a) + Newlines(b)
  {
    if a == "" {
      assert a + b == b;
    } else {
      assert (a + b)[1..] == a[1..] + b;
      NewlinesConcat(a[1..], b);
    }
  }

  /** ``"\n" * n``. */
  function Blank(n: nat): (r: string)
    ensures |r| == n && forall k | 0 <= k < n :: r[k] == '\n'
  {
    seq(n, k => '\n')
  }

  lemma {:induction false} NewlinesBlank(n: nat)
    ensures Newlines(Blank(n)) == n
  {
    if n > 0 {
      assert Blank(n)[1..] == Blank(n - 1);
      NewlinesBlank(n - 1);
    }
  }

  // ------------------------------------------------------------------ the scan

  predicate OccursAt(source: string, body: string, start: nat) {
    start + |body| <= |source| && source[start..start + |body|] == body
  }

  /** Python's ``source.find(body, from)``. */
  method Find(source: string, body: string, from: nat) returns (start: Option<nat>)
    requires from <= |source|
    ensures start == FirstOccurrence(source, body, from)
  {
    var i := from;
    while i + |body| <= |source|
      invariant from <= i && FirstOccurrence(source, body, from) == FirstOccurrence(source, body, i)
    {
      if source[i..i + |body|] == body {
        return Some(i);
      }
      i := i + 1;
    }
    return None;
  }

  function FirstOccurrence(source: string, body: string, from: nat): Option<nat>
    decreases |source| - from
  {
    if from + |body| > |source| then None
    else if OccursAt(source, body, from) then Some(from)
    else FirstOccurrence(source, body, from + 1)
  }

  lemma {:induction false} FirstOccurrenceIsFirst(source: string, body: string, from: nat)
    ensures var r := FirstOccurrence(source, body, from);
            && (r.Some? ==> from <= r.value && OccursAt(source, body, r.value))
            && (forall q: nat | from <= q && OccursAt(source, body, q) :: r.Some? && r.value <= q)
    decreases |source| - from
  {
    if from + |body| <= |source| && !OccursAt(source, body, from) {
      FirstOccurrenceIsFirst(source, body, from + 1);
    }
  }

  /** Where each body is placed: the first occurrence at or after the end of the last one placed. */
  function Placements(source: string, bodies: seq<string>, cursor: nat): seq<Option<nat>>
    decreases |bodies|
  {
    if bodies == [] then []
    else
      var start := FirstOccurrence(source, bodies[0], cursor);
      [start] + Placements(source, bodies[1..], if start.Some? then start.value + |bodies[0]| else cursor)
  }

  /** Where the scan stands before body ``b``: after the last body placed. */
  function CursorBefore(bodies: seq<string>, placed: seq<Option<nat>>, b: nat): nat
    requires b <= |bodies| && b <= |placed|
  {
    if b == 0 then 0
    else if placed[b - 1].Some? then placed[b - 1].value + |bodies[b - 1]|
    else CursorBefore(bodies, placed, b - 1)
  }

  lemma {:induction false} PlacementsFrom(source: string, bodies: seq<string>, b: nat)
    requires b <= |bodies|
    ensures var placed := Placements(source, bodies, 0);
            |placed| == |bodies| && placed[b..] == Placements(source, bodies[b..], CursorBefore(bodies, placed, b))
  {
    var placed := Placements(source, bodies, 0);
    if b == 0 {
      PlacementsLength(source, bodies, 0);
      assert bodies[0..] == bodies && placed[0..] == placed;
    } else {
      PlacementsFrom(source, bodies, b - 1);
      assert bodies[b - 1..][0] == bodies[b - 1] && bodies[b - 1..][1..] == bodies[b..];
      assert placed[b - 1..][0] == placed[b - 1] && placed[b - 1..][1..] == placed[b..];
    }
  }

  lemma {:induction false} PlacementsLength(source: string, bodies: seq<string>, cursor: nat)
    ensures |Placements(source, bodies, cursor)| == |bodies|
    decreases |bodies|
  {
    if bodies != [] {
      var start := FirstOccurrence(source, bodies[0], cursor);
      PlacementsLength(source, bodies[1..], if start.Some? then start.value + |bodies[0]| else cursor);
    }
  }

  /** Each body is placed at its first occurrence after the last one placed before it, and left out exactly
      when it has none there, whatever became of the others. */
  lemma PlacedAtFirst(source: string, bodies: seq<string>, b: nat)
    requires b < |bodies| == |Placements(source, bodies, 0)|
    ensures var placed := Placements(source, bodies, 0);
            var cursor := CursorBefore(bodies, placed, b);
            && (placed[b].None? <==> forall q: nat | q >= cursor :: !OccursAt(source, bodies[b], q))
            && (placed[b].Some? ==>
                  && placed[b].value >= cursor && OccursAt(source, bodies[b], placed[b].value)
                  && forall q: nat | cursor <= q < placed[b].value :: !OccursAt(source, bodies[b], q))
  {
    var placed := Placements(source, bodies, 0);
    PlacementsFrom(source, bodies, b);
    assert placed[b..][0] == placed[b] && bodies[b..][0] == bodies[b];
    FirstOccurrenceIsFirst(source, bodies[b], CursorBefore(bodies, placed, b));
  }

  // ------------------------------------------------------------------ provenance

  /** Where each output character comes from: a source position, or ``None`` for padding. */
  type Origin = seq<Option<nat>>

  /** ``out``, whose characters come from ``origin``, is a faithful reduction of ``source[..upTo]``:
      kept characters are verbatim, in order and on their line, the others are newlines, and no
      newline is lost. */
  ghost predicate Faithful(source: string, upTo: nat, out: string, origin: Origin) {
    && upTo <= |source|
    && |origin| == |out|
    && Newlines(out) == Newlines(source[..upTo])
    && (forall k: nat | k < |out| && origin[k].None? :: out[k] == '\n')
    && (forall k: nat | k < |out| && origin[k].Some? ::
          origin[k].value < upTo && out[k] == source[origin[k].value]
          && LineNumber(out, k) == LineNumber(source, origin[k].value))
    && (forall j: nat, k: nat | j < k < |out| && origin[j].Some? && origin[k].Some? ::
          origin[j].value < origin[k].value)
  }

  /** The origins of ``n`` characters copied from ``start``. */
  function Copied(start: nat, n: nat): (r: Origin)
    ensures |r| == n
  {
    seq(n, j requires 0 <= j < n => Some(start + j))
  }

  function Padding(n: nat): (r: Origin)
    ensures |r| == n
  {
    seq(n, k => None)
  }

  ghost predicate KeptFrom(origin: Origin, o: nat, n: nat, start: nat) {
    o + n <= |origin| && origin[o..o + n] == Copied(start, n)
  }

  /** The output keeps the whole body placed at ``start``. */
  ghost predicate Keeps(origin: Origin, body: string, start: nat) {
    exists o: nat :: KeptFrom(origin, o, |body|, start)
  }

  lemma SplitAt(source: string, a: nat, b: nat)
    requires a <= b <= |source|
    ensures source[..b] == source[..a] + source[a..b]
    ensures Newlines(source[..b]) == Newlines(source[..a]) + Newlines(source[a..b])
  {
    assert source[..b] == source[..a] + source[a..b];
    NewlinesConcat(source[..a], source[a..b]);
  }

  lemma LinesKeptBy(out: string, more: string, k: nat)
    requires k <= |out|
    ensures LineNumber(out + more, k) == LineNumber(out, k)
  {
    assert (out + more)[..k] == out[..k];
  }

  /** Replacing ``source[cursor..to]`` by its newlines alone. */
  lemma PadFaithful(source: string, cursor: nat, to: nat, out: string, origin: Origin)
    requires Faithful(source, cursor, out, origin) && cursor <= to <= |source|
    ensures var n := Newlines(source[cursor..to]);
            Faithful(source, to, out + Blank(n), origin + Padding(n))
  {
    var n := Newlines(source[cursor..to]);
    var longer, origins := out + Blank(n), origin + Padding(n);
    SplitAt(source, cursor, to);
    NewlinesBlank(n);
    NewlinesConcat(out, Blank(n));
    forall k: nat | k < |longer| && origins[k].Some?
      ensures LineNumber(longer, k) == LineNumber(source, origins[k].value)
    {
      assert origins[k] == origin[k];
      LinesKeptBy(out, Blank(n), k);
    }
  }

  lemma AppendedPrefix(a: string, b: string, j: nat)
    requires j <= |b|
    ensures (a + b)[..|a| + j] == a + b[..j]
  {
  }

  lemma OccurrencePrefix(source: string, body: string, start: nat, j: nat)
    requires OccursAt(source, body, start) && j <= |body|
    ensures source[..start + j] == source[..start] + body[..j]
  {
    assert body[..j] == source[start..start + j];
  }

  /** Appending ``body`` to a text with as many newlines as the source before it puts its characters
      on the lines they have in the source. */
  lemma CopiedLine(source: string, cursor: nat, body: string, out: string, j: nat)
    requires OccursAt(source, body, cursor) && j <= |body| && Newlines(out) == Newlines(source[..cursor])
    ensures LineNumber(out + body, |out| + j) == LineNumber(source, cursor + j)
  {
    AppendedPrefix(out, body, j);
    OccurrencePrefix(source, body, cursor, j);
    NewlinesConcat(out, body[..j]);
    NewlinesConcat(source[..cursor], body[..j]);
  }

  /** Copying the body found at the cursor. */
  lemma CopyFaithful(source: string, cursor: nat, body: string, out: string, origin: Origin)
    requires Faithful(source, cursor, out, origin) && OccursAt(source, body, cursor)
    ensures Faithful(source, cursor + |body|, out + body, origin + Copied(cursor, |body|))
  {
    var longer, origins := out + body, origin + Copied(cursor, |body|);
    SplitAt(source, cursor, cursor + |body|);
    NewlinesConcat(out, body);
    forall k: nat | k < |longer| && origins[k].Some?
      ensures longer[k] == source[origins[k].value]
      ensures LineNumber(longer, k) == LineNumber(source, origins[k].value)
    {
      if k < |out| {
        assert origins[k] == origin[k];
        LinesKeptBy(out, body, k);
      } else {
        assert longer[k] == source[cursor..cursor + |body|][k - |out|];
        CopiedLine(source, cursor, body, out, k - |out|);
      }
    }
  }

  lemma KeepsMore(origin: Origin, more: Origin, body: string, start: nat)
    requires Keeps(origin, body, start)
    ensures Keeps(origin + more, body, start)
  {
    var o: nat :| KeptFrom(origin, o, |body|, start);
    assert (origin + more)[o..o + |body|] == origin[o..o + |body|];
    assert KeptFrom(origin + more, o, |body|, start);
  }

  /** Everything placed is kept. */
  ghost predicate AllKept(origin: Origin, bodies: seq<string>, placed: seq<Option<nat>>) {
    |placed| <= |bodies| && forall i | 0 <= i < |placed| && placed[i].Some? :: Keeps(origin, bodies[i], placed[i].value)
  }

  lemma AllKeptMore(origin: Origin, more: Origin, bodies: seq<string>, placed: seq<Option<nat>>)
    requires AllKept(origin, bodies, placed)
    ensures AllKept(origin + more, bodies, placed)
  {
    forall i | 0 <= i < |placed| && placed[i].Some? ensures Keeps(origin + more, bodies[i], placed[i].value) {
      KeepsMore(origin, more, bodies[i], placed[i].value);
    }
  }

  lemma AllKeptNext(origin: Origin, bodies: seq<string>, placed: seq<Option<nat>>, start: nat)
    requires |placed| < |bodies| && AllKept(origin, bodies, placed)
    ensures AllKept(origin + Copied(start, |bodies[|placed|]|), bodies, placed + [Some(start)])
  {
    var n := |bodies[|placed|]|;
    var longer := origin + Copied(start, n);
    AllKeptMore(origin, Copied(start, n), bodies, placed);
    assert longer[|origin|..|origin| + n] == Copied(start, n);
    assert KeptFrom(longer, |origin|, n, start);
  }

  /** The state of the splice before body ``b``. */
  ghost predicate Spliced(source: string, bodies: seq<string>, b: nat, cursor: nat, out: string, origin: Origin,
                          placed: seq<Option<nat>>)
  {
    && b == |placed| <= |bodies|
    && Faithful(source, cursor, out, origin)
    && AllKept(origin, bodies, placed)
    && Placements(source, bodies, 0) == placed + Placements(source, bodies[b..], cursor)
  }

  lemma SkipBody(source: string, bodies: seq<string>, b: nat, cursor: nat, out: string, origin: Origin,
                 placed: seq<Option<nat>>)
    requires b < |bodies| && Spliced(source, bodies, b, cursor, out, origin, placed)
    requires FirstOccurrence(source, bodies[b], cursor).None?
    ensures Spliced(source, bodies, b + 1, cursor, out, origin, placed + [None])
  {
    assert bodies[b..][0] == bodies[b] && bodies[b..][1..] == bodies[b + 1..];
  }

  lemma PlaceBody(source: string, bodies: seq<string>, b: nat, cursor: nat, out: string, origin: Origin,
                  placed: seq<Option<nat>>, start: nat)
    requires b < |bodies| && Spliced(source, bodies, b, cursor, out, origin, placed)
    requires FirstOccurrence(source, bodies[b], cursor) == Some(start)
    ensures cursor <= start <= |source|
    ensures var gap := Newlines(source[cursor..start]);
            Spliced(source, bodies, b + 1, start + |bodies[b]|, out + Blank(gap) + bodies[b],
                    origin + Padding(gap) + Copied(start, |bodies[b]|), placed + [Some(start)])
  {
    FirstOccurrenceIsFirst(source, bodies[b], cursor);
    var gap := Newlines(source[cursor..start]);
    assert bodies[b..][0] == bodies[b] && bodies[b..][1..] == bodies[b + 1..];
    PadFaithful(source, cursor, start, out, origin);
    CopyFaithful(source, start, bodies[b], out + Blank(gap), origin + Padding(gap));
    AllKeptMore(origin, Padding(gap), bodies, placed);
    AllKeptNext(origin + Padding(gap), bodies, placed, start);
  }

  /** The source's forward splice.  The ghost result says where every output character comes from. */
  method MaskNonScript(source: string, bodies: seq<string>) returns (out: string, ghost origin: Origin)
    ensures Faithful(source, |source|, out, origin)
    ensures AllKept(origin, bodies, Placements(source, bodies, 0)) && |Placements(source, bodies, 0)| == |bodies|
    ensures Newlines(out) == Newlines(source)
  {
    out, origin := "", [];
    var cursor: nat := 0;
    ghost var placed: seq<Option<nat>> := [];
    assert bodies[0..] == bodies && placed + Placements(source, bodies, 0) == Placements(source, bodies, 0);
    for b := 0 to |bodies|
      invariant Spliced(source, bodies, b, cursor, out, origin, placed)
    {
      var start := Find(source, bodies[b], cursor);
      if start.None? {
        SkipBody(source, bodies, b, cursor, out, origin, placed);
        placed := placed + [None];
        continue;
      }
      PlaceBody(source, bodies, b, cursor, out, origin, placed, start.value);
      var gap := Newlines(source[cursor..start.value]);
      out := out + Blank(gap);
      out := out + bodies[b];
      origin := origin + Padding(gap) + Copied(start.value, |bodies[b]|);
      placed := placed + [start];
      cursor := start.value + |bodies[b]|;
    }
    assert placed + Placements(source, bodies[|bodies|..], cursor) == placed;
    assert source[..|source|] == source && source[cursor..|source|] == source[cursor..];
    PadFaithful(source, cursor, |source|, out, origin);
    AllKeptMore(origin, Padding(Newlines(source[cursor..])), bodies, placed);
    out := out + Blank(Newlines(source[cursor..]));
    origin := origin + Padding(Newlines(source[cursor..]));
  }

  // ------------------------------------------------------------------ the greedy scan is complete

  /** Some way of placing the non-empty bodies in order without overlap, from ``cursor`` on. */
  ghost predicate Fits(source: string, bodies: seq<string>, cursor: nat, at: seq<nat>)
    decreases |bodies|
  {
    && |at| == |bodies|
    && (bodies == [] || (
          if bodies[0] == "" then Fits(source, bodies[1..], cursor, at[1..])
          else cursor <= at[0] && OccursAt(source, bodies[0], at[0])
               && Fits(source, bodies[1..], at[0] + |bodies[0]|, at[1..])))
  }

  ghost predicate AllPlaced(placed: seq<Option<nat>>) { forall i | 0 <= i < |placed| :: placed[i].Some? }

  lemma {:induction false} FitsEarlier(source: string, bodies: seq<string>, cursor: nat, earlier: nat, at: seq<nat>)
    requires Fits(source, bodies, cursor, at) && earlier <= cursor
    ensures Fits(source, bodies, earlier, at)
    decreases |bodies|
  {
    if bodies != [] && bodies[0] == "" {
      FitsEarlier(source, bodies[1..], cursor, earlier, at[1..]);
    }
  }

  /** If the non-empty bodies can be placed in order without overlap at all, the greedy scan places
      every body. */
  lemma {:induction false} GreedyPlacesAll(source: string, bodies: seq<string>, cursor: nat, at: seq<nat>)
    requires cursor <= |source| && Fits(source, bodies, cursor, at)
    ensures AllPlaced(Placements(source, bodies, cursor))
    decreases |bodies|
  {
    if bodies != [] {
      var body := bodies[0];
      var start := FirstOccurrence(source, body, cursor);
      FirstOccurrenceIsFirst(source, body, cursor);
      if body == "" {
        assert OccursAt(source, body, cursor);
        GreedyPlacesAll(source, bodies[1..], cursor, at[1..]);
      } else {
        FitsEarlier(source, bodies[1..], at[0] + |body|, start.value + |body|, at[1..]);
        GreedyPlacesAll(source, bodies[1..], start.value + |body|, at[1..]);
      }
    }
  }

  /** The positions of a successful greedy scan. */
  ghost function Positions(placed: seq<Option<nat>>): (at: seq<nat>)
    requires AllPlaced(placed)
    ensures |at| == |placed|
  {
    seq(|placed|, i requires 0 <= i < |placed| => placed[i].value)
  }

  /** And conversely what the scan places is such a placement: it finds everything exactly when it
      can all be found. */
  lemma {:induction false} GreedyFits(source: string, bodies: seq<string>, cursor: nat)
    requires cursor <= |source|
    requires AllPlaced(Placements(source, bodies, cursor))
    ensures Fits(source, bodies, cursor, Positions(Placements(source, bodies, cursor)))
    decreases |bodies|
  {
    if bodies != [] {
      var placed := Placements(source, bodies, cursor);
      var start := FirstOccurrence(source, bodies[0], cursor);
      FirstOccurrenceIsFirst(source, bodies[0], cursor);
      assert placed[0] == start;
      var next := start.value + |bodies[0]|;
      assert placed[1..] == Placements(source, bodies[1..], next);
      GreedyFits(source, bodies[1..], next);
      assert Positions(placed)[1..] == Positions(placed[1..]);
      if bodies[0] == "" {
        FitsEarlier(source, bodies[1..], next, cursor, Positions(placed)[1..]);
      }
    }
  }

  /** Whether the non-empty bodies can be placed at all. */
  ghost predicate Placeable(source: string, bodies: seq<string>) {
    exists at :: Fits(source, bodies, 0, at)
  }

  lemma GreedyComplete(source: string, bodies: seq<string>)
    ensures Placeable(source, bodies) <==> AllPlaced(Placements(source, bodies, 0))
  {
    if Placeable(source, bodies) {
      var at :| Fits(source, bodies, 0, at);
      GreedyPlacesAll(source, bodies, 0, at);
    }
    if AllPlaced(Placements(source, bodies, 0)) {
      GreedyFits(source, bodies, 0);
      var at := Positions(Placements(source, bodies, 0));
      assert Fits(source, bodies, 0, at);
    }
  }
}
