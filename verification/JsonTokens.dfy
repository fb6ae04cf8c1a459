/**
 The lexical grammar behind the comment stripper: a text is a sequence of string literals (section 7 of
 RFC 8259), comments and other characters, and stripping blanks the comments among them and keeps the
 rest (``_strip_json_comments``, app/inspector.py).
 */
module JsonTokens {
  import opened Sequences
  import opened JsonComments

  // ------------------------------------------------------------------ the grammar

  /** One character of a literal as it is spelled: itself, or a backslash and any character. */
  datatype Unit = Char(c: char) | Escaped(c: char)

  /** A literal or block comment may be cut off by the end of the text, a literal also just after a
      backslash. */
  datatype Ending = Closed | Cut | CutInEscape

  datatype Token =
    | Plain(c: char)
    | Literal(units: seq<Unit>, ending: Ending)
    | LineComment(body: string)
    | BlockComment(body: string, closed: bool)

  function SpelledUnit(unit: Unit): string {
    match unit
    case Char(c) => [c]
    case Escaped(c) => ['\\', c]
  }

  function SpelledUnits(units: seq<Unit>): string {
    if units == [] then "" else SpelledUnit(units[0]) + SpelledUnits(units[1..])
  }

  function SpelledEnding(ending: Ending): string {
    match ending
    case Closed => "\""
    case Cut => ""
    case CutInEscape => "\\"
  }

  function Spelled(token: Token): string {
    match token
    case Plain(c) => [c]
    case Literal(units, ending) => "\"" + (SpelledUnits(units) + SpelledEnding(ending))
    case LineComment(body) => "//" + body
    case BlockComment(body, closed) => "/*" + Closing(body, closed)
  }

  function Concat(parts: seq<string>): string {
    if parts == [] then "" else parts[0] + Concat(parts[1..])
  }

  function Text(tokens: seq<Token>): string {
    Concat(seq(|tokens|, k requires 0 <= k < |tokens| => Spelled(tokens[k])))
  }

  /** Inside a literal only escapes hold a quote or a backslash. */
  predicate FitsUnit(unit: Unit) { unit.Char? ==> unit.c != '"' && unit.c != '\\' }

  predicate FitsUnits(units: seq<Unit>) { forall k | 0 <= k < |units| :: FitsUnit(units[k]) }

  /** The token ends where ``rest`` begins: a line comment before a newline, a block comment after its first
      closer, and a slash that is no comment is followed by neither a slash nor a star. */
  predicate Fits(token: Token, rest: string) {
    match token
    case Plain(c) => c != '"' && !(c == '/' && rest != "" && (rest[0] == '/' || rest[0] == '*'))
    case Literal(units, ending) => FitsUnits(units) && (ending != Closed ==> rest == "")
    case LineComment(body) => '\n' !in body && (rest != "" ==> rest[0] == '\n')
    case BlockComment(body, closed) =>
      NoCloserBefore(Closing(body, closed), |body|) && (!closed ==> rest == "")
  }

  function Closing(body: string, closed: bool): string { if closed then body + "*/" else body }

  predicate NoCloserBefore(all: string, n: nat) { forall k: nat | k < n :: !PairAt(all, k, '*', '/') }

  predicate WellFormed(tokens: seq<Token>) {
    tokens == [] || (Fits(tokens[0], Text(tokens[1..])) && WellFormed(tokens[1..]))
  }

  /** Comment characters other than newlines become spaces, everything else is kept. */
  function Kept(token: Token): string {
    if token.LineComment? || token.BlockComment? then
      seq(|Spelled(token)|, k requires 0 <= k < |Spelled(token)| => if Spelled(token)[k] == '\n' then '\n' else ' ')
    else Spelled(token)
  }

  function KeptAll(tokens: seq<Token>): string {
    Concat(seq(|tokens|, k requires 0 <= k < |tokens| => Kept(tokens[k])))
  }

  lemma TextOfFirst(tokens: seq<Token>)
    requires tokens != []
    ensures Text(tokens) == Spelled(tokens[0]) + Text(tokens[1..])
  {
    var parts := seq(|tokens|, k requires 0 <= k < |tokens| => Spelled(tokens[k]));
    assert parts[1..] == seq(|tokens[1..]|, k requires 0 <= k < |tokens[1..]| => Spelled(tokens[1..][k]));
  }

  lemma {:induction false} WellFormedFrom(tokens: seq<Token>, k: nat)
    requires WellFormed(tokens) && k < |tokens|
    ensures Fits(tokens[k], Text(tokens[k + 1..]))
    decreases k
  {
    if k > 0 {
      WellFormedFrom(tokens[1..], k - 1);
      assert tokens[1..][k..] == tokens[k + 1..];
    }
  }

  // ------------------------------------------------------------------ every text follows the grammar

  lemma {:induction false} SplitLiteral(text: string) returns (units: seq<Unit>, ending: Ending, rest: string)
    ensures text == SpelledUnits(units) + SpelledEnding(ending) + rest
    ensures FitsUnits(units) && (ending != Closed ==> rest == "")
    decreases |text|
  {
    if text == "" {
      return [], Cut, "";
    } else if text[0] == '"' {
      return [], Closed, text[1..];
    } else if text == "\\" {
      return [], CutInEscape, "";
    }
    var unit := if text[0] == '\\' then Escaped(text[1]) else Char(text[0]);
    var n := |SpelledUnit(unit)|;
    var more;
    more, ending, rest := SplitLiteral(text[n..]);
    units := [unit] + more;
    EmptyIsNeutral(more);
    AppendToTail([unit], more);
    assert text == SpelledUnit(unit) + text[n..];
    AppendAssociates(SpelledUnit(unit), SpelledUnits(more), SpelledEnding(ending));
    AppendAssociates(SpelledUnit(unit), SpelledUnits(more) + SpelledEnding(ending), rest);
  }

  lemma {:induction false} SplitLine(text: string) returns (body: string, rest: string)
    ensures text == body + rest && '\n' !in body && (rest != "" ==> rest[0] == '\n')
  {
    if text == "" || text[0] == '\n' {
      return "", text;
    }
    body, rest := SplitLine(text[1..]);
    body := [text[0]] + body;
  }

  /** Up to the first closer, if there is one. */
  lemma {:induction false} SplitBlock(text: string) returns (body: string, closed: bool, rest: string)
    ensures text == Closing(body, closed) + rest && Fits(BlockComment(body, closed), rest)
  {
    if text == "" {
      return "", false, "";
    } else if PairAt(text, 0, '*', '/') {
      return "", true, text[2..];
    }
    var more;
    more, closed, rest := SplitBlock(text[1..]);
    body := [text[0]] + more;
    var all, tail := Closing(body, closed), Closing(more, closed);
    assert all == [text[0]] + tail && text[1..] == tail + rest;
    forall k: nat | k < |body| ensures !PairAt(all, k, '*', '/') {
      if k > 0 {
        assert all[k] == tail[k - 1] && (k + 1 < |all| ==> all[k + 1] == tail[k]);
        assert !PairAt(tail, k - 1, '*', '/');
      } else if |all| > 1 {
        assert all[1] == tail[0] == text[1..][0];
      }
    }
  }

  lemma FirstToken(text: string) returns (token: Token, rest: string)
    requires text != ""
    ensures text == Spelled(token) + rest && Fits(token, rest) && |rest| < |text|
  {
    if text[0] == '"' {
      var units, ending;
      units, ending, rest := SplitLiteral(text[1..]);
      token := Literal(units, ending);
    } else if PairAt(text, 0, '/', '/') {
      var body;
      body, rest := SplitLine(text[2..]);
      token := LineComment(body);
    } else if PairAt(text, 0, '/', '*') {
      var body, closed;
      body, closed, rest := SplitBlock(text[2..]);
      token := BlockComment(body, closed);
    } else {
      token, rest := Plain(text[0]), text[1..];
    }
  }

  /** Every text, however malformed, is spelled by well-formed tokens. */
  lemma {:induction false} EveryTextHasTokens(text: string) returns (tokens: seq<Token>)
    ensures WellFormed(tokens) && Text(tokens) == text
    decreases |text|
  {
    if text == "" {
      return [];
    }
    var token, rest := FirstToken(text);
    var more := EveryTextHasTokens(rest);
    tokens := [token] + more;
    assert tokens[1..] == more;
    TextOfFirst(tokens);
  }

  // ------------------------------------------------------------------ the stripper follows it too

  /** The text goes on with ``part`` at ``i``. */
  ghost predicate HasAt(text: string, i: nat, part: string) {
    i + |part| <= |text| && forall k | 0 <= k < |part| :: text[i + k] == part[k]
  }

  lemma HasBoth(text: string, i: nat, a: string, b: string)
    ensures HasAt(text, i, a + b) <==> HasAt(text, i, a) && HasAt(text, i + |a|, b)
  {
    if HasAt(text, i, a + b) {
      forall k | 0 <= k < |b| ensures text[i + |a| + k] == b[k] {
        assert text[i + (|a| + k)] == (a + b)[|a| + k];
      }
      forall k | 0 <= k < |a| ensures text[i + k] == a[k] {
        assert text[i + k] == (a + b)[k];
      }
    }
    if HasAt(text, i, a) && HasAt(text, i + |a|, b) {
      forall k | 0 <= k < |a + b| ensures text[i + k] == (a + b)[k] {
        assert k >= |a| ==> text[i + |a| + (k - |a|)] == b[k - |a|];
      }
    }
  }

  // ------------------------------------------------------------------ one token at a position

  /** A literal stands at ``i``; one that is cut off reaches the end of the text. */
  ghost predicate LiteralAt(text: string, i: nat, units: seq<Unit>, ending: Ending) {
    && i < |text| && FitsUnits(units) && HasAt(text, i, Spelled(Literal(units, ending)))
    && (ending != Closed ==> i + |Spelled(Literal(units, ending))| == |text|)
  }

  /** A line comment stands between ``i`` and ``end``, where a newline or the end of the text follows. */
  ghost predicate LineAt(text: string, i: nat, end: nat) {
    && i + 2 <= end <= |text| && PairAt(text, i, '/', '/')
    && (forall j | i <= j < end :: text[j] != '\n') && (end < |text| ==> text[end] == '\n')
  }

  /** A block comment stands at ``i``, with its first closer at ``closer`` if that is not the end. */
  ghost predicate BlockAt(text: string, i: nat, closer: nat) {
    && i + 2 <= closer <= |text| && PairAt(text, i, '/', '*')
    && (forall k: nat | i + 2 <= k < closer :: !PairAt(text, k, '*', '/'))
    && (closer < |text| ==> PairAt(text, closer, '*', '/'))
  }

  function BlockEnd(text: string, closer: nat): nat { if closer < |text| then closer + 2 else closer }

  ghost predicate Blanked(text: string, out: string, i: nat, end: nat) {
    end <= |text| == |out| && forall j | i <= j < end :: out[j] == if text[j] == '\n' then '\n' else ' '
  }

  /** ``out`` treats every token that starts where ``code`` holds as it should be treated, and ``code`` holds
      right after it. */
  ghost predicate Scans(text: string, out: string, code: nat -> bool) {
    && |out| == |text| && ScansPlain(text, out, code) && ScansLiterals(text, out, code)
    && ScansLines(text, out, code) && ScansBlocks(text, out, code)
  }

  ghost predicate ScansPlain(text: string, out: string, code: nat -> bool)
    requires |out| == |text|
  {
    forall i: nat {:trigger OpenerAt(text, i)} | i < |text| && code(i) && text[i] != '"' && !OpenerAt(text, i) ::
      out[i] == text[i] && code(i + 1)
  }

  ghost predicate ScansLiterals(text: string, out: string, code: nat -> bool) {
    forall i: nat, units, ending | code(i) && LiteralAt(text, i, units, ending) ::
      HasAt(out, i, Spelled(Literal(units, ending))) && code(i + |Spelled(Literal(units, ending))|)
  }

  ghost predicate ScansLines(text: string, out: string, code: nat -> bool) {
    forall i: nat, end: nat | code(i) && LineAt(text, i, end) :: Blanked(text, out, i, end) && code(end)
  }

  ghost predicate ScansBlocks(text: string, out: string, code: nat -> bool) {
    forall i: nat, closer: nat | code(i) && BlockAt(text, i, closer) ::
      Blanked(text, out, i, BlockEnd(text, closer)) && code(BlockEnd(text, closer))
  }

  lemma PlainStripped(text: string, out: string, code: nat -> bool, i: nat, c: char, rest: string)
    requires |out| == |text| && ScansPlain(text, out, code) && code(i) && Fits(Plain(c), rest)
    requires HasAt(text, i, [c]) && i + 1 + |rest| == |text| && (rest != "" ==> text[i + 1] == rest[0])
    ensures HasAt(out, i, [c]) && code(i + 1)
  {
    assert text[i + 0] == [c][0];
    assert !OpenerAt(text, i);
  }

  lemma LiteralStripped(text: string, out: string, code: nat -> bool, i: nat, units: seq<Unit>, ending: Ending,
                        rest: string)
    requires ScansLiterals(text, out, code) && i < |text| && code(i) && Fits(Literal(units, ending), rest)
    requires HasAt(text, i, Spelled(Literal(units, ending))) && i + |Spelled(Literal(units, ending))| + |rest| == |text|
    ensures HasAt(out, i, Spelled(Literal(units, ending))) && code(i + |Spelled(Literal(units, ending))|)
  {
    assert LiteralAt(text, i, units, ending);
  }

  lemma BlockStripped(text: string, out: string, code: nat -> bool, i: nat, body: string, closed: bool, rest: string)
    requires |out| == |text| && ScansBlocks(text, out, code) && i < |text| && code(i)
    requires Fits(BlockComment(body, closed), rest) && HasAt(text, i, Spelled(BlockComment(body, closed)))
    requires i + |Spelled(BlockComment(body, closed))| + |rest| == |text|
    ensures HasAt(out, i, Kept(BlockComment(body, closed))) && code(i + |Spelled(BlockComment(body, closed))|)
  {
    BlockSpelledAt(text, i, body, closed);
    BlankedIsKept(text, out, i, BlockComment(body, closed));
  }

  lemma LineStripped(text: string, out: string, code: nat -> bool, i: nat, body: string, rest: string)
    requires |out| == |text| && ScansLines(text, out, code) && i < |text| && code(i)
    requires Fits(LineComment(body), rest) && HasAt(text, i, Spelled(LineComment(body)))
    requires i + |Spelled(LineComment(body))| + |rest| == |text|
    requires rest != "" ==> text[i + |Spelled(LineComment(body))|] == rest[0]
    ensures HasAt(out, i, Kept(LineComment(body))) && code(i + |Spelled(LineComment(body))|)
  {
    var end := i + 2 + |body|;
    HasBoth(text, i, "//", body);
    assert text[i + 0] == "//"[0] && text[i + 1] == "//"[1];
    forall j | i <= j < end ensures text[j] != '\n' {
      assert j >= i + 2 ==> text[i + 2 + (j - i - 2)] == body[j - i - 2];
    }
    assert LineAt(text, i, end);
    BlankedIsKept(text, out, i, LineComment(body));
  }

  /** Blanking a comment position by position is blanking its spelling. */
  lemma BlankedIsKept(text: string, out: string, i: nat, token: Token)
    requires token.LineComment? || token.BlockComment?
    requires HasAt(text, i, Spelled(token)) && Blanked(text, out, i, i + |Spelled(token)|)
    ensures HasAt(out, i, Kept(token))
  {
    forall k | 0 <= k < |Spelled(token)| ensures out[i + k] == Kept(token)[k] {
      assert text[i + k] == Spelled(token)[k];
    }
  }

  lemma BlockSpelledAt(text: string, i: nat, body: string, closed: bool)
    requires i < |text| && HasAt(text, i, "/*" + Closing(body, closed))
    requires NoCloserBefore(Closing(body, closed), |body|)
    requires !closed ==> i + 2 + |body| == |text|
    ensures BlockAt(text, i, i + 2 + |body|) && BlockEnd(text, i + 2 + |body|) == i + 2 + |Closing(body, closed)|
  {
    var all, closer := Closing(body, closed), i + 2 + |body|;
    HasBoth(text, i, "/*", all);
    assert text[i + 0] == "/*"[0] && text[i + 1] == "/*"[1];
    forall k: nat | i + 2 <= k < closer ensures !PairAt(text, k, '*', '/') {
      var m := k - i - 2;
      assert !PairAt(all, m, '*', '/');
      assert text[i + 2 + m] == all[m] && (m + 1 < |all| ==> text[i + 2 + (m + 1)] == all[m + 1]);
    }
    if closed {
      assert text[i + 2 + |body|] == all[|body|] && text[i + 2 + (|body| + 1)] == all[|body| + 1];
    }
  }

  lemma KeptLength(token: Token)
    ensures |Kept(token)| == |Spelled(token)|
  {
  }

  /** The token stands at ``i``, where there is code, and ``rest`` follows it up to the end. */
  ghost predicate TokenAt(text: string, code: nat -> bool, i: nat, token: Token, rest: string) {
    && i < |text| && code(i) && Fits(token, rest)
    && HasAt(text, i, Spelled(token)) && i + |Spelled(token)| + |rest| == |text|
    && (rest != "" ==> text[i + |Spelled(token)|] == rest[0])
  }

  /** The token is kept or blanked as it should be, and code goes on after it. */
  ghost predicate TokenDone(out: string, code: nat -> bool, i: nat, token: Token) {
    HasAt(out, i, Kept(token)) && code(i + |Spelled(token)|)
  }

  lemma PlainDone(text: string, out: string, code: nat -> bool, i: nat, token: Token, rest: string)
    requires |out| == |text| && ScansPlain(text, out, code) && TokenAt(text, code, i, token, rest) && token.Plain?
    ensures TokenDone(out, code, i, token)
  {
    PlainStripped(text, out, code, i, token.c, rest);
  }

  lemma LiteralDone(text: string, out: string, code: nat -> bool, i: nat, token: Token, rest: string)
    requires ScansLiterals(text, out, code) && TokenAt(text, code, i, token, rest) && token.Literal?
    ensures TokenDone(out, code, i, token)
  {
    LiteralStripped(text, out, code, i, token.units, token.ending, rest);
  }

  lemma LineDone(text: string, out: string, code: nat -> bool, i: nat, token: Token, rest: string)
    requires |out| == |text| && ScansLines(text, out, code) && TokenAt(text, code, i, token, rest) && token.LineComment?
    ensures TokenDone(out, code, i, token)
  {
    LineStripped(text, out, code, i, token.body, rest);
  }

  lemma BlockDone(text: string, out: string, code: nat -> bool, i: nat, token: Token, rest: string)
    requires |out| == |text| && ScansBlocks(text, out, code) && TokenAt(text, code, i, token, rest)
    requires token.BlockComment?
    ensures TokenDone(out, code, i, token)
  {
    BlockStripped(text, out, code, i, token.body, token.closed, rest);
  }

  lemma SlicesHaveAt(text: string, i: nat, part: string)
    ensures HasAt(text, i, part) <==> i + |part| <= |text| && text[i..i + |part|] == part
  {
    if i + |part| <= |text| && text[i..i + |part|] == part {
      forall k | 0 <= k < |part| ensures text[i + k] == part[k] {
        assert text[i..i + |part|][k] == part[k];
      }
    }
  }

  /** Part ``part`` of the text, at ``i``, comes out as ``kept``, and code goes on after it. */
  ghost predicate Treated(out: string, code: nat -> bool, i: nat, part: string, kept: string) {
    i + |part| <= |out| && out[i..i + |part|] == kept && code(i + |part|)
  }

  lemma NextToken(text: string, out: string, code: nat -> bool, i: nat, token: Token, rest: string)
    requires Scans(text, out, code) && code(i) && Fits(token, rest)
    requires i <= |text| && text[i..] == Spelled(token) + rest
    ensures Treated(out, code, i, Spelled(token), Kept(token))
  {
    PrefixOfTail(text, i, Spelled(token), rest);
    SlicesHaveAt(text, i, Spelled(token));
    assert rest != "" ==> text[i + |Spelled(token)|..][0] == rest[0];
    assert TokenAt(text, code, i, token, rest);
    if token.Plain? {
      PlainDone(text, out, code, i, token, rest);
    } else if token.Literal? {
      LiteralDone(text, out, code, i, token, rest);
    } else if token.LineComment? {
      LineDone(text, out, code, i, token, rest);
    } else {
      BlockDone(text, out, code, i, token, rest);
    }
    KeptLength(token);
    SlicesHaveAt(out, i, Kept(token));
  }

  /** Wherever the rest of the text is the parts from ``k`` on, part ``k`` is treated. */
  ghost predicate AllTreated(text: string, out: string, code: nat -> bool, parts: seq<string>, kept: seq<string>)
    requires |parts| == |kept|
  {
    forall j: nat, k: nat {:trigger Treated(out, code, j, parts[k], kept[k])} |
      k < |parts| && j <= |text| && code(j) && text[j..] == Concat(parts[k..]) ::
        Treated(out, code, j, parts[k], kept[k])
  }

  lemma AllTreatedNext(text: string, out: string, code: nat -> bool, parts: seq<string>, kept: seq<string>)
    requires |parts| == |kept| > 0 && AllTreated(text, out, code, parts, kept)
    ensures AllTreated(text, out, code, parts[1..], kept[1..])
  {
    forall j: nat, k: nat | k < |parts[1..]| && j <= |text| && code(j) && text[j..] == Concat(parts[1..][k..])
      ensures Treated(out, code, j, parts[1..][k], kept[1..][k])
    {
      assert parts[1..][k..] == parts[k + 1..];
      assert Treated(out, code, j, parts[k + 1], kept[k + 1]);
    }
  }

  /** Parts that are treated one after the other come out joined. */
  lemma {:induction false} Joined(text: string, out: string, code: nat -> bool, i: nat, parts: seq<string>,
                                  kept: seq<string>)
    requires |parts| == |kept| && |out| == |text| && i <= |text| && text[i..] == Concat(parts) && code(i)
    requires AllTreated(text, out, code, parts, kept)
    ensures out[i..] == Concat(kept)
    decreases |parts|
  {
    if parts != [] {
      assert parts[0..] == parts;
      assert Treated(out, code, i, parts[0], kept[0]);
      PrefixOfTail(text, i, parts[0], Concat(parts[1..]));
      AllTreatedNext(text, out, code, parts, kept);
      Joined(text, out, code, i + |parts[0]|, parts[1..], kept[1..]);
      SplitTail(out, i, |parts[0]|);
    }
  }

  // ------------------------------------------------------------------ the stripper scans this way

  lemma UnitModes(text: string, i: nat, unit: Unit)
    requires FitsUnit(unit) && HasAt(text, i, SpelledUnit(unit)) && ModeAt(text, i) == Str
    ensures ModeAt(text, i + |SpelledUnit(unit)|) == Str
    ensures forall j | i <= j < i + |SpelledUnit(unit)| :: ModeAt(text, j).Text()
  {
    assert text[i + 0] == SpelledUnit(unit)[0];
    if unit.Escaped? {
      assert text[i + 1] == SpelledUnit(unit)[1];
      assert ModeAt(text, i + 1) == Escape;
    }
  }

  lemma {:induction false} LiteralModes(text: string, i: nat, units: seq<Unit>)
    requires FitsUnits(units) && HasAt(text, i, SpelledUnits(units)) && i <= |text| && ModeAt(text, i) == Str
    ensures ModeAt(text, i + |SpelledUnits(units)|) == Str
    ensures forall j | i <= j < i + |SpelledUnits(units)| :: ModeAt(text, j).Text()
    decreases |units|
  {
    if units != [] {
      var first := SpelledUnit(units[0]);
      assert FitsUnit(units[0]);
      HasBoth(text, i, first, SpelledUnits(units[1..]));
      UnitModes(text, i, units[0]);
      LiteralModes(text, i + |first|, units[1..]);
    }
  }

  lemma QuoteOpens(text: string, i: nat)
    requires i < |text| && ModeAt(text, i) == Code && text[i] == '"'
    ensures Stripped(text)[i] == text[i] && ModeAt(text, i + 1) == Str
  {
  }

  lemma UnitsKept(text: string, i: nat, units: seq<Unit>)
    requires FitsUnits(units) && HasAt(text, i, SpelledUnits(units)) && i <= |text| && ModeAt(text, i) == Str
    ensures HasAt(Stripped(text), i, SpelledUnits(units)) && ModeAt(text, i + |SpelledUnits(units)|) == Str
  {
    LiteralModes(text, i, units);
    var inner := SpelledUnits(units);
    forall k | 0 <= k < |inner| ensures Stripped(text)[i + k] == inner[k] {
      assert ModeAt(text, i + k).Text();
    }
  }

  lemma EndingKept(text: string, i: nat, ending: Ending)
    requires i <= |text| && ModeAt(text, i) == Str && HasAt(text, i, SpelledEnding(ending))
    ensures HasAt(Stripped(text), i, SpelledEnding(ending))
    ensures ending == Closed ==> ModeAt(text, i + 1) == Code
  {
    if ending != Cut {
      assert text[i + 0] == SpelledEnding(ending)[0];
    }
  }

  /** The quote and the units, up to ``end``. */
  lemma BodyKept(text: string, i: nat, units: seq<Unit>, end: nat)
    requires i < |text| && ModeAt(text, i) == Code && text[i] == '"' && FitsUnits(units)
    requires end == i + 1 + |SpelledUnits(units)| && HasAt(text, i + 1, SpelledUnits(units))
    ensures Stripped(text)[i] == '"' && HasAt(Stripped(text), i + 1, SpelledUnits(units))
    ensures end <= |text| && ModeAt(text, end) == Str
  {
    QuoteOpens(text, i);
    UnitsKept(text, i + 1, units);
  }

  lemma PartsKept(text: string, i: nat, units: seq<Unit>, ending: Ending)
    requires i < |text| && ModeAt(text, i) == Code && FitsUnits(units) && text[i] == '"'
    requires HasAt(text, i + 1, SpelledUnits(units))
    requires HasAt(text, i + 1 + |SpelledUnits(units)|, SpelledEnding(ending))
    ensures Stripped(text)[i] == '"' && HasAt(Stripped(text), i + 1, SpelledUnits(units))
    ensures HasAt(Stripped(text), i + 1 + |SpelledUnits(units)|, SpelledEnding(ending))
  {
    BodyKept(text, i, units, i + 1 + |SpelledUnits(units)|);
    EndingKept(text, i + 1 + |SpelledUnits(units)|, ending);
  }

  lemma LiteralKept(text: string, i: nat, units: seq<Unit>, ending: Ending)
    requires i < |text| && ModeAt(text, i) == Code && FitsUnits(units)
    requires HasAt(text, i, "\"" + (SpelledUnits(units) + SpelledEnding(ending)))
    ensures HasAt(Stripped(text), i, "\"" + (SpelledUnits(units) + SpelledEnding(ending)))
  {
    ThreeParts(text, i, SpelledUnits(units), SpelledEnding(ending));
    PartsKept(text, i, units, ending);
    ThreeParts(Stripped(text), i, SpelledUnits(units), SpelledEnding(ending));
  }

  lemma CodeAfterLiteral(text: string, i: nat, units: seq<Unit>, end: nat)
    requires i < |text| && ModeAt(text, i) == Code && FitsUnits(units) && end == i + 1 + |SpelledUnits(units)|
    requires HasAt(text, i, "\"" + (SpelledUnits(units) + SpelledEnding(Closed)))
    ensures end < |text| && ModeAt(text, end + 1) == Code
  {
    ThreeParts(text, i, SpelledUnits(units), SpelledEnding(Closed));
    BodyKept(text, i, units, end);
    EndingKept(text, end, Closed);
  }

  lemma ThreeParts(text: string, i: nat, inner: string, closing: string)
    ensures HasAt(text, i, "\"" + (inner + closing)) <==>
            && i < |text| && text[i] == '"' && HasAt(text, i + 1, inner) && HasAt(text, i + 1 + |inner|, closing)
  {
    HasBoth(text, i, "\"", inner + closing);
    HasBoth(text, i + 1, inner, closing);
    assert HasAt(text, i, "\"") ==> text[i + 0] == "\""[0];
  }

  lemma PlainKept(text: string, i: nat)
    requires i < |text| && ModeAt(text, i) == Code && text[i] != '"' && !OpenerAt(text, i)
    ensures Stripped(text)[i] == text[i] && ModeAt(text, i + 1) == Code
  {
  }

  lemma LineBlanked(text: string, i: nat, end: nat)
    requires i < |text| && ModeAt(text, i) == Code && LineAt(text, i, end)
    ensures Blanked(text, Stripped(text), i, end)
    ensures end < |text| ==> ModeAt(text, end) == Code
  {
    forall j | i < j < |text| && j <= end ensures ModeAt(text, j) == if text[j] == '\n' then Code else Line {
      LineExtends(text, i, j);
    }
  }

  lemma BlockBlanked(text: string, i: nat, closer: nat)
    requires i < |text| && ModeAt(text, i) == Code && BlockAt(text, i, closer)
    ensures Blanked(text, Stripped(text), i, BlockEnd(text, closer))
    ensures closer < |text| ==> ModeAt(text, closer + 2) == Code
  {
    forall j | i <= j < BlockEnd(text, closer) ensures InComment(text, j) {
      BlockCovers(text, i, j, closer);
    }
    if closer < |text| {
      BlockCovers(text, i, closer + 1, closer);
    }
  }

  /** Where the stripper is in code, the end of the text included. */
  function CodeOf(text: string): nat -> bool {
    (i: nat) => i <= |text| && (i < |text| ==> ModeAt(text, i) == Code)
  }

  lemma StripScansPlain(text: string)
    ensures ScansPlain(text, Stripped(text), CodeOf(text))
  {
    var code := CodeOf(text);
    forall i: nat {:trigger OpenerAt(text, i)} | i < |text| && code(i) && text[i] != '"' && !OpenerAt(text, i)
      ensures Stripped(text)[i] == text[i] && code(i + 1)
    {
      PlainKept(text, i);
    }
  }

  lemma StripScansLiteral(text: string, i: nat, units: seq<Unit>, ending: Ending)
    requires CodeOf(text)(i) && LiteralAt(text, i, units, ending)
    ensures HasAt(Stripped(text), i, Spelled(Literal(units, ending)))
    ensures CodeOf(text)(i + |Spelled(Literal(units, ending))|)
  {
    LiteralKept(text, i, units, ending);
    if ending == Closed {
      CodeAfterLiteral(text, i, units, i + 1 + |SpelledUnits(units)|);
      assert i + |Spelled(Literal(units, ending))| == i + 1 + |SpelledUnits(units)| + 1;
    }
  }

  lemma StripScansComments(text: string)
    ensures ScansLines(text, Stripped(text), CodeOf(text)) && ScansBlocks(text, Stripped(text), CodeOf(text))
  {
    var code := CodeOf(text);
    forall i: nat, end: nat | code(i) && LineAt(text, i, end)
      ensures Blanked(text, Stripped(text), i, end) && code(end)
    {
      LineBlanked(text, i, end);
    }
    forall i: nat, closer: nat | code(i) && BlockAt(text, i, closer)
      ensures Blanked(text, Stripped(text), i, BlockEnd(text, closer)) && code(BlockEnd(text, closer))
    {
      BlockBlanked(text, i, closer);
    }
  }

  /** The stripper treats every token that starts in code as the grammar asks. */
  lemma StripScans(text: string)
    ensures Scans(text, Stripped(text), CodeOf(text)) && CodeOf(text)(0)
  {
    StripScansPlain(text);
    StripScansComments(text);
    forall i: nat, units, ending | CodeOf(text)(i) && LiteralAt(text, i, units, ending)
      ensures HasAt(Stripped(text), i, Spelled(Literal(units, ending)))
      ensures CodeOf(text)(i + |Spelled(Literal(units, ending))|)
    {
      StripScansLiteral(text, i, units, ending);
    }
  }

  lemma NextInText(tokens: seq<Token>, k: nat)
    requires WellFormed(tokens) && k < |tokens|
    ensures Text(tokens[k..]) == Spelled(tokens[k]) + Text(tokens[k + 1..])
    ensures Fits(tokens[k], Text(tokens[k + 1..]))
  {
    TextOfFirst(tokens[k..]);
    assert tokens[k..][0] == tokens[k] && tokens[k..][1..] == tokens[k + 1..];
    WellFormedFrom(tokens, k);
  }

  /** Stripping a text blanks the comments among its tokens and keeps every literal and every other
      character. With ``EveryTextHasTokens`` this says what stripping does to any text. */
  lemma StripIsTokenwise(tokens: seq<Token>)
    requires WellFormed(tokens)
    ensures Stripped(Text(tokens)) == KeptAll(tokens)
  {
    var text, out := Text(tokens), Stripped(Text(tokens));
    var code := CodeOf(text);
    StripScans(text);
    var parts := seq(|tokens|, k requires 0 <= k < |tokens| => Spelled(tokens[k]));
    var kept := seq(|tokens|, k requires 0 <= k < |tokens| => Kept(tokens[k]));
    forall j: nat, k: nat | k < |parts| && j <= |text| && code(j) && text[j..] == Concat(parts[k..])
      ensures Treated(out, code, j, parts[k], kept[k])
    {
      assert parts[k..] == seq(|tokens[k..]|, m requires 0 <= m < |tokens[k..]| => Spelled(tokens[k..][m]));
      NextInText(tokens, k);
      NextToken(text, out, code, j, tokens[k], Text(tokens[k + 1..]));
    }
    assert text[0..] == text && out[0..] == out;
    Joined(text, out, code, 0, parts, kept);
  }

  // ------------------------------------------------------------------ quoted strings

  /** The spelling of a string with its quotes and backslashes escaped. */
  function QuotedUnits(s: string): seq<Unit> {
    seq(|s|, k requires 0 <= k < |s| => if s[k] == '"' || s[k] == '\\' then Escaped(s[k]) else Char(s[k]))
  }

  function Quoted(s: string): string { Spelled(Literal(QuotedUnits(s), Closed)) }

  /** Wherever it starts in code, a quoted string is left untouched, whatever it says, comment openers
      included, and code goes on right after it. */
  lemma QuotedKept(text: string, i: nat, s: string)
    requires i < |text| && ModeAt(text, i) == Code && HasAt(text, i, Quoted(s))
    ensures HasAt(Stripped(text), i, Quoted(s))
    ensures ModeAt(text, i + |Quoted(s)|) == Code
  {
    LiteralKept(text, i, QuotedUnits(s), Closed);
    CodeAfterLiteral(text, i, QuotedUnits(s), i + 1 + |SpelledUnits(QuotedUnits(s))|);
  }
}
