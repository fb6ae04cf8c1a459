/** Stripping comments from a JSON manifest (``_strip_json_comments``, app/inspector.py). */
module JsonComments {

  /** What the scanner is in the middle of, one character at a time: ``Escape`` is the character after
      a backslash in a string (section 7 of RFC 8259), ``BlockOpen`` the star of an opener,
      ``BlockClose`` the slash of a closer. */
  datatype Mode = Code | Str | Escape | Line | BlockOpen | Block | BlockClose
  {
    predicate Comment() { Line? || BlockOpen? || Block? || BlockClose? }
    predicate Text() { Str? || Escape? }
  }

  /** Whether the two characters ``c`` and ``d`` stand at position ``i``. */
  predicate PairAt(text: string, i: nat, c: char, d: char) {
    i + 1 < |text| && text[i] == c && text[i + 1] == d
  }

  predicate OpenerAt(text: string, i: nat) { PairAt(text, i, '/', '/') || PairAt(text, i, '/', '*') }

  /** The mode after the character at position ``i``, read in mode ``mode``. */
  function Step(mode: Mode, text: string, i: nat): Mode
    requires i < |text|
  {
    match mode
    case Code =>
      if text[i] == '"' then Str
      else if PairAt(text, i, '/', '/') then Line
      else if PairAt(text, i, '/', '*') then BlockOpen
      else Code
    case Str => if text[i] == '\\' && i + 1 < |text| then Escape else if text[i] == '"' then Code else Str
    case Escape => Str
    case Line => if i + 1 < |text| && text[i + 1] == '\n' then Code else Line
    case BlockOpen => Block
    case Block => if PairAt(text, i, '*', '/') then BlockClose else Block
    case BlockClose => Code
  }

  /** The mode in which the character at position ``i`` is read. */
  function ModeAt(text: string, i: nat): Mode
    requires i <= |text|
  {
    if i == 0 then Code else Step(ModeAt(text, i - 1), text, i - 1)
  }

  /** Whether the character at position ``i`` belongs to a comment; the newline that ends a line
      comment does not. */
  predicate InComment(text: string, i: nat)
    requires i < |text|
  {
    ModeAt(text, i).Comment() || (ModeAt(text, i) == Code && OpenerAt(text, i))
  }

  /** Reference definition, position by position: comment characters other than newlines become spaces. */
  function Stripped(text: string): (r: string)
    ensures |r| == |text|
  {
    seq(|text|, i requires 0 <= i < |text| => if InComment(text, i) && text[i] != '\n' then ' ' else text[i])
  }

  // ------------------------------------------------------------------ the scanner

  /** Python's ``find`` of a block closer, with ``|text|`` for "not found". */
  method FindCloser(text: string, start: nat) returns (end: nat)
    requires start <= |text|
    ensures start <= end <= |text|
    ensures forall j: nat | start <= j < end :: !PairAt(text, j, '*', '/')
    ensures end < |text| ==> PairAt(text, end, '*', '/')
  {
    end := start;
    while end < |text| && !PairAt(text, end, '*', '/')
      invariant start <= end <= |text|
      invariant forall j: nat | start <= j < end :: !PairAt(text, j, '*', '/')
    {
      end := end + 1;
    }
  }

  /** Inside a block comment the mode stays ``Block`` up to the closer. */
  lemma {:induction false} BlockExtends(text: string, i: nat, j: nat, end: nat)
    requires i + 2 <= j <= end <= |text| && PairAt(text, i, '/', '*') && ModeAt(text, i) == Code
    requires forall k: nat | i + 2 <= k < end :: !PairAt(text, k, '*', '/')
    ensures ModeAt(text, j) == Block
  {
    if j == i + 2 {
      assert ModeAt(text, i + 1) == BlockOpen;
    } else {
      BlockExtends(text, i, j - 1, end);
    }
  }

  /** In a line comment the mode stays ``Line`` up to the newline. */
  lemma {:induction false} LineExtends(text: string, i: nat, j: nat)
    requires i < j < |text| && PairAt(text, i, '/', '/') && ModeAt(text, i) == Code
    requires forall k: nat | i <= k < j :: text[k] != '\n'
    ensures ModeAt(text, j) == if text[j] == '\n' then Code else Line
  {
    if j > i + 1 {
      LineExtends(text, i, j - 1);
    }
  }

  /** The hand-written scanner: it jumps over escape pairs and whole comments. */
  method StripJsonComments(text: string) returns (out: string)
    ensures out == Stripped(text)
  {
    out := "";
    var i, n := 0, |text|;
    var inString := false;
    while i < n
      invariant 0 <= i <= n && |out| == i
      invariant i < n ==> ModeAt(text, i) == if inString then Str else Code
      invariant forall k | 0 <= k < i :: out[k] == Stripped(text)[k]
    {
      var ch := text[i];
      if inString {
        out := out + [ch];
        if ch == '\\' && i + 1 < n {
          out := out + [text[i + 1]];
          assert ModeAt(text, i + 1) == Escape;
          i := i + 2;
          continue;
        }
        if ch == '"' {
          inString := false;
        }
        i := i + 1;
        continue;
      }
      if ch == '"' {
        inString := true;
        out := out + [ch];
        i := i + 1;
        continue;
      }
      if PairAt(text, i, '/', '/') {
        ghost var start := i;
        while i < n && text[i] != '\n'
          invariant start <= i <= n && |out| == i
          invariant forall k: nat | start <= k < i :: text[k] != '\n'
          invariant forall k | 0 <= k < i :: out[k] == Stripped(text)[k]
        {
          if i > start {
            LineExtends(text, start, i);
          }
          out := out + [' '];
          i := i + 1;
        }
        if i < n {
          LineExtends(text, start, i);
        }
        continue;
      }
      if PairAt(text, i, '/', '*') {
        var end := FindCloser(text, i + 2);
        ghost var closer := end;
        if end < n {
          end := end + 2;
        }
        ghost var start := i;
        while i < end
          invariant start <= i <= end && |out| == i
          invariant forall k | 0 <= k < i :: out[k] == Stripped(text)[k]
        {
          BlockCovers(text, start, i, closer);
          out := out + [if text[i] != '\n' then ' ' else '\n'];
          i := i + 1;
        }
        if end < n {
          BlockCovers(text, start, end - 1, closer);
        }
        continue;
      }
      out := out + [ch];
      i := i + 1;
    }
  }

  /** Every position from the opener to the end of the closer, or of the text, is in the comment. */
  lemma BlockCovers(text: string, i: nat, j: nat, closer: nat)
    requires i + 2 <= closer <= |text| && PairAt(text, i, '/', '*') && ModeAt(text, i) == Code
    requires forall k: nat | i + 2 <= k < closer :: !PairAt(text, k, '*', '/')
    requires closer < |text| ==> PairAt(text, closer, '*', '/')
    requires i <= j < |text| && j < closer + 2
    ensures InComment(text, j)
    ensures j == closer + 1 ==> ModeAt(text, j + 1) == Code
  {
    if j == i + 1 {
      assert ModeAt(text, j) == BlockOpen;
    } else if j > i + 1 {
      BlockExtends(text, i, if j <= closer then j else closer, closer);
    }
  }

  // ------------------------------------------------------------------ what stripping guarantees

  /** Stripping turns every comment into code and moves nothing else. */
  function Cleaned(mode: Mode): Mode { if mode.Comment() then Code else mode }

  /** The stripped text is read in the same modes, with the comments gone. */
  lemma {:induction false} ModesOfStripped(text: string, i: nat)
    requires i <= |text|
    ensures ModeAt(Stripped(text), i) == Cleaned(ModeAt(text, i))
  {
    if i > 0 {
      ModesOfStripped(text, i - 1);
      CleanStep(text, i - 1);
    }
  }

  lemma CleanStep(text: string, i: nat)
    requires i < |text|
    ensures Step(Cleaned(ModeAt(text, i)), Stripped(text), i) == Cleaned(Step(ModeAt(text, i), text, i))
  {
    if i + 1 < |text| {
      assert ModeAt(text, i + 1) == Step(ModeAt(text, i), text, i);
    }
  }

  /** No comment opener is left outside string literals. */
  lemma NoCommentsLeft(text: string, i: nat)
    requires i < |text|
    ensures !InComment(Stripped(text), i)
  {
    ModesOfStripped(text, i);
    if i + 1 < |text| {
      assert ModeAt(text, i + 1) == Step(ModeAt(text, i), text, i);
    }
  }

  /** The output has the length and the newlines of the input, string literals are untouched and
      still read as string literals, and every other character is kept or blanked. */
  lemma StripPreserves(text: string, i: nat)
    requires i < |text|
    ensures |Stripped(text)| == |text|
    ensures Stripped(text)[i] == '\n' <==> text[i] == '\n'
    ensures ModeAt(text, i).Text() ==> Stripped(text)[i] == text[i]
    ensures ModeAt(text, i).Text() <==> ModeAt(Stripped(text), i).Text()
    ensures Stripped(text)[i] == text[i] || (InComment(text, i) && Stripped(text)[i] == ' ')
  {
    ModesOfStripped(text, i);
  }

  /** Text without comments is returned as it is, and only such text when blanks are not comments. */
  lemma CommentFreeUnchanged(text: string)
    requires forall i | 0 <= i < |text| :: !InComment(text, i)
    ensures Stripped(text) == text
  {
  }

  /** Stripping twice is stripping once. */
  lemma StripIdempotent(text: string)
    ensures Stripped(Stripped(text)) == Stripped(text)
  {
    forall i | 0 <= i < |Stripped(text)| ensures !InComment(Stripped(text), i) {
      NoCommentsLeft(text, i);
    }
    CommentFreeUnchanged(Stripped(text));
  }

  /** The text changes exactly when it holds a comment: an opener is never a blank. */
  lemma UnchangedIffCommentFree(text: string)
    ensures Stripped(text) == text <==> forall i | 0 <= i < |text| :: !InComment(text, i)
  {
    if Stripped(text) == text {
      forall i | 0 <= i < |text| ensures !InComment(text, i) {
        NoCommentsLeft(text, i);
      }
    } else {
      if forall i | 0 <= i < |text| :: !InComment(text, i) {
        CommentFreeUnchanged(text);
      }
    }
  }
}
