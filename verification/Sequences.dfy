/** Facts about concatenation, for elements of any type. */
module Sequences {

  /** Appending to a non-empty sequence appends to its tail. */
  lemma AppendToTail<T>(a: seq<T>, b: seq<T>)
    requires a != []
    ensures a + b != [] && (a + b)[0] == a[0] && (a + b)[1..] == a[1..] + b
  {
  }

  lemma AppendAssociates<T>(a: seq<T>, b: seq<T>, c: seq<T>)
    ensures (a + b) + c == a + (b + c)
  {
  }

  lemma EmptyIsNeutral<T>(a: seq<T>)
    ensures [] + a == a == a + []
  {
  }

  lemma SplitTail<T>(s: seq<T>, i: nat, n: nat)
    requires i + n <= |s|
    ensures s[i..] == s[i..i + n] + s[i + n..]
  {
  }

  lemma PrefixOfTail<T>(s: seq<T>, i: nat, a: seq<T>, b: seq<T>)
    requires i <= |s| && s[i..] == a + b
    ensures i + |a| + |b| == |s| && s[i..i + |a|] == a && s[i + |a|..] == b
  {
    assert |s[i..]| == |a| + |b|;
    assert s[i..i + |a|] == (a + b)[..|a|] == a;
    assert s[i + |a|..] == (a + b)[|a|..] == b;
  }
}
