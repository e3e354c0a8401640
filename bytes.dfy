/** Byte sequences as the daemons see them: chunks, newline counts and concatenation. */
module Bytes {

  newtype Byte = b: int | 0 <= b < 256

  /** The code of `'\n'`. */
  const NL: Byte := 10

  /** The number of newline bytes in `s`. */
  function CountNewlines(s: seq<Byte>): (n: nat)
    ensures n <= |s|
    ensures n == 0 <==> NL !in s
  {
    multiset(s)[NL]
  }

  lemma CountNewlinesAppend(a: seq<Byte>, b: seq<Byte>)
    ensures CountNewlines(a + b) == CountNewlines(a) + CountNewlines(b)
  {
    assert multiset(a + b) == multiset(a) + multiset(b);
  }

  /** The chunks of `ss` joined in order, as the receiving side of a stream sees them. */
  function Flatten(ss: seq<seq<Byte>>): seq<Byte>
  {
    if ss == [] then [] else Flatten(ss[..|ss| - 1]) + ss[|ss| - 1]
  }

  lemma {:induction false} FlattenAppend(a: seq<seq<Byte>>, b: seq<seq<Byte>>)
    ensures Flatten(a + b) == Flatten(a) + Flatten(b)
    decreases |b|
  {
    if b == [] {
      assert a + b == a;
    } else {
      var init, last := b[..|b| - 1], b[|b| - 1];
      assert (a + b)[..|a + b| - 1] == a + init && (a + b)[|a + b| - 1] == last;
      FlattenAppend(a, init);
      assert Flatten(a + b) == (Flatten(a) + Flatten(init)) + last;
      assert Flatten(b) == Flatten(init) + last;
    }
  }

  /** Pushing one more chunk appends it to what the receiving side has seen. */
  lemma FlattenSnoc(ss: seq<seq<Byte>>, s: seq<Byte>)
    ensures Flatten(ss + [s]) == Flatten(ss) + s
  {
    assert (ss + [s])[..|ss|] == ss;
  }

  /** One more chunk of a prefix adds that chunk to the flattened prefix. */
  lemma FlattenTake(ss: seq<seq<Byte>>, i: nat)
    requires i < |ss|
    ensures Flatten(ss[..i + 1]) == Flatten(ss[..i]) + ss[i]
  {
    assert ss[..i + 1] == ss[..i] + [ss[i]];
    FlattenSnoc(ss[..i], ss[i]);
  }

  /** The index of the last newline of `s`, or -1 when there is none. */
  function LastNewlineIndex(s: seq<Byte>): (r: int)
    ensures -1 <= r < |s|
    ensures r >= 0 ==> s[r] == NL
    ensures forall j :: r < j < |s| ==> s[j] != NL
  {
    if s == [] then -1
    else if s[|s| - 1] == NL then |s| - 1
    else LastNewlineIndex(s[..|s| - 1])
  }

  /** The backward scan for the last newline, as the daemon's timeout flush runs it. */
  method LastNewline(s: seq<Byte>) returns (last: int)
    ensures last == LastNewlineIndex(s)
  {
    last := -1;
    var i := |s| - 1;
    while i >= 0
      invariant -1 <= i < |s|
      invariant forall j :: i < j < |s| ==> s[j] != NL
    {
      if s[i] == NL {
        last := i;
        break;
      }
      i := i - 1;
    }
    LastNewlineUnique(s, last);
  }

  /** The three properties of `LastNewlineIndex` pin it down. */
  lemma LastNewlineUnique(s: seq<Byte>, k: int)
    requires -1 <= k < |s|
    requires k >= 0 ==> s[k] == NL
    requires forall j :: k < j < |s| ==> s[j] != NL
    ensures k == LastNewlineIndex(s)
  {
  }
}
