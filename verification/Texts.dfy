// Texts and other sequences cut into parts and put together again.
module Texts {

  // The parts of a text between the places of a character.
  function Split(c: char, s: string): (r: seq<string>)
    ensures |r| > 0 && forall i :: 0 <= i < |r| ==> c !in r[i]
  {
    if s == "" then [""]
    else if s[0] == c then [""] + Split(c, s[1..])
    else
      var r := Split(c, s[1..]);
      [[s[0]] + r[0]] + r[1..]
  }

  function Join(c: char, parts: seq<string>): string
    requires |parts| > 0
  {
    if |parts| == 1 then parts[0] else parts[0] + [c] + Join(c, parts[1..])
  }

  lemma {:induction false} SplitOfTwo(c: char, a: string, b: string)
    ensures Split(c, a + [c] + b) == Split(c, a) + Split(c, b)
  {
    if a == "" {
      assert a + [c] + b == [c] + b;
      assert ([c] + b)[1..] == b;
    } else {
      assert (a + [c] + b)[1..] == a[1..] + [c] + b;
      SplitOfTwo(c, a[1..], b);
      assert (Split(c, a[1..]) + Split(c, b))[0] == Split(c, a[1..])[0];
      if a[0] == c {
        assert [""] + (Split(c, a[1..]) + Split(c, b)) == ([""] + Split(c, a[1..])) + Split(c, b);
      }
    }
  }

  lemma {:induction false} SplitWhole(c: char, s: string)
    ensures Split(c, s) == [s] <==> c !in s
    ensures c !in s || |Split(c, s)| > 1
  {
    if s != "" {
      SplitWhole(c, s[1..]);
      if s[0] != c {
        assert [s[0]] + s[1..] == s;
      }
    }
  }

  lemma {:induction false} JoinSplit(c: char, s: string)
    ensures Join(c, Split(c, s)) == s
  {
    if s != "" {
      var rest := Split(c, s[1..]);
      JoinSplit(c, s[1..]);
      if s[0] == c {
        assert Split(c, s)[1..] == rest;
      } else {
        assert Split(c, s)[1..] == rest[1..];
      }
    }
  }

  // The first place of a character, or the length.
  function IndexOf(s: string, c: char): (i: nat)
    ensures i <= |s| && c !in s[..i] && (i < |s| ==> s[i] == c)
  {
    if s == "" || s[0] == c then 0 else 1 + IndexOf(s[1..], c)
  }

  lemma {:induction false} IndexFound(before: string, c: char, after: string)
    requires c !in before
    ensures IndexOf(before + [c] + after, c) == |before| && IndexOf(before, c) == |before|
  {
    if before != "" {
      IndexFound(before[1..], c, after);
      assert (before + [c] + after)[1..] == before[1..] + [c] + after;
    }
  }

  function Concat<T>(chunks: seq<seq<T>>): seq<T> {
    if |chunks| == 0 then [] else Concat(chunks[..|chunks| - 1]) + chunks[|chunks| - 1]
  }

  lemma {:induction false} ConcatOfTwo<T>(a: seq<seq<T>>, b: seq<seq<T>>)
    ensures Concat(a + b) == Concat(a) + Concat(b)
  {
    if b == [] {
      assert a + b == a;
    } else {
      var n := |b| - 1;
      ConcatOfTwo(a, b[..n]);
      assert (a + b)[..|a + b| - 1] == a + b[..n];
      assert Concat(a) + Concat(b[..n]) + b[n] == Concat(a) + (Concat(b[..n]) + b[n]);
    }
  }

  lemma ConcatOfOne<T>(chunk: seq<T>)
    ensures Concat([chunk]) == chunk
  {
    assert [chunk][..0] == [];
    assert [] + chunk == chunk;
  }

  lemma ConcatFirst<T>(chunks: seq<seq<T>>)
    requires chunks != []
    ensures Concat(chunks) == chunks[0] + Concat(chunks[1..])
  {
    hide Concat;
    assert chunks == [chunks[0]] + chunks[1..];
    ConcatOfTwo([chunks[0]], chunks[1..]);
    ConcatOfOne(chunks[0]);
  }
}
