/** Sequence algebra used by the recursive scans. */
module Seqs {
  lemma {:induction false} ConsSlice<T>(s: seq<T>, k: nat)
    requires k < |s|
    ensures [s[0]] + s[1..][..k] == s[..k + 1]
    ensures s[1..][k..] == s[k + 1..]
  {
  }

  lemma {:induction false} SnocSlice<T>(s: seq<T>, k: nat)
    requires k < |s|
    ensures s[..|s| - 1][..k] == s[..k]
    ensures s[..|s| - 1][k..] + [s[|s| - 1]] == s[k..]
  {
  }

  lemma {:induction false} Assoc<T>(a: seq<T>, b: seq<T>, c: seq<T>)
    ensures (a + b) + c == a + (b + c)
  {
  }

  lemma {:induction false} Middle<T>(all: seq<T>, a: seq<T>, b: seq<T>, c: seq<T>)
    requires all == (a + b) + c
    ensures |a| + |b| <= |all| && all[|a|..|a| + |b|] == b
  {
  }

  lemma {:induction false} SplitAt<T>(s: seq<T>, j: nat)
    requires j < |s|
    ensures s == (s[..j] + [s[j]]) + s[j + 1..]
  {
  }

  function FlatMap<A, B>(f: A -> seq<B>, s: seq<A>): seq<B> {
    if s == [] then [] else FlatMap(f, s[..|s| - 1]) + f(s[|s| - 1])
  }

  lemma {:induction false} FlatMapSnoc<A, B>(f: A -> seq<B>, s: seq<A>, x: A)
    ensures FlatMap(f, s + [x]) == FlatMap(f, s) + f(x)
  {
    assert (s + [x])[..|s|] == s;
  }

  lemma {:induction false} FlatMapAppend<A, B>(f: A -> seq<B>, a: seq<A>, b: seq<A>)
    ensures FlatMap(f, a + b) == FlatMap(f, a) + FlatMap(f, b)
  {
    if b == [] {
      assert a + b == a;
    } else {
      var n := |b| - 1;
      FlatMapAppend(f, a, b[..n]);
      assert (a + b)[..|a + b| - 1] == a + b[..n];
      Assoc(FlatMap(f, a), FlatMap(f, b[..n]), f(b[n]));
    }
  }

  /** The image of element j follows the images of the first j elements. */
  lemma {:induction false} FlatMapAt<A, B>(f: A -> seq<B>, s: seq<A>, pre: seq<A>)
    requires |pre| < |s| && pre == s[..|pre|]
    ensures var at := |FlatMap(f, pre)|; var image := f(s[|pre|]);
            at + |image| <= |FlatMap(f, s)| && FlatMap(f, s)[at..at + |image|] == image
  {
    var j := |pre|;
    SplitAt(s, j);
    FlatMapAppend(f, pre + [s[j]], s[j + 1..]);
    FlatMapSnoc(f, pre, s[j]);
    Middle(FlatMap(f, s), FlatMap(f, pre), f(s[j]), FlatMap(f, s[j + 1..]));
  }

  function Map<A, B>(f: A -> B, s: seq<A>): (r: seq<B>)
    ensures |r| == |s| && forall i :: 0 <= i < |s| ==> r[i] == f(s[i])
  {
    if s == [] then [] else [f(s[0])] + Map(f, s[1..])
  }

  lemma {:induction false} MapAppend<A, B>(f: A -> B, a: seq<A>, b: seq<A>)
    ensures Map(f, a + b) == Map(f, a) + Map(f, b)
  {
  }

  lemma {:induction false} MapTake<A, B>(f: A -> B, s: seq<A>, n: nat)
    requires n <= |s|
    ensures Map(f, s[..n]) == Map(f, s)[..n]
    ensures Map(f, s[n..]) == Map(f, s)[n..]
  {
  }
}
