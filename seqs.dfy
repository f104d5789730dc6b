/** Facts about sequence concatenation and slicing, stated once for any
    element type so that proofs about forests and entries can cite them
    instead of rediscovering them element by element. */
module Seqs {

  lemma AppendAssoc<T>(a: seq<T>, b: seq<T>, c: seq<T>)
    ensures (a + b) + c == a + (b + c)
  {
  }

  lemma SliceSplit<T>(s: seq<T>, a: nat, b: nat)
    requires a <= b <= |s|
    ensures s[a..] == s[a..b] + s[b..]
  {
  }

  lemma SliceCons<T>(s: seq<T>, a: nat)
    requires a < |s|
    ensures s[a..] == [s[a]] + s[a + 1..]
  {
  }

  lemma SliceOfAppend<T>(s: seq<T>, t: seq<T>, a: nat, b: nat)
    requires a <= b <= |s|
    ensures (s + t)[a..b] == s[a..b]
  {
  }

  lemma DropOfAppend<T>(s: seq<T>, t: seq<T>, a: nat)
    requires a <= |s|
    ensures (s + t)[a..] == s[a..] + t
  {
  }

  /** The pieces of a sequence with one element in front. */
  lemma ConsSlices<T>(e: T, r: seq<T>)
    ensures ([e] + r)[0] == e
    ensures ([e] + r)[1..] == r
    ensures ([e] + r)[1..1 + |r|] == r
    ensures ([e] + r)[1 + |r|..] == []
  {
  }

  /** The pieces of a concatenation cut inside its first part, after the
      first element and `k` more. */
  lemma ConcatSlices<T>(xs: seq<T>, ys: seq<T>, k: nat)
    requires 1 + k <= |xs|
    ensures (xs + ys)[0] == xs[0]
    ensures (xs + ys)[1..] == xs[1..] + ys
    ensures (xs + ys)[1..1 + k] == xs[1..1 + k]
    ensures (xs + ys)[1 + k..] == xs[1 + k..] + ys
  {
  }

  lemma TakeAll<T>(s: seq<T>)
    ensures s[..|s|] == s
  {
  }

  lemma ConsConcatAt<T>(x: T, a: seq<T>, b: seq<T>, k: nat)
    requires k < 1 + |a| + |b|
    ensures ([x] + a + b)[k] == if k == 0 then x else if k <= |a| then a[k - 1] else b[k - 1 - |a|]
  {
  }

  lemma UpdateSplit<T>(s: seq<T>, i: nat, x: T)
    requires i < |s|
    ensures s[i := x] == s[..i] + ([x] + s[i + 1..])
  {
  }

  /** An accumulator that grew by `a` and then by `b` grew by `a + b`. */
  lemma AppendStep<T>(start: seq<T>, mid: seq<T>, end: seq<T>, a: seq<T>, b: seq<T>, ab: seq<T>)
    requires mid == start + a && end == mid + b && ab == a + b
    ensures end == start + ab
  {
  }
}
