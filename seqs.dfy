/** Facts about sequence concatenation and slicing, stated once for any
    element type so that proofs about long texts and lists of diagnostics
    need not re-derive them element by element. */
module Seqs {

  /** A non-empty sequence is its first element followed by the rest. */
  lemma {:induction false} HeadTail<T>(xs: seq<T>)
    requires xs != []
    ensures [xs[0]] + xs[1..] == xs
  {
  }

  /** A non-empty sequence is its prefix followed by its last element. */
  lemma {:induction false} InitLast<T>(xs: seq<T>)
    requires xs != []
    ensures xs[..|xs| - 1] + [xs[|xs| - 1]] == xs
  {
  }

  /** Appending a non-empty `b` is appending its prefix, then its last element. */
  lemma {:induction false} AppendInitLast<T>(a: seq<T>, b: seq<T>)
    requires b != []
    ensures (a + b)[..|a + b| - 1] == a + b[..|b| - 1] && (a + b)[|a + b| - 1] == b[|b| - 1]
  {
  }

  /** The first element and the rest of a concatenation with a non-empty
      left side. */
  lemma {:induction false} AppendHeadTail<T>(a: seq<T>, b: seq<T>)
    requires a != []
    ensures (a + b)[0] == a[0] && (a + b)[1..] == a[1..] + b
  {
  }

  /** A suffix of the tail is a suffix of the whole. */
  lemma {:induction false} TailSuffix<T>(s: seq<T>, k: nat)
    requires 1 <= k <= |s|
    ensures s[1..][k - 1..] == s[k..]
  {
  }

  /** `last` is the part of `s` after an occurrence of `sep`, or all of `s`. */
  predicate EndsAfter<T(==)>(s: seq<T>, last: seq<T>, sep: T)
  {
    |last| <= |s| && s[|s| - |last|..] == last && (|last| < |s| ==> s[|s| - |last| - 1] == sep)
  }

  /** What ends the tail of `s` after a separator ends `s` after one too. */
  lemma {:induction false} EndsAfterCons<T>(s: seq<T>, last: seq<T>, sep: T)
    requires s != [] && EndsAfter(s[1..], last, sep)
    requires |last| == |s| - 1 ==> s[0] == sep
    ensures EndsAfter(s, last, sep)
  {
    TailSuffix(s, |s| - |last|);
  }

  /** A piece that ends `s` after a separator, when `s` has none, is all of `s`. */
  lemma {:induction false} EndsAfterWhole<T>(s: seq<T>, last: seq<T>, sep: T)
    requires EndsAfter(s, last, sep)
    ensures |last| == |s| ==> last == s
    ensures sep !in s ==> last == s
  {
    assert s[0..] == s;
  }

  /** The last element of `r + [x]`. */
  lemma {:induction false} LastOfAppend<T>(r: seq<T>, x: T)
    ensures var c := r + [x]; c[|c| - 1] == x
  {
  }

  /** The last element of `[x] + r` for a non-empty `r`. */
  lemma {:induction false} LastOfCons<T>(x: T, r: seq<T>)
    requires r != []
    ensures var c := [x] + r; c[|c| - 1] == r[|r| - 1]
  {
  }

  lemma {:induction false} AppendAssoc<T>(a: seq<T>, b: seq<T>, c: seq<T>)
    ensures a + b + c == a + (b + c)
  {
  }

  lemma {:induction false} AppendNil<T>(a: seq<T>)
    ensures a + [] == a && [] + a == a
  {
  }

  lemma {:induction false} AppendEmpty<T>(a: seq<T>, b: seq<T>)
    ensures a + b == [] <==> a == [] && b == []
  {
    assert |a + b| == |a| + |b|;
  }

  /** `f(xs[0]) + f(xs[1]) + ...`, built from the left. */
  function Gather<T, U>(f: T -> seq<U>, xs: seq<T>): seq<U>
  {
    if xs == [] then [] else Gather(f, xs[..|xs| - 1]) + f(xs[|xs| - 1])
  }

  /** A gathered sequence is empty exactly when every part is. */
  lemma {:induction false} GatherNone<T, U>(f: T -> seq<U>, xs: seq<T>)
    ensures Gather(f, xs) == [] <==> forall i :: 0 <= i < |xs| ==> f(xs[i]) == []
  {
    if xs != [] {
      var init := xs[..|xs| - 1];
      GatherNone(f, init);
      AppendEmpty(Gather(f, init), f(xs[|xs| - 1]));
      assert forall i :: 0 <= i < |init| ==> init[i] == xs[i];
    }
  }

  /** Gathering distributes over concatenation of the inputs. */
  lemma {:induction false} GatherAppend<T, U>(f: T -> seq<U>, a: seq<T>, b: seq<T>)
    ensures Gather(f, a + b) == Gather(f, a) + Gather(f, b)
    decreases |b|
  {
    if b == [] {
      assert a + b == a;
      AppendNil(Gather(f, a));
    } else {
      var init := b[..|b| - 1];
      AppendInitLast(a, b);
      GatherAppend(f, a, init);
      AppendAssoc(Gather(f, a), Gather(f, init), f(b[|b| - 1]));
    }
  }

  /** When every part is a single element, the gathered sequence is those
      elements, one per input, in order. */
  lemma {:induction false} GatherSingles<T, U>(f: T -> seq<U>, xs: seq<T>)
    requires forall i :: 0 <= i < |xs| ==> |f(xs[i])| == 1
    ensures |Gather(f, xs)| == |xs|
    ensures forall i :: 0 <= i < |xs| ==> Gather(f, xs)[i] == f(xs[i])[0]
    decreases |xs|
  {
    if xs != [] {
      var init := xs[..|xs| - 1];
      assert forall i :: 0 <= i < |init| ==> init[i] == xs[i];
      GatherSingles(f, init);
    }
  }

  /** `f` applied to each element of `xs`, in order. */
  function Map<T, U>(f: T -> U, xs: seq<T>): (ys: seq<U>)
    ensures |ys| == |xs|
    ensures forall i :: 0 <= i < |xs| ==> ys[i] == f(xs[i])
  {
    if xs == [] then [] else Map(f, xs[..|xs| - 1]) + [f(xs[|xs| - 1])]
  }

  lemma {:induction false} MapStep<T, U>(f: T -> U, xs: seq<T>, i: nat)
    requires i < |xs|
    ensures Map(f, xs[..i + 1]) == Map(f, xs[..i]) + [f(xs[i])]
  {
    assert xs[..i + 1][..i] == xs[..i];
  }

  /** The pieces of `ps` one after another. */
  function Flatten<T>(ps: seq<seq<T>>): seq<T>
  {
    if ps == [] then [] else Flatten(ps[..|ps| - 1]) + ps[|ps| - 1]
  }

  lemma {:induction false} FlattenStep<T>(ps: seq<seq<T>>, i: nat)
    requires i < |ps|
    ensures Flatten(ps[..i + 1]) == Flatten(ps[..i]) + ps[i]
  {
    assert ps[..i + 1][..i] == ps[..i];
  }

  lemma {:induction false} FlattenAppend<T>(a: seq<seq<T>>, b: seq<seq<T>>)
    ensures Flatten(a + b) == Flatten(a) + Flatten(b)
    decreases |b|
  {
    if b == [] {
      assert a + b == a;
      AppendNil(Flatten(a));
    } else {
      var init := b[..|b| - 1];
      AppendInitLast(a, b);
      FlattenAppend(a, init);
      AppendAssoc(Flatten(a), Flatten(init), b[|b| - 1]);
    }
  }

  /** The pieces before position `j` flatten to a prefix of the whole. */
  lemma {:induction false} FlattenPrefix<T>(ps: seq<seq<T>>, j: nat)
    requires j <= |ps|
    ensures Flatten(ps[..j]) <= Flatten(ps)
  {
    assert ps == ps[..j] + ps[j..];
    FlattenAppend(ps[..j], ps[j..]);
  }

  /** `f(0) + f(1) + ... + f(n - 1)`. */
  function GatherUpTo<U>(f: nat -> seq<U>, n: nat): seq<U>
  {
    if n == 0 then [] else GatherUpTo(f, n - 1) + f(n - 1)
  }

  lemma {:induction false} GatherUpToNone<U>(f: nat -> seq<U>, n: nat)
    ensures GatherUpTo(f, n) == [] <==> forall k :: 0 <= k < n ==> f(k) == []
  {
    if n > 0 {
      GatherUpToNone(f, n - 1);
      AppendEmpty(GatherUpTo(f, n - 1), f(n - 1));
    }
  }
}
