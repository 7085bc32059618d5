/** Mapping a sequence through a function that yields sequences and flattening the images, the
    shape of every nested `for` loop of the core that collects into one list. */
module Seqs {

  /** `xs` mapped through `f` and flattened, in order. */
  function ConcatMap<A, B>(f: A -> seq<B>, xs: seq<A>): seq<B> {
    if xs == [] then [] else ConcatMap(f, xs[..|xs| - 1]) + f(xs[|xs| - 1])
  }

  lemma {:induction false} ConcatMapAppend<A, B>(f: A -> seq<B>, a: seq<A>, b: seq<A>)
    ensures ConcatMap(f, a + b) == ConcatMap(f, a) + ConcatMap(f, b)
    decreases |b|
  {
    if b == [] {
      assert a + b == a;
    } else {
      assert (a + b)[..|a + b| - 1] == a + b[..|b| - 1];
      ConcatMapAppend(f, a, b[..|b| - 1]);
    }
  }

  lemma ConcatMapSnoc<A, B>(f: A -> seq<B>, xs: seq<A>, j: nat)
    requires j < |xs|
    ensures ConcatMap(f, xs[..j + 1]) == ConcatMap(f, xs[..j]) + f(xs[j])
  {
    assert xs[..j + 1][..j] == xs[..j];
  }

  lemma ConcatMapSplit<A, B>(f: A -> seq<B>, xs: seq<A>, i: nat)
    requires i < |xs|
    ensures ConcatMap(f, xs) == ConcatMap(f, xs[..i]) + f(xs[i]) + ConcatMap(f, xs[i + 1..])
  {
    assert xs == xs[..i + 1] + xs[i + 1..];
    ConcatMapAppend(f, xs[..i + 1], xs[i + 1..]);
    ConcatMapSnoc(f, xs, i);
  }

  lemma ConcatMapCut<A, B>(f: A -> seq<B>, xs: seq<A>, j: nat)
    requires j <= |xs|
    ensures ConcatMap(f, xs) == ConcatMap(f, xs[..j]) + ConcatMap(f, xs[j..])
  {
    assert xs == xs[..j] + xs[j..];
    ConcatMapAppend(f, xs[..j], xs[j..]);
  }

  /** An element of the flattening comes from the image of some element, and every element of
      every image is in it. */
  lemma {:induction false} ConcatMapMembers<A, B>(f: A -> seq<B>, xs: seq<A>, y: B)
    ensures y in ConcatMap(f, xs) <==> exists i :: 0 <= i < |xs| && y in f(xs[i])
  {
    if xs != [] {
      var init := xs[..|xs| - 1];
      ConcatMapMembers(f, init, y);
      assert forall i :: 0 <= i < |init| ==> init[i] == xs[i];
    }
  }

  lemma Regroup4<T>(a: seq<T>, b: seq<T>, c: seq<T>, d: seq<T>)
    ensures a + (b + c) + d == (a + b) + (c + d)
  {
  }

  lemma Regroup<T>(a: seq<T>, b: seq<T>, c: seq<T>)
    ensures a + b + c == a + (b + c)
  {
  }

  /** The flattening is empty exactly when every image is. */
  lemma ConcatMapEmpty<A, B>(f: A -> seq<B>, xs: seq<A>)
    ensures ConcatMap(f, xs) == [] <==> forall i :: 0 <= i < |xs| ==> f(xs[i]) == []
  {
    var r := ConcatMap(f, xs);
    if r != [] {
      ConcatMapMembers(f, xs, r[0]);
    }
    forall i | 0 <= i < |xs| && f(xs[i]) != [] ensures r != [] {
      ConcatMapMembers(f, xs, f(xs[i])[0]);
    }
  }
}
