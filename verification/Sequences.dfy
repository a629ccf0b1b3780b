/** Sequence facts that several modules need, stated once for any element type. */
module Sequences {

  lemma Associative<A>(a: seq<A>, b: seq<A>, c: seq<A>)
    ensures a + (b + c) == a + b + c
  {
  }

  function FlatMap<A, B>(f: A -> seq<B>, xs: seq<A>): seq<B> {
    if xs == [] then [] else f(xs[0]) + FlatMap(f, xs[1..])
  }

  lemma {:induction false} FlatMapAppend<A, B>(f: A -> seq<B>, a: seq<A>, b: seq<A>)
    ensures FlatMap(f, a + b) == FlatMap(f, a) + FlatMap(f, b)
  {
    if a == [] {
      assert a + b == b;
    } else {
      assert (a + b)[0] == a[0] && (a + b)[1..] == a[1..] + b;
      FlatMapAppend(f, a[1..], b);
    }
  }

  lemma {:induction false} FlatMapOne<A, B>(f: A -> seq<B>, x: A)
    ensures FlatMap(f, [x]) == f(x)
  {
    assert [x][1..] == [];
  }

  lemma {:induction false} FlatMapSnoc<A, B>(f: A -> seq<B>, xs: seq<A>, x: A)
    ensures FlatMap(f, xs + [x]) == FlatMap(f, xs) + f(x)
  {
    FlatMapAppend(f, xs, [x]);
    FlatMapOne(f, x);
  }

  lemma {:induction false} FlatMapAround<A, B>(f: A -> seq<B>, front: seq<A>, x: A, back: seq<A>)
    ensures FlatMap(f, front + [x] + back) == FlatMap(f, front) + f(x) + FlatMap(f, back)
  {
    FlatMapAppend(f, front + [x], back);
    FlatMapSnoc(f, front, x);
  }

  /** Cut at one position: what comes before, from, and after the element there. */
  lemma {:induction false} FlatMapSplit<A, B>(f: A -> seq<B>, xs: seq<A>, i: nat)
    requires i < |xs|
    ensures FlatMap(f, xs[..i + 1]) == FlatMap(f, xs[..i]) + f(xs[i])
    ensures FlatMap(f, xs) == FlatMap(f, xs[..i]) + f(xs[i]) + FlatMap(f, xs[i + 1..])
  {
    var front, x, back := xs[..i], xs[i], xs[i + 1..];
    assert xs[..i + 1] == front + [x];
    assert xs == front + [x] + back;
    FlatMapSnoc(f, front, x);
    FlatMapAround(f, front, x, back);
  }

  lemma {:induction false} FlatMapEmpty<A, B>(f: A -> seq<B>, xs: seq<A>)
    ensures FlatMap(f, xs) == [] <==> forall j :: 0 <= j < |xs| ==> f(xs[j]) == []
  {
    if xs != [] {
      FlatMapEmpty(f, xs[1..]);
      assert forall j :: 1 <= j < |xs| ==> xs[j] == xs[1..][j - 1];
    }
  }

  /** A single produced element comes from a single position. */
  lemma {:induction false} SoleProducer<A, B>(f: A -> seq<B>, xs: seq<A>) returns (i: nat)
    requires |FlatMap(f, xs)| == 1
    ensures i < |xs| && f(xs[i]) == FlatMap(f, xs)
    ensures forall j :: 0 <= j < |xs| && j != i ==> f(xs[j]) == []
  {
    assert forall j :: 1 <= j < |xs| ==> xs[j] == xs[1..][j - 1];
    FlatMapEmpty(f, xs[1..]);
    if f(xs[0]) != [] {
      i := 0;
      assert FlatMap(f, xs[1..]) == [];
    } else {
      var k := SoleProducer(f, xs[1..]);
      i := k + 1;
    }
  }

  lemma {:induction false} SoleProducerProduces<A, B>(f: A -> seq<B>, xs: seq<A>, i: nat)
    requires i < |xs| && forall j :: 0 <= j < |xs| && j != i ==> f(xs[j]) == []
    ensures FlatMap(f, xs) == f(xs[i])
  {
    FlatMapSplit(f, xs, i);
    FlatMapEmpty(f, xs[..i]);
    var tail := xs[i + 1..];
    forall j | 0 <= j < |tail|
      ensures f(tail[j]) == []
    {
      assert tail[j] == xs[i + 1 + j];
    }
    FlatMapEmpty(f, tail);
  }

  lemma WithoutOne<A>(xs: seq<A>, i: nat)
    requires i < |xs|
    ensures multiset(xs[..i] + xs[i + 1..]) == multiset(xs) - multiset{xs[i]}
  {
    assert xs == xs[..i] + [xs[i]] + xs[i + 1..];
  }

  lemma WithoutFirst<A>(xs: seq<A>)
    requires xs != []
    ensures xs[0] in multiset(xs) && multiset(xs[1..]) == multiset(xs) - multiset{xs[0]}
  {
    WithoutOne(xs, 0);
    assert xs[..0] + xs[0 + 1..] == xs[1..];
  }

  /** Three elements taken out one after the other and put in front, in two orders. */
  lemma ThreeInFront<A>(xs: seq<A>, a: A, as': seq<A>, b: A, bs: seq<A>, c: A, rest: seq<A>)
    requires multiset([a] + as') == multiset(xs) && multiset([b] + bs) == multiset(as')
    requires multiset([c] + rest) == multiset(bs)
    ensures multiset([a, b, c] + rest) == multiset([c, a, b] + rest) == multiset(xs)
  {
    Brackets(a, b, c, rest);
    Brackets(c, a, b, rest);
    Under(b, [c] + rest, bs);
    Under(a, [b] + ([c] + rest), as');
    Rotate(a, b, c, rest);
  }

  lemma Brackets<A>(a: A, b: A, c: A, rest: seq<A>)
    ensures [a, b, c] + rest == [a] + ([b] + ([c] + rest))
  {
  }

  lemma Rotate<A>(a: A, b: A, c: A, rest: seq<A>)
    ensures multiset([a] + ([b] + ([c] + rest))) == multiset([c] + ([a] + ([b] + rest)))
  {
    Swap(b, c, rest);
    Under(a, [b] + ([c] + rest), [c] + ([b] + rest));
    Swap(a, c, [b] + rest);
  }

  lemma Under<A>(x: A, xs: seq<A>, ys: seq<A>)
    requires multiset(xs) == multiset(ys)
    ensures multiset([x] + xs) == multiset([x] + ys)
  {
  }

  lemma Swap<A>(x: A, y: A, rest: seq<A>)
    ensures multiset([x] + ([y] + rest)) == multiset([y] + ([x] + rest))
  {
  }

  lemma Position<A>(xs: seq<A>, x: A) returns (i: nat)
    requires x in multiset(xs)
    ensures i < |xs| && xs[i] == x
  {
    assert x in xs;
    i :| i < |xs| && xs[i] == x;
  }

  /** Flattening twice is flattening once. */
  lemma {:induction false} FlatMapCompose<A(!new), B, C>(g: B -> seq<C>, f: A -> seq<B>, h: A -> seq<C>, xs: seq<A>)
    requires forall x :: h(x) == FlatMap(g, f(x))
    ensures FlatMap(g, FlatMap(f, xs)) == FlatMap(h, xs)
  {
    if xs != [] {
      FlatMapCompose(g, f, h, xs[1..]);
      FlatMapAppend(g, f(xs[0]), FlatMap(f, xs[1..]));
    }
  }

  /** The first element of a sequence sits somewhere in every permutation; taking it out of both leaves permutations. */
  lemma FirstInPermutation<A>(a: seq<A>, b: seq<A>) returns (i: nat)
    requires a != [] && multiset(a) == multiset(b)
    ensures i < |b| && b[i] == a[0] && multiset(a[1..]) == multiset(b[..i] + b[i + 1..])
  {
    WithoutFirst(a);
    i := Position(b, a[0]);
    WithoutOne(b, i);
  }

  lemma {:induction false} FlatMapPermutation<A, B>(f: A -> seq<B>, a: seq<A>, b: seq<A>)
    requires multiset(a) == multiset(b)
    ensures multiset(FlatMap(f, a)) == multiset(FlatMap(f, b))
  {
    if a == [] {
      assert |multiset(b)| == 0;
      assert b == [];
    } else {
      var i := FirstInPermutation(a, b);
      FlatMapPermutation(f, a[1..], b[..i] + b[i + 1..]);
      FlatMapSplit(f, b, i);
      FlatMapAppend(f, b[..i], b[i + 1..]);
    }
  }

  /** The state after taking in the elements from left to right. */
  function Fold<S, A>(f: (S, A) -> S, start: S, xs: seq<A>): S {
    if xs == [] then start else f(Fold(f, start, xs[..|xs| - 1]), xs[|xs| - 1])
  }

  lemma {:induction false} FoldSnoc<S, A>(f: (S, A) -> S, start: S, xs: seq<A>, x: A)
    ensures Fold(f, start, xs + [x]) == f(Fold(f, start, xs), x)
  {
    assert (xs + [x])[..|xs|] == xs;
  }

  /** Taking two elements in either order makes no difference. */
  ghost predicate Commutes<S(!new), A(!new)>(f: (S, A) -> S) {
    forall s, a, b :: f(f(s, a), b) == f(f(s, b), a)
  }

  /** An element can be moved to the end. */
  lemma {:induction false} FoldLast<S(!new), A(!new)>(f: (S, A) -> S, start: S, front: seq<A>, x: A, back: seq<A>)
    requires Commutes(f)
    ensures Fold(f, start, front + [x] + back) == f(Fold(f, start, front + back), x)
    decreases |back|
  {
    if back == [] {
      assert front + [x] + back == front + [x] && front + back == front;
      FoldSnoc(f, start, front, x);
    } else {
      var init, last := back[..|back| - 1], back[|back| - 1];
      assert front + [x] + back == (front + [x] + init) + [last] && front + back == (front + init) + [last];
      FoldSnoc(f, start, front + [x] + init, last);
      FoldSnoc(f, start, front + init, last);
      FoldLast(f, start, front, x, init);
    }
  }

  /** A commuting fold depends only on which elements it takes in. */
  lemma {:induction false} FoldPermutation<S(!new), A(!new)>(f: (S, A) -> S, start: S, a: seq<A>, b: seq<A>)
    requires Commutes(f) && multiset(a) == multiset(b)
    ensures Fold(f, start, a) == Fold(f, start, b)
  {
    if a == [] {
      assert |multiset(b)| == 0;
      assert b == [];
    } else {
      var i := FirstInPermutation(a, b);
      FoldPermutation(f, start, a[1..], b[..i] + b[i + 1..]);
      FoldLast(f, start, [], a[0], a[1..]);
      FoldLast(f, start, b[..i], b[i], b[i + 1..]);
      assert a == [] + [a[0]] + a[1..] && a[1..] == [] + a[1..] && b == b[..i] + [b[i]] + b[i + 1..];
    }
  }
}
