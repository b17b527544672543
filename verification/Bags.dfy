/**
 Bag-valued sums over sequences and over finite sets. Grouped aggregation is stated through
 them: the order in which PostgreSQL produces rows must not matter, only how often each occurs.
 */
module Bags {

  /** The bag sum of f over the elements of xs. */
  ghost function Bag<X, V>(xs: seq<X>, f: X -> multiset<V>): multiset<V> {
    if xs == [] then multiset{} else f(xs[0]) + Bag(xs[1..], f)
  }

  lemma {:induction false} BagAppend<X, V>(xs: seq<X>, ys: seq<X>, f: X -> multiset<V>)
    ensures Bag(xs + ys, f) == Bag(xs, f) + Bag(ys, f)
  {
    if xs == [] {
      assert xs + ys == ys;
    } else {
      assert (xs + ys)[1..] == xs[1..] + ys;
      BagAppend(xs[1..], ys, f);
    }
  }

  lemma {:induction false} BagCongruence<X, V>(xs: seq<X>, f: X -> multiset<V>, g: X -> multiset<V>)
    requires forall x :: x in xs ==> f(x) == g(x)
    ensures Bag(xs, f) == Bag(xs, g)
  {
    if xs != [] {
      BagCongruence(xs[1..], f, g);
    }
  }

  lemma {:induction false} BagEmpty<X, V>(xs: seq<X>, f: X -> multiset<V>)
    requires forall x :: x in xs ==> f(x) == multiset{}
    ensures Bag(xs, f) == multiset{}
  {
    if xs != [] {
      BagEmpty(xs[1..], f);
    }
  }

  lemma WithoutOne<X>(xs: seq<X>, i: nat)
    requires i < |xs|
    ensures multiset(xs[..i] + xs[i + 1..]) == multiset(xs) - multiset{xs[i]}
  {
    assert xs == xs[..i] + ([xs[i]] + xs[i + 1..]);
  }

  lemma BagAt<X, V>(xs: seq<X>, i: nat, f: X -> multiset<V>)
    requires i < |xs|
    ensures Bag(xs, f) == f(xs[i]) + Bag(xs[..i] + xs[i + 1..], f)
  {
    var before, after := xs[..i], xs[i + 1..];
    assert xs == before + ([xs[i]] + after);
    BagAppend(before, after, f);
    BagAppend(before, [xs[i]] + after, f);
    BagFirst(xs[i], after, f);
  }

  lemma BagFirst<X, V>(x: X, xs: seq<X>, f: X -> multiset<V>)
    ensures Bag([x] + xs, f) == f(x) + Bag(xs, f)
  {
    assert ([x] + xs)[1..] == xs;
  }

  /** The first element is somewhere in the other order, and without it the rest are the same. */
  lemma FirstElsewhere<X>(xs: seq<X>, ys: seq<X>) returns (i: nat)
    requires multiset(xs) == multiset(ys) && xs != []
    ensures i < |ys| && ys[i] == xs[0] && multiset(xs[1..]) == multiset(ys[..i] + ys[i + 1..])
  {
    assert xs[0] in multiset(ys);
    i :| 0 <= i < |ys| && ys[i] == xs[0];
    assert xs == [xs[0]] + xs[1..];
    assert multiset(xs[1..]) == multiset(xs) - multiset{xs[0]};
    WithoutOne(ys, i);
  }

  /** Reordering the rows does not change the bag. */
  lemma {:induction false} BagPermutation<X, V>(xs: seq<X>, ys: seq<X>, f: X -> multiset<V>)
    requires multiset(xs) == multiset(ys)
    ensures Bag(xs, f) == Bag(ys, f)
  {
    if xs == [] {
      assert |multiset(ys)| == 0;
    } else {
      hide Bag;
      var i := FirstElsewhere(xs, ys);
      var x, rest := xs[0], xs[1..];
      assert xs == [x] + rest;
      BagAt(ys, i, f);
      BagFirst(x, rest, f);
      BagPermutation(rest, ys[..i] + ys[i + 1..], f);
    }
  }

  /** Some order of the elements of a finite set, each once. */
  ghost function Enumerate<X>(s: set<X>): (xs: seq<X>)
    ensures multiset(xs) == multiset(s)
  {
    if s == {} then [] else
      var x :| x in s;
      assert s == (s - {x}) + {x};
      [x] + Enumerate(s - {x})
  }

  lemma EnumerateElements<X>(s: set<X>, x: X)
    ensures x in Enumerate(s) <==> x in s
  {
    var xs := Enumerate(s);
    assert x in xs <==> x in multiset(xs);
  }

  lemma EnumerateUnion<X, V>(a: set<X>, b: set<X>, f: X -> multiset<V>)
    requires a !! b
    ensures Bag(Enumerate(a + b), f) == Bag(Enumerate(a), f) + Bag(Enumerate(b), f)
  {
    assert multiset(a + b) == multiset(a) + multiset(b);
    assert multiset(Enumerate(a) + Enumerate(b)) == multiset(a + b);
    BagPermutation(Enumerate(a + b), Enumerate(a) + Enumerate(b), f);
    BagAppend(Enumerate(a), Enumerate(b), f);
  }

  /** A set on which f is empty except possibly at one point contributes f there or nothing. */
  lemma EnumerateSingle<X, V>(s: set<X>, p: X, f: X -> multiset<V>)
    requires forall x :: x in s && x != p ==> f(x) == multiset{}
    ensures Bag(Enumerate(s), f) == if p in s then f(p) else multiset{}
  {
    if p in s {
      var rest := s - {p};
      assert s == rest + {p};
      EnumerateUnion(rest, {p}, f);
      EnumerateEmpty(rest, f);
      EnumerateElements({p}, p);
      assert |multiset(Enumerate({p}))| == |multiset({p})| == 1;
      assert Enumerate({p}) == [p];
    } else {
      EnumerateEmpty(s, f);
    }
  }

  lemma EnumerateEmpty<X, V>(s: set<X>, f: X -> multiset<V>)
    requires forall x :: x in s ==> f(x) == multiset{}
    ensures Bag(Enumerate(s), f) == multiset{}
  {
    forall x | x in Enumerate(s)
      ensures f(x) == multiset{}
    {
      EnumerateElements(s, x);
    }
    BagEmpty(Enumerate(s), f);
  }

  // ----- counting by position -----

  ghost function Positions<X>(xs: seq<X>, has: X -> bool): set<nat> {
    set i | 0 <= i < |xs| && has(xs[i])
  }

  lemma NoPositions<X>(xs: seq<X>, has: X -> bool)
    requires xs == []
    ensures Positions(xs, has) == {}
  {
  }

  ghost function Shifted(a: set<nat>): (b: set<nat>)
    ensures forall j: nat :: j in b <==> j > 0 && j - 1 in a
    ensures |b| == |a|
    decreases |a|
  {
    if a == {} then {} else
      var x :| x in a;
      var rest := Shifted(a - {x});
      assert x + 1 !in rest;
      rest + {x + 1}
  }

  lemma PositionsFirst<X>(xs: seq<X>, has: X -> bool)
    requires xs != []
    ensures |Positions(xs, has)| == |Positions(xs[1..], has)| + if has(xs[0]) then 1 else 0
  {
    hide Shifted;
    var later := Shifted(Positions(xs[1..], has));
    forall i: nat
      ensures i in Positions(xs, has) <==> i in later || (i == 0 && has(xs[0]))
    {
      if 0 < i < |xs| {
        assert xs[1..][i - 1] == xs[i];
      }
    }
    if has(xs[0]) {
      assert Positions(xs, has) == later + {0};
    } else {
      assert Positions(xs, has) == later;
    }
  }
}
