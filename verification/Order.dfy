/**
 The byte-lexicographic order of names, and the stable sort that every `sort_by` and every
 ordered map of the gateway relies on. A sort key is a sequence of strings compared
 position by position, as a chain of `cmp(..).then_with(..)` compares them.
 */
module Order {
  import opened Prelude

  predicate NameLeq(a: string, b: string) {
    if a == [] then true
    else if b == [] then false
    else if a[0] != b[0] then a[0] < b[0]
    else NameLeq(a[1..], b[1..])
  }

  predicate KeyLeq(a: seq<string>, b: seq<string>) {
    if a == [] then true
    else if b == [] then false
    else if a[0] != b[0] then NameLeq(a[0], b[0])
    else KeyLeq(a[1..], b[1..])
  }

  lemma {:induction false} NameTotal(a: string, b: string)
    ensures NameLeq(a, b) || NameLeq(b, a)
    ensures NameLeq(a, b) && NameLeq(b, a) ==> a == b
  {
    if a != [] && b != [] && a[0] == b[0] {
      NameTotal(a[1..], b[1..]);
    }
  }

  lemma {:induction false} NameTransitive(a: string, b: string, c: string)
    requires NameLeq(a, b) && NameLeq(b, c)
    ensures NameLeq(a, c)
  {
    if a != [] && b != [] && c != [] && a[0] == b[0] == c[0] {
      NameTransitive(a[1..], b[1..], c[1..]);
    }
  }

  lemma {:induction false} KeyTotal(a: seq<string>, b: seq<string>)
    ensures KeyLeq(a, b) || KeyLeq(b, a)
    ensures KeyLeq(a, b) && KeyLeq(b, a) ==> a == b
  {
    if a != [] && b != [] {
      NameTotal(a[0], b[0]);
      if a[0] == b[0] {
        KeyTotal(a[1..], b[1..]);
      }
    }
  }

  lemma {:induction false} KeyTransitive(a: seq<string>, b: seq<string>, c: seq<string>)
    requires KeyLeq(a, b) && KeyLeq(b, c)
    ensures KeyLeq(a, c)
  {
    if a != [] && b != [] && c != [] {
      if a[0] == b[0] == c[0] {
        KeyTransitive(a[1..], b[1..], c[1..]);
      } else if a[0] != b[0] && b[0] != c[0] {
        NameTransitive(a[0], b[0], c[0]);
        NameTotal(a[0], b[0]);
      }
    }
  }

  ghost predicate Sorted<T>(xs: seq<T>, key: T -> seq<string>) {
    forall i, j :: 0 <= i < j < |xs| ==> KeyLeq(key(xs[i]), key(xs[j]))
  }

  /** Places x before the first element that is not smaller. */
  function Insert<T>(x: T, xs: seq<T>, key: T -> seq<string>): (r: seq<T>)
    ensures multiset(r) == multiset(xs) + multiset{x}
  {
    if xs == [] || KeyLeq(key(x), key(xs[0])) then [x] + xs
    else
      assert xs == [xs[0]] + xs[1..];
      [xs[0]] + Insert(x, xs[1..], key)
  }

  /** Stable sort: `x` goes before its equals, and it came before them. */
  function Sort<T>(xs: seq<T>, key: T -> seq<string>): (r: seq<T>)
    ensures multiset(r) == multiset(xs)
  {
    if xs == [] then []
    else
      assert xs == [xs[0]] + xs[1..];
      Insert(xs[0], Sort(xs[1..], key), key)
  }

  lemma SameElements<T>(xs: seq<T>, ys: seq<T>, x: T)
    requires multiset(xs) == multiset(ys)
    ensures x in xs <==> x in ys
  {
    assert x in xs <==> x in multiset(xs);
    assert x in ys <==> x in multiset(ys);
  }

  lemma {:induction false} InsertSorted<T>(x: T, xs: seq<T>, key: T -> seq<string>)
    requires Sorted(xs, key)
    ensures Sorted(Insert(x, xs, key), key)
  {
    var r := Insert(x, xs, key);
    if xs == [] {
    } else if KeyLeq(key(x), key(xs[0])) {
      forall j | 0 < j < |r|
        ensures KeyLeq(key(x), key(r[j]))
      {
        if j > 1 {
          KeyTransitive(key(x), key(xs[0]), key(xs[j - 1]));
        }
      }
    } else {
      KeyTotal(key(x), key(xs[0]));
      InsertSorted(x, xs[1..], key);
      var rest := Insert(x, xs[1..], key);
      forall j | 0 <= j < |rest|
        ensures KeyLeq(key(xs[0]), key(rest[j]))
      {
        SameElements(rest, xs[1..] + [x], rest[j]);
      }
    }
  }

  lemma {:induction false} SortSorts<T>(xs: seq<T>, key: T -> seq<string>)
    ensures Sorted(Sort(xs, key), key)
  {
    if xs != [] {
      SortSorts(xs[1..], key);
      InsertSorted(xs[0], Sort(xs[1..], key), key);
    }
  }

  lemma {:induction false} SortFixesSorted<T>(xs: seq<T>, key: T -> seq<string>)
    requires Sorted(xs, key)
    ensures Sort(xs, key) == xs
  {
    if xs != [] {
      SortFixesSorted(xs[1..], key);
    }
  }

  ghost predicate UniqueKeys<T>(xs: seq<T>, key: T -> seq<string>) {
    forall i, j :: 0 <= i < j < |xs| ==> key(xs[i]) != key(xs[j])
  }

  lemma SortedHead<T>(xs: seq<T>, ys: seq<T>, key: T -> seq<string>)
    requires xs != [] && ys != [] && xs[0] in ys && ys[0] in xs
    requires Sorted(xs, key) && Sorted(ys, key) && UniqueKeys(xs, key)
    ensures xs[0] == ys[0]
  {
    var i :| 0 <= i < |xs| && xs[i] == ys[0];
    var j :| 0 <= j < |ys| && ys[j] == xs[0];
    KeyTotal(key(xs[0]), key(ys[0]));
  }

  lemma TailBag<T>(xs: seq<T>)
    requires xs != []
    ensures multiset(xs[1..]) == multiset(xs) - multiset{xs[0]}
  {
    assert xs == [xs[0]] + xs[1..];
  }

  /** With unique keys there is one sorted arrangement of a bag. */
  lemma {:induction false} SortedUnique<T>(xs: seq<T>, ys: seq<T>, key: T -> seq<string>)
    requires multiset(xs) == multiset(ys)
    requires Sorted(xs, key) && Sorted(ys, key) && UniqueKeys(xs, key)
    ensures xs == ys
  {
    assert |xs| == |multiset(xs)| == |multiset(ys)| == |ys|;
    if xs != [] {
      SameElements(xs, ys, xs[0]);
      SameElements(xs, ys, ys[0]);
      SortedHead(xs, ys, key);
      TailBag(xs);
      TailBag(ys);
      SortedUnique(xs[1..], ys[1..], key);
    }
  }

  /** Sorting forgets the arrangement it started from. */
  lemma SortCanonical<T>(xs: seq<T>, ys: seq<T>, key: T -> seq<string>)
    requires multiset(xs) == multiset(ys) && UniqueKeys(xs, key)
    ensures Sort(xs, key) == Sort(ys, key)
  {
    SortSorts(xs, key);
    SortSorts(ys, key);
    SortKeepsUnique(xs, Sort(xs, key), key);
    SortedUnique(Sort(xs, key), Sort(ys, key), key);
  }

  lemma SortKeepsUnique<T>(xs: seq<T>, ys: seq<T>, key: T -> seq<string>)
    requires multiset(xs) == multiset(ys) && UniqueKeys(xs, key)
    ensures UniqueKeys(ys, key)
  {
    forall i, j | 0 <= i < j < |ys|
      ensures key(ys[i]) != key(ys[j])
    {
      if key(ys[i]) == key(ys[j]) {
        SameElements(xs, ys, ys[i]);
        SameElements(xs, ys, ys[j]);
        var a :| 0 <= a < |xs| && xs[a] == ys[i];
        var b :| 0 <= b < |xs| && xs[b] == ys[j];
        assert a == b;
        OccursTwice(ys, i, j);
        OccursOnce(xs, a, key);
        assert false;
      }
    }
  }

  lemma OccursTwice<T>(xs: seq<T>, i: nat, j: nat)
    requires i < j < |xs| && xs[i] == xs[j]
    ensures multiset(xs)[xs[i]] >= 2
  {
    assert xs == xs[..j] + [xs[j]] + xs[j + 1..];
    assert xs[i] in xs[..j];
  }

  lemma OccursOnce<T>(xs: seq<T>, a: nat, key: T -> seq<string>)
    requires a < |xs| && UniqueKeys(xs, key)
    ensures multiset(xs)[xs[a]] == 1
  {
    assert xs == xs[..a] + [xs[a]] + xs[a + 1..];
    assert xs[a] !in xs[..a] && xs[a] !in xs[a + 1..];
  }

  function NameKey(name: string): seq<string> {
    [name]
  }

  /** Adds a name to an ordered set of names. */
  function AddName(names: seq<string>, name: string): (r: seq<string>)
    ensures forall n :: n in r <==> n in names || n == name
  {
    if name in names then names
    else
      var r := Insert(name, names, NameKey);
      assert forall n :: n in r <==> n in multiset(r);
      r
  }

  lemma AddNameKeepsOrder(names: seq<string>, name: string)
    requires NoDuplicates(names) && Sorted(names, NameKey)
    ensures NoDuplicates(AddName(names, name)) && Sorted(AddName(names, name), NameKey)
  {
    if name !in names {
      InsertSorted(name, names, NameKey);
      var all := names + [name];
      assert UniqueKeys(all, NameKey);
      SortKeepsUnique(all, AddName(names, name), NameKey);
      forall i, j | 0 <= i < j < |AddName(names, name)|
        ensures AddName(names, name)[i] != AddName(names, name)[j]
      {
        assert NameKey(AddName(names, name)[i]) != NameKey(AddName(names, name)[j]);
      }
    }
  }

  lemma KeyOfTwo(a: string, b: string, x: string, y: string)
    ensures KeyLeq([a, b], [x, y]) <==> if a != x then NameLeq(a, x) else b == y || NameLeq(b, y)
  {
    assert [a, b][1..] == [b] && [x, y][1..] == [y] && [b][1..] == [] && [y][1..] == [];
    assert KeyLeq([b], [y]) <==> b == y || NameLeq(b, y);
  }

  lemma KeyOfThree(a: string, b: string, c: string, x: string, y: string, z: string)
    ensures KeyLeq([a, b, c], [x, y, z]) <==> if a != x then NameLeq(a, x) else if b != y then NameLeq(b, y) else c == z || NameLeq(c, z)
  {
    assert [a, b, c][1..] == [b, c] && [x, y, z][1..] == [y, z];
    KeyOfTwo(b, c, y, z);
  }
}
