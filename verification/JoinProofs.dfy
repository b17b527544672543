/** Left-deep joins, read one base row at a time. */
module JoinProofs {
  import opened Prelude
  import opened Bags
  import opened Relational

  lemma {:induction false} ExtendAppend(db: Database, join: Join, a: seq<seq<Row>>, b: seq<seq<Row>>)
    requires AllNonEmpty(a) && AllNonEmpty(b)
    ensures AllNonEmpty(a + b)
    ensures Extend(db, join, a + b) == Extend(db, join, a) + Extend(db, join, b)
  {
    hide AppendEach, Partners;
    if a == [] {
      assert a + b == b;
    } else {
      assert (a + b)[1..] == a[1..] + b;
      ExtendAppend(db, join, a[1..], b);
    }
  }

  lemma {:induction false} JoinAllAppend(db: Database, joins: seq<Join>, a: seq<seq<Row>>, b: seq<seq<Row>>)
    requires AllNonEmpty(a) && AllNonEmpty(b)
    ensures AllNonEmpty(a + b)
    ensures JoinAll(db, joins, a + b) == JoinAll(db, joins, a) + JoinAll(db, joins, b)
    decreases |joins|
  {
    if joins != [] {
      ExtendAppend(db, joins[0], a, b);
      JoinAllAppend(db, joins[1..], Extend(db, joins[0], a), Extend(db, joins[0], b));
    }
  }

  /** One partner of `base` per join. */
  ghost predicate IsTail(db: Database, joins: seq<Join>, base: Row, tail: seq<Row>)
    decreases |joins|
  {
    if joins == [] then tail == []
    else tail != [] && tail[0] in Partners(db, joins[0], base) && IsTail(db, joins[1..], base, tail[1..])
  }

  lemma {:induction false} TailByIndex(db: Database, joins: seq<Join>, base: Row, tail: seq<Row>)
    ensures IsTail(db, joins, base, tail)
      <==> |tail| == |joins| && forall i :: 0 <= i < |joins| ==> tail[i] in Partners(db, joins[i], base)
    decreases |joins|
  {
    if joins != [] && tail != [] {
      TailByIndex(db, joins[1..], base, tail[1..]);
      if |tail| == |joins| && forall i :: 0 <= i < |joins| ==> tail[i] in Partners(db, joins[i], base) {
        forall i | 0 <= i < |joins[1..]|
          ensures tail[1..][i] in Partners(db, joins[1..][i], base)
        {
          assert tail[i + 1] in Partners(db, joins[i + 1], base);
        }
      }
      if IsTail(db, joins, base, tail) {
        forall i | 0 <= i < |joins|
          ensures tail[i] in Partners(db, joins[i], base)
        {
          if i > 0 {
            assert tail[1..][i - 1] in Partners(db, joins[1..][i - 1], base);
          }
        }
      }
    }
  }

  lemma Regroup(u: seq<Row>, p: Row, rest: seq<Row>)
    ensures (u + [p]) + rest == u + ([p] + rest)
    ensures ([p] + rest)[1..] == rest
  {
  }

  lemma {:induction false} ExtendFrom(db: Database, join: Join, tuples: seq<seq<Row>>, t: seq<Row>) returns (u: seq<Row>, p: Row)
    requires AllNonEmpty(tuples) && t in Extend(db, join, tuples)
    ensures u in tuples && u != [] && t == u + [p] && p in Partners(db, join, u[0])
  {
    var first := AppendEach(tuples[0], Partners(db, join, tuples[0][0]));
    if t in first {
      var i :| 0 <= i < |first| && first[i] == t;
      u, p := tuples[0], Partners(db, join, tuples[0][0])[i];
    } else {
      u, p := ExtendFrom(db, join, tuples[1..], t);
    }
  }

  lemma {:induction false} ExtendTo(db: Database, join: Join, tuples: seq<seq<Row>>, u: seq<Row>, p: Row)
    requires AllNonEmpty(tuples) && u in tuples && u != [] && p in Partners(db, join, u[0])
    ensures u + [p] in Extend(db, join, tuples)
  {
    if u == tuples[0] {
      var partners := Partners(db, join, u[0]);
      var i :| 0 <= i < |partners| && partners[i] == p;
      assert AppendEach(u, partners)[i] == u + [p];
    } else {
      ExtendTo(db, join, tuples[1..], u, p);
    }
  }

  lemma {:induction false} JoinAllFrom(db: Database, joins: seq<Join>, tuples: seq<seq<Row>>, t: seq<Row>) returns (u: seq<Row>, tail: seq<Row>)
    requires AllNonEmpty(tuples) && t in JoinAll(db, joins, tuples)
    ensures u in tuples && u != [] && t == u + tail && IsTail(db, joins, u[0], tail)
    decreases |joins|
  {
    if joins == [] {
      u, tail := t, [];
    } else {
      var w, rest := JoinAllFrom(db, joins[1..], Extend(db, joins[0], tuples), t);
      var p;
      u, p := ExtendFrom(db, joins[0], tuples, w);
      tail := [p] + rest;
      Regroup(u, p, rest);
    }
  }

  lemma {:induction false} JoinAllTo(db: Database, joins: seq<Join>, tuples: seq<seq<Row>>, u: seq<Row>, tail: seq<Row>)
    requires AllNonEmpty(tuples) && u in tuples && u != [] && IsTail(db, joins, u[0], tail)
    ensures u + tail in JoinAll(db, joins, tuples)
    decreases |joins|
  {
    if joins == [] {
      assert u + tail == u;
    } else {
      ExtendTo(db, joins[0], tuples, u, tail[0]);
      assert tail == [tail[0]] + tail[1..];
      Regroup(u, tail[0], tail[1..]);
      JoinAllTo(db, joins[1..], Extend(db, joins[0], tuples), u + [tail[0]], tail[1..]);
    }
  }

  /** With at most one partner per join a base row appears at most once. */
  lemma {:induction false} JoinAtMostOne(db: Database, joins: seq<Join>, t: seq<Row>)
    requires t != [] && forall i :: 0 <= i < |joins| ==> |Partners(db, joins[i], t[0])| <= 1
    ensures |JoinAll(db, joins, [t])| <= 1
    decreases |joins|
  {
    if joins != [] {
      var partners := Partners(db, joins[0], t[0]);
      assert [t][1..] == [];
      assert Extend(db, joins[0], [t]) == AppendEach(t, partners);
      if |partners| == 1 {
        assert AppendEach(t, partners)[0] == t + [partners[0]] == t + partners;
        assert AppendEach(t, partners) == [t + partners];
        forall i | 0 <= i < |joins[1..]|
          ensures |Partners(db, joins[1..][i], (t + partners)[0])| <= 1
        {
          assert joins[1..][i] == joins[i + 1];
        }
        JoinAtMostOne(db, joins[1..], t + partners);
      } else {
        NothingJoins(db, joins[1..]);
      }
    }
  }

  lemma {:induction false} NothingJoins(db: Database, joins: seq<Join>)
    ensures JoinAll(db, joins, []) == []
    decreases |joins|
  {
    if joins != [] {
      NothingJoins(db, joins[1..]);
    }
  }

  // ----- rows of one base row -----

  ghost function RowsOf(db: Database, joins: seq<Join>, condition: Option<Pred>, ps: seq<CompiledParameter>, it: Interpretation, base: Row): seq<Scope> {
    Passing(condition, JoinAll(db, joins, [[base]]), ps, it)
  }

  ghost function PerRow<V>(db: Database, joins: seq<Join>, condition: Option<Pred>, ps: seq<CompiledParameter>, it: Interpretation, f: Scope -> multiset<V>): Row -> multiset<V> {
    base => Bag(RowsOf(db, joins, condition, ps, it, base), f)
  }

  lemma {:induction false} PassingAppend(condition: Option<Pred>, a: seq<seq<Row>>, b: seq<seq<Row>>, ps: seq<CompiledParameter>, it: Interpretation)
    ensures Passing(condition, a + b, ps, it) == Passing(condition, a, ps, it) + Passing(condition, b, ps, it)
  {
    if a == [] {
      assert a + b == b;
    } else {
      assert (a + b)[1..] == a[1..] + b;
      PassingAppend(condition, a[1..], b, ps, it);
    }
  }

  /** The rows of a FROM clause are the rows of its base rows, one base row after the other. */
  lemma FromSplits(db: Database, joins: seq<Join>, condition: Option<Pred>, ps: seq<CompiledParameter>, it: Interpretation, rows: seq<Row>)
    requires rows != []
    ensures Passing(condition, JoinAll(db, joins, Singletons(rows)), ps, it)
            == RowsOf(db, joins, condition, ps, it, rows[0]) + Passing(condition, JoinAll(db, joins, Singletons(rows[1..])), ps, it)
  {
    assert Singletons(rows) == [[rows[0]]] + Singletons(rows[1..]);
    JoinAllAppend(db, joins, [[rows[0]]], Singletons(rows[1..]));
    PassingAppend(condition, JoinAll(db, joins, [[rows[0]]]), JoinAll(db, joins, Singletons(rows[1..])), ps, it);
  }

  lemma {:induction false} BagPerRow<V>(db: Database, joins: seq<Join>, condition: Option<Pred>, ps: seq<CompiledParameter>, it: Interpretation, rows: seq<Row>, f: Scope -> multiset<V>)
    ensures Bag(Passing(condition, JoinAll(db, joins, Singletons(rows)), ps, it), f)
            == Bag(rows, PerRow(db, joins, condition, ps, it, f))
  {
    if rows == [] {
      NothingJoins(db, joins);
      assert Singletons(rows) == [];
    } else {
      FromSplits(db, joins, condition, ps, it, rows);
      BagAppend(RowsOf(db, joins, condition, ps, it, rows[0]), Passing(condition, JoinAll(db, joins, Singletons(rows[1..])), ps, it), f);
      BagPerRow(db, joins, condition, ps, it, rows[1..], f);
    }
  }

  lemma {:induction false} RowsMember(db: Database, joins: seq<Join>, condition: Option<Pred>, ps: seq<CompiledParameter>, it: Interpretation, rows: seq<Row>, s: Scope)
    ensures s in Passing(condition, JoinAll(db, joins, Singletons(rows)), ps, it)
      <==> exists base :: base in rows && s in RowsOf(db, joins, condition, ps, it, base)
  {
    if rows == [] {
      NothingJoins(db, joins);
      assert Singletons(rows) == [];
    } else {
      FromSplits(db, joins, condition, ps, it, rows);
      RowsMember(db, joins, condition, ps, it, rows[1..], s);
    }
  }

  lemma RowFrom(db: Database, joins: seq<Join>, condition: Option<Pred>, ps: seq<CompiledParameter>, it: Interpretation, base: Row, s: Scope) returns (tail: seq<Row>)
    requires s in RowsOf(db, joins, condition, ps, it, base)
    ensures s == Joined([base] + tail) && IsTail(db, joins, base, tail) && Holds(condition, s, ps, it)
  {
    var u;
    u, tail := JoinAllFrom(db, joins, [[base]], s.rows);
  }

  lemma RowTo(db: Database, joins: seq<Join>, condition: Option<Pred>, ps: seq<CompiledParameter>, it: Interpretation, base: Row, tail: seq<Row>)
    requires IsTail(db, joins, base, tail) && Holds(condition, Joined([base] + tail), ps, it)
    ensures Joined([base] + tail) in RowsOf(db, joins, condition, ps, it, base)
  {
    JoinAllTo(db, joins, [[base]], [base], tail);
  }

  lemma {:induction false} PassingShrinks(condition: Option<Pred>, tuples: seq<seq<Row>>, ps: seq<CompiledParameter>, it: Interpretation)
    ensures |Passing(condition, tuples, ps, it)| <= |tuples|
  {
    if tuples != [] {
      PassingShrinks(condition, tuples[1..], ps, it);
    }
  }
}
