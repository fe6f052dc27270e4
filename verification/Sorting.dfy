/** Python's `list.sort(key=...)` and SQL's `ORDER BY` on the keys this program uses: a date, an
    instance id and an event id. */
module Sorting {
  datatype Key = Key(day: int, instance: int, event: int)
  datatype Keyed<T> = Keyed(key: Key, row: T)

  predicate Before(a: Key, b: Key) {
    a.day < b.day || (a.day == b.day && (a.instance < b.instance || (a.instance == b.instance && a.event < b.event)))
  }

  /** Strictly ascending keys. */
  ghost predicate Ascends<T>(xs: seq<Keyed<T>>) {
    forall i, j :: 0 <= i < j < |xs| ==> Before(xs[i].key, xs[j].key)
  }

  ghost predicate DistinctKeys<T>(xs: seq<Keyed<T>>) {
    forall i, j :: 0 <= i < j < |xs| ==> xs[i].key != xs[j].key
  }

  function Insert<T>(x: Keyed<T>, xs: seq<Keyed<T>>): seq<Keyed<T>> {
    if xs == [] then [x]
    else if Before(x.key, xs[0].key) then [x] + xs
    else [xs[0]] + Insert(x, xs[1..])
  }

  /** A stable sort: each row goes behind the rows not after it. */
  function Sort<T>(xs: seq<Keyed<T>>): seq<Keyed<T>> {
    if xs == [] then [] else Insert(xs[|xs| - 1], Sort(xs[..|xs| - 1]))
  }

  lemma {:induction false} InsertAdds<T>(x: Keyed<T>, xs: seq<Keyed<T>>)
    ensures multiset(Insert(x, xs)) == multiset(xs) + multiset{x}
  {
    hide Before;
    if xs != [] {
      assert xs == [xs[0]] + xs[1..];
      InsertAdds(x, xs[1..]);
    }
  }

  lemma {:induction false} InsertAscends<T>(x: Keyed<T>, xs: seq<Keyed<T>>)
    requires Ascends(xs) && forall i :: 0 <= i < |xs| ==> xs[i].key != x.key
    ensures Ascends(Insert(x, xs))
  {
    if xs != [] && !Before(x.key, xs[0].key) {
      InsertAscends(x, xs[1..]);
      InsertAdds(x, xs[1..]);
      var r := Insert(x, xs[1..]);
      forall i | 0 <= i < |r| ensures Before(xs[0].key, r[i].key) {
        assert r[i] in multiset(r);
        assert r[i] == x || r[i] in xs[1..];
      }
    }
  }

  lemma {:induction false} SortKeeps<T>(xs: seq<Keyed<T>>)
    ensures multiset(Sort(xs)) == multiset(xs)
  {
    hide Insert, Before;
    if xs != [] {
      var front, last := xs[..|xs| - 1], xs[|xs| - 1];
      SortKeeps(front);
      InsertAdds(last, Sort(front));
      assert xs == front + [last];
    }
  }

  lemma {:induction false} SortAscends<T>(xs: seq<Keyed<T>>)
    requires DistinctKeys(xs)
    ensures Ascends(Sort(xs))
  {
    hide Insert, Before;
    if xs != [] {
      var front, last := xs[..|xs| - 1], xs[|xs| - 1];
      SortAscends(front);
      SortKeeps(front);
      NoneHasKey(Sort(front), front, last.key);
      InsertAscends(last, Sort(front));
    }
  }

  lemma NoneHasKey<T>(xs: seq<Keyed<T>>, ys: seq<Keyed<T>>, key: Key)
    requires multiset(xs) == multiset(ys) && forall i :: 0 <= i < |ys| ==> ys[i].key != key
    ensures forall i :: 0 <= i < |xs| ==> xs[i].key != key
  {
    forall i | 0 <= i < |xs| ensures xs[i].key != key {
      assert xs[i] in multiset(ys);
      assert xs[i] in ys;
    }
  }

  /** The rows of one list are those of the other. */
  ghost predicate SameRows<T(!new)>(xs: seq<Keyed<T>>, ys: seq<Keyed<T>>) {
    forall p :: p in xs <==> p in ys
  }

  lemma SortIsTheAscending<T(!new)>(xs: seq<Keyed<T>>, ys: seq<Keyed<T>>)
    requires DistinctKeys(xs) && Ascends(ys) && SameRows(xs, ys)
    ensures Sort(xs) == ys
  {
    SortAscends(xs);
    SortKeeps(xs);
    forall p ensures p in Sort(xs) <==> p in ys {
      assert p in Sort(xs) <==> p in multiset(Sort(xs));
      assert p in xs <==> p in multiset(xs);
    }
    AscendingIsUnique(Sort(xs), ys);
  }

  /** Only one list ascends and has these rows. */
  lemma {:induction false} AscendingIsUnique<T(!new)>(xs: seq<Keyed<T>>, ys: seq<Keyed<T>>)
    requires Ascends(xs) && Ascends(ys) && SameRows(xs, ys)
    ensures xs == ys
  {
    SomeRow(xs, ys);
    SomeRow(ys, xs);
    if xs != [] {
      assert xs[0] in ys;
      assert ys[0] in xs;
      FirstIsFirst(xs, ys);
      AscendingTail(xs, ys);
      AscendingTail(ys, xs);
      AscendingIsUnique(xs[1..], ys[1..]);
      assert xs == [xs[0]] + xs[1..] && ys == [ys[0]] + ys[1..];
    }
  }

  lemma SomeRow<T(!new)>(xs: seq<Keyed<T>>, ys: seq<Keyed<T>>)
    requires SameRows(xs, ys)
    ensures xs != [] ==> ys != []
  {
    if xs != [] { assert xs[0] in ys; }
  }

  lemma FirstIsFirst<T>(xs: seq<Keyed<T>>, ys: seq<Keyed<T>>)
    requires Ascends(xs) && Ascends(ys) && xs != [] && ys != [] && xs[0] in ys && ys[0] in xs
    ensures xs[0] == ys[0]
  {
    var i :| 0 <= i < |ys| && ys[i] == xs[0];
    var j :| 0 <= j < |xs| && xs[j] == ys[0];
    assert i > 0 ==> Before(ys[0].key, ys[i].key);
    assert j > 0 ==> Before(xs[0].key, xs[j].key);
  }

  lemma AscendingTail<T(!new)>(xs: seq<Keyed<T>>, ys: seq<Keyed<T>>)
    requires Ascends(xs) && xs != [] && ys != [] && xs[0] == ys[0] && SameRows(xs, ys)
    ensures forall p :: p in xs[1..] ==> p in ys[1..]
  {
    forall p | p in xs[1..] ensures p in ys[1..] {
      var i :| 0 <= i < |xs| - 1 && xs[1..][i] == p;
      assert Before(xs[0].key, xs[i + 1].key);
      assert p in ys && p != ys[0];
      assert ys == [ys[0]] + ys[1..];
    }
  }

  /** The rows without their keys. */
  function Rows<T>(xs: seq<Keyed<T>>): seq<T> {
    if xs == [] then [] else [xs[0].row] + Rows(xs[1..])
  }

  lemma {:induction false} RowsAre<T>(xs: seq<Keyed<T>>)
    ensures |Rows(xs)| == |xs| && forall k :: 0 <= k < |xs| ==> Rows(xs)[k] == xs[k].row
  {
    if xs != [] { RowsAre(xs[1..]); }
  }
}
