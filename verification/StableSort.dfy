/** Stable sorting, the one library routine several components rely on, and the
    law that makes "sort by the second key, then stably by the first" a
    lexicographic order. */
module StableSort {
  import opened Prelude

  /** `lt` ranks elements: irreflexive, and it splits every third element to one
      side (so "neither below the other" is an equivalence). */
  ghost predicate Ranks<T(!new)>(lt: (T, T) -> bool) {
    && (forall x :: !lt(x, x))
    && (forall x, y :: lt(x, y) ==> !lt(y, x))
    && (forall x, y, z :: lt(x, z) ==> lt(x, y) || lt(y, z))
  }

  function Insert<T>(x: T, s: seq<T>, lt: (T, T) -> bool): (r: seq<T>)
    ensures multiset(r) == multiset{x} + multiset(s)
    ensures |r| == |s| + 1
  {
    if s == [] || !lt(s[0], x) then [x] + s
    else
      assert s == [s[0]] + s[1..];
      [s[0]] + Insert(x, s[1..], lt)
  }

  /** Elements that tie keep their input order: each element is inserted in
      front of the ties that came after it. */
  function Sort<T>(s: seq<T>, lt: (T, T) -> bool): (r: seq<T>)
    ensures multiset(r) == multiset(s)
    ensures |r| == |s|
  {
    if s == [] then []
    else
      assert s == [s[0]] + s[1..];
      Insert(s[0], Sort(s[1..], lt), lt)
  }

  /** First by `lt`, ties by `tie`. */
  predicate Before<T>(lt: (T, T) -> bool, tie: (T, T) -> bool, x: T, y: T) {
    lt(x, y) || (!lt(y, x) && tie(x, y))
  }

  ghost predicate OrderedBy<T>(s: seq<T>, lt: (T, T) -> bool, tie: (T, T) -> bool) {
    forall i, j :: 0 <= i < j < |s| ==> Before(lt, tie, s[i], s[j])
  }

  ghost predicate Tied<T>(s: seq<T>, tie: (T, T) -> bool) {
    forall i, j :: 0 <= i < j < |s| ==> tie(s[i], s[j])
  }

  lemma NotBelow<T(!new)>(lt: (T, T) -> bool, tie: (T, T) -> bool, x: T, head: T, y: T)
    requires Ranks(lt) && !lt(head, x)
    requires y == head || Before(lt, tie, head, y)
    ensures !lt(y, x)
  {
    assert lt(y, x) ==> lt(y, head) || lt(head, x);
  }

  lemma {:induction false} InsertOrdered<T(!new)>(x: T, s: seq<T>, lt: (T, T) -> bool, tie: (T, T) -> bool)
    requires Ranks(lt) && OrderedBy(s, lt, tie)
    requires forall y :: y in s ==> tie(x, y)
    ensures OrderedBy(Insert(x, s, lt), lt, tie)
  {
    var r := Insert(x, s, lt);
    if s == [] {
    } else if !lt(s[0], x) {
      forall j | 1 <= j < |r| ensures Before(lt, tie, x, r[j]) {
        assert r[j] == s[j - 1] && r[j] in s;
        NotBelow(lt, tie, x, s[0], r[j]);
      }
    } else {
      InsertOrdered(x, s[1..], lt, tie);
      var rest := Insert(x, s[1..], lt);
      forall y | y in rest ensures Before(lt, tie, s[0], y) {
        assert y in multiset(rest);
        if y != x {
          assert y in multiset(s[1..]);
          var j :| 1 <= j < |s| && s[j] == y;
        }
      }
      assert r == [s[0]] + rest;
    }
  }

  /** The result is ordered by `lt`, and ties stay as the input had them, for
      whatever relation `tie` the input was listed by. */
  lemma {:induction false} SortOrders<T(!new)>(s: seq<T>, lt: (T, T) -> bool, tie: (T, T) -> bool)
    requires Ranks(lt) && Tied(s, tie)
    ensures OrderedBy(Sort(s, lt), lt, tie)
  {
    if s != [] {
      SortOrders(s[1..], lt, tie);
      forall y | y in Sort(s[1..], lt) ensures tie(s[0], y) {
        assert y in multiset(Sort(s[1..], lt));
        assert y in multiset(s[1..]);
        var j :| 1 <= j < |s| && s[j] == y;
      }
      InsertOrdered(s[0], Sort(s[1..], lt), lt, tie);
    }
  }

  lemma SortElems<T>(s: seq<T>, lt: (T, T) -> bool)
    ensures forall x :: x in Sort(s, lt) <==> x in s
  {
    forall x ensures x in Sort(s, lt) <==> x in s {
      assert x in s <==> x in multiset(s);
      assert x in Sort(s, lt) <==> x in multiset(Sort(s, lt));
    }
  }

  ghost predicate SameRank<S(!new), T>(f: S -> T, ls: (S, S) -> bool, lt: (T, T) -> bool) {
    forall a, b :: ls(a, b) == lt(f(a), f(b))
  }

  lemma {:induction false} InsertMap<S(!new), T>(f: S -> T, x: S, s: seq<S>, ls: (S, S) -> bool, lt: (T, T) -> bool)
    requires SameRank(f, ls, lt)
    ensures Map(f, Insert(x, s, ls)) == Insert(f(x), Map(f, s), lt)
  {
    if s == [] || !ls(s[0], x) {
      assert Map(f, [x] + s) == [f(x)] + Map(f, s);
    } else {
      assert Map(f, s)[1..] == Map(f, s[1..]);
      InsertMap(f, x, s[1..], ls, lt);
      assert Map(f, [s[0]] + Insert(x, s[1..], ls)) == [f(s[0])] + Map(f, Insert(x, s[1..], ls));
    }
  }

  lemma SortUnfold<T>(s: seq<T>, head: T, tail: seq<T>, lt: (T, T) -> bool)
    requires s == [head] + tail
    ensures Sort(s, lt) == Insert(head, Sort(tail, lt), lt)
  {
    assert s[1..] == tail;
  }

  lemma SortMapStep<S(!new), T>(f: S -> T, head: S, tail: seq<T>, sorted: seq<S>, ls: (S, S) -> bool,
                                lt: (T, T) -> bool)
    requires SameRank(f, ls, lt) && Map(f, sorted) == Sort(tail, lt)
    ensures Map(f, Insert(head, sorted, ls)) == Sort([f(head)] + tail, lt)
  {
    InsertMap(f, head, sorted, ls, lt);
    SortUnfold([f(head)] + tail, f(head), tail, lt);
  }

  lemma MapUnfold<S, T>(f: S -> T, s: seq<S>)
    requires s != []
    ensures Map(f, s) == [f(s[0])] + Map(f, s[1..])
  {
  }

  /** Sorting images is taking images of the sorted: only keys decide. */
  lemma {:induction false} SortMap<S(!new), T>(f: S -> T, s: seq<S>, ls: (S, S) -> bool, lt: (T, T) -> bool)
    requires SameRank(f, ls, lt)
    ensures Map(f, Sort(s, ls)) == Sort(Map(f, s), lt)
  {
    if s != [] {
      SortMap(f, s[1..], ls, lt);
      SortMapStep(f, s[0], Map(f, s[1..]), Sort(s[1..], ls), ls, lt);
      MapUnfold(f, s);
    }
  }
}
