/** Splitting items into named groups and taking turns over the groups in name
    order: the shape shared by the battery's and the sampler's orderings. */
module Grouping {
  import opened Prelude
  import opened RoundRobin
  import StableSort
  import TextOrder

  /** Group names in order of first appearance, the order of a dictionary's keys. */
  function FirstSeen<T>(items: seq<T>, group: T -> string): (r: seq<string>)
    ensures forall t :: t in items ==> group(t) in r
    decreases |items|
  {
    if items == [] then []
    else
      var last := |items| - 1;
      var before := FirstSeen(items[..last], group);
      if group(items[last]) in before then before else before + [group(items[last])]
  }

  lemma {:induction false} FirstSeenNoDup<T>(items: seq<T>, group: T -> string)
    ensures NoDup(FirstSeen(items, group))
    decreases |items|
  {
    if items != [] {
      FirstSeenNoDup(items[..|items| - 1], group);
    }
  }

  function ByName(): (string, string) -> bool {
    (a: string, b: string) => TextOrder.Less(a, b)
  }

  /** sorted(groups) */
  function GroupNames<T>(items: seq<T>, group: T -> string): seq<string> {
    StableSort.Sort(FirstSeen(items, group), ByName())
  }

  function Queue<T>(items: seq<T>, group: T -> string): string -> seq<T> {
    (g: string) => Filter(items, InGroup(group, g))
  }

  function Queues<T>(items: seq<T>, group: T -> string): seq<seq<T>> {
    Map(Queue(items, group), GroupNames(items, group))
  }

  function ByTurns<T>(items: seq<T>, group: T -> string): seq<T> {
    Interleave(Queues(items, group))
  }

  lemma ByNameRanks()
    ensures StableSort.Ranks(ByName())
  {
    var lt := ByName();
    forall x ensures !lt(x, x) {
      TextOrder.Irreflexive(x);
    }
    forall x, y | lt(x, y) ensures !lt(y, x) {
      TextOrder.Asymmetric(x, y);
    }
    forall x, y, z | lt(x, z) ensures lt(x, y) || lt(y, z) {
      TextOrder.Splits(x, y, z);
    }
  }

  function Anything(): (string, string) -> bool {
    (a: string, b: string) => true
  }

  /** The names are the groups that occur, ascending, once each. */
  lemma GroupNamesAscend<T>(items: seq<T>, group: T -> string)
    ensures NoDup(GroupNames(items, group))
    ensures forall g :: g in GroupNames(items, group) <==> g in FirstSeen(items, group)
    ensures forall i, j :: 0 <= i < j < |GroupNames(items, group)| ==>
              TextOrder.Less(GroupNames(items, group)[i], GroupNames(items, group)[j])
  {
    var seen, names := FirstSeen(items, group), GroupNames(items, group);
    FirstSeenNoDup(items, group);
    StableSort.SortElems(seen, ByName());
    ByNameRanks();
    StableSort.SortOrders(seen, ByName(), Anything());
    NoDupByCard(names, seen);
    forall i, j | 0 <= i < j < |names| ensures TextOrder.Less(names[i], names[j]) {
      assert StableSort.Before(ByName(), Anything(), names[i], names[j]);
      TextOrder.Total(names[i], names[j]);
    }
  }

  lemma NoDupByCard(a: seq<string>, b: seq<string>)
    requires NoDup(b) && multiset(a) == multiset(b)
    ensures NoDup(a)
  {
    forall i, j | 0 <= i < j < |a| ensures a[i] != a[j] {
      if a[i] == a[j] {
        TwiceCounts(a, i, j);
        OnceCounts(b, a[i]);
        assert false;
      }
    }
  }

  lemma TwiceCounts<T>(s: seq<T>, i: nat, j: nat)
    requires i < j < |s| && s[i] == s[j]
    ensures multiset(s)[s[i]] >= 2
  {
    assert s == s[..i] + [s[i]] + s[i + 1..j] + [s[j]] + s[j + 1..];
  }

  lemma {:induction false} OnceCounts<T>(s: seq<T>, x: T)
    requires NoDup(s)
    ensures multiset(s)[x] <= 1
  {
    if s != [] {
      assert s == [s[0]] + s[1..];
      OnceCounts(s[1..], x);
      if x == s[0] {
        assert x !in s[1..];
      }
    }
  }

  lemma QueuesKeyed<T(!new)>(items: seq<T>, group: T -> string)
    ensures Keyed(Queues(items, group), GroupNames(items, group), group)
  {
    GroupNamesAscend(items, group);
  }

  /** Turns keep every group whole and in its input order. */
  lemma {:induction false} TurnsKeepGroups<T(!new)>(items: seq<T>, group: T -> string, g: string)
    ensures Filter(ByTurns(items, group), InGroup(group, g)) == Filter(items, InGroup(group, g))
  {
    var names, queues := GroupNames(items, group), Queues(items, group);
    QueuesKeyed(items, group);
    GroupNamesAscend(items, group);
    if g in names {
      var i :| 0 <= i < |names| && names[i] == g;
      InterleaveOfGroup(queues, names, group, i);
    } else {
      forall t | t in items ensures group(t) != g {
        assert group(t) in FirstSeen(items, group);
      }
      FilterNone(items, InGroup(group, g));
      forall t | t in ByTurns(items, group) ensures group(t) != g {
        var i := InterleaveMembers(queues, t);
        assert group(t) == names[i];
      }
      FilterNone(ByTurns(items, group), InGroup(group, g));
    }
  }

  /** Turns neither lose nor repeat an item. */
  lemma TurnsPermute<T(!new)>(items: seq<T>, group: T -> string)
    ensures multiset(ByTurns(items, group)) == multiset(items)
  {
    forall t ensures multiset(ByTurns(items, group))[t] == multiset(items)[t] {
      TurnsKeepGroups(items, group, group(t));
      FilterCount(items, InGroup(group, group(t)), t);
      FilterCount(ByTurns(items, group), InGroup(group, group(t)), t);
    }
  }

  /** Stopped after n items, no group is more than one behind another unless it has
      nothing left, and each has had its items from the front. */
  lemma TurnsAreFair<T(!new)>(items: seq<T>, group: T -> string, n: nat, g: string, h: string)
    requires n <= |ByTurns(items, group)|
    ensures var some := ByTurns(items, group)[..n];
            && Filter(some, InGroup(group, g)) <= Filter(items, InGroup(group, g))
            && (|Filter(some, InGroup(group, g))| <= |Filter(some, InGroup(group, h))| + 1
                || Filter(some, InGroup(group, h)) == Filter(items, InGroup(group, h)))
  {
    var names, queues := GroupNames(items, group), Queues(items, group);
    var all := ByTurns(items, group);
    QueuesKeyed(items, group);
    if g in names && h in names {
      var i :| 0 <= i < |names| && names[i] == g;
      var j :| 0 <= j < |names| && names[j] == h;
      PrefixIsFair(queues, names, group, n, i, j);
    } else {
      GroupNamesAscend(items, group);
      AbsentGroup(items, group, n, g);
      AbsentGroup(items, group, n, h);
      if g in names {
        var i :| 0 <= i < |names| && names[i] == g;
        PrefixIsFair(queues, names, group, n, i, i);
      }
    }
  }

  lemma {:induction false} AbsentGroup<T(!new)>(items: seq<T>, group: T -> string, n: nat, g: string)
    requires n <= |ByTurns(items, group)|
    ensures g !in GroupNames(items, group) ==>
              Filter(items, InGroup(group, g)) == [] && Filter(ByTurns(items, group)[..n], InGroup(group, g)) == []
  {
    if g !in GroupNames(items, group) {
      var all := ByTurns(items, group);
      GroupNamesAscend(items, group);
      FilterNone(items, InGroup(group, g));
      TurnsKeepGroups(items, group, g);
      forall t | t in all[..n] ensures group(t) != g {
        assert t in all;
        assert group(t) == g ==> t in Filter(all, InGroup(group, g));
      }
      FilterNone(all[..n], InGroup(group, g));
    }
  }

  /** The first turn goes through the groups in name order. */
  lemma FirstTurnByName<T(!new)>(items: seq<T>, group: T -> string, i: nat)
    requires i < |GroupNames(items, group)|
    ensures i < |ByTurns(items, group)| && group(ByTurns(items, group)[i]) == GroupNames(items, group)[i]
  {
    var queues, keys := Queues(items, group), GroupNames(items, group);
    QueuesKeyed(items, group);
    forall q | 0 <= q < |queues| ensures queues[q] != [] {
      GroupNamesAscend(items, group);
      OccursInItems(items, group, keys[q]);
    }
    HeadsOfAll(queues);
    InterleaveUnfold(queues);
    assert queues[i][0] in queues[i];
  }

  lemma {:induction false} OccursInItems<T>(items: seq<T>, group: T -> string, g: string)
    requires g in FirstSeen(items, group)
    ensures Filter(items, InGroup(group, g)) != []
    decreases |items|
  {
    var last := |items| - 1;
    if g in FirstSeen(items[..last], group) {
      OccursInItems(items[..last], group, g);
      var t := Filter(items[..last], InGroup(group, g))[0];
      assert t in Filter(items[..last], InGroup(group, g)) && t in items;
      assert t in Filter(items, InGroup(group, g));
    } else {
      assert items[last] in items;
      assert items[last] in Filter(items, InGroup(group, g));
    }
  }

  /** What f makes of each queue, one after another. */
  function FlatMap<T>(f: seq<T> -> seq<T>, queues: seq<seq<T>>): seq<T> {
    if queues == [] then [] else f(queues[0]) + FlatMap(f, queues[1..])
  }

  ghost predicate OnlyTakes<T(!new)>(f: seq<T> -> seq<T>) {
    forall q, t :: t in f(q) ==> t in q
  }

  lemma OwnQueue<T(!new)>(f: seq<T> -> seq<T>, queues: seq<seq<T>>, keys: seq<string>, group: T -> string, g: string)
    requires Keyed(queues, keys, group) && OnlyTakes(f) && queues != []
    ensures Filter(f(queues[0]), InGroup(group, g)) == if g == keys[0] then f(queues[0]) else []
  {
    var first := f(queues[0]);
    KeyedRest(queues, keys, group);
    forall t | t in first ensures group(t) == keys[0] {
      assert t in queues[0];
    }
    if g == keys[0] {
      FilterAll(first, InGroup(group, g));
    } else {
      FilterNone(first, InGroup(group, g));
    }
  }

  lemma {:induction false} FlatMapWithout<T(!new)>(f: seq<T> -> seq<T>, queues: seq<seq<T>>, keys: seq<string>,
                                                   group: T -> string, g: string)
    requires Keyed(queues, keys, group) && OnlyTakes(f) && g !in keys
    ensures Filter(FlatMap(f, queues), InGroup(group, g)) == []
  {
    if queues != [] {
      OwnQueue(f, queues, keys, group, g);
      FilterConcat(f(queues[0]), FlatMap(f, queues[1..]), InGroup(group, g));
      KeyedRest(queues, keys, group);
      FlatMapWithout(f, queues[1..], keys[1..], group, g);
    }
  }

  /** A group's part of the result is what f makes of its own queue. */
  lemma {:induction false} FlatMapOfGroup<T(!new)>(f: seq<T> -> seq<T>, queues: seq<seq<T>>, keys: seq<string>,
                                                   group: T -> string, i: nat)
    requires Keyed(queues, keys, group) && OnlyTakes(f) && i < |queues|
    ensures Filter(FlatMap(f, queues), InGroup(group, keys[i])) == f(queues[i])
  {
    OwnQueue(f, queues, keys, group, keys[i]);
    FilterConcat(f(queues[0]), FlatMap(f, queues[1..]), InGroup(group, keys[i]));
    KeyedRest(queues, keys, group);
    if i == 0 {
      FlatMapWithout(f, queues[1..], keys[1..], group, keys[0]);
    } else {
      FlatMapOfGroup(f, queues[1..], keys[1..], group, i - 1);
    }
  }

  /** Grouping and then mapping each group: a group's part is what f makes of its items. */
  lemma FlatMapOfQueues<T(!new)>(f: seq<T> -> seq<T>, items: seq<T>, group: T -> string, g: string)
    requires OnlyTakes(f)
    ensures Filter(FlatMap(f, Queues(items, group)), InGroup(group, g)) == f(Filter(items, InGroup(group, g)))
  {
    var queues, keys := Queues(items, group), GroupNames(items, group);
    QueuesKeyed(items, group);
    if g in keys {
      var i :| 0 <= i < |keys| && keys[i] == g;
      FlatMapOfGroup(f, queues, keys, group, i);
      assert queues[i] == Filter(items, InGroup(group, g));
    } else {
      FlatMapWithout(f, queues, keys, group, g);
      AbsentGroup(items, group, 0, g);
      TakesNothing(f);
    }
  }

  lemma {:induction false} FlatMapMembers<T(!new)>(f: seq<T> -> seq<T>, queues: seq<seq<T>>, keys: seq<string>,
                                                   group: T -> string, t: T)
    requires Keyed(queues, keys, group) && OnlyTakes(f) && t in FlatMap(f, queues)
    ensures group(t) in keys
  {
    KeyedRest(queues, keys, group);
    if t !in f(queues[0]) {
      FlatMapMembers(f, queues[1..], keys[1..], group, t);
    }
  }

  /** By group name first, and within a group by `tie`. */
  function ByGroup<T>(group: T -> string, tie: (T, T) -> bool): (T, T) -> bool {
    (a: T, b: T) => TextOrder.Less(group(a), group(b)) || (group(a) == group(b) && tie(a, b))
  }

  ghost predicate AscendingNames(keys: seq<string>) {
    forall i, j :: 0 <= i < j < |keys| ==> TextOrder.Less(keys[i], keys[j])
  }

  /** Groups follow each other in name order, each in the order f gives it. */
  lemma {:induction false} FlatMapAscends<T(!new)>(f: seq<T> -> seq<T>, queues: seq<seq<T>>, keys: seq<string>,
                                                   group: T -> string, tie: (T, T) -> bool)
    requires Keyed(queues, keys, group) && OnlyTakes(f) && AscendingNames(keys)
    requires forall q :: StableSort.Tied(f(q), tie)
    ensures StableSort.Tied(FlatMap(f, queues), ByGroup(group, tie))
  {
    if queues != [] {
      var first, rest := f(queues[0]), FlatMap(f, queues[1..]);
      KeyedRest(queues, keys, group);
      FlatMapAscends(f, queues[1..], keys[1..], group, tie);
      forall t | t in rest ensures TextOrder.Less(keys[0], group(t)) {
        FlatMapMembers(f, queues[1..], keys[1..], group, t);
      }
      forall t | t in first ensures group(t) == keys[0] {
        assert t in queues[0];
      }
      TiedConcat(first, rest, ByGroup(group, tie));
    }
  }

  lemma TiedConcat<T>(a: seq<T>, b: seq<T>, tie: (T, T) -> bool)
    requires StableSort.Tied(a, tie) && StableSort.Tied(b, tie)
    requires forall x, y :: x in a && y in b ==> tie(x, y)
    ensures StableSort.Tied(a + b, tie)
  {
    forall i, j | 0 <= i < j < |a + b| ensures tie((a + b)[i], (a + b)[j]) {
      if i < |a| <= j {
        assert a[i] in a && b[j - |a|] in b;
      }
    }
  }

  lemma TakesNothing<T(!new)>(f: seq<T> -> seq<T>)
    requires OnlyTakes(f)
    ensures f([]) == []
  {
    if f([]) != [] {
      HasFirst(f([]));
      assert false;
    }
  }

  lemma HasFirst<T>(s: seq<T>)
    requires s != []
    ensures s[0] in s
  {
  }

  /** What is there and what the queues from i on still give make up the whole. */
  ghost predicate Remaining<T>(f: seq<T> -> seq<T>, queues: seq<seq<T>>, before: seq<T>, i: nat)
    requires i <= |queues|
  {
    FlatMap(f, queues) == before + FlatMap(f, queues[i..])
  }

  lemma NoneRemaining<T>(f: seq<T> -> seq<T>, queues: seq<seq<T>>, before: seq<T>)
    requires Remaining(f, queues, before, |queues|)
    ensures before == FlatMap(f, queues)
  {
    assert FlatMap(f, queues[|queues|..]) == [];
  }

  lemma FlatMapStep<T>(f: seq<T> -> seq<T>, queues: seq<seq<T>>, before: seq<T>, i: nat)
    requires i < |queues| && Remaining(f, queues, before, i)
    ensures Remaining(f, queues, before + f(queues[i]), i + 1)
  {
    assert queues[i..][1..] == queues[i + 1..];
    ConcatAssociates(before, f(queues[i]), FlatMap(f, queues[i + 1..]));
  }

  /** `groups`, with keys first inserted in the order `seen`, holds exactly `items`. */
  ghost predicate Holds<T>(groups: map<string, seq<T>>, seen: seq<string>, items: seq<T>, group: T -> string) {
    && seen == FirstSeen(items, group)
    && groups.Keys == Elems(seen)
    && forall g :: g in groups ==> groups[g] == Filter(items, InGroup(group, g))
  }

  /** groups.setdefault(group(t), []).append(t) */
  function Append<T>(groups: map<string, seq<T>>, g: string, t: T): map<string, seq<T>> {
    groups[g := (if g in groups then groups[g] else []) + [t]]
  }

  lemma AppendGroup<T>(items: seq<T>, group: T -> string, t: T, h: string)
    ensures Filter(items + [t], InGroup(group, h))
            == Filter(items, InGroup(group, h)) + if group(t) == h then [t] else []
  {
    FilterConcat(items, [t], InGroup(group, h));
  }

  lemma AppendSeen<T>(items: seq<T>, group: T -> string, t: T)
    ensures FirstSeen(items + [t], group)
            == FirstSeen(items, group) + if group(t) in FirstSeen(items, group) then [] else [group(t)]
  {
    assert (items + [t])[..|items|] == items;
  }

  lemma AppendHoldsAt<T>(groups: map<string, seq<T>>, seen: seq<string>, items: seq<T>, group: T -> string, t: T,
                         h: string)
    requires Holds(groups, seen, items, group) && h in Append(groups, group(t), t)
    ensures Append(groups, group(t), t)[h] == Filter(items + [t], InGroup(group, h))
  {
    AppendGroup(items, group, t, h);
    if h !in groups {
      assert h !in seen;
      FilterNone(items, InGroup(group, h));
    }
  }

  lemma AppendKeys<T>(groups: map<string, seq<T>>, seen: seq<string>, g: string, t: T)
    requires groups.Keys == Elems(seen)
    ensures g in groups <==> g in seen
    ensures Append(groups, g, t).Keys == Elems(if g in groups then seen else seen + [g])
  {
    assert g in groups <==> g in Elems(seen);
    assert Elems(seen + [g]) == Elems(seen) + {g};
  }

  lemma AppendHolds<T>(groups: map<string, seq<T>>, seen: seq<string>, items: seq<T>, group: T -> string, t: T)
    requires Holds(groups, seen, items, group)
    ensures Holds(Append(groups, group(t), t), if group(t) in groups then seen else seen + [group(t)], items + [t],
                  group)
  {
    AppendKeys(groups, seen, group(t), t);
    AppendSeen(items, group, t);
    var after := Append(groups, group(t), t);
    forall h | h in after ensures after[h] == Filter(items + [t], InGroup(group, h)) {
      AppendHoldsAt(groups, seen, items, group, t, h);
    }
  }

  /** The dictionary of groups, filled in one pass. */
  method FillGroups<T>(items: seq<T>, group: T -> string) returns (groups: map<string, seq<T>>, seen: seq<string>)
    ensures Holds(groups, seen, items, group)
  {
    groups, seen := map[], [];
    for i := 0 to |items|
      invariant Holds(groups, seen, items[..i], group)
    {
      var g := group(items[i]);
      AppendHolds(groups, seen, items[..i], group, items[i]);
      PrefixGrow(items, i);
      if g !in groups {
        seen := seen + [g];
      }
      groups := Append(groups, g, items[i]);
    }
    assert items[..|items|] == items;
  }

  /** [groups[g] for g in sorted(groups)] */
  method SplitIntoQueues<T>(items: seq<T>, group: T -> string) returns (queues: seq<seq<T>>)
    ensures queues == Queues(items, group)
  {
    var groups, seen := FillGroups(items, group);
    var names := StableSort.Sort(seen, ByName());
    StableSort.SortElems(seen, ByName());
    forall i | 0 <= i < |names| ensures names[i] in groups && groups[names[i]] == Queue(items, group)(names[i]) {
      assert names[i] in seen;
    }
    queues := seq(|names|, i requires 0 <= i < |names| && names[i] in groups => groups[names[i]]);
  }
}
