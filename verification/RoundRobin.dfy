/** Taking turns: one item from each queue that still has one, round after round. */
module RoundRobin {
  import opened Prelude

  function Heads<T>(queues: seq<seq<T>>): seq<T> {
    if queues == [] then []
    else (if queues[0] == [] then [] else [queues[0][0]]) + Heads(queues[1..])
  }

  function Tails<T>(queues: seq<seq<T>>): (r: seq<seq<T>>)
    ensures |r| == |queues|
    ensures forall i :: 0 <= i < |queues| ==> r[i] == if queues[i] == [] then [] else queues[i][1..]
  {
    seq(|queues|, i requires 0 <= i < |queues| => if queues[i] == [] then [] else queues[i][1..])
  }

  function Total<T>(queues: seq<seq<T>>): nat {
    if queues == [] then 0 else |queues[0]| + Total(queues[1..])
  }

  predicate AllEmpty<T>(queues: seq<seq<T>>) {
    forall i :: 0 <= i < |queues| ==> queues[i] == []
  }

  lemma {:induction false} RoundShrinks<T>(queues: seq<seq<T>>)
    ensures Total(Tails(queues)) + |Heads(queues)| == Total(queues)
    ensures !AllEmpty(queues) ==> |Heads(queues)| > 0
  {
    if queues != [] {
      RoundShrinks(queues[1..]);
      assert Tails(queues)[1..] == Tails(queues[1..]);
      if !AllEmpty(queues) && queues[0] == [] {
        var i :| 0 <= i < |queues| && queues[i] != [];
        assert queues[1..][i - 1] != [];
      }
    }
  }

  function Interleave<T>(queues: seq<seq<T>>): seq<T>
    decreases Total(queues)
  {
    if AllEmpty(queues) then []
    else
      RoundShrinks(queues);
      Heads(queues) + Interleave(Tails(queues))
  }

  // ---- the loops that take turns -------------------------------------------------------------

  lemma {:induction false} HeadsSnoc<T>(queues: seq<seq<T>>, n: nat)
    requires n < |queues|
    ensures Heads(queues[..n + 1]) == Heads(queues[..n]) + if queues[n] == [] then [] else [queues[n][0]]
  {
    if n == 0 {
      assert queues[..1] == [queues[0]] && queues[..1][1..] == [];
    } else {
      HeadsSnoc(queues[1..], n - 1);
      assert queues[..n + 1][1..] == queues[1..][..n] && queues[..n][1..] == queues[1..][..n - 1];
    }
  }

  /** One pass of the inner `for`: each non-empty queue gives up its head. */
  method TakeTurn<T>(queues: seq<seq<T>>, ordered: seq<T>) returns (rest: seq<seq<T>>, longer: seq<T>)
    ensures rest == Tails(queues) && longer == ordered + Heads(queues)
  {
    rest, longer := queues, ordered;
    for i := 0 to |queues|
      invariant |rest| == |queues|
      invariant forall k :: 0 <= k < i ==> rest[k] == Tails(queues)[k]
      invariant forall k :: i <= k < |queues| ==> rest[k] == queues[k]
      invariant longer == ordered + Heads(queues[..i])
    {
      HeadsSnoc(queues, i);
      if rest[i] != [] {
        longer := longer + [rest[i][0]];
        rest := rest[i := rest[i][1..]];
      }
    }
    assert queues[..|queues|] == queues;
  }

  lemma InterleaveStep<T>(queues: seq<seq<T>>, before: seq<T>)
    requires !AllEmpty(queues)
    ensures Total(Tails(queues)) < Total(queues)
    ensures before + Interleave(queues) == (before + Heads(queues)) + Interleave(Tails(queues))
    ensures |Heads(queues)| > 0
  {
    RoundShrinks(queues);
    var heads, rest := Heads(queues), Interleave(Tails(queues));
    assert before + (heads + rest) == (before + heads) + rest;
  }

  /** `while any(queues)`: all queues run dry. */
  method TakeAll<T>(queues: seq<seq<T>>) returns (ordered: seq<T>)
    ensures ordered == Interleave(queues)
  {
    var left := queues;
    ordered := [];
    while !AllEmpty(left)
      invariant ordered + Interleave(left) == Interleave(queues)
      decreases Total(left)
    {
      InterleaveStep(left, ordered);
      left, ordered := TakeTurn(left, ordered);
    }
  }

  function UpTo<T>(s: seq<T>, quota: int): (r: seq<T>)
    ensures r <= s
    ensures |r| == if quota < 0 then 0 else if |s| <= quota then |s| else quota
  {
    if quota < 0 then [] else if |s| <= quota then s else s[..quota]
  }

  /** One pass that looks at the quota before every single item. */
  method TakeTurnUpTo<T>(queues: seq<seq<T>>, chosen: seq<T>, quota: int) returns (rest: seq<seq<T>>, longer: seq<T>)
    requires |chosen| < quota
    ensures longer == UpTo(chosen + Heads(queues), quota)
    ensures |longer| < quota ==> rest == Tails(queues)
  {
    rest, longer := queues, chosen;
    for i := 0 to |queues|
      invariant |rest| == |queues|
      invariant forall k :: i <= k < |queues| ==> rest[k] == queues[k]
      invariant longer == UpTo(chosen + Heads(queues[..i]), quota)
      invariant |longer| < quota ==> forall k :: 0 <= k < i ==> rest[k] == Tails(queues)[k]
    {
      HeadsSnoc(queues, i);
      ghost var more := chosen + Heads(queues[..i]);
      assert chosen + Heads(queues[..i + 1]) == more + if queues[i] == [] then [] else [queues[i][0]];
      if rest[i] != [] && |longer| < quota {
        longer := longer + [rest[i][0]];
        rest := rest[i := rest[i][1..]];
      }
    }
    assert queues[..|queues|] == queues;
  }

  /** The loop with a quota takes the first `quota` of what the full loop would. */
  method TakeUpTo<T>(queues: seq<seq<T>>, quota: int) returns (chosen: seq<T>)
    ensures chosen == UpTo(Interleave(queues), quota)
  {
    var left := queues;
    chosen := [];
    while |chosen| < quota && !AllEmpty(left)
      invariant |chosen| < quota ==> chosen + Interleave(left) == Interleave(queues)
      invariant |chosen| >= quota ==> chosen == UpTo(Interleave(queues), quota)
      decreases quota - |chosen|
    {
      InterleaveStep(left, chosen);
      ghost var longer := chosen + Heads(left);
      left, chosen := TakeTurnUpTo(left, chosen, quota);
      if |chosen| < quota {
        assert chosen == longer;
      }
    }
  }

  // ---- every prefix is fair --------------------------------------------------------------------

  function InGroup<T>(group: T -> string, g: string): T -> bool {
    (t: T) => group(t) == g
  }

  /** Queue i holds items of group keys[i] only, and groups are distinct. */
  ghost predicate Keyed<T(!new)>(queues: seq<seq<T>>, keys: seq<string>, group: T -> string) {
    && |keys| == |queues| && NoDup(keys)
    && forall i, t :: 0 <= i < |queues| && t in queues[i] ==> group(t) == keys[i]
  }

  lemma KeyedTails<T(!new)>(queues: seq<seq<T>>, keys: seq<string>, group: T -> string)
    requires Keyed(queues, keys, group)
    ensures Keyed(Tails(queues), keys, group)
  {
  }

  lemma KeyedRest<T(!new)>(queues: seq<seq<T>>, keys: seq<string>, group: T -> string)
    requires Keyed(queues, keys, group) && queues != []
    ensures Keyed(queues[1..], keys[1..], group) && keys[0] !in keys[1..]
    ensures forall t :: t in queues[0] ==> group(t) == keys[0]
  {
    assert forall i, t :: 0 <= i < |queues[1..]| && t in queues[1..][i] ==> t in queues[i + 1];
  }

  /** A round contributes at most one item to a group. */
  lemma {:induction false} HeadsOfGroup<T(!new)>(queues: seq<seq<T>>, keys: seq<string>, group: T -> string, i: nat)
    requires Keyed(queues, keys, group) && i < |queues|
    ensures Filter(Heads(queues), InGroup(group, keys[i])) == if queues[i] == [] then [] else [queues[i][0]]
  {
    var own := InGroup(group, keys[i]);
    var first := if queues[0] == [] then [] else [queues[0][0]];
    var rest := queues[1..];
    KeyedRest(queues, keys, group);
    FilterConcat(first, Heads(rest), own);
    if i == 0 {
      FilterAll(first, own);
      HeadsAvoid(rest, keys[1..], group, keys[0]);
    } else {
      FilterNone(first, own);
      HeadsOfGroup(rest, keys[1..], group, i - 1);
    }
  }

  lemma {:induction false} HeadsAvoid<T(!new)>(queues: seq<seq<T>>, keys: seq<string>, group: T -> string, g: string)
    requires Keyed(queues, keys, group) && g !in keys
    ensures Filter(Heads(queues), InGroup(group, g)) == []
  {
    if queues != [] {
      var first := if queues[0] == [] then [] else [queues[0][0]];
      KeyedRest(queues, keys, group);
      FilterConcat(first, Heads(queues[1..]), InGroup(group, g));
      FilterNone(first, InGroup(group, g));
      HeadsAvoid(queues[1..], keys[1..], group, g);
    }
  }

  /** Each group's items come out complete and in their own order. */
  lemma {:induction false} InterleaveOfGroup<T(!new)>(queues: seq<seq<T>>, keys: seq<string>, group: T -> string,
                                               i: nat)
    requires Keyed(queues, keys, group) && i < |queues|
    ensures Filter(Interleave(queues), InGroup(group, keys[i])) == queues[i]
    decreases Total(queues)
  {
    if !AllEmpty(queues) {
      RoundShrinks(queues);
      KeyedTails(queues, keys, group);
      InterleaveOfGroup(Tails(queues), keys, group, i);
      RoundOfGroup(queues, keys, group, i, Interleave(Tails(queues)));
    }
  }

  lemma {:induction false} RoundOfGroup<T(!new)>(queues: seq<seq<T>>, keys: seq<string>, group: T -> string, i: nat,
                                                 rest: seq<T>)
    requires Keyed(queues, keys, group) && i < |queues|
    requires Filter(rest, InGroup(group, keys[i])) == Tails(queues)[i]
    ensures Filter(Heads(queues) + rest, InGroup(group, keys[i])) == queues[i]
  {
    HeadsOfGroup(queues, keys, group, i);
    FilterConcat(Heads(queues), rest, InGroup(group, keys[i]));
  }

  lemma {:induction false} HeadsMembers<T>(queues: seq<seq<T>>, t: T) returns (i: nat)
    requires t in Heads(queues)
    ensures i < |queues| && queues[i] != [] && t == queues[i][0]
  {
    if queues[0] != [] && t == queues[0][0] {
      i := 0;
    } else {
      assert t in Heads(queues[1..]);
      var k := HeadsMembers(queues[1..], t);
      i := k + 1;
    }
  }

  lemma {:induction false} InterleaveMembers<T>(queues: seq<seq<T>>, t: T) returns (i: nat)
    requires t in Interleave(queues)
    ensures i < |queues| && t in queues[i]
    decreases Total(queues)
  {
    RoundShrinks(queues);
    if t in Heads(queues) {
      i := HeadsMembers(queues, t);
    } else {
      i := InterleaveMembers(Tails(queues), t);
    }
  }

  function Least(a: nat, b: nat): nat {
    if a <= b then a else b
  }

  /** How many items a group of `len` items has had after `rounds` full rounds and a
      last one that has passed it or not. */
  function Served(len: nat, rounds: nat, passed: bool): nat {
    Least(len, if passed then rounds + 1 else rounds)
  }

  /** The heads of the first `cut` queues, cut so that exactly n items are in. */
  lemma {:induction false} CutHeads<T>(queues: seq<seq<T>>, n: nat) returns (cut: nat)
    requires n <= |Heads(queues)|
    ensures cut <= |queues| && Heads(queues)[..n] == Heads(queues[..cut])
  {
    if n == 0 {
      cut := 0;
    } else {
      var first := if queues[0] == [] then [] else [queues[0][0]];
      var k := CutHeads(queues[1..], n - |first|);
      cut := k + 1;
      assert queues[..cut][1..] == queues[1..][..k];
      assert Heads(queues)[..n] == first + Heads(queues[1..])[..n - |first|];
    }
  }

  lemma HeadsOfGroupCut<T(!new)>(queues: seq<seq<T>>, keys: seq<string>, group: T -> string, cut: nat, i: nat)
    requires Keyed(queues, keys, group) && i < |queues| && cut <= |queues|
    ensures Filter(Heads(queues[..cut]), InGroup(group, keys[i]))
            == queues[i][..Served(|queues[i]|, 0, i < cut)]
  {
    assert Keyed(queues[..cut], keys[..cut], group);
    if i < cut {
      HeadsOfGroup(queues[..cut], keys[..cut], group, i);
    } else {
      HeadsAvoid(queues[..cut], keys[..cut], group, keys[i]);
    }
  }

  /** With no queue empty, a round takes the head of each in turn. */
  lemma {:induction false} HeadsOfAll<T>(queues: seq<seq<T>>)
    requires forall i :: 0 <= i < |queues| ==> queues[i] != []
    ensures |Heads(queues)| == |queues|
    ensures forall i :: 0 <= i < |queues| ==> Heads(queues)[i] == queues[i][0]
  {
    if queues != [] {
      HeadsOfAll(queues[1..]);
    }
  }

  lemma {:induction false} FilterOfPrefix<T>(a: seq<T>, b: seq<T>, m: nat, keep: T -> bool)
    requires m <= |b|
    ensures Filter((a + b)[..|a| + m], keep) == Filter(a, keep) + Filter(b[..m], keep)
  {
    assert (a + b)[..|a| + m] == a + b[..m];
    FilterConcat(a, b[..m], keep);
  }

  lemma InterleaveUnfold<T>(queues: seq<seq<T>>)
    requires !AllEmpty(queues)
    ensures Interleave(queues) == Heads(queues) + Interleave(Tails(queues))
  {
    RoundShrinks(queues);
  }

  lemma ServedStep<T>(q: seq<T>, rounds: nat, passed: bool)
    ensures var rest := if q == [] then [] else q[1..];
            (if q == [] then [] else [q[0]]) + rest[..Served(|rest|, rounds, passed)]
            == q[..Served(|q|, rounds + 1, passed)]
  {
  }

  /** Of the first n items of `all`, group i has its own from the front, as many as
      `rounds` full rounds and a last one cut after `cut` groups hand out. */
  ghost predicate StoppedAt<T>(queues: seq<seq<T>>, all: seq<T>, keys: seq<string>, group: T -> string, n: nat,
                               rounds: nat, cut: nat, i: nat)
    requires |keys| == |queues| && n <= |all| && i < |queues|
  {
    Filter(all[..n], InGroup(group, keys[i])) == queues[i][..Served(|queues[i]|, rounds, i < cut)]
  }

  ghost predicate AllStopped<T>(queues: seq<seq<T>>, all: seq<T>, keys: seq<string>, group: T -> string, n: nat,
                                rounds: nat, cut: nat)
    requires |keys| == |queues| && n <= |all|
  {
    forall i :: 0 <= i < |queues| ==> StoppedAt(queues, all, keys, group, n, rounds, cut, i)
  }

  lemma RoundThenLater<T(!new)>(queues: seq<seq<T>>, all: seq<T>, later: seq<T>, keys: seq<string>, group: T -> string,
                                n: nat, m: nat, i: nat)
    requires Keyed(queues, keys, group) && i < |queues| && all == Heads(queues) + later
    requires m <= |later| && n == |Heads(queues)| + m
    ensures Filter(all[..n], InGroup(group, keys[i]))
            == (if queues[i] == [] then [] else [queues[i][0]]) + Filter(later[..m], InGroup(group, keys[i]))
  {
    FilterOfPrefix(Heads(queues), later, m, InGroup(group, keys[i]));
    HeadsOfGroup(queues, keys, group, i);
  }

  lemma StoppedLater<T(!new)>(queues: seq<seq<T>>, all: seq<T>, later: seq<T>, keys: seq<string>, group: T -> string,
                              n: nat, m: nat, rounds: nat, r: nat, c: nat, i: nat)
    requires Keyed(queues, keys, group) && i < |queues| && all == Heads(queues) + later && m <= |later|
    requires n == |Heads(queues)| + m && rounds == r + 1
    requires StoppedAt(Tails(queues), later, keys, group, m, r, c, i)
    ensures StoppedAt(queues, all, keys, group, n, rounds, c, i)
  {
    RoundThenLater(queues, all, later, keys, group, n, m, i);
    ServedStep(queues[i], r, i < c);
  }

  lemma StoppedInFirstRound<T(!new)>(queues: seq<seq<T>>, all: seq<T>, keys: seq<string>, group: T -> string, n: nat)
    returns (cut: nat)
    requires Keyed(queues, keys, group) && n <= |Heads(queues)| <= |all| && all[..|Heads(queues)|] == Heads(queues)
    ensures AllStopped(queues, all, keys, group, n, 0, cut)
  {
    cut := CutHeads(queues, n);
    assert all[..n] == all[..|Heads(queues)|][..n];
    forall i | 0 <= i < |queues| ensures StoppedAt(queues, all, keys, group, n, 0, cut, i) {
      HeadsOfGroupCut(queues, keys, group, cut, i);
    }
  }

  lemma {:induction false} NoHeadsWhenEmpty<T>(queues: seq<seq<T>>)
    requires AllEmpty(queues)
    ensures Heads(queues) == []
  {
    if queues != [] {
      NoHeadsWhenEmpty(queues[1..]);
    }
  }

  lemma HeadsComeFirst<T>(queues: seq<seq<T>>)
    ensures |Heads(queues)| <= |Interleave(queues)| && Interleave(queues)[..|Heads(queues)|] == Heads(queues)
  {
    if AllEmpty(queues) {
      NoHeadsWhenEmpty(queues);
    } else {
      InterleaveUnfold(queues);
    }
  }

  lemma AllStoppedLater<T(!new)>(queues: seq<seq<T>>, all: seq<T>, later: seq<T>, keys: seq<string>, group: T -> string,
                                 n: nat, m: nat, rounds: nat, r: nat, c: nat)
    requires Keyed(queues, keys, group) && all == Heads(queues) + later && m <= |later|
    requires n == |Heads(queues)| + m && rounds == r + 1
    requires AllStopped(Tails(queues), later, keys, group, m, r, c)
    ensures AllStopped(queues, all, keys, group, n, rounds, c)
  {
    forall i | 0 <= i < |queues| ensures StoppedAt(queues, all, keys, group, n, rounds, c, i) {
      assert StoppedAt(Tails(queues), later, keys, group, m, r, c, i);
      StoppedLater(queues, all, later, keys, group, n, m, rounds, r, c, i);
    }
  }

  lemma MoreThanARound<T>(queues: seq<seq<T>>, n: nat)
    requires |Heads(queues)| < n <= |Interleave(queues)|
    ensures Interleave(queues) == Heads(queues) + Interleave(Tails(queues))
    ensures Total(Tails(queues)) < Total(queues)
  {
    RoundShrinks(queues);
  }

  lemma {:induction false} PrefixShape<T(!new)>(queues: seq<seq<T>>, keys: seq<string>, group: T -> string, n: nat)
    returns (rounds: nat, cut: nat)
    requires Keyed(queues, keys, group) && n <= |Interleave(queues)|
    ensures AllStopped(queues, Interleave(queues), keys, group, n, rounds, cut)
    decreases Total(queues)
  {
    if n <= |Heads(queues)| {
      HeadsComeFirst(queues);
      rounds := 0;
      cut := StoppedInFirstRound(queues, Interleave(queues), keys, group, n);
    } else {
      MoreThanARound(queues, n);
      KeyedTails(queues, keys, group);
      var all, later := Interleave(queues), Interleave(Tails(queues));
      var m := n - |Heads(queues)|;
      var r, c := PrefixShape(Tails(queues), keys, group, m);
      rounds, cut := r + 1, c;
      AllStoppedLater(queues, all, later, keys, group, n, m, rounds, r, c);
    }
  }

  /** Stop anywhere: two groups are never more than one item apart unless the smaller
      one is used up, and each has had its items from the front. */
  lemma {:induction false} PrefixIsFair<T(!new)>(queues: seq<seq<T>>, keys: seq<string>, group: T -> string, n: nat,
                                          i: nat, j: nat)
    requires Keyed(queues, keys, group) && n <= |Interleave(queues)| && i < |queues| && j < |queues|
    ensures var here := Filter(Interleave(queues)[..n], InGroup(group, keys[i]));
            var there := Filter(Interleave(queues)[..n], InGroup(group, keys[j]));
            here <= queues[i] && (|here| <= |there| + 1 || there == queues[j])
  {
    var rounds, cut := PrefixShape(queues, keys, group, n);
    assert StoppedAt(queues, Interleave(queues), keys, group, n, rounds, cut, i);
    assert StoppedAt(queues, Interleave(queues), keys, group, n, rounds, cut, j);
  }
}
