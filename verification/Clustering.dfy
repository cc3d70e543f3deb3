/** Grouping texts by similarity: the nested loops over a precomputed matrix, the
    first-fit rule they implement, and that the rule determines the result. */
module Clustering {
  import opened Prelude

  /** Is text j close enough to leader i? Any relation at all: the matrix need not
      be symmetric, and a text need not be close to itself. */
  type Near = (nat, nat) -> bool

  /** The leader text i ends up with: the earliest leader before it that it is near
      to, itself if there is none. */
  function Home(near: Near, i: nat): (h: nat)
    ensures h <= i
    decreases i, i + 1
  {
    HomeFrom(near, i, 0)
  }

  function HomeFrom(near: Near, i: nat, l: nat): (h: nat)
    requires l <= i
    ensures l <= h <= i
    decreases i, i - l
  {
    if l == i then i
    else if Home(near, l) == l && near(l, i) then l
    else HomeFrom(near, i, l + 1)
  }

  lemma {:induction false} HomeFromFacts(near: Near, i: nat, l: nat)
    requires l <= i
    ensures var h := HomeFrom(near, i, l);
            && (h == i || (Home(near, h) == h && near(h, i)))
            && (forall k :: l <= k < h && Home(near, k) == k ==> !near(k, i))
    decreases i - l
  {
    if l < i && !(Home(near, l) == l && near(l, i)) {
      HomeFromFacts(near, i, l + 1);
    }
  }

  /** A text's home is a leader near it (or itself), and no earlier leader is near it. */
  lemma HomeFacts(near: Near, i: nat)
    ensures var h := Home(near, i);
            && (h == i || near(h, i)) && Home(near, h) == h
            && (forall l :: 0 <= l < h && Home(near, l) == l ==> !near(l, i))
  {
    HomeFromFacts(near, i, 0);
  }

  /** The texts below n whose home is l, ascending. */
  function MembersBelow(near: Near, l: nat, n: nat): seq<nat> {
    if n == 0 then []
    else MembersBelow(near, l, n - 1) + if Home(near, n - 1) == l then [n - 1] else []
  }

  /** The texts below i that lead a cluster, ascending. */
  function LeadersBelow(near: Near, i: nat): seq<nat> {
    if i == 0 then []
    else LeadersBelow(near, i - 1) + if Home(near, i - 1) == i - 1 then [i - 1] else []
  }

  ghost predicate Ascending(s: seq<nat>) {
    forall i, j :: 0 <= i < j < |s| ==> s[i] < s[j]
  }

  lemma AscendingSnoc(s: seq<nat>, x: nat)
    requires Ascending(s) && forall y: nat :: y in s ==> y < x
    ensures Ascending(s + [x])
  {
    forall i, j | 0 <= i < j < |s + [x]| ensures (s + [x])[i] < (s + [x])[j] {
      assert s[i] in s;
    }
  }

  lemma {:induction false} MembersFacts(near: Near, l: nat, n: nat)
    ensures forall x: nat :: x in MembersBelow(near, l, n) <==> x < n && Home(near, x) == l
    ensures Ascending(MembersBelow(near, l, n))
  {
    if n > 0 {
      MembersFacts(near, l, n - 1);
      AscendingSnoc(MembersBelow(near, l, n - 1), n - 1);
    }
  }

  lemma {:induction false} LeadersFacts(near: Near, n: nat)
    ensures forall x: nat :: x in LeadersBelow(near, n) <==> x < n && Home(near, x) == x
    ensures Ascending(LeadersBelow(near, n))
  {
    if n > 0 {
      LeadersFacts(near, n - 1);
      AscendingSnoc(LeadersBelow(near, n - 1), n - 1);
    }
  }

  /** One cluster of the first n texts for each leader below i. */
  function ClustersBelow(near: Near, i: nat, n: nat): seq<seq<nat>> {
    Map((l: nat) => MembersBelow(near, l, n), LeadersBelow(near, i))
  }

  function FirstFit(near: Near, n: nat): seq<seq<nat>> {
    ClustersBelow(near, n, n)
  }

  // ---- the loops -----------------------------------------------------------------------------

  function AtLeast(matrix: seq<seq<real>>, threshold: real): Near {
    (i: nat, j: nat) => i < |matrix| && j < |matrix[i]| && matrix[i][j] >= threshold
  }

  /** Before leader i is tried, exactly the texts whose home is an earlier one are owned. */
  ghost predicate OwnedBelow(owner: seq<int>, near: Near, i: nat) {
    forall x {:trigger owner[x]} :: 0 <= x < |owner| ==> (owner[x] == -1 <==> Home(near, x) >= i)
  }

  lemma NextLeader(near: Near, i: nat, n: nat)
    ensures ClustersBelow(near, i + 1, n)
            == ClustersBelow(near, i, n) + if Home(near, i) == i then [MembersBelow(near, i, n)] else []
  {
  }

  lemma NotALeader(owner: seq<int>, near: Near, i: nat)
    requires OwnedBelow(owner, near, i) && i < |owner| && owner[i] != -1
    ensures Home(near, i) != i && OwnedBelow(owner, near, i + 1)
  {
    HomeFacts(near, i);
    forall x | 0 <= x < |owner| ensures owner[x] == -1 <==> Home(near, x) >= i + 1 {
      HomeFacts(near, x);
    }
  }

  /** Midway through leader i's loop: texts below j already reflect leader i. */
  ghost predicate OwnedUpTo(owner: seq<int>, near: Near, i: nat, j: nat) {
    Home(near, i) == i
    && forall x {:trigger owner[x]} ::
         0 <= x < |owner| ==> (owner[x] == -1 <==> Home(near, x) >= if x < j then i + 1 else i)
  }

  /** The inner loop for a new leader: it and every unowned text near it, in order. */
  method ClaimFollowers(matrix: seq<seq<real>>, threshold: real, owner: array<int>, i: nat, idx: nat)
    returns (members: seq<nat>)
    requires forall k :: 0 <= k < |matrix| ==> |matrix[k]| == |matrix|
    requires owner.Length == |matrix| && i < |matrix| && owner[i] == -1
    requires OwnedBelow(owner[..], AtLeast(matrix, threshold), i)
    modifies owner
    ensures OwnedBelow(owner[..], AtLeast(matrix, threshold), i + 1)
    ensures Home(AtLeast(matrix, threshold), i) == i
    ensures members == MembersBelow(AtLeast(matrix, threshold), i, |matrix|)
  {
    ghost var near := AtLeast(matrix, threshold);
    assert owner[..][i] == -1;
    OnlyItselfBelow(near, i);
    members := [i];
    LeaderClaimed(owner[..], near, i, idx);
    owner[i] := idx;
    for j := i + 1 to |matrix|
      invariant members == MembersBelow(near, i, j)
      invariant OwnedUpTo(owner[..], near, i, j)
    {
      members := TryText(matrix, threshold, owner, i, j, idx, members);
    }
  }

  /** One pass of that loop: text j joins if it is unowned and near enough. */
  method TryText(matrix: seq<seq<real>>, threshold: real, owner: array<int>, i: nat, j: nat, idx: nat,
                 members: seq<nat>)
    returns (longer: seq<nat>)
    requires owner.Length == |matrix| && i < j < |matrix| && |matrix[i]| == |matrix|
    requires OwnedUpTo(owner[..], AtLeast(matrix, threshold), i, j)
    requires members == MembersBelow(AtLeast(matrix, threshold), i, j)
    modifies owner
    ensures OwnedUpTo(owner[..], AtLeast(matrix, threshold), i, j + 1)
    ensures longer == MembersBelow(AtLeast(matrix, threshold), i, j + 1)
  {
    ghost var joins := JoinsLeader(owner[..], AtLeast(matrix, threshold), i, j, idx, members);
    longer := members;
    if owner[j] == -1 && matrix[i][j] >= threshold {
      owner[j] := idx;
      longer := members + [j];
    }
  }

  lemma LeaderClaimed(owner: seq<int>, near: Near, i: nat, idx: nat)
    requires OwnedBelow(owner, near, i) && i < |owner| && owner[i] == -1
    ensures OwnedUpTo(owner[i := idx], near, i, i + 1)
  {
    HomeFacts(near, i);
  }

  /** Trying text j against leader i: it joins exactly when i is its home. */
  lemma JoinsLeader(owner: seq<int>, near: Near, i: nat, j: nat, idx: nat, members: seq<nat>) returns (joins: bool)
    requires OwnedUpTo(owner, near, i, j) && i < j < |owner| && members == MembersBelow(near, i, j)
    ensures joins <==> owner[j] == -1 && near(i, j)
    ensures OwnedUpTo(if joins then owner[j := idx] else owner, near, i, j + 1)
    ensures (if joins then members + [j] else members) == MembersBelow(near, i, j + 1)
  {
    joins := owner[j] == -1 && near(i, j);
    HomeFacts(near, j);
    assert joins <==> Home(near, j) == i;
  }

  lemma OnlyItselfBelow(near: Near, i: nat)
    ensures Home(near, i) == i ==> MembersBelow(near, i, i + 1) == [i]
  {
    NoneBelow(near, i, i);
  }

  lemma {:induction false} NoneBelow(near: Near, i: nat, n: nat)
    requires n <= i
    ensures MembersBelow(near, i, n) == []
  {
    if n > 0 {
      NoneBelow(near, i, n - 1);
    }
  }

  // ---- the rule, said without a loop -----------------------------------------------------------

  ghost predicate InCluster(clusters: seq<seq<nat>>, c: nat, x: nat) {
    c < |clusters| && x in clusters[c]
  }

  /** Each cluster is ascending and led by its first member; leaders ascend. */
  ghost predicate Shaped(clusters: seq<seq<nat>>) {
    && (forall c :: 0 <= c < |clusters| ==> clusters[c] != [] && Ascending(clusters[c]))
    && (forall c, d :: 0 <= c < d < |clusters| ==> clusters[c][0] < clusters[d][0])
  }

  ghost predicate Placed(clusters: seq<seq<nat>>, x: nat) {
    exists c: nat :: InCluster(clusters, c, x)
  }

  /** Every text below n is in exactly one cluster. */
  ghost predicate Splits(clusters: seq<seq<nat>>, n: nat) {
    && (forall c: nat, x: nat :: InCluster(clusters, c, x) ==> x < n)
    && (forall x: nat :: x < n ==> Placed(clusters, x))
    && (forall c: nat, d: nat, x: nat :: InCluster(clusters, c, x) && InCluster(clusters, d, x) ==> c == d)
  }

  /** A member is near its leader, and nobody is near a leader of an earlier cluster. */
  ghost predicate Fits(clusters: seq<seq<nat>>, near: Near)
    requires Shaped(clusters)
  {
    && (forall c: nat, x: nat :: InCluster(clusters, c, x) ==> x == clusters[c][0] || near(clusters[c][0], x))
    && (forall c: nat, d: nat, x: nat :: InCluster(clusters, d, x) && c < d ==> !near(clusters[c][0], x))
  }

  ghost predicate IsFirstFit(clusters: seq<seq<nat>>, near: Near, n: nat) {
    Shaped(clusters) && Splits(clusters, n) && Fits(clusters, near)
  }

  lemma LeaderLeads(near: Near, l: nat, n: nat)
    requires l < n && Home(near, l) == l
    ensures MembersBelow(near, l, n) != [] && MembersBelow(near, l, n)[0] == l
  {
    var m := MembersBelow(near, l, n);
    MembersFacts(near, l, n);
    assert l in m;
    var k :| 0 <= k < |m| && m[k] == l;
    assert m[0] in m && Home(near, m[0]) == l;
  }

  /** Cluster c of the loops' result is led by the c-th leader and holds exactly the
      texts at home with it. */
  lemma BuiltCluster(near: Near, n: nat, c: nat)
    requires c < |FirstFit(near, n)|
    ensures var l := LeadersBelow(near, n)[c];
            && l < n && FirstFit(near, n)[c] != [] && FirstFit(near, n)[c][0] == l
            && Ascending(FirstFit(near, n)[c])
            && forall x: nat :: x in FirstFit(near, n)[c] <==> x < n && Home(near, x) == l
  {
    var l := LeadersBelow(near, n)[c];
    LeadersFacts(near, n);
    assert l in LeadersBelow(near, n);
    MembersFacts(near, l, n);
    LeaderLeads(near, l, n);
  }

  /** What the loops build is a first fit. */
  lemma FirstFitIsFirstFit(near: Near, n: nat)
    ensures IsFirstFit(FirstFit(near, n), near, n)
  {
    var cs, ls := FirstFit(near, n), LeadersBelow(near, n);
    forall c | 0 <= c < |cs|
      ensures cs[c] != [] && cs[c][0] == ls[c] && Ascending(cs[c])
      ensures forall x: nat :: x in cs[c] <==> x < n && Home(near, x) == ls[c]
    {
      BuiltCluster(near, n, c);
    }
    LeadersFacts(near, n);
    assert Shaped(cs);
    forall x: nat | x < n ensures Placed(cs, x) {
      HomeFacts(near, x);
      assert Home(near, x) in ls;
      var c :| 0 <= c < |ls| && ls[c] == Home(near, x);
      assert InCluster(cs, c, x);
    }
    assert Splits(cs, n);
    forall c: nat, x: nat | InCluster(cs, c, x) ensures x == cs[c][0] || near(cs[c][0], x) {
      HomeFacts(near, x);
    }
    forall c: nat, d: nat, x: nat | InCluster(cs, d, x) && c < d ensures !near(cs[c][0], x) {
      HomeFacts(near, x);
      assert ls[c] < ls[d] == Home(near, x) && ls[c] in ls;
    }
  }

  lemma ClustersByScore(matrix: seq<seq<real>>, threshold: real, clusters: seq<seq<nat>>)
    requires forall i :: 0 <= i < |matrix| ==> |matrix[i]| == |matrix|
    requires clusters == FirstFit(AtLeast(matrix, threshold), |matrix|)
    ensures forall c, x :: 0 <= c < |clusters| && x in clusters[c] ==>
              x < |matrix| && clusters[c][0] < |matrix|
              && (x == clusters[c][0] || matrix[clusters[c][0]][x] >= threshold)
    ensures forall c, d, x :: 0 <= c < d < |clusters| && x in clusters[d] ==>
              x < |matrix| && clusters[c] != [] && clusters[c][0] < |matrix| && matrix[clusters[c][0]][x] < threshold
    ensures forall x: nat :: x < |matrix| ==> Placed(clusters, x)
  {
    var near := AtLeast(matrix, threshold);
    FirstFitIsFirstFit(near, |matrix|);
    forall c | 0 <= c < |clusters| ensures clusters[c] != [] && clusters[c][0] < |matrix| {
      assert InCluster(clusters, c, clusters[c][0]);
    }
    forall c, x | 0 <= c < |clusters| && x in clusters[c]
      ensures x < |matrix| && (x == clusters[c][0] || matrix[clusters[c][0]][x] >= threshold)
    {
      assert InCluster(clusters, c, x);
    }
    forall c, d, x | 0 <= c < d < |clusters| && x in clusters[d]
      ensures x < |matrix| && matrix[clusters[c][0]][x] < threshold
    {
      assert InCluster(clusters, d, x);
    }
  }

  /** The clusters, by the scores: a text is its cluster's first or scores the threshold
      against it, and scores below it against the first of every earlier cluster. */
  method ClusterBySimilarity(matrix: seq<seq<real>>, threshold: real) returns (clusters: seq<seq<nat>>)
    requires forall i :: 0 <= i < |matrix| ==> |matrix[i]| == |matrix|
    ensures clusters == FirstFit(AtLeast(matrix, threshold), |matrix|)
    ensures forall c, x :: 0 <= c < |clusters| && x in clusters[c] ==>
              x < |matrix| && clusters[c][0] < |matrix|
              && (x == clusters[c][0] || matrix[clusters[c][0]][x] >= threshold)
    ensures forall c, d, x :: 0 <= c < d < |clusters| && x in clusters[d] ==>
              x < |matrix| && clusters[c] != [] && clusters[c][0] < |matrix| && matrix[clusters[c][0]][x] < threshold
    ensures forall x: nat :: x < |matrix| ==> Placed(clusters, x)
  {
    var n := |matrix|;
    ghost var near := AtLeast(matrix, threshold);
    var owner := new int[n](_ => -1);
    clusters := [];
    for i := 0 to n
      invariant OwnedBelow(owner[..], near, i)
      invariant clusters == ClustersBelow(near, i, n)
    {
      assert owner[..][i] == owner[i];
      NextLeader(near, i, n);
      if owner[i] == -1 {
        var members := ClaimFollowers(matrix, threshold, owner, i, |clusters|);
        clusters := clusters + [members];
      } else {
        NotALeader(owner[..], near, i);
      }
    }
    ClustersByScore(matrix, threshold, clusters);
  }

  lemma LeadIsLeast(s: seq<nat>, x: nat)
    requires Ascending(s) && x in s
    ensures s[0] <= x
  {
  }

  /** In any first fit, a text's cluster leader is its home. */
  lemma {:induction false} LeaderIsHome(clusters: seq<seq<nat>>, near: Near, n: nat, c: nat, x: nat)
    requires IsFirstFit(clusters, near, n) && InCluster(clusters, c, x)
    ensures Home(near, x) == clusters[c][0]
    decreases x
  {
    var lead := clusters[c][0];
    LeadIsLeast(clusters[c], x);
    if lead < x {
      assert InCluster(clusters, c, lead);
      LeaderIsHome(clusters, near, n, c, lead);
    }
    HomeFacts(near, x);
    forall l: nat | l < lead && Home(near, l) == l ensures !near(l, x) {
      assert Placed(clusters, l);
      var d: nat :| InCluster(clusters, d, l);
      LeaderIsHome(clusters, near, n, d, l);
      EarlierLeader(clusters, d, c);
    }
  }

  lemma EarlierLeader(clusters: seq<seq<nat>>, d: nat, c: nat)
    requires Shaped(clusters) && d < |clusters| && c < |clusters| && clusters[d][0] < clusters[c][0]
    ensures d < c
  {
  }

  lemma MembersAreHomed(clusters: seq<seq<nat>>, near: Near, n: nat, c: nat, x: nat)
    requires IsFirstFit(clusters, near, n) && c < |clusters|
    ensures x in clusters[c] <==> x < n && Home(near, x) == clusters[c][0]
  {
    if x in clusters[c] {
      assert InCluster(clusters, c, x);
      LeaderIsHome(clusters, near, n, c, x);
    }
    if x < n && Home(near, x) == clusters[c][0] {
      assert Placed(clusters, x);
      var d: nat :| InCluster(clusters, d, x);
      LeaderIsHome(clusters, near, n, d, x);
      SameLeader(clusters, c, d);
    }
  }

  lemma SameLeader(clusters: seq<seq<nat>>, c: nat, d: nat)
    requires Shaped(clusters) && c < |clusters| && d < |clusters| && clusters[c][0] == clusters[d][0]
    ensures c == d
  {
  }

  function Leads(clusters: seq<seq<nat>>): seq<nat>
    requires forall c :: 0 <= c < |clusters| ==> clusters[c] != []
  {
    seq(|clusters|, c requires 0 <= c < |clusters| => clusters[c][0])
  }

  /** The leaders of any first fit are exactly the texts at home with themselves. */
  lemma LeadsAreHomes(clusters: seq<seq<nat>>, near: Near, n: nat)
    requires IsFirstFit(clusters, near, n)
    ensures Leads(clusters) == LeadersBelow(near, n)
  {
    var ls := Leads(clusters);
    LeadersFacts(near, n);
    forall x: nat ensures x in ls <==> x in LeadersBelow(near, n) {
      if x in ls {
        var c :| 0 <= c < |ls| && ls[c] == x;
        assert InCluster(clusters, c, x);
        LeaderIsHome(clusters, near, n, c, x);
      }
      if x < n && Home(near, x) == x {
        assert Placed(clusters, x);
        var c: nat :| InCluster(clusters, c, x);
        LeaderIsHome(clusters, near, n, c, x);
        assert ls[c] == x;
      }
    }
    AscendingUnique(ls, LeadersBelow(near, n));
  }

  /** The rule leaves no choice: any first fit is the one the loops build. */
  lemma FirstFitIsUnique(clusters: seq<seq<nat>>, near: Near, n: nat)
    requires IsFirstFit(clusters, near, n)
    ensures clusters == FirstFit(near, n)
  {
    LeadsAreHomes(clusters, near, n);
    assert |clusters| == |Leads(clusters)|;
    forall c | 0 <= c < |clusters| ensures clusters[c] == FirstFit(near, n)[c] {
      assert Leads(clusters)[c] == LeadersBelow(near, n)[c];
      BuiltCluster(near, n, c);
      forall x: nat ensures x in clusters[c] <==> x in FirstFit(near, n)[c] {
        MembersAreHomed(clusters, near, n, c, x);
      }
      AscendingUnique(clusters[c], FirstFit(near, n)[c]);
    }
  }

  lemma LastIsGreatest(s: seq<nat>, x: nat)
    requires Ascending(s) && x in s
    ensures x <= s[|s| - 1]
    ensures x != s[|s| - 1] ==> x in s[..|s| - 1]
  {
    var i :| 0 <= i < |s| && s[i] == x;
    assert i < |s| - 1 ==> s[..|s| - 1][i] == x;
  }

  lemma LastOnlyLast(s: seq<nat>)
    requires Ascending(s) && s != []
    ensures s[|s| - 1] !in s[..|s| - 1] && Ascending(s[..|s| - 1])
    ensures forall x: nat :: x in s[..|s| - 1] ==> x in s
  {
  }

  lemma {:induction false} AscendingUnique(a: seq<nat>, b: seq<nat>)
    requires Ascending(a) && Ascending(b)
    requires forall x: nat :: x in a <==> x in b
    ensures a == b
    decreases |a|
  {
    if b != [] {
      var x := b[0];
      assert x in b && x in a;
    }
    if a != [] {
      var la := a[|a| - 1];
      assert la in a && b != [];
      var lb := b[|b| - 1];
      LastIsGreatest(a, lb);
      LastIsGreatest(b, la);
      LastOnlyLast(a);
      LastOnlyLast(b);
      var fa, fb := a[..|a| - 1], b[..|b| - 1];
      forall x: nat ensures x in fa <==> x in fb {
        if x in fa {
          LastIsGreatest(b, x);
        }
        if x in fb {
          LastIsGreatest(a, x);
        }
      }
      AscendingUnique(fa, fb);
      assert a == fa + [la] && b == fb + [lb];
    }
  }
}
