/** Building a coverage tree in place: fresh branches and nodes, the adversary's
    findings merged into the live node objects, and the template store that grows
    by what people catch. */
module CoverageBuild {
  import opened Prelude
  import opened CoverageTree

  class Node {
    var concept: string
    var covered: Coverage
    var detail: string
    var evidence: Evidence
    var contested: bool
    var added: bool

    function Value(): NodeVal
      reads this
    {
      NodeVal(concept, covered, detail, evidence, contested, added)
    }

    constructor (v: NodeVal)
      ensures Value() == v
    {
      concept, covered, detail, evidence, contested, added :=
        v.concept, v.covered, v.detail, v.evidence, v.contested, v.added;
    }
  }

  class Branch {
    const domain: string
    var nodes: seq<Node>

    ghost predicate Valid()
      reads this
    {
      NoDup(nodes)
    }

    ghost function Values(): seq<NodeVal>
      reads this, nodes
    {
      seq(|nodes|, i requires 0 <= i < |nodes| reads this, nodes => nodes[i].Value())
    }

    ghost function Value(): BranchVal
      reads this, nodes
    {
      BranchVal(domain, Values())
    }

    constructor (domain: string, values: seq<NodeVal>)
      ensures Valid() && this.domain == domain && Values() == values
      ensures fresh(nodes)
    {
      this.domain := domain;
      nodes := [];
      new;
      for i := 0 to |values|
        invariant |nodes| == i && NoDup(nodes) && fresh(nodes)
        invariant forall k :: 0 <= k < i ==> nodes[k].Value() == values[k]
      {
        var node := new Node(values[i]);
        nodes := nodes + [node];
      }
    }

    /** What the adversary is shown. */
    method Snapshot() returns (v: BranchVal)
      ensures v == Value()
    {
      var values := [];
      for i := 0 to |nodes|
        invariant values == Values()[..i]
      {
        values := values + [nodes[i].Value()];
      }
      v := BranchVal(domain, values);
    }

    method Find(concept: string) returns (i: nat)
      ensures i == FindConcept(Values(), concept)
    {
      i := 0;
      while i < |nodes| && nodes[i].concept != concept
        invariant i <= |nodes|
        invariant forall k :: 0 <= k < i ==> nodes[k].concept != concept
      {
        i := i + 1;
      }
      FindIs(Values(), concept, i);
    }

    /** One finding: contest the node of that concept, or add it as the adversary's. */
    method MergeFinding(finding: NodeVal)
      requires Valid()
      modifies this`nodes, nodes
      ensures Valid() && Values() == MergeOne(old(Values()), finding)
      ensures forall j :: 0 <= j < |nodes| ==> nodes[j] in old(nodes) || fresh(nodes[j])
    {
      var i := Find(finding.concept);
      if i < |nodes| {
        nodes[i].contested := true;
        if finding.detail != "" {
          nodes[i].detail := finding.detail;
        }
        assert forall k :: 0 <= k < |nodes| && k != i ==> nodes[k].Value() == old(nodes[k].Value());
      } else {
        var node := new Node(finding.(added := true, contested := true));
        nodes := nodes + [node];
      }
    }

    method MergeAll(findings: seq<NodeVal>)
      requires Valid()
      modifies this`nodes, nodes
      ensures Valid() && Values() == Merge(old(Values()), findings)
      ensures forall j :: 0 <= j < |nodes| ==> nodes[j] in old(nodes) || fresh(nodes[j])
    {
      for k := 0 to |findings|
        invariant Valid() && Values() == Merge(old(Values()), findings[..k])
        invariant forall j :: 0 <= j < |nodes| ==> nodes[j] in old(nodes) || fresh(nodes[j])
      {
        MergeNext(old(Values()), findings, k);
        MergeFinding(findings[k]);
      }
      assert findings[..|findings|] == findings;
    }
  }

  lemma MergeNext(nodes: seq<NodeVal>, findings: seq<NodeVal>, k: nat)
    requires k < |findings|
    ensures Merge(nodes, findings[..k + 1]) == MergeOne(Merge(nodes, findings[..k]), findings[k])
  {
    assert findings[..k + 1][..k] == findings[..k];
  }

  lemma {:induction false} FindIs(nodes: seq<NodeVal>, concept: string, i: nat)
    requires i <= |nodes| && (i < |nodes| ==> nodes[i].concept == concept)
    requires forall k :: 0 <= k < i ==> nodes[k].concept != concept
    ensures i == FindConcept(nodes, concept)
  {
  }

  // ---- the tree --------------------------------------------------------------------------------

  /** No branch and no node object is shared. */
  ghost predicate Separate(branches: seq<Branch>)
    reads branches
  {
    && (forall i :: 0 <= i < |branches| ==> branches[i].Valid())
    && (forall i, j :: 0 <= i < j < |branches| ==>
          branches[i] != branches[j] && forall n :: n in branches[i].nodes ==> n !in branches[j].nodes)
  }

  class Tree {
    const branches: seq<Branch>
    var status: AdversaryStatus

    constructor (branches: seq<Branch>, status: AdversaryStatus)
      ensures this.branches == branches && this.status == status
    {
      this.branches, this.status := branches, status;
    }
  }

  /** What the builder fills the n-th branch with, given its domain. */
  type Populator = (nat, string) -> seq<NodeVal>

  function Populated(domains: seq<string>, populate: Populator): seq<BranchVal> {
    seq(|domains|, i requires 0 <= i < |domains| => BranchVal(domains[i], populate(i, domains[i])))
  }

  ghost function NodesOf(branches: seq<Branch>): set<Node>
    reads branches
  {
    set i, j | 0 <= i < |branches| && 0 <= j < |branches[i].nodes| :: branches[i].nodes[j]
  }

  /** The live branches hold exactly these values. */
  ghost predicate Show(branches: seq<Branch>, values: seq<BranchVal>)
    reads branches, NodesOf(branches)
  {
    |branches| == |values| && forall i :: 0 <= i < |branches| ==> branches[i].Value() == values[i]
  }

  method AddBranch(branches: seq<Branch>, domain: string, nodes: seq<NodeVal>) returns (more: seq<Branch>)
    requires Separate(branches)
    ensures |more| == |branches| + 1 && more[..|branches|] == branches && Separate(more)
    ensures fresh(more[|branches|]) && fresh(more[|branches|].nodes)
    ensures more[|branches|].Value() == BranchVal(domain, nodes)
  {
    var branch := new Branch(domain, nodes);
    more := branches + [branch];
    assert forall i :: 0 <= i < |branches| ==> more[i] == branches[i];
  }

  method Populate(domains: seq<string>, populate: Populator) returns (branches: seq<Branch>)
    ensures Separate(branches) && Show(branches, Populated(domains, populate))
    ensures fresh(branches) && fresh(NodesOf(branches))
  {
    branches := [];
    for i := 0 to |domains|
      invariant |branches| == i && Separate(branches)
      invariant forall k :: 0 <= k < i ==> fresh(branches[k]) && fresh(branches[k].nodes)
      invariant forall k :: 0 <= k < i ==> branches[k].Value() == BranchVal(domains[k], populate(k, domains[k]))
    {
      ghost var before := branches;
      branches := AddBranch(branches, domains[i], populate(i, domains[i]));
      assert forall k :: 0 <= k < i ==> branches[k] == before[k];
    }
  }

  /** Merging into one branch leaves the others as they are. */
  method JudgeBranch(branches: seq<Branch>, b: nat, findings: seq<NodeVal>)
    requires b < |branches| && Separate(branches)
    modifies branches[b], branches[b].nodes
    ensures Separate(branches)
    ensures branches[b].Values() == Merge(old(branches[b].Values()), findings)
    ensures forall i :: 0 <= i < |branches| && i != b ==> branches[i].Value() == old(branches[i].Value())
    ensures forall i :: 0 <= i < |branches| && i != b ==> branches[i].nodes == old(branches[i].nodes)
  {
    branches[b].MergeAll(findings);
    forall i | 0 <= i < |branches| && i != b
      ensures branches[i].nodes == old(branches[i].nodes) && branches[i].Value() == old(branches[i].Value())
    {
      assert branches[i] != branches[b];
      forall k | 0 <= k < |branches[i].nodes|
        ensures branches[i].nodes[k].Value() == old(branches[i].nodes[k].Value())
      {
        assert branches[i].nodes[k] in branches[i].nodes;
        assert branches[i].nodes[k] !in old(branches[b].nodes);
      }
    }
  }

  lemma JudgedNext(values: seq<BranchVal>, adversary: Adversary, n: nat)
    requires n < |values| && adversary(n, values[n]).Findings?
    ensures Judged(values, adversary, n + 1)
            == Judged(values, adversary, n)
               [n := values[n].(nodes := Merge(values[n].nodes, adversary(n, values[n]).nodes))]
  {
  }

  lemma {:induction false} FirstRaiseIs(values: seq<BranchVal>, adversary: Adversary, n: nat)
    requires n <= |values| && (n < |values| ==> adversary(n, values[n]).Raised?)
    requires forall i :: 0 <= i < n ==> adversary(i, values[i]).Findings?
    ensures n == FirstRaise(values, adversary)
  {
    var first := FirstRaise(values, adversary);
    assert first < |values| ==> adversary(first, values[first]).Raised?;
  }

  /** One branch's turn: the adversary sees it and its findings are merged. */
  method TakeTurn(branches: seq<Branch>, adversary: Adversary, b: nat, ghost values: seq<BranchVal>)
    returns (reply: Reply)
    requires b < |branches| == |values| && Separate(branches) && Show(branches, Judged(values, adversary, b))
    modifies branches[b], branches[b].nodes
    ensures Separate(branches) && reply == adversary(b, values[b])
    ensures reply.Raised? ==> Show(branches, Judged(values, adversary, b))
    ensures reply.Findings? ==> Show(branches, Judged(values, adversary, b + 1))
    ensures forall i :: 0 <= i < |branches| && i != b ==> branches[i].nodes == old(branches[i].nodes)
  {
    assert branches[b].Value() == values[b];
    var snapshot := branches[b].Snapshot();
    reply := adversary(b, snapshot);
    if reply.Findings? {
      JudgedNext(values, adversary, b);
      JudgeBranch(branches, b, reply.nodes);
    }
  }

  /** Judge every branch in turn until one raises. */
  method JudgeAll(branches: seq<Branch>, adversary: Adversary, ghost values: seq<BranchVal>)
    returns (status: AdversaryStatus)
    requires Separate(branches) && Show(branches, values)
    modifies branches, NodesOf(branches)
    ensures Separate(branches) && Show(branches, BuiltBranches(values, Some(adversary)))
    ensures status == BuiltStatus(values, Some(adversary))
  {
    var foundAny := false;
    assert Judged(values, adversary, 0) == values;
    for b := 0 to |branches|
      invariant Separate(branches) && Show(branches, Judged(values, adversary, b))
      invariant forall i :: b <= i < |branches| ==> branches[i].nodes == old(branches[i].nodes)
      invariant forall i :: 0 <= i < b ==> adversary(i, values[i]).Findings?
      invariant foundAny <==> FoundAny(values, adversary, b)
    {
      var reply := TakeTurn(branches, adversary, b, values);
      if reply.Raised? {
        FirstRaiseIs(values, adversary, b);
        return NotRun;
      }
      foundAny := foundAny || reply.nodes != [];
    }
    FirstRaiseIs(values, adversary, |branches|);
    status := if foundAny then FoundGaps else Clean;
  }

  /** The adversary, if there is one, attacks each branch; without it nothing is verified. */
  method Attack(branches: seq<Branch>, adversary: Option<Adversary>, ghost values: seq<BranchVal>)
    returns (status: AdversaryStatus)
    requires Separate(branches) && Show(branches, values)
    modifies branches, NodesOf(branches)
    ensures Separate(branches) && Show(branches, BuiltBranches(values, adversary))
    ensures status == BuiltStatus(values, adversary)
  {
    status := NotRun;
    if adversary.Some? {
      status := JudgeAll(branches, adversary.value, values);
    }
  }

  /** Populate every branch, then let the adversary attack each in turn. */
  method BuildTree(domains: seq<string>, populate: Populator, adversary: Option<Adversary>) returns (tree: Tree)
    ensures Separate(tree.branches)
    ensures Show(tree.branches, BuiltBranches(Populated(domains, populate), adversary))
    ensures tree.status == BuiltStatus(Populated(domains, populate), adversary)
  {
    var branches := Populate(domains, populate);
    var status := Attack(branches, adversary, Populated(domains, populate));
    tree := new Tree(branches, status);
  }

  /** What it means for the live tree to hold these values: every column of every node;
      and no node object stands in two places. */
  lemma LiveColumns(branches: seq<Branch>, values: seq<BranchVal>, b: nat, n: nat)
    requires Separate(branches) && Show(branches, values) && b < |branches| && n < |branches[b].nodes|
    ensures |values| == |branches| && values[b].domain == branches[b].domain
            && |values[b].nodes| == |branches[b].nodes|
    ensures var node := branches[b].nodes[n];
            values[b].nodes[n]
            == NodeVal(node.concept, node.covered, node.detail, node.evidence, node.contested, node.added)
    ensures forall c, m :: 0 <= c < |branches| && 0 <= m < |branches[c].nodes| && (c != b || m != n) ==>
              branches[c].nodes[m] != branches[b].nodes[n]
  {
    assert branches[b].Value() == values[b];
    assert branches[b].nodes[n] in branches[b].nodes;
    forall c, m | 0 <= c < |branches| && 0 <= m < |branches[c].nodes| && (c != b || m != n)
      ensures branches[c].nodes[m] != branches[b].nodes[n]
    {
      assert branches[c].nodes[m] in branches[c].nodes;
      assert branches[b].Valid();
    }
  }
}
