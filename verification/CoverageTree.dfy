/** The coverage tree as values: what merging an adversary's findings does to a
    branch, and which verification status a build may claim. */
module CoverageTree {
  import opened Prelude

  datatype Coverage = Covered | Partial | Missing | NotApplicable

  datatype Evidence = Measured | ReadDirectly | Inferred | NoEvidence

  datatype AdversaryStatus = Clean | FoundGaps | NotRun

  datatype NodeVal = NodeVal(concept: string, covered: Coverage, detail: string, evidence: Evidence, contested: bool,
                             added: bool)

  datatype BranchVal = BranchVal(domain: string, nodes: seq<NodeVal>)

  /** An adversary either could not run, or returns what it would add or contest. */
  datatype Reply = Raised | Findings(nodes: seq<NodeVal>)

  /** What the adversary answers on its n-th call in a build, shown that branch. */
  type Adversary = (nat, BranchVal) -> Reply

  // ---- merging --------------------------------------------------------------------------------

  /** The first node with this concept, |nodes| if there is none. */
  function FindConcept(nodes: seq<NodeVal>, concept: string): (i: nat)
    ensures i <= |nodes|
    ensures i < |nodes| ==> nodes[i].concept == concept
    ensures forall j :: 0 <= j < i ==> nodes[j].concept != concept
  {
    if nodes == [] then 0
    else if nodes[0].concept == concept then 0
    else FindConcept(nodes[1..], concept) + 1
  }

  function Contest(node: NodeVal, finding: NodeVal): NodeVal {
    node.(contested := true, detail := if finding.detail != "" then finding.detail else node.detail)
  }

  function MergeOne(nodes: seq<NodeVal>, finding: NodeVal): seq<NodeVal> {
    var i := FindConcept(nodes, finding.concept);
    if i < |nodes| then nodes[i := Contest(nodes[i], finding)]
    else nodes + [finding.(added := true, contested := true)]
  }

  function Merge(nodes: seq<NodeVal>, findings: seq<NodeVal>): seq<NodeVal> {
    if findings == [] then nodes
    else MergeOne(Merge(nodes, findings[..|findings| - 1]), findings[|findings| - 1])
  }

  /** The adversary may touch a node's detail and contest it, and nothing else: which
      concept it is, the builder's claim about it, its evidence and who listed it stay. */
  predicate SameClaim(a: NodeVal, b: NodeVal) {
    b == a.(detail := b.detail, contested := b.contested)
  }

  ghost predicate Distinct(nodes: seq<NodeVal>) {
    forall i, j :: 0 <= i < j < |nodes| ==> nodes[i].concept != nodes[j].concept
  }

  predicate Names(nodes: seq<NodeVal>, concept: string) {
    exists i :: 0 <= i < |nodes| && nodes[i].concept == concept
  }

  /** No builder node is removed, moved or has its claim changed; a node whose concept
      no finding names is untouched; whatever is new is marked as the adversary's. */
  lemma {:induction false} MergeKeepsBuilder(nodes: seq<NodeVal>, findings: seq<NodeVal>)
    ensures |nodes| <= |Merge(nodes, findings)|
    ensures forall i :: 0 <= i < |nodes| ==>
              SameClaim(nodes[i], Merge(nodes, findings)[i])
              && (nodes[i].contested ==> Merge(nodes, findings)[i].contested)
              && (!Names(findings, nodes[i].concept) ==> Merge(nodes, findings)[i] == nodes[i])
    ensures forall i :: |nodes| <= i < |Merge(nodes, findings)| ==>
              Merge(nodes, findings)[i].added && Merge(nodes, findings)[i].contested
              && Names(findings, Merge(nodes, findings)[i].concept)
  {
    if findings != [] {
      var init, last := findings[..|findings| - 1], findings[|findings| - 1];
      MergeKeepsBuilder(nodes, init);
      forall concept | Names(init, concept) ensures Names(findings, concept) {
        var k :| 0 <= k < |init| && init[k].concept == concept;
        assert findings[k].concept == concept;
      }
      assert Names(findings, last.concept);
    }
  }

  predicate ShowsContested(nodes: seq<NodeVal>, concept: string) {
    exists i :: 0 <= i < |nodes| && nodes[i].concept == concept && nodes[i].contested
  }

  /** Every concept the adversary named ends up contested. */
  lemma {:induction false} FindingsAreContested(nodes: seq<NodeVal>, findings: seq<NodeVal>, k: nat)
    requires k < |findings|
    ensures ShowsContested(Merge(nodes, findings), findings[k].concept)
  {
    var init, last := findings[..|findings| - 1], findings[|findings| - 1];
    var before, after := Merge(nodes, init), Merge(nodes, findings);
    var at := FindConcept(before, last.concept);
    if k == |findings| - 1 {
      assert after[at].concept == last.concept && after[at].contested;
    } else {
      FindingsAreContested(nodes, init, k);
      var i :| 0 <= i < |before| && before[i].concept == init[k].concept && before[i].contested;
      assert after[i].concept == findings[k].concept && after[i].contested;
    }
  }

  /** Distinct concepts stay distinct, and every concept stays represented. */
  lemma {:induction false} MergeKeepsMece(nodes: seq<NodeVal>, findings: seq<NodeVal>)
    ensures Distinct(nodes) ==> Distinct(Merge(nodes, findings))
    ensures forall concept :: Names(nodes, concept) ==> Names(Merge(nodes, findings), concept)
  {
    if findings != [] {
      MergeKeepsMece(nodes, findings[..|findings| - 1]);
    }
    MergeKeepsBuilder(nodes, findings);
    forall concept | Names(nodes, concept) ensures Names(Merge(nodes, findings), concept) {
      var i :| 0 <= i < |nodes| && nodes[i].concept == concept;
      assert Merge(nodes, findings)[i].concept == concept;
    }
  }

  // ---- what a merged node holds ------------------------------------------------------------------

  /** The first finding of its concept. */
  ghost predicate NamesFirst(findings: seq<NodeVal>, k: int, concept: string) {
    0 <= k < |findings| && findings[k].concept == concept
    && forall j :: 0 <= j < k ==> findings[j].concept != concept
  }

  /** The last finding that says anything about this concept. */
  ghost predicate HasLastWord(findings: seq<NodeVal>, k: int, concept: string) {
    0 <= k < |findings| && findings[k].concept == concept && findings[k].detail != ""
    && forall j :: k < j < |findings| && findings[j].concept == concept ==> findings[j].detail == ""
  }

  predicate Silent(findings: seq<NodeVal>, concept: string) {
    forall j :: 0 <= j < |findings| && findings[j].concept == concept ==> findings[j].detail == ""
  }

  /** Where the first node of a concept is does not change when nodes follow. */
  lemma {:induction false} FindInFront(nodes: seq<NodeVal>, more: seq<NodeVal>, concept: string)
    requires |nodes| <= |more| && forall j :: 0 <= j < |nodes| ==> nodes[j].concept == more[j].concept
    ensures FindConcept(nodes, concept) < |nodes| ==> FindConcept(more, concept) == FindConcept(nodes, concept)
    ensures FindConcept(more, concept) < |nodes| ==> FindConcept(more, concept) == FindConcept(nodes, concept)
  {
    var i, j := FindConcept(nodes, concept), FindConcept(more, concept);
    assert i < |nodes| ==> more[i].concept == concept;
    assert j < |nodes| ==> nodes[j].concept == concept;
  }

  /** One finding changes the first node of its concept and no other: it is contested, and
      takes the finding's detail if there is any. */
  lemma OneFinding(nodes: seq<NodeVal>, finding: NodeVal, i: nat)
    requires i < |MergeOne(nodes, finding)|
    ensures var n := MergeOne(nodes, finding)[i];
            if i == FindConcept(nodes, finding.concept) then
              && n.concept == finding.concept && n.contested
              && n.detail == (if finding.detail == "" && i < |nodes| then nodes[i].detail else finding.detail)
              && n.covered == (if i < |nodes| then nodes[i].covered else finding.covered)
              && n.evidence == (if i < |nodes| then nodes[i].evidence else finding.evidence)
            else i < |nodes| && n == nodes[i]
  {
  }

  lemma SilentSnoc(findings: seq<NodeVal>, concept: string)
    requires findings != []
    ensures var init, last := findings[..|findings| - 1], findings[|findings| - 1];
            Silent(findings, concept) <==> Silent(init, concept) && (last.concept == concept ==> last.detail == "")
  {
    var init, last := findings[..|findings| - 1], findings[|findings| - 1];
    assert forall j :: 0 <= j < |init| ==> init[j] == findings[j];
  }

  lemma LastWordSnoc(findings: seq<NodeVal>, k: int, concept: string)
    requires findings != [] && HasLastWord(findings, k, concept)
    ensures var init, last := findings[..|findings| - 1], findings[|findings| - 1];
            if k == |findings| - 1 then last.concept == concept && last.detail != ""
            else HasLastWord(init, k, concept) && (last.concept == concept ==> last.detail == "")
                 && findings[k] == init[k]
  {
  }

  /** The first node of a concept ends with the detail of the last finding that gave one,
      or its own if none did; any later node of the same concept is left alone. */
  lemma {:induction false} DetailIsLastWord(nodes: seq<NodeVal>, findings: seq<NodeVal>, i: nat, k: int)
    requires i < |Merge(nodes, findings)|
    ensures var m := Merge(nodes, findings);
            var concept := m[i].concept;
            if FindConcept(m, concept) != i then i < |nodes| && m[i] == nodes[i]
            else
              && (HasLastWord(findings, k, concept) ==> m[i].detail == findings[k].detail)
              && (Silent(findings, concept) ==> m[i].detail == if i < |nodes| then nodes[i].detail else "")
  {
    if findings != [] {
      var init, last := findings[..|findings| - 1], findings[|findings| - 1];
      var before, m := Merge(nodes, init), Merge(nodes, findings);
      var concept := m[i].concept;
      OneFinding(before, last, i);
      SilentSnoc(findings, concept);
      if HasLastWord(findings, k, concept) {
        LastWordSnoc(findings, k, concept);
      }
      forall j | 0 <= j < |before| ensures before[j].concept == m[j].concept {
        OneFinding(before, last, j);
      }
      FindInFront(before, m, concept);
      if i < |before| {
        DetailIsLastWord(nodes, init, i, k);
      } else {
        NoneForgotten(nodes, init, concept);
      }
    }
  }

  /** Every concept listed or found has a node after merging. */
  lemma NoneForgotten(nodes: seq<NodeVal>, findings: seq<NodeVal>, concept: string)
    ensures |nodes| <= |Merge(nodes, findings)|
    ensures Names(findings, concept) || Names(nodes, concept) ==>
              FindConcept(Merge(nodes, findings), concept) < |Merge(nodes, findings)|
  {
    if k :| 0 <= k < |findings| && findings[k].concept == concept {
      FindingsAreContested(nodes, findings, k);
    }
    MergeKeepsMece(nodes, findings);
    MergeKeepsBuilder(nodes, findings);
  }

  /** The node carries the coverage and evidence of the first finding of its concept. */
  ghost predicate AsFirstFound(findings: seq<NodeVal>, n: NodeVal) {
    exists k :: NamesFirst(findings, k, n.concept)
                && n.covered == findings[k].covered && n.evidence == findings[k].evidence
  }

  lemma AsFirstFoundSnoc(findings: seq<NodeVal>, n: NodeVal)
    requires findings != []
    ensures AsFirstFound(findings[..|findings| - 1], n) ==> AsFirstFound(findings, n)
    ensures var init, last := findings[..|findings| - 1], findings[|findings| - 1];
            !Names(init, n.concept) && last.concept == n.concept && last.covered == n.covered
            && last.evidence == n.evidence ==>
              AsFirstFound(findings, n)
  {
    var init, last := findings[..|findings| - 1], |findings| - 1;
    if AsFirstFound(init, n) {
      var k :| NamesFirst(init, k, n.concept) && n.covered == init[k].covered && n.evidence == init[k].evidence;
      assert NamesFirst(findings, k, n.concept);
    }
    if !Names(init, n.concept) && findings[last].concept == n.concept {
      assert forall j :: 0 <= j < last ==> init[j] == findings[j];
      assert NamesFirst(findings, last, n.concept);
    }
  }

  /** An added node is of a concept the builder did not list, and holds what the first
      finding of that concept says of coverage and evidence. */
  lemma {:induction false} AddedAsFound(nodes: seq<NodeVal>, findings: seq<NodeVal>, i: nat)
    requires |nodes| <= i < |Merge(nodes, findings)|
    ensures !Names(nodes, Merge(nodes, findings)[i].concept) && AsFirstFound(findings, Merge(nodes, findings)[i])
  {
    var init, last := findings[..|findings| - 1], findings[|findings| - 1];
    var before, n := Merge(nodes, init), Merge(nodes, findings)[i];
    OneFinding(before, last, i);
    AsFirstFoundSnoc(findings, n);
    if i < |before| {
      AddedAsFound(nodes, init, i);
      assert AsFirstFound(init, before[i]);
      SameFirstFound(init, before[i], n);
    } else {
      NoneForgotten(nodes, init, n.concept);
    }
  }

  lemma SameFirstFound(findings: seq<NodeVal>, a: NodeVal, b: NodeVal)
    requires AsFirstFound(findings, a) && SameClaim(a, b)
    ensures AsFirstFound(findings, b)
  {
    var k :| NamesFirst(findings, k, a.concept) && a.covered == findings[k].covered
             && a.evidence == findings[k].evidence;
  }

  // ---- mutually exclusive, collectively exhaustive ------------------------------------------------

  datatype Mece = Mece(ok: bool, overlap: set<string>, missing: seq<string>)

  function Unnamed(nodes: seq<NodeVal>): string -> bool {
    (concept: string) => !Names(nodes, concept)
  }

  function CheckMece(nodes: seq<NodeVal>, template: seq<string>): Mece {
    var overlap := set i, j | 0 <= i < j < |nodes| && nodes[i].concept == nodes[j].concept :: nodes[i].concept;
    var missing := Filter(template, Unnamed(nodes));
    Mece(overlap == {} && missing == [], overlap, missing)
  }

  /** The check passes exactly on branches with distinct concepts that cover the
      template, and merging findings cannot make a passing branch fail. */
  lemma MeceMeansDistinctAndExhaustive(nodes: seq<NodeVal>, template: seq<string>, findings: seq<NodeVal>)
    ensures CheckMece(nodes, template).ok <==>
              Distinct(nodes) && forall c :: c in template ==> Names(nodes, c)
    ensures CheckMece(nodes, template).ok ==> CheckMece(Merge(nodes, findings), template).ok
  {
    MeceIff(nodes, template);
    MeceIff(Merge(nodes, findings), template);
    MergeKeepsMece(nodes, findings);
  }

  lemma MeceIff(nodes: seq<NodeVal>, template: seq<string>)
    ensures CheckMece(nodes, template).ok <==>
              Distinct(nodes) && forall c :: c in template ==> Names(nodes, c)
  {
    var m := CheckMece(nodes, template);
    if !Distinct(nodes) {
      var i, j :| 0 <= i < j < |nodes| && nodes[i].concept == nodes[j].concept;
      assert nodes[i].concept in m.overlap;
    }
    if m.missing != [] {
      assert m.missing[0] in m.missing;
    }
  }

  /** The report names the concepts that occur twice, and what of the template is absent,
      in the template's order. */
  lemma MeceReport(nodes: seq<NodeVal>, template: seq<string>, concept: string)
    ensures var m := CheckMece(nodes, template);
            && (concept in m.overlap <==>
                  exists i, j :: 0 <= i < j < |nodes| && nodes[i].concept == concept == nodes[j].concept)
            && (concept in m.missing <==> concept in template && !Names(nodes, concept))
            && (m.missing == template <==> forall c :: c in template ==> !Names(nodes, c))
  {
    if forall c :: c in template ==> !Names(nodes, c) {
      FilterAll(template, Unnamed(nodes));
    }
  }

  // ---- building -------------------------------------------------------------------------------------

  /** The branches after the first n have been judged. A raise stops the judging; what
      was merged before it stays. */
  function Judged(branches: seq<BranchVal>, adversary: Adversary, n: nat): seq<BranchVal>
    requires n <= |branches|
  {
    seq(|branches|, i requires 0 <= i < |branches| =>
      if i < n && adversary(i, branches[i]).Findings?
      then branches[i].(nodes := Merge(branches[i].nodes, adversary(i, branches[i]).nodes))
      else branches[i])
  }

  /** The first branch the adversary raises on, |branches| if it never does. */
  function FirstRaise(branches: seq<BranchVal>, adversary: Adversary, from: nat := 0): (n: nat)
    requires from <= |branches|
    ensures from <= n <= |branches|
    ensures n < |branches| ==> adversary(n, branches[n]).Raised?
    ensures forall i :: from <= i < n ==> adversary(i, branches[i]).Findings?
    decreases |branches| - from
  {
    if from == |branches| || adversary(from, branches[from]).Raised? then from
    else FirstRaise(branches, adversary, from + 1)
  }

  predicate FoundAny(branches: seq<BranchVal>, adversary: Adversary, n: nat)
    requires n <= |branches|
  {
    exists i :: 0 <= i < n && adversary(i, branches[i]).Findings? && adversary(i, branches[i]).nodes != []
  }

  function BuiltBranches(branches: seq<BranchVal>, adversary: Option<Adversary>): seq<BranchVal> {
    if adversary.None? then branches
    else Judged(branches, adversary.value, FirstRaise(branches, adversary.value))
  }

  function BuiltStatus(branches: seq<BranchVal>, adversary: Option<Adversary>): AdversaryStatus {
    if adversary.None? || FirstRaise(branches, adversary.value) < |branches| then NotRun
    else if FoundAny(branches, adversary.value, |branches|) then FoundGaps
    else Clean
  }

  /** The status is honest: clean only if the adversary answered for every branch and
      found nothing anywhere, found-gaps only if it answered for every branch and found
      something, and any absence or raise leaves the tree unverified. */
  lemma StatusIsHonest(branches: seq<BranchVal>, adversary: Option<Adversary>)
    ensures BuiltStatus(branches, adversary) == Clean <==>
              adversary.Some? && forall i :: 0 <= i < |branches| ==> adversary.value(i, branches[i]) == Findings([])
    ensures BuiltStatus(branches, adversary) == FoundGaps <==>
              adversary.Some? && (forall i :: 0 <= i < |branches| ==> adversary.value(i, branches[i]).Findings?)
              && exists i :: 0 <= i < |branches| && adversary.value(i, branches[i]) != Findings([])
    ensures BuiltStatus(branches, adversary) == NotRun <==>
              adversary.None? || exists i :: 0 <= i < |branches| && adversary.value(i, branches[i]).Raised?
  {
    if adversary.Some? {
      var n := FirstRaise(branches, adversary.value);
      assert forall i :: 0 <= i < |branches| && n == |branches| ==> adversary.value(i, branches[i]).Findings?;
    }
  }

  /** A branch shows the adversary's findings on it exactly when the adversary answered for
      it and for every branch before it. */
  lemma JudgedInTurn(branches: seq<BranchVal>, adversary: Option<Adversary>, b: nat)
    requires b < |branches| == |BuiltBranches(branches, adversary)|
    ensures BuiltBranches(branches, adversary)[b].nodes
            == if adversary.Some? && forall i :: 0 <= i <= b ==> adversary.value(i, branches[i]).Findings?
               then Merge(branches[b].nodes, adversary.value(b, branches[b]).nodes)
               else branches[b].nodes
  {
    if adversary.Some? {
      var n := FirstRaise(branches, adversary.value);
      assert n <= b ==> adversary.value(n, branches[n]).Raised?;
    }
  }

  /** Whatever the status, no branch disappears and no builder node in it is removed
      or has its claim changed. */
  lemma BuildKeepsBuilder(branches: seq<BranchVal>, adversary: Option<Adversary>, b: nat)
    requires b < |branches|
    ensures var after := BuiltBranches(branches, adversary);
            && |after| == |branches| && after[b].domain == branches[b].domain
            && |branches[b].nodes| <= |after[b].nodes|
            && (forall i :: 0 <= i < |branches[b].nodes| ==> SameClaim(branches[b].nodes[i], after[b].nodes[i]))
            && (Distinct(branches[b].nodes) ==> Distinct(after[b].nodes))
  {
    if adversary.Some? && adversary.value(b, branches[b]).Findings? {
      MergeKeepsBuilder(branches[b].nodes, adversary.value(b, branches[b]).nodes);
      MergeKeepsMece(branches[b].nodes, adversary.value(b, branches[b]).nodes);
    }
  }

  /** A verified tree shows every concept the adversary raised, contested, in the branch
      it was raised on. */
  lemma VerifiedTreeShowsFindings(branches: seq<BranchVal>, adversary: Option<Adversary>, b: nat, k: nat)
    requires BuiltStatus(branches, adversary) != NotRun && b < |branches|
    requires k < |adversary.value(b, branches[b]).nodes|
    ensures b < |BuiltBranches(branches, adversary)|
    ensures ShowsContested(BuiltBranches(branches, adversary)[b].nodes,
                           adversary.value(b, branches[b]).nodes[k].concept)
  {
    FindingsAreContested(branches[b].nodes, adversary.value(b, branches[b]).nodes, k);
  }
}
