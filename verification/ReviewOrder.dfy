/** What to look at first in a coverage tree: gaps, then unverified claims, then what
    the adversary disputes, then partial answers; riskier domains first. */
module ReviewOrder {
  import opened Prelude
  import opened CoverageTree
  import opened StableSort

  datatype Section = Gap | Unverified | Disputed | Ask

  /** A node with its place in the tree. */
  datatype Item = Item(branch: nat, at: nat, domain: string, node: NodeVal)

  datatype Line = Line(section: Section, item: Item)

  function RiskRank(domain: string): nat {
    match domain
    case "security" => 0
    case "data" => 1
    case "correctness" => 2
    case "nfr" => 3
    case _ => 99
  }

  predicate Deserves(section: Section, node: NodeVal) {
    match section
    case Gap => node.covered == Missing
    case Unverified => node.covered == Covered && node.evidence == Inferred
    case Disputed => node.contested
    case Ask => node.covered == Partial
  }

  function Wants(section: Section): Item -> bool {
    (item: Item) => Deserves(section, item.node)
  }

  function Riskier(): (Item, Item) -> bool {
    (a: Item, b: Item) => RiskRank(a.domain) < RiskRank(b.domain)
  }

  function Earlier(): (Item, Item) -> bool {
    (a: Item, b: Item) => a.branch < b.branch || (a.branch == b.branch && a.at < b.at)
  }

  // ---- the lines -----------------------------------------------------------------------------

  function BranchItems(branch: BranchVal, b: nat): seq<Item> {
    seq(|branch.nodes|, j requires 0 <= j < |branch.nodes| => Item(b, j, branch.domain, branch.nodes[j]))
  }

  /** The tree's nodes from branch b on, in tree order. */
  function ItemsFrom(branches: seq<BranchVal>, b: nat): seq<Item>
    requires b <= |branches|
    decreases |branches| - b
  {
    if b == |branches| then [] else BranchItems(branches[b], b) + ItemsFrom(branches, b + 1)
  }

  /** Gaps and disputes are sorted by risk; the two other sections keep tree order. */
  predicate ByRisk(section: Section) {
    section == Gap || section == Disputed
  }

  function SectionItems(items: seq<Item>, section: Section): seq<Item> {
    var mine := Filter(items, Wants(section));
    if ByRisk(section) then Sort(mine, Riskier()) else mine
  }

  function InSection(section: Section): Item -> Line {
    (item: Item) => Line(section, item)
  }

  function SectionLines(items: seq<Item>, section: Section): seq<Line> {
    Map(InSection(section), SectionItems(items, section))
  }

  function LinesOf(items: seq<Item>): seq<Line> {
    SectionLines(items, Gap) + SectionLines(items, Unverified) + SectionLines(items, Disputed)
    + SectionLines(items, Ask)
  }

  function Lines(branches: seq<BranchVal>): seq<Line> {
    LinesOf(ItemsFrom(branches, 0))
  }

  const DASH := " \U{2014} "

  function Why(detail: string, given: string, default: string): string {
    DASH + if detail != "" then given + detail else default
  }

  /** How a line reads. */
  function Text(): Line -> string {
    (line: Line) =>
      var node, place := line.item.node, "[" + line.item.domain + "] " + line.item.node.concept;
      match line.section
      case Gap => "GAP  " + place + Why(node.detail, "", "concept not considered")
      case Unverified => "INFER" + place + Why(node.detail, "", "reasoned, not verified")
      case Disputed => "?    " + place + DASH + (if node.added then "adversary-added" else "adversary-contested")
                       + ", you rule"
      case Ask => "~    " + place + Why(node.detail, "partial: ", "partial, ask")
  }

  function Texts(lines: seq<Line>): seq<string> {
    Map(Text(), lines)
  }

  /** One section's loop, appending a text per line. */
  method AppendSection(lines: seq<string>, section: seq<Line>) returns (more: seq<string>)
    ensures more == lines + Texts(section)
  {
    more := lines;
    for i := 0 to |section|
      invariant more == lines + Texts(section[..i])
    {
      PrefixGrow(section, i);
      TextsConcat(section[..i], [section[i]]);
      more := more + [Text()(section[i])];
    }
    assert section[..|section|] == section;
  }

  lemma TextsConcat(a: seq<Line>, b: seq<Line>)
    ensures Texts(a + b) == Texts(a) + Texts(b)
  {
  }

  method ReviewLines(branches: seq<BranchVal>) returns (lines: seq<string>)
    ensures lines == Texts(Lines(branches))
  {
    var items := ItemsFrom(branches, 0);
    ghost var done := SectionLines(items, Gap);
    lines := AppendSection([], SectionLines(items, Gap));
    assert lines == Texts(done);
    lines := AppendSection(lines, SectionLines(items, Unverified));
    TextsConcat(done, SectionLines(items, Unverified));
    done := done + SectionLines(items, Unverified);
    lines := AppendSection(lines, SectionLines(items, Disputed));
    TextsConcat(done, SectionLines(items, Disputed));
    done := done + SectionLines(items, Disputed);
    lines := AppendSection(lines, SectionLines(items, Ask));
    TextsConcat(done, SectionLines(items, Ask));
  }

  // ---- their order -----------------------------------------------------------------------------

  function SectionRank(section: Section): nat {
    match section
    case Gap => 0
    case Unverified => 1
    case Disputed => 2
    case Ask => 3
  }

  function LineRisk(line: Line): nat {
    if ByRisk(line.section) then RiskRank(line.item.domain) else 0
  }

  /** By section, then in the sorted sections by domain risk, then by place in the tree. */
  predicate Precedes(x: Line, y: Line) {
    || SectionRank(x.section) < SectionRank(y.section)
    || (x.section == y.section
        && (LineRisk(x) < LineRisk(y) || (LineRisk(x) == LineRisk(y) && Earlier()(x.item, y.item))))
  }

  ghost predicate Ascending(lines: seq<Line>) {
    forall i, j :: 0 <= i < j < |lines| ==> Precedes(lines[i], lines[j])
  }

  predicate InTree(branches: seq<BranchVal>, item: Item) {
    && item.branch < |branches| && branches[item.branch].domain == item.domain
    && item.at < |branches[item.branch].nodes| && branches[item.branch].nodes[item.at] == item.node
  }

  lemma {:induction false} ItemsAreTheTree(branches: seq<BranchVal>, b: nat, item: Item)
    requires b <= |branches|
    ensures item in ItemsFrom(branches, b) <==> b <= item.branch && InTree(branches, item)
    decreases |branches| - b
  {
    if b < |branches| {
      ItemsAreTheTree(branches, b + 1, item);
      if item.branch == b && InTree(branches, item) {
        assert BranchItems(branches[b], b)[item.at] == item;
      }
    }
  }

  lemma {:induction false} ItemsInOrder(branches: seq<BranchVal>, b: nat)
    requires b <= |branches|
    ensures Tied(ItemsFrom(branches, b), Earlier())
    decreases |branches| - b
  {
    if b < |branches| {
      ItemsInOrder(branches, b + 1);
      forall item | item in ItemsFrom(branches, b + 1) ensures item.branch > b {
        ItemsAreTheTree(branches, b + 1, item);
      }
    }
  }

  lemma {:induction false} FilterTied(items: seq<Item>, keep: Item -> bool)
    requires Tied(items, Earlier())
    ensures Tied(Filter(items, keep), Earlier())
  {
    if items != [] {
      FilterTied(items[1..], keep);
      forall y | y in Filter(items[1..], keep) ensures Earlier()(items[0], y) {
        var k :| 1 <= k < |items| && items[k] == y;
      }
    }
  }

  lemma SectionAscends(items: seq<Item>, section: Section)
    requires Tied(items, Earlier())
    ensures Ascending(SectionLines(items, section))
    ensures forall line :: line in SectionLines(items, section)
                           <==> line.section == section && line.item in items && Deserves(section, line.item.node)
  {
    var mine := Filter(items, Wants(section));
    FilterTied(items, Wants(section));
    if ByRisk(section) {
      SortOrders(mine, Riskier(), Earlier());
      SortElems(mine, Riskier());
    }
    forall line ensures line in SectionLines(items, section)
                        <==> line.section == section && line.item in items && Deserves(section, line.item.node)
    {
      MapMembers(InSection(section), SectionItems(items, section), line);
    }
  }

  lemma AscendingConcat(a: seq<Line>, b: seq<Line>)
    requires Ascending(a) && Ascending(b)
    requires forall x, y :: x in a && y in b ==> SectionRank(x.section) < SectionRank(y.section)
    ensures Ascending(a + b)
  {
    forall i, j | 0 <= i < j < |a + b| ensures Precedes((a + b)[i], (a + b)[j]) {
      if i < |a| <= j {
        assert a[i] in a && b[j - |a|] in b;
      }
    }
  }

  /** The review order lists exactly the nodes that deserve it, each once in every section
      it deserves, ascending by section, then risk where risk counts, then tree order. */
  lemma ReviewGoesBySeverity(branches: seq<BranchVal>)
    ensures Ascending(Lines(branches))
    ensures forall line :: line in Lines(branches)
                           <==> InTree(branches, line.item) && Deserves(line.section, line.item.node)
  {
    var items := ItemsFrom(branches, 0);
    ItemsInOrder(branches, 0);
    SectionAscends(items, Gap);
    SectionAscends(items, Unverified);
    SectionAscends(items, Disputed);
    SectionAscends(items, Ask);
    AscendingConcat(SectionLines(items, Gap), SectionLines(items, Unverified));
    var firstTwo := SectionLines(items, Gap) + SectionLines(items, Unverified);
    AscendingConcat(firstTwo, SectionLines(items, Disputed));
    AscendingConcat(firstTwo + SectionLines(items, Disputed), SectionLines(items, Ask));
    forall line
      ensures line in Lines(branches) <==> InTree(branches, line.item) && Deserves(line.section, line.item.node)
    {
      ItemsAreTheTree(branches, 0, line.item);
    }
  }

  /** Does a domain come before or with another: security, data, correctness, nfr, and
      then all others alike? */
  predicate AsRisky(a: string, b: string) {
    || a == "security"
    || (a == "data" && b != "security")
    || (a == "correctness" && b !in {"security", "data"})
    || (a == "nfr" && b !in {"security", "data", "correctness"})
    || b !in {"security", "data", "correctness", "nfr"}
  }

  lemma RankIsRisk(a: string, b: string)
    ensures RiskRank(a) <= RiskRank(b) <==> AsRisky(a, b)
  {
  }

  /** What it means for one line to come before another. */
  ghost predicate ComesBefore(x: Line, y: Line) {
    if x.section != y.section then
      x.section == Gap || y.section == Ask || (x.section == Unverified && y.section == Disputed)
    else
      var inTree := x.item.branch < y.item.branch || (x.item.branch == y.item.branch && x.item.at < y.item.at);
      if x.section == Unverified || x.section == Ask then inTree
      else AsRisky(x.item.domain, y.item.domain) && (AsRisky(y.item.domain, x.item.domain) ==> inTree)
  }

  lemma PrecedesIsBefore(x: Line, y: Line)
    requires Precedes(x, y)
    ensures ComesBefore(x, y)
  {
    RankIsRisk(x.item.domain, y.item.domain);
    RankIsRisk(y.item.domain, x.item.domain);
  }

  /** Gaps come first, then unverified claims, disputes and partial answers; gaps and
      disputes go by domain, and lines that tie keep tree order. */
  lemma RiskiestFirst(branches: seq<BranchVal>, i: nat, j: nat)
    requires i < j < |Lines(branches)|
    ensures ComesBefore(Lines(branches)[i], Lines(branches)[j])
  {
    ReviewGoesBySeverity(branches);
    PrecedesIsBefore(Lines(branches)[i], Lines(branches)[j]);
  }

  /** Which section a line is in. */
  lemma LinesBelong(branches: seq<BranchVal>, line: Line)
    requires line in Lines(branches)
    ensures var node := line.item.node;
            match line.section
            case Gap => node.covered == Missing
            case Unverified => node.covered == Covered && node.evidence == Inferred
            case Disputed => node.contested
            case Ask => node.covered == Partial
  {
    ReviewGoesBySeverity(branches);
  }

  /** What a line says after the dash: the node's detail if it has one, and otherwise
      what its section stands for. */
  lemma LineReads(line: Line)
    ensures var node, detail, place := line.item.node, line.item.node.detail,
                                      "[" + line.item.domain + "] " + line.item.node.concept;
            match line.section
            case Gap =>
              Text()(line) == "GAP  " + place + (DASH + if detail == "" then "concept not considered" else detail)
            case Unverified =>
              Text()(line) == "INFER" + place + (DASH + if detail == "" then "reasoned, not verified" else detail)
            case Disputed =>
              var tag := if node.added then "adversary-added" else "adversary-contested";
              Text()(line) == "?    " + place + DASH + tag + ", you rule"
            case Ask =>
              Text()(line) == "~    " + place + (DASH + if detail == "" then "partial, ask" else "partial: " + detail)
  {
    assert "" + line.item.node.detail == line.item.node.detail;
  }
}
