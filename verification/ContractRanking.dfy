/** Which contracts apply and in which order: the two-pass ranking of live
    learnings, the capped global list, and the rendered view of the store. */
module ContractRanking {
  import opened Prelude
  import opened PatternStore
  import opened RoundRobin
  import opened Grouping
  import StableSort
  import TextOrder

  // ---- two stable sorts are one ranking ------------------------------------------------------

  /** created_at, newest first */
  function Newer(): (Row, Row) -> bool {
    (a: Row, b: Row) => TextOrder.Less(b.createdAt, a.createdAt)
  }

  /** confirmed count, largest first */
  function BetterConfirmed(): (Row, Row) -> bool {
    (a: Row, b: Row) => a.confirmed > b.confirmed
  }

  function HasStatement(): Row -> bool {
    (r: Row) => r.statement != ""
  }

  function RankTwice(live: seq<Row>): seq<Row> {
    StableSort.Sort(StableSort.Sort(live, Newer()), BetterConfirmed())
  }

  /** Better supported, then newer, then listed earlier. */
  predicate Outranks(a: Row, i: nat, b: Row, j: nat) {
    || a.confirmed > b.confirmed
    || (a.confirmed == b.confirmed && TextOrder.Less(b.createdAt, a.createdAt))
    || (a.confirmed == b.confirmed && a.createdAt == b.createdAt && i < j)
  }

  // the same sorts on rows that carry their position

  type Placed = (nat, Row)

  function Number(live: seq<Row>): seq<Placed> {
    seq(|live|, i requires 0 <= i < |live| => (i, live[i]))
  }

  function Unplace(): Placed -> Row {
    (p: Placed) => p.1
  }

  function NewerPlaced(): (Placed, Placed) -> bool {
    (p: Placed, q: Placed) => TextOrder.Less(q.1.createdAt, p.1.createdAt)
  }

  function BetterPlaced(): (Placed, Placed) -> bool {
    (p: Placed, q: Placed) => p.1.confirmed > q.1.confirmed
  }

  function ListedEarlier(): (Placed, Placed) -> bool {
    (p: Placed, q: Placed) => p.0 < q.0
  }

  function NewerThenListed(): (Placed, Placed) -> bool {
    (p: Placed, q: Placed) => StableSort.Before(NewerPlaced(), ListedEarlier(), p, q)
  }

  function RankPlaced(live: seq<Row>): seq<Placed> {
    StableSort.Sort(StableSort.Sort(Number(live), NewerPlaced()), BetterPlaced())
  }

  lemma NewerRanks()
    ensures StableSort.Ranks(NewerPlaced())
  {
    var lt := NewerPlaced();
    forall x ensures !lt(x, x) {
      TextOrder.Irreflexive(x.1.createdAt);
    }
    forall x, y | lt(x, y) ensures !lt(y, x) {
      TextOrder.Asymmetric(y.1.createdAt, x.1.createdAt);
    }
    forall x, y, z | lt(x, z) ensures lt(x, y) || lt(y, z) {
      TextOrder.Splits(z.1.createdAt, y.1.createdAt, x.1.createdAt);
    }
  }

  lemma BetterRanks()
    ensures StableSort.Ranks(BetterPlaced())
  {
  }

  /** Forgetting the positions gives the ranking of the plain rows. */
  lemma RankPlacedIsRank(live: seq<Row>)
    ensures Map(Unplace(), RankPlaced(live)) == RankTwice(live)
  {
    StableSort.SortMap(Unplace(), Number(live), NewerPlaced(), Newer());
    StableSort.SortMap(Unplace(), StableSort.Sort(Number(live), NewerPlaced()), BetterPlaced(), BetterConfirmed());
    assert Map(Unplace(), Number(live)) == live;
  }

  lemma RankPlacedOrdered(live: seq<Row>)
    ensures StableSort.OrderedBy(RankPlaced(live), BetterPlaced(), NewerThenListed())
  {
    var first := StableSort.Sort(Number(live), NewerPlaced());
    NewerRanks();
    BetterRanks();
    assert StableSort.Tied(Number(live), ListedEarlier());
    StableSort.SortOrders(Number(live), NewerPlaced(), ListedEarlier());
    forall i, j | 0 <= i < j < |first| ensures NewerThenListed()(first[i], first[j]) {
      assert StableSort.Before(NewerPlaced(), ListedEarlier(), first[i], first[j]);
    }
    StableSort.SortOrders(first, BetterPlaced(), NewerThenListed());
  }

  lemma BeforeIsOutranks(p: Placed, q: Placed)
    ensures StableSort.Before(BetterPlaced(), NewerThenListed(), p, q) <==> Outranks(p.1, p.0, q.1, q.0)
  {
    TextOrder.Total(p.1.createdAt, q.1.createdAt);
    TextOrder.Irreflexive(p.1.createdAt);
    if TextOrder.Less(q.1.createdAt, p.1.createdAt) {
      TextOrder.Asymmetric(q.1.createdAt, p.1.createdAt);
    }
  }

  lemma PlacedIsListed(live: seq<Row>, k: nat)
    requires k < |RankPlaced(live)|
    ensures RankPlaced(live)[k].0 < |live| && live[RankPlaced(live)[k].0] == RankPlaced(live)[k].1
  {
    var p := RankPlaced(live)[k];
    StableSort.SortElems(Number(live), NewerPlaced());
    StableSort.SortElems(StableSort.Sort(Number(live), NewerPlaced()), BetterPlaced());
    assert p in RankPlaced(live);
    var i :| 0 <= i < |live| && Number(live)[i] == p;
  }

  lemma PlacedOutranks(live: seq<Row>, k: nat, m: nat)
    requires k < m < |RankPlaced(live)|
    ensures var p, q := RankPlaced(live)[k], RankPlaced(live)[m];
            Outranks(p.1, p.0, q.1, q.0) && p.0 != q.0
  {
    var p, q := RankPlaced(live)[k], RankPlaced(live)[m];
    RankPlacedOrdered(live);
    BeforeIsOutranks(p, q);
    PlacedIsListed(live, k);
    PlacedIsListed(live, m);
    NeverOutranksItself(p.1, p.0);
  }

  /** Is every row listed once, at the place its number says, and outranking what follows? */
  ghost predicate RanksByPlace(live: seq<Row>, placed: seq<Placed>) {
    && (forall k :: 0 <= k < |placed| ==> placed[k].0 < |live| && live[placed[k].0] == placed[k].1)
    && (forall k, m :: 0 <= k < m < |placed| ==>
          placed[k].0 != placed[m].0 && Outranks(placed[k].1, placed[k].0, placed[m].1, placed[m].0))
  }

  lemma RankPlacedByPlace(live: seq<Row>)
    ensures RanksByPlace(live, RankPlaced(live))
  {
    forall k | 0 <= k < |RankPlaced(live)|
      ensures RankPlaced(live)[k].0 < |live| && live[RankPlaced(live)[k].0] == RankPlaced(live)[k].1
    {
      PlacedIsListed(live, k);
    }
    forall k, m | 0 <= k < m < |RankPlaced(live)|
      ensures var p, q := RankPlaced(live)[k], RankPlaced(live)[m];
              p.0 != q.0 && Outranks(p.1, p.0, q.1, q.0)
    {
      PlacedOutranks(live, k, m);
    }
  }

  /** The numbers of numbered rows, and what they say of the rows. */
  lemma NumbersOf(live: seq<Row>, placed: seq<Placed>, ranked: seq<Row>) returns (places: seq<nat>)
    requires RanksByPlace(live, placed) && ranked == Map(Unplace(), placed)
    ensures |ranked| == |places| == |placed| && NoDup(places)
    ensures forall k :: 0 <= k < |places| ==> places[k] < |live| && ranked[k] == live[places[k]]
    ensures forall k, m :: 0 <= k < m < |places| ==> Outranks(ranked[k], places[k], ranked[m], places[m])
  {
    places := seq(|placed|, k requires 0 <= k < |placed| => placed[k].0);
    forall k | 0 <= k < |places| ensures ranked[k] == placed[k].1 {
      assert ranked[k] == Unplace()(placed[k]);
    }
  }

  /** Sorting by date and then stably by count is one ranking: the result lists every
      row once (`places` says which), each outranking all that follow it. */
  lemma TwoSortsAreOneRanking(live: seq<Row>) returns (places: seq<nat>)
    ensures |RankTwice(live)| == |places| == |live|
    ensures NoDup(places)
    ensures forall k :: 0 <= k < |places| ==> places[k] < |live| && RankTwice(live)[k] == live[places[k]]
    ensures forall k, m :: 0 <= k < m < |places| ==>
              Outranks(RankTwice(live)[k], places[k], RankTwice(live)[m], places[m])
  {
    RankPlacedIsRank(live);
    RankPlacedByPlace(live);
    places := NumbersOf(live, RankPlaced(live), RankTwice(live));
  }

  lemma NeverOutranksItself(a: Row, i: nat)
    ensures !Outranks(a, i, a, i)
  {
    TextOrder.Irreflexive(a.createdAt);
  }

  // ---- the lessons that apply ----------------------------------------------------------------

  function Or(value: Option<string>, default: string): string {
    if value.Some? then value.value else default
  }

  function Lesson(): Row -> string {
    (r: Row) => "- [" + Or(r.subDomain, "general") + "] " + r.statement
  }

  /** None when there is no store, or nothing in it to rank. */
  function RankedLessons(store: Option<seq<Row>>, room: int): Option<seq<string>> {
    if store.None? then None
    else
      var rows := Filter(Effective(store.value), HasStatement());
      if rows == [] then None else Some(Map(Lesson(), Take(RankTwice(rows), room)))
  }

  method RankedGlobalLessons(store: Option<seq<Row>>, room: int) returns (lessons: Option<seq<string>>)
    ensures lessons == RankedLessons(store, room)
  {
    if store.None? {
      return None;
    }
    var live := EffectivePatterns(store.value);
    var rows := Filter(live, HasStatement());
    if rows == [] {
      return None;
    }
    rows := StableSort.Sort(rows, Newer());
    rows := StableSort.Sort(rows, BetterConfirmed());
    return Some(Map(Lesson(), Take(rows, room)));
  }

  /** s[-n:] for n >= 1 */
  function LastOf<T>(s: seq<T>, n: nat): seq<T> {
    if n >= |s| then s else s[|s| - n..]
  }

  function GlobalContracts(defaults: seq<string>, store: Option<seq<Row>>, rendered: seq<string>, cap: int)
    : seq<string>
  {
    var kept := Take(defaults, cap);
    var room := cap - |kept|;
    if room <= 0 then kept
    else
      var personal := RankedLessons(store, room);
      kept + if personal.None? then LastOf(rendered, room) else personal.value
  }

  /** Never more than the cap exactly when the cap is not negative, and then defaults
      first and all that fit; a negative cap cuts the defaults from their end. */
  lemma GlobalContractsFitTheCap(defaults: seq<string>, store: Option<seq<Row>>, rendered: seq<string>, cap: int)
    ensures |GlobalContracts(defaults, store, rendered, cap)| <= cap <==> 0 <= cap
    ensures 0 <= cap ==> Take(defaults, cap) <= GlobalContracts(defaults, store, rendered, cap)
    ensures |defaults| <= cap ==> defaults <= GlobalContracts(defaults, store, rendered, cap)
    ensures cap < 0 ==> GlobalContracts(defaults, store, rendered, cap)
                        == defaults[..if |defaults| + cap >= 0 then |defaults| + cap else 0]
  {
  }

  /** A learning is left out only when the room went to ones that outrank it: `places`
      lists the live learnings, the first of them are the lines after the defaults, and
      each of those outranks every one that is not shown. */
  lemma RoomGoesToTheBest(defaults: seq<string>, rows: seq<Row>, rendered: seq<string>, cap: int)
    returns (places: seq<nat>)
    requires |defaults| < cap && Filter(Effective(rows), HasStatement()) != []
    ensures var live := Filter(Effective(rows), HasStatement());
            |places| == |live| && NoDup(places) && forall k :: 0 <= k < |places| ==> places[k] < |live|
    ensures var live := Filter(Effective(rows), HasStatement());
            var all := GlobalContracts(defaults, Some(rows), rendered, cap);
            var shown := |all| - |defaults|;
            && defaults <= all && shown == (if |live| <= cap - |defaults| then |live| else cap - |defaults|)
            && (forall k :: 0 <= k < shown ==> all[|defaults| + k] == Lesson()(live[places[k]]))
            && (forall k, m :: 0 <= k < shown <= m < |live| ==>
                  Outranks(live[places[k]], places[k], live[places[m]], places[m]))
  {
    var live := Filter(Effective(rows), HasStatement());
    places := TwoSortsAreOneRanking(live);
    RoomIsFilled(defaults, rows, rendered, cap);
    FrontOutranksRest(defaults, live, RankTwice(live), places, cap - |defaults|,
                      GlobalContracts(defaults, Some(rows), rendered, cap));
  }

  lemma RoomIsFilled(defaults: seq<string>, rows: seq<Row>, rendered: seq<string>, cap: int)
    requires |defaults| < cap && Filter(Effective(rows), HasStatement()) != []
    ensures GlobalContracts(defaults, Some(rows), rendered, cap)
            == defaults + Map(Lesson(), Take(RankTwice(Filter(Effective(rows), HasStatement())), cap - |defaults|))
  {
  }

  lemma FrontOutranksRest(defaults: seq<string>, live: seq<Row>, ranked: seq<Row>, places: seq<nat>, room: nat,
                          all: seq<string>)
    requires |ranked| == |places| == |live| && all == defaults + Map(Lesson(), Take(ranked, room))
    requires forall k :: 0 <= k < |places| ==> places[k] < |live| && ranked[k] == live[places[k]]
    requires forall k, m :: 0 <= k < m < |places| ==> Outranks(ranked[k], places[k], ranked[m], places[m])
    ensures var shown := |all| - |defaults|;
            && defaults <= all && shown == (if |live| <= room then |live| else room)
            && (forall k :: 0 <= k < shown ==> all[|defaults| + k] == Lesson()(live[places[k]]))
            && (forall k, m :: 0 <= k < shown <= m < |live| ==>
                  Outranks(live[places[k]], places[k], live[places[m]], places[m]))
  {
    var shown := Map(Lesson(), Take(ranked, room));
    forall k | 0 <= k < |shown| ensures all[|defaults| + k] == Lesson()(live[places[k]]) {
      assert all[|defaults| + k] == shown[k];
    }
  }

  /** A learning's line: its sub-domain in brackets, and what it says. */
  ghost predicate IsLessonOf(text: string, row: Row) {
    text == "- [" + (if row.subDomain.Some? then row.subDomain.value else "general") + "] " + row.statement
  }

  lemma RankTwiceElems(live: seq<Row>)
    ensures forall r :: r in RankTwice(live) <==> r in live
  {
    StableSort.SortElems(live, Newer());
    StableSort.SortElems(StableSort.Sort(live, Newer()), BetterConfirmed());
  }

  /** A retired learning never loads: no ranked lesson comes from a row that is retired
      or superseded. */
  lemma RankedLessonsAreLive(rows: seq<Row>, room: int, k: nat)
    requires RankedLessons(Some(rows), room).Some? && k < |RankedLessons(Some(rows), room).value|
    ensures exists i :: 0 <= i < |rows| && StillStands(rows, i) && rows[i].statement != ""
                        && IsLessonOf(RankedLessons(Some(rows), room).value[k], rows[i])
  {
    var live := Filter(Effective(rows), HasStatement());
    var row := RankTwice(live)[k];
    RankTwiceElems(live);
    assert row in RankTwice(live);
    assert row in Effective(rows) && row.statement != "";
    EffectiveIsLatest(rows);
    var at := Positions(rows);
    var p :| 0 <= p < |at| && Effective(rows)[p] == row;
    assert at[p] in at && StillStands(rows, at[p]);
  }

  lemma StandingIsListed(rows: seq<Row>, i: nat)
    requires i < |rows| && StillStands(rows, i)
    ensures rows[i] in Effective(rows)
  {
    EffectiveIsLatest(rows);
    var at := Positions(rows);
    var p :| 0 <= p < |at| && at[p] == i;
    assert Effective(rows)[p] == rows[i];
  }

  /** With room for all, every standing row that says something loads, and there are no
      lessons only when no standing row does. */
  lemma EveryLiveLessonLoads(rows: seq<Row>, room: int, i: nat)
    requires |Effective(rows)| <= room
    requires i < |rows| && StillStands(rows, i) && rows[i].statement != ""
    ensures RankedLessons(Some(rows), room).Some?
    ensures exists text :: text in RankedLessons(Some(rows), room).value && IsLessonOf(text, rows[i])
  {
    var live := Filter(Effective(rows), HasStatement());
    StandingIsListed(rows, i);
    assert rows[i] in live;
    RankTwiceElems(live);
    MapMembers(Lesson(), RankTwice(live), Lesson()(rows[i]));
    assert IsLessonOf(Lesson()(rows[i]), rows[i]);
  }

  /** With no learning to rank, the room goes to the last of the rendered lines. */
  lemma RenderedFillsIn(defaults: seq<string>, store: Option<seq<Row>>, rendered: seq<string>, cap: int)
    requires |defaults| < cap
    requires store.Some? ==>
               forall i :: 0 <= i < |store.value| && StillStands(store.value, i) ==> store.value[i].statement == ""
    ensures var room := cap - |defaults|;
            GlobalContracts(defaults, store, rendered, cap)
            == defaults + if |rendered| <= room then rendered else rendered[|rendered| - room..]
  {
    if store.Some? && RankedLessons(store, cap - |defaults|).Some? {
      var live := Filter(Effective(store.value), HasStatement());
      RankTwiceElems(live);
      RankedLessonsAreLive(store.value, cap - |defaults|, 0);
      assert false;
    }
  }

  // ---- the rendered view -----------------------------------------------------------------------

  function Domain(): Row -> string {
    (r: Row) => Or(r.domain, "unclassified")
  }

  function BySubDomain(): (Row, Row) -> bool {
    (a: Row, b: Row) => TextOrder.Less(Or(a.subDomain, ""), Or(b.subDomain, ""))
  }

  function BySection(): seq<Row> -> seq<Row> {
    (rows: seq<Row>) => StableSort.Sort(rows, BySubDomain())
  }

  /** The rows in the order contracts.md lists them: by domain, then sub-domain. */
  function Rendered(rows: seq<Row>): seq<Row> {
    FlatMap(BySection(), Queues(Effective(rows), Domain()))
  }

  /** A domain's section is its live rows, stably by sub-domain. */
  lemma RenderedDomain(rows: seq<Row>, domain: string)
    ensures Filter(Rendered(rows), InGroup(Domain(), domain))
            == StableSort.Sort(Filter(Effective(rows), InGroup(Domain(), domain)), BySubDomain())
  {
    forall part: seq<Row>, r | r in BySection()(part) ensures r in part {
      StableSort.SortElems(part, BySubDomain());
    }
    FlatMapOfQueues(BySection(), Effective(rows), Domain(), domain);
  }

  function AnyOrder(): (Row, Row) -> bool {
    (a: Row, b: Row) => true
  }

  lemma BySubDomainRanks()
    ensures StableSort.Ranks(BySubDomain())
  {
    var lt := BySubDomain();
    forall r: Row ensures !lt(r, r) {
      TextOrder.Irreflexive(Or(r.subDomain, ""));
    }
    forall r: Row, s: Row | lt(r, s) ensures !lt(s, r) {
      TextOrder.Asymmetric(Or(r.subDomain, ""), Or(s.subDomain, ""));
    }
    forall r: Row, s: Row, t: Row | lt(r, t) ensures lt(r, s) || lt(s, t) {
      TextOrder.Splits(Or(r.subDomain, ""), Or(s.subDomain, ""), Or(t.subDomain, ""));
    }
  }

  function NotLater(): (Row, Row) -> bool {
    (a: Row, b: Row) => !BySubDomain()(b, a)
  }

  lemma SectionOrdered(rows: seq<Row>)
    ensures StableSort.Tied(BySection()(rows), NotLater())
  {
    var sorted := StableSort.Sort(rows, BySubDomain());
    BySubDomainRanks();
    StableSort.SortOrders(rows, BySubDomain(), AnyOrder());
    forall i, j | 0 <= i < j < |sorted| ensures NotLater()(sorted[i], sorted[j]) {
      assert StableSort.Before(BySubDomain(), AnyOrder(), sorted[i], sorted[j]);
    }
  }

  lemma RenderedAscends(rows: seq<Row>)
    ensures StableSort.Tied(Rendered(rows), ByGroup(Domain(), NotLater()))
  {
    forall part: seq<Row>, r | r in BySection()(part) ensures r in part {
      StableSort.SortElems(part, BySubDomain());
    }
    forall part: seq<Row> ensures StableSort.Tied(BySection()(part), NotLater()) {
      SectionOrdered(part);
    }
    var live := Effective(rows);
    QueuesKeyed(live, Domain());
    GroupNamesAscend(live, Domain());
    FlatMapAscends(BySection(), Queues(live, Domain()), GroupNames(live, Domain()), Domain(), NotLater());
  }

  /** The rendered view goes up by domain and, within one, by sub-domain; a row without a
      domain counts as unclassified. */
  lemma RenderedInOrder(rows: seq<Row>, i: nat, j: nat)
    requires i < j < |Rendered(rows)|
    ensures var r, s := Rendered(rows)[i], Rendered(rows)[j];
            var domain, later := if r.domain.Some? then r.domain.value else "unclassified",
                                 if s.domain.Some? then s.domain.value else "unclassified";
            var sub, laterSub := if r.subDomain.Some? then r.subDomain.value else "",
                                 if s.subDomain.Some? then s.subDomain.value else "";
            TextOrder.Less(domain, later) || (domain == later && TextOrder.AtMost(sub, laterSub))
  {
    RenderedAscends(rows);
    assert ByGroup(Domain(), NotLater())(Rendered(rows)[i], Rendered(rows)[j]);
  }

  /** The rendered view shows every live row as often as the store holds it, and no other. */
  lemma RenderedShowsLiveRows(rows: seq<Row>)
    ensures multiset(Rendered(rows)) == multiset(Effective(rows))
  {
    forall r: Row ensures multiset(Rendered(rows))[r] == multiset(Effective(rows))[r] {
      var own := InGroup(Domain(), Domain()(r));
      RenderedDomain(rows, Domain()(r));
      FilterCount(Rendered(rows), own, r);
      FilterCount(Effective(rows), own, r);
    }
  }
}
