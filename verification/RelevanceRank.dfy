/** Ranking candidates by how close they are to a query: a floor, a stable sort, a cut. */
module RelevanceRank {
  import opened Prelude
  import opened StableSort

  /** A candidate's index and its score against the query. */
  datatype Scored = Scored(index: nat, score: real)

  function AtFloor(floor: real): Scored -> bool {
    (s: Scored) => s.score >= floor
  }

  function Closer(): (Scored, Scored) -> bool {
    (a: Scored, b: Scored) => a.score > b.score
  }

  function ListedEarlier(): (Scored, Scored) -> bool {
    (a: Scored, b: Scored) => a.index < b.index
  }

  function Number(scores: seq<real>): seq<Scored> {
    seq(|scores|, i requires 0 <= i < |scores| => Scored(i, scores[i]))
  }

  function FullRanking(scores: seq<real>, floor: real): seq<Scored> {
    Sort(Filter(Number(scores), AtFloor(floor)), Closer())
  }

  /** A missing limit and a limit of zero both mean no limit. */
  function Ranking(scores: seq<real>, floor: real, limit: Option<int>): seq<Scored> {
    var full := FullRanking(scores, floor);
    if limit.Some? && limit.value != 0 then Take(full, limit.value) else full
  }

  lemma {:induction false} FilterStaysListed(s: seq<Scored>, keep: Scored -> bool)
    requires Tied(s, ListedEarlier())
    ensures Tied(Filter(s, keep), ListedEarlier())
  {
    if s != [] {
      FilterStaysListed(s[1..], keep);
      forall y | y in Filter(s[1..], keep) ensures ListedEarlier()(s[0], y) {
        var k :| 1 <= k < |s| && s[k] == y;
      }
    }
  }

  lemma CloserRanks()
    ensures Ranks(Closer())
  {
  }

  lemma FullRankingOrdered(scores: seq<real>, floor: real)
    ensures OrderedBy(FullRanking(scores, floor), Closer(), ListedEarlier())
  {
    CloserRanks();
    FilterStaysListed(Number(scores), AtFloor(floor));
    SortOrders(Filter(Number(scores), AtFloor(floor)), Closer(), ListedEarlier());
  }

  lemma FullRankingHolds(scores: seq<real>, floor: real, s: Scored)
    ensures s in FullRanking(scores, floor) <==>
              s.index < |scores| && s.score == scores[s.index] && s.score >= floor
  {
    SortElems(Filter(Number(scores), AtFloor(floor)), Closer());
    if s.index < |scores| && s.score == scores[s.index] {
      assert Number(scores)[s.index] == s;
    }
  }

  /** The full ranking holds every candidate at or above the floor, each once with its
      own score, best first and ties in the order the candidates came; a limit keeps
      the front of it, so whatever is cut scores no better than anything kept. */
  lemma RankingIsBestFirst(scores: seq<real>, floor: real, limit: Option<int>)
    ensures forall s :: s in FullRanking(scores, floor) <==>
              s.index < |scores| && s.score == scores[s.index] && s.score >= floor
    ensures var full := FullRanking(scores, floor);
            forall a, b :: 0 <= a < b < |full| ==>
              full[a].score > full[b].score || (full[a].score == full[b].score && full[a].index < full[b].index)
    ensures Ranking(scores, floor, limit) <= FullRanking(scores, floor)
    ensures |Ranking(scores, floor, limit)|
            == var n := |FullRanking(scores, floor)|;
               if limit.None? || limit.value == 0 then n
               else if limit.value > 0 then (if limit.value <= n then limit.value else n)
               else if n + limit.value >= 0 then n + limit.value else 0
  {
    var full := FullRanking(scores, floor);
    forall s ensures s in full <==> s.index < |scores| && s.score == scores[s.index] && s.score >= floor {
      FullRankingHolds(scores, floor, s);
    }
    FullRankingOrdered(scores, floor);
    forall a, b | 0 <= a < b < |full|
      ensures full[a].score > full[b].score || (full[a].score == full[b].score && full[a].index < full[b].index)
    {
      assert Before(Closer(), ListedEarlier(), full[a], full[b]);
    }
  }
}
