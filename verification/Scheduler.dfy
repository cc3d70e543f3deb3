/** Which task comes next, why none does, and what repeated picking achieves. */
module Scheduler {
  import opened Prelude
  import opened Digraph
  import opened TaskGraph
  import TextOrder

  // ---- the query -------------------------------------------------------------------------

  predicate InScope(r: Row, project: Option<string>) {
    project.None? || r.project == project
  }

  predicate Unfinished(db: Db, id: string) {
    id in db.rows && !db.rows[id].done
  }

  /** NOT EXISTS an edge from a row that is not done; an edge from no row joins nothing. */
  predicate ParentsDone(db: Db, id: string) {
    forall e :: e in db.edges && e.1 == id ==> !Unfinished(db, e.0)
  }

  predicate Ready(db: Db, project: Option<string>, id: string) {
    && Unfinished(db, id) && db.rows[id].unblocked && !db.rows[id].inFlight
    && ParentsDone(db, id) && InScope(db.rows[id], project)
  }

  /** ORDER BY id LIMIT 1 over the ready rows among `ids`. */
  function FirstReady(db: Db, project: Option<string>, ids: seq<string>): (r: Option<string>)
    ensures r.Some? ==> r.value in ids && Ready(db, project, r.value)
    ensures forall id :: id in ids && Ready(db, project, id) ==> r.Some? && TextOrder.AtMost(r.value, id)
  {
    if ids == [] then None
    else
      var rest := FirstReady(db, project, ids[1..]);
      var head := ids[0];
      if !Ready(db, project, head) then rest
      else if rest.None? || TextOrder.Less(head, rest.value) then
        assert forall id :: id in ids && Ready(db, project, id) ==> TextOrder.AtMost(head, id) by {
          HeadIsLeast(db, project, ids, rest);
        }
        Some(head)
      else rest
  }

  lemma HeadIsLeast(db: Db, project: Option<string>, ids: seq<string>, rest: Option<string>)
    requires ids != []
    requires rest.None? || TextOrder.Less(ids[0], rest.value)
    requires forall id :: id in ids[1..] && Ready(db, project, id) ==> rest.Some? && TextOrder.AtMost(rest.value, id)
    ensures forall id :: id in ids && Ready(db, project, id) ==> TextOrder.AtMost(ids[0], id)
  {
    forall id | id in ids && Ready(db, project, id) ensures TextOrder.AtMost(ids[0], id) {
      if id == ids[0] {
        TextOrder.Irreflexive(id);
      } else {
        assert id in ids[1..];
        if TextOrder.Less(id, ids[0]) {
          TextOrder.Transitive(id, ids[0], rest.value);
        }
      }
    }
  }

  function NextTask(db: Db, project: Option<string>): Option<string> {
    FirstReady(db, project, db.order)
  }

  /** The answer is the least ready id, and there is one as soon as any row is ready. */
  lemma NextTaskIsLeastReady(db: Db, project: Option<string>)
    requires Sound(db)
    ensures NextTask(db, project).Some? <==> exists id :: Ready(db, project, id)
    ensures forall id :: NextTask(db, project) == Some(id) <==>
              Ready(db, project, id)
              && forall other :: Ready(db, project, other) && other != id ==> TextOrder.Less(id, other)
  {
    var next := NextTask(db, project);
    forall id | Ready(db, project, id) ensures id in db.order {
      assert id in Elems(db.order);
    }
    if next.Some? {
      assert Ready(db, project, next.value);
      forall other | Ready(db, project, other) && other != next.value ensures TextOrder.Less(next.value, other) {
        assert other in db.order;
        TextOrder.Total(next.value, other);
      }
      forall id | id != next.value && Ready(db, project, id) ensures !TextOrder.Less(id, next.value) {
        assert TextOrder.Less(next.value, id);
        TextOrder.Asymmetric(next.value, id);
      }
    }
  }

  /** The same in the columns of the tables: the task served is unblocked, not in flight,
      not done, the project's own if one is named, and all its parent rows are done; and
      any such row is served or comes later in id order than the one that is. */
  lemma NextTaskInColumns(db: Db, project: Option<string>, id: string)
    requires Sound(db)
    ensures NextTask(db, project) == Some(id) ==>
              && id in db.rows && db.rows[id].unblocked && !db.rows[id].inFlight && !db.rows[id].done
              && (project.Some? ==> db.rows[id].project == project)
              && forall e :: e in db.edges && e.1 == id && e.0 in db.rows ==> db.rows[e.0].done
    ensures (&& id in db.rows && db.rows[id].unblocked && !db.rows[id].inFlight && !db.rows[id].done
             && (project.Some? ==> db.rows[id].project == project)
             && forall e :: e in db.edges && e.1 == id && e.0 in db.rows ==> db.rows[e.0].done) ==>
              && NextTask(db, project).Some?
              && (NextTask(db, project).value == id || TextOrder.Less(NextTask(db, project).value, id))
  {
    NextTaskIsLeastReady(db, project);
    if Ready(db, project, id) {
      assert NextTask(db, project) == Some(NextTask(db, project).value);
    }
  }

  // ---- no unexplained stall ----------------------------------------------------------------

  /** Something outside the graph order holds this unfinished row: a closed gate, a
      claim, or another owner than the project asked about. */
  predicate Held(db: Db, project: Option<string>, id: string) {
    Unfinished(db, id)
    && (!db.rows[id].unblocked || db.rows[id].inFlight || !InScope(db.rows[id], project))
  }

  /** `chain` climbs from `chain[0]` through unfinished parents. */
  ghost predicate WaitsAlong(db: Db, chain: seq<string>) {
    && chain != []
    && (forall i :: 0 <= i < |chain| ==> Unfinished(db, chain[i]))
    && (forall i :: 0 <= i < |chain| - 1 ==> (chain[i + 1], chain[i]) in db.edges)
  }

  ghost predicate WaitsOn(db: Db, id: string, blocker: string) {
    exists chain :: WaitsAlong(db, chain) && chain[0] == id && chain[|chain| - 1] == blocker
  }

  ghost predicate Explained(db: Db, project: Option<string>, id: string) {
    exists blocker :: WaitsOn(db, id, blocker) && Held(db, project, blocker)
  }

  lemma WaitsOnSelf(db: Db, id: string)
    requires Unfinished(db, id)
    ensures WaitsOn(db, id, id)
  {
    assert WaitsAlong(db, [id]);
  }

  lemma WaitsOnParent(db: Db, id: string, mid: string, parent: string)
    requires WaitsOn(db, id, mid) && (parent, mid) in db.edges && Unfinished(db, parent)
    ensures WaitsOn(db, id, parent)
  {
    var chain :| WaitsAlong(db, chain) && chain[0] == id && chain[|chain| - 1] == mid;
    var longer := chain + [parent];
    assert WaitsAlong(db, longer) && longer[0] == id && longer[|longer| - 1] == parent;
  }

  /** Climbing unfinished parents in an acyclic graph ends at a row whose parents
      are all done; if it is not held, it is ready. */
  lemma ClimbEnds(db: Db, project: Option<string>, id: string)
    requires Sound(db) && Unfinished(db, id)
    ensures exists top :: WaitsOn(db, id, top) && (Held(db, project, top) || Ready(db, project, top))
  {
    var waiting := set u | u in db.rows && WaitsOn(db, id, u);
    WaitsOnSelf(db, id);
    assert id in waiting;
    var top := AcyclicHasSource(db.edges, waiting);
    assert Unfinished(db, top) by {
      var chain :| WaitsAlong(db, chain) && chain[0] == id && chain[|chain| - 1] == top;
    }
    forall e | e in db.edges && e.1 == top ensures !Unfinished(db, e.0) {
      if Unfinished(db, e.0) {
        WaitsOnParent(db, id, top, e.0);
        assert false;
      }
    }
  }

  lemma LongChainHasParent(db: Db, chain: seq<string>)
    requires WaitsAlong(db, chain)
    ensures |chain| > 1 ==> !ParentsDone(db, chain[0])
  {
    if |chain| > 1 {
      assert (chain[1], chain[0]) in db.edges;
    }
  }

  /** `next_task` comes back empty exactly when every unfinished row it could have
      served waits, through unfinished parents, on a row that is held. */
  lemma NoUnexplainedStall(db: Db, project: Option<string>)
    requires Sound(db)
    ensures NextTask(db, project).None? <==>
              forall id :: Unfinished(db, id) && InScope(db.rows[id], project) ==> Explained(db, project, id)
  {
    NextTaskIsLeastReady(db, project);
    if NextTask(db, project).None? {
      forall id | Unfinished(db, id) && InScope(db.rows[id], project) ensures Explained(db, project, id) {
        ClimbEnds(db, project, id);
      }
    } else {
      var id :| Ready(db, project, id);
      if Explained(db, project, id) {
        var blocker :| WaitsOn(db, id, blocker) && Held(db, project, blocker);
        var chain :| WaitsAlong(db, chain) && chain[0] == id && chain[|chain| - 1] == blocker;
        LongChainHasParent(db, chain);
        assert false;
      }
    }
  }

  /** With every unfinished gate open and nothing claimed, unfinished work always yields a task. */
  lemma OpenGraphNeverStalls(db: Db, id: string)
    requires Sound(db) && Unfinished(db, id)
    requires forall u :: Unfinished(db, u) ==> db.rows[u].unblocked && !db.rows[u].inFlight
    ensures NextTask(db, None).Some?
  {
    assert !Explained(db, None, id);
    NoUnexplainedStall(db, None);
  }

  // ---- finishing a task --------------------------------------------------------------------

  /** Finishing `t` makes ready exactly those children for which `t` was the last
      unfinished parent; everything else that was ready stays ready. */
  lemma MarkDoneReleases(db: Db, project: Option<string>, t: string, id: string)
    requires t in db.rows
    ensures Ready(MarkDone(db, t), project, id) <==>
              && id != t
              && Unfinished(db, id) && db.rows[id].unblocked && !db.rows[id].inFlight && InScope(db.rows[id], project)
              && forall e :: e in db.edges && e.1 == id && e.0 != t ==> !Unfinished(db, e.0)
  {
    var after := MarkDone(db, t);
    assert forall u :: Unfinished(after, u) <==> Unfinished(db, u) && u != t;
  }

  // ---- the round: pick, claim, finish --------------------------------------------------------

  /** One round on task `t`. */
  function Finish(db: Db, t: string, session: string): Db {
    MarkDone(SetGate(db, t, "in_flight", true, Some(session)), t)
  }

  function Pending(db: Db): set<string> {
    set id | id in db.rows && !db.rows[id].done
  }

  /** A claim takes the task off offer, and no other: while one session holds it, no other
      is served it. */
  lemma ClaimTakesOnlyThat(db: Db, project: Option<string>, t: string, session: string, id: string)
    requires Sound(db) && t in db.rows
    ensures var claimed := SetGate(db, t, "in_flight", true, Some(session));
            && (Ready(claimed, project, id) <==> Ready(db, project, id) && id != t)
            && NextTask(claimed, project) != Some(t)
  {
    var claimed := SetGate(db, t, "in_flight", true, Some(session));
    SetGateSound(db, t, "in_flight", true, Some(session));
    assert ParentsDone(claimed, id) <==> ParentsDone(db, id);
    NextTaskIsLeastReady(claimed, project);
  }

  lemma FinishEffect(db: Db, t: string, session: string)
    requires Sound(db) && t in db.rows
    ensures Sound(Finish(db, t, session))
    ensures Finish(db, t, session).edges == db.edges && Finish(db, t, session).rows.Keys == db.rows.Keys
    ensures Pending(Finish(db, t, session)) == Pending(db) - {t}
    ensures forall id :: id in db.rows && id != t ==> Finish(db, t, session).rows[id] == db.rows[id]
  {
    SetGateSound(db, t, "in_flight", true, Some(session));
    MarkDoneSound(SetGate(db, t, "in_flight", true, Some(session)), t);
  }

  /** One round: the store serves `t`, a session claims it and finishes it. */
  ghost predicate Round(before: Db, project: Option<string>, session: string, t: string, after: Db) {
    NextTask(before, project) == Some(t) && after == Finish(before, t, session)
  }

  lemma RoundEffect(before: Db, project: Option<string>, session: string, t: string, after: Db)
    requires Sound(before) && Round(before, project, session, t, after)
    ensures Sound(after) && after.edges == before.edges && after.rows.Keys == before.rows.Keys
    ensures t in Pending(before) && Pending(after) == Pending(before) - {t}
    ensures forall id :: id in before.rows && id != t ==> after.rows[id] == before.rows[id]
    ensures forall e :: e in before.edges && e.1 == t ==> e.0 !in Pending(before)
  {
    FinishEffect(before, t, session);
    assert Ready(before, project, t);
  }

  /** A run of rounds: `picks[i]` turns `states[i]` into `states[i + 1]`. */
  ghost predicate IsRun(states: seq<Db>, picks: seq<string>, project: Option<string>, session: string) {
    && |states| == |picks| + 1
    && Sound(states[0])
    && forall i :: 0 <= i < |picks| ==> Round(states[i], project, session, picks[i], states[i + 1])
  }

  /** However far a run got, the graph is sound, its unfinished work is what it
      started with less the picks, and unpicked rows are as they were. */
  lemma {:induction false} RunKeeps(states: seq<Db>, picks: seq<string>, project: Option<string>, session: string,
                                    n: nat)
    requires IsRun(states, picks, project, session) && n <= |picks|
    ensures Sound(states[n]) && states[n].edges == states[0].edges && states[n].rows.Keys == states[0].rows.Keys
    ensures Pending(states[n]) == Pending(states[0]) - Elems(picks[..n])
    ensures forall id :: id in Pending(states[n]) ==> states[n].rows[id] == states[0].rows[id]
  {
    if n == 0 {
      assert Elems(picks[..0]) == {};
    } else {
      RunKeeps(states, picks, project, session, n - 1);
      assert Round(states[n - 1], project, session, picks[n - 1], states[n - 1 + 1]);
      RoundEffect(states[n - 1], project, session, picks[n - 1], states[n]);
      ElemsGrow(picks, n - 1);
    }
  }

  /** Every pick is an unfinished task picked for the first time and the least ready
      id of its moment; each of its parents was done at the start or picked before it. */
  lemma RunIsTopological(states: seq<Db>, picks: seq<string>, project: Option<string>, session: string, n: nat)
    requires IsRun(states, picks, project, session) && n < |picks|
    ensures picks[n] in Pending(states[0]) && picks[n] !in picks[..n]
    ensures forall e :: e in states[0].edges && e.1 == picks[n] && Unfinished(states[0], e.0) ==> e.0 in picks[..n]
    ensures forall other :: Ready(states[n], project, other) && other != picks[n] ==> TextOrder.Less(picks[n], other)
  {
    RunKeeps(states, picks, project, session, n);
    assert Round(states[n], project, session, picks[n], states[n + 1]);
    RoundEffect(states[n], project, session, picks[n], states[n + 1]);
    NextTaskIsLeastReady(states[n], project);
    forall e | e in states[0].edges && e.1 == picks[n] && Unfinished(states[0], e.0) ensures e.0 in picks[..n] {
      assert e.0 in Pending(states[0]) && e.0 !in Pending(states[n]);
      assert e.0 in Elems(picks[..n]);
    }
  }

  /** A run cannot outlast the unfinished work, so every start has a run to the end. */
  lemma RunLength(states: seq<Db>, picks: seq<string>, project: Option<string>, session: string)
    requires IsRun(states, picks, project, session)
    ensures |picks| <= |Pending(states[0])|
    ensures Elems(picks) <= Pending(states[0]) && |Elems(picks)| == |picks|
  {
    forall i | 0 <= i < |picks| ensures picks[i] in Pending(states[0]) && picks[i] !in picks[..i] {
      RunIsTopological(states, picks, project, session, i);
    }
    forall i, j | 0 <= i < j < |picks| ensures picks[i] != picks[j] {
      assert picks[i] in picks[..j];
    }
    NoDupCard(picks);
    SubsetCard(Elems(picks), Pending(states[0]));
  }

  lemma {:induction false} RunToTheEnd(db: Db, project: Option<string>, session: string)
    returns (states: seq<Db>, picks: seq<string>)
    requires Sound(db)
    ensures IsRun(states, picks, project, session) && states[0] == db
    ensures NextTask(states[|picks|], project).None?
    decreases |Pending(db)|
  {
    match NextTask(db, project)
    case None => states, picks := [db], [];
    case Some(t) =>
      var next := Finish(db, t, session);
      assert Round(db, project, session, t, next);
      RoundEffect(db, project, session, t, next);
      var later, rest := RunToTheEnd(next, project, session);
      states, picks := [db] + later, [t] + rest;
      forall i | 0 <= i < |picks| ensures Round(states[i], project, session, picks[i], states[i + 1]) {
        if i > 0 {
          assert Round(later[i - 1], project, session, rest[i - 1], later[i - 1 + 1]);
        }
      }
  }

  /** From all gates open and nothing claimed, a run to the end takes exactly as many
      rounds as there were unfinished tasks and finishes every one of them. */
  lemma RunFinishesEverything(states: seq<Db>, picks: seq<string>, session: string)
    requires IsRun(states, picks, None, session) && NextTask(states[|picks|], None).None?
    requires forall id :: Unfinished(states[0], id) ==> states[0].rows[id].unblocked && !states[0].rows[id].inFlight
    ensures |picks| == |Pending(states[0])| && Elems(picks) == Pending(states[0])
    ensures Pending(states[|picks|]) == {}
  {
    var end := states[|picks|];
    RunKeeps(states, picks, None, session, |picks|);
    RunLength(states, picks, None, session);
    assert picks[..|picks|] == picks;
    forall u | Unfinished(end, u) ensures end.rows[u].unblocked && !end.rows[u].inFlight {
      assert u in Pending(end) && u in Pending(states[0]);
    }
    forall id | id in Pending(end) ensures false {
      OpenGraphNeverStalls(end, id);
    }
    assert Pending(end) == {};
    assert Elems(picks) == Pending(states[0]);
  }
}
