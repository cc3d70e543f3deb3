/** Whole histories of the task graph: what holds in every reachable state, and
    what any history keeps. */
module TaskRuns {
  import opened Prelude
  import opened Digraph
  import opened TaskGraph
  import opened Repair
  import opened TaskStore

  datatype Op =
    | CreateOp(tasks: seq<NewTask>, newEdges: seq<Edge>)
    | GateOp(id: string, gate: string, value: bool, claim: Option<string>)
    | StartOp(id: string, title: string, project: string, session: string)
    | DoneOp(id: string)
    | RepairOp

  ghost function Apply(db: Db, op: Op): Db {
    match op
    case CreateOp(ts, es) => Create(db, ts, es)
    case GateOp(id, gate, value, claim) => SetGate(db, id, gate, value, claim)
    case StartOp(id, title, project, session) => Start(db, id, title, project, session)
    case DoneOp(id) => MarkDone(db, id)
    case RepairOp => Repaired(db)
  }

  ghost function Run(db: Db, ops: seq<Op>): Db
    decreases |ops|
  {
    if ops == [] then db else Run(Apply(db, ops[0]), ops[1..])
  }

  lemma {:induction false} ApplySound(db: Db, op: Op)
    requires Sound(db)
    ensures Sound(Apply(db, op)) && db.edges <= Apply(db, op).edges
  {
    match op
    case CreateOp(ts, es) => CreateSound(db, ts, es);
    case GateOp(id, gate, value, claim) => SetGateSound(db, id, gate, value, claim);
    case StartOp(id, title, project, session) => StartSound(db, id, title, project, session);
    case DoneOp(id) => MarkDoneSound(db, id);
    case RepairOp => RepairedSound(db);
  }

  lemma {:induction false} RunSound(db: Db, ops: seq<Op>)
    requires Sound(db)
    ensures Sound(Run(db, ops)) && db.edges <= Run(db, ops).edges
    decreases |ops|
  {
    if ops != [] {
      ApplySound(db, ops[0]);
      RunSound(Apply(db, ops[0]), ops[1..]);
    }
  }

  /** Whatever is done to it, the database stays acyclic, referentially closed and
      consistent in its claims. */
  lemma ReachableIsSound(ops: seq<Op>)
    ensures Sound(Run(EMPTY, ops))
  {
    RankedIsAcyclic({}, map[]);
    RunSound(EMPTY, ops);
  }

  /** Every write is safe to repeat. */
  lemma {:induction false} ApplyIdempotent(db: Db, op: Op)
    requires Sound(db)
    ensures Apply(Apply(db, op), op) == Apply(db, op)
  {
    match op
    case CreateOp(ts, es) => CreateIdempotent(db, ts, es);
    case GateOp(id, gate, value, claim) => LastGateWriteWins(db, id, gate, value, value, claim, claim);
    case StartOp(id, title, project, session) => StartIdempotent(db, id, title, project, session);
    case DoneOp(id) => MarkDoneIdempotent(db, id);
    case RepairOp => RepairIdempotent(db);
  }

  // ---- identity is never rewritten ---------------------------------------------------------

  /** A row's label and owner, once given, are kept. */
  predicate SameTask(before: Row, after: Row) {
    before.title == after.title && (before.project.Some? ==> after.project == before.project)
  }

  lemma GateKeepsTask(db: Db, other: string, gate: string, value: bool, claim: Option<string>, id: string)
    requires id in db.rows
    ensures id in SetGate(db, other, gate, value, claim).rows
    ensures SameTask(db.rows[id], SetGate(db, other, gate, value, claim).rows[id])
  {
    if GateNamed(gate).Some? {
      SetGateRows(db, other, gate, value, claim);
      WithGateKeeps(db.rows[id], GateNamed(gate).value, value, claim);
    }
  }

  lemma StartKeepsTask(db: Db, other: string, title: string, project: string, session: string, id: string)
    requires id in db.rows
    ensures id in Start(db, other, title, project, session).rows
    ensures SameTask(db.rows[id], Start(db, other, title, project, session).rows[id])
  {
    assert InsertRow(db, other, title, Some(project)).rows[id] == db.rows[id];
  }

  lemma {:induction false} ApplyKeepsTask(db: Db, op: Op, id: string)
    requires Sound(db) && id in db.rows && !IsStub(id, db.rows[id])
    ensures id in Apply(db, op).rows && SameTask(db.rows[id], Apply(db, op).rows[id])
  {
    match op
    case CreateOp(ts, es) =>
      if !Refuses(db, es) {
        AcceptedCreateRows(db, ts, es, id);
      }
    case GateOp(other, gate, value, claim) => GateKeepsTask(db, other, gate, value, claim, id);
    case StartOp(other, title, project, session) => StartKeepsTask(db, other, title, project, session, id);
    case DoneOp(other) =>
    case RepairOp =>
  }

  /** No history renames, reassigns or drops a task whose label is not its own id. */
  lemma {:induction false} RunKeepsTask(db: Db, ops: seq<Op>, id: string)
    requires Sound(db) && id in db.rows && !IsStub(id, db.rows[id])
    ensures id in Run(db, ops).rows && SameTask(db.rows[id], Run(db, ops).rows[id])
    decreases |ops|
  {
    if ops != [] {
      ApplySound(db, ops[0]);
      ApplyKeepsTask(db, ops[0], id);
      RunKeepsTask(Apply(db, ops[0]), ops[1..], id);
    }
  }

  // ---- started and never finished ----------------------------------------------------------

  predicate StoppedMidTask(db: Db, id: string) {
    id in db.rows && db.rows[id].inFlight && !db.rows[id].done
  }

  /** Starting puts a task on its owner's "stopped here" list even if it was done. Starting
      and then finishing it is finishing it, exactly when it was known and owned. */
  lemma StartedThenFinished(db: Db, id: string, title: string, project: string, session: string)
    ensures var after := Start(db, id, title, project, session);
            && StoppedMidTask(after, id)
            && (OpenAndFlying(after.rows, project)(id) <==>
                id !in db.rows || db.rows[id].project.None? || db.rows[id].project == Some(project))
            && (MarkDone(after, id) == MarkDone(db, id) <==> id in db.rows && db.rows[id].project.Some?)
  {
    var after := Start(db, id, title, project, session);
    assert MarkDone(after, id).rows[id].project.Some?;
    if id in db.rows && db.rows[id].project.Some? {
      assert MarkDone(after, id).rows == MarkDone(db, id).rows;
    }
  }

  /** The two writes that take a started task off the "stopped here" list. */
  predicate Closes(op: Op, id: string) {
    op == DoneOp(id) || (op.GateOp? && op.id == id && op.gate == "in_flight" && !op.value)
  }

  lemma GateRow(db: Db, other: string, gate: string, value: bool, claim: Option<string>, id: string)
    requires id in db.rows
    ensures id in SetGate(db, other, gate, value, claim).rows
    ensures SetGate(db, other, gate, value, claim).rows[id]
            == if other == id && GateNamed(gate).Some? then WithGate(db.rows[id], GateNamed(gate).value, value, claim)
               else db.rows[id]
  {
    if GateNamed(gate).Some? {
      SetGateRows(db, other, gate, value, claim);
    }
  }

  lemma GateCloses(db: Db, other: string, gate: string, value: bool, claim: Option<string>, id: string)
    requires StoppedMidTask(db, id)
    ensures StoppedMidTask(SetGate(db, other, gate, value, claim), id)
            <==> !(other == id && gate == "in_flight" && !value)
  {
    GateRow(db, other, gate, value, claim, id);
  }

  lemma StartRow(db: Db, other: string, title: string, project: string, session: string, id: string)
    requires id in db.rows
    ensures id in Start(db, other, title, project, session).rows
    ensures StoppedMidTask(db, id) ==> StoppedMidTask(Start(db, other, title, project, session), id)
  {
    assert InsertRow(db, other, title, Some(project)).rows[id] == db.rows[id];
  }

  lemma CreateRow(db: Db, ts: seq<NewTask>, es: seq<Edge>, id: string)
    requires StoppedMidTask(db, id)
    ensures StoppedMidTask(Create(db, ts, es), id)
  {
    if !Refuses(db, es) {
      AcceptedCreateRows(db, ts, es, id);
    }
  }

  lemma RepairRow(db: Db, id: string)
    requires StoppedMidTask(db, id)
    ensures StoppedMidTask(Repaired(db), id)
  {
    assert !Doomed(db.rows, id);
  }

  /** Finishing is not the only thing that closes a started task: releasing the claim
      does too, and nothing else. */
  lemma WhatCloses(db: Db, op: Op, id: string)
    requires Sound(db) && StoppedMidTask(db, id)
    ensures StoppedMidTask(Apply(db, op), id) <==> !Closes(op, id)
  {
    match op
    case CreateOp(ts, es) => CreateRow(db, ts, es, id);
    case GateOp(other, gate, value, claim) => GateCloses(db, other, gate, value, claim, id);
    case StartOp(other, title, project, session) => StartRow(db, other, title, project, session, id);
    case DoneOp(other) =>
    case RepairOp => RepairRow(db, id);
  }

  // ---- batching ------------------------------------------------------------------------------

  datatype Batch = Batch(tasks: seq<NewTask>, edges: seq<Edge>)

  function AllEdges(batches: seq<Batch>): set<Edge> {
    if batches == [] then {} else Elems(batches[0].edges) + AllEdges(batches[1..])
  }

  ghost function CreateAll(db: Db, batches: seq<Batch>): Db
    decreases |batches|
  {
    if batches == [] then db
    else CreateAll(Create(db, batches[0].tasks, batches[0].edges), batches[1..])
  }

  ghost predicate AllAccepted(db: Db, batches: seq<Batch>)
    decreases |batches|
  {
    batches == [] ||
    (!Refuses(db, batches[0].edges) &&
     AllAccepted(Create(db, batches[0].tasks, batches[0].edges), batches[1..]))
  }

  /** A sequence of creates is accepted in full exactly when all its edges together
      with the stored ones have no cycle, and then precisely those edges are stored. */
  lemma {:induction false} AcceptedIffAcyclic(db: Db, batches: seq<Batch>)
    requires Sound(db)
    ensures AllAccepted(db, batches) <==> !HasCycle(db.edges + AllEdges(batches))
    ensures AllAccepted(db, batches) ==> CreateAll(db, batches).edges == db.edges + AllEdges(batches)
    decreases |batches|
  {
    if batches == [] {
      assert db.edges + {} == db.edges;
    } else {
      var es := batches[0].edges;
      var all := db.edges + AllEdges(batches);
      if Refuses(db, es) {
        if HasSelfEdge(es) {
          var i :| 0 <= i < |es| && es[i].0 == es[i].1;
          assert es[i] == (es[i].0, es[i].0) && es[i] in Elems(es);
          SelfEdgeIsCycle(db.edges + Elems(es), es[i].0);
        }
        CycleMonotone(db.edges + Elems(es), all);
      } else {
        var next := Create(db, batches[0].tasks, es);
        CreateSound(db, batches[0].tasks, es);
        AcceptedIffAcyclic(next, batches[1..]);
        assert next.edges + AllEdges(batches[1..]) == all;
      }
    }
  }

  /** Batching and order do not matter: the same edges are accepted and stored alike. */
  lemma BatchingDoesNotMatter(a: seq<Batch>, b: seq<Batch>)
    requires AllEdges(a) == AllEdges(b)
    ensures AllAccepted(EMPTY, a) <==> AllAccepted(EMPTY, b)
    ensures AllAccepted(EMPTY, a) ==> CreateAll(EMPTY, a).edges == CreateAll(EMPTY, b).edges == AllEdges(a)
  {
    RankedIsAcyclic({}, map[]);
    AcceptedIffAcyclic(EMPTY, a);
    AcceptedIffAcyclic(EMPTY, b);
    assert {} + AllEdges(a) == AllEdges(a);
  }
}
