/** The task graph's two tables as one value, and what each write does to it. */
module TaskGraph {
  import opened Prelude
  import opened Digraph

  datatype Row = Row(title: string, project: Option<string>, challengeCleared: bool, nfrCleared: bool,
                     unblocked: bool, inFlight: bool, session: Option<string>, done: bool, stale: bool)

  /** `order` lists the row ids by rowid, oldest first. */
  datatype Db = Db(rows: map<string, Row>, order: seq<string>, edges: set<Edge>)

  datatype NewTask = NewTask(id: string, title: string, project: Option<string>)

  datatype Gate = ChallengeCleared | NfrCleared | Unblocked | InFlight

  const EMPTY := Db(map[], [], {})

  ghost predicate Closed(db: Db) {
    forall e :: e in db.edges ==> e.0 in db.rows && e.1 in db.rows
  }

  ghost predicate ClaimsHeld(db: Db) {
    forall id :: id in db.rows && db.rows[id].session.Some? ==> db.rows[id].inFlight
  }

  /** What the tables promise between writes: every row has one rowid, edges end
      in rows, no directed cycle, and only an in-flight row carries a claim. */
  ghost predicate Sound(db: Db) {
    && NoDup(db.order) && Elems(db.order) == db.rows.Keys
    && Closed(db)
    && !HasCycle(db.edges)
    && ClaimsHeld(db)
  }

  // ---- statements ------------------------------------------------------------------------

  function NewRow(title: string, project: Option<string>): Row {
    Row(title, project, false, false, false, false, None, false, false)
  }

  /** INSERT OR IGNORE INTO tasks */
  function InsertRow(db: Db, id: string, title: string, project: Option<string>): Db {
    if id in db.rows then db
    else db.(rows := db.rows[id := NewRow(title, project)], order := db.order + [id])
  }

  /** UPDATE tasks SET ... WHERE id = ?; no row, no effect */
  function UpdateRow(db: Db, id: string, f: Row -> Row): Db {
    if id in db.rows then db.(rows := db.rows[id := f(db.rows[id])]) else db
  }

  predicate NamesProject(project: Option<string>) {
    project.Some? && project.value != ""
  }

  // ---- create_task_graph -----------------------------------------------------------------

  /** A row seeded before it had an owner is adopted; an owned row keeps its owner. */
  function AddTask(db: Db, t: NewTask): Db {
    var inserted := InsertRow(db, t.id, t.title, t.project);
    if NamesProject(t.project) && inserted.rows[t.id].project.None?
    then inserted.(rows := inserted.rows[t.id := inserted.rows[t.id].(project := t.project)])
    else inserted
  }

  function AddTasks(db: Db, ts: seq<NewTask>): Db
    decreases |ts|
  {
    if ts == [] then db else AddTasks(AddTask(db, ts[0]), ts[1..])
  }

  /** Endpoints that are not tasks yet become stubs labelled with their own id. */
  function AddEdge(db: Db, e: Edge): Db {
    var stubbed := InsertRow(InsertRow(db, e.0, e.0, None), e.1, e.1, None);
    stubbed.(edges := stubbed.edges + {e})
  }

  function AddEdges(db: Db, es: seq<Edge>): Db
    decreases |es|
  {
    if es == [] then db else AddEdges(AddEdge(db, es[0]), es[1..])
  }

  predicate HasSelfEdge(es: seq<Edge>) {
    exists i :: 0 <= i < |es| && es[i].0 == es[i].1
  }

  /** Would the call be turned away? */
  ghost predicate Refuses(db: Db, es: seq<Edge>) {
    HasSelfEdge(es) || HasCycle(db.edges + Elems(es))
  }

  ghost function Create(db: Db, ts: seq<NewTask>, es: seq<Edge>): Db {
    if Refuses(db, es) then db else AddEdges(AddTasks(db, ts), es)
  }

  // ---- gates, claims, completion ---------------------------------------------------------

  function GateNamed(name: string): Option<Gate> {
    if name == "challenge_cleared" then Some(ChallengeCleared)
    else if name == "nfr_cleared" then Some(NfrCleared)
    else if name == "unblocked" then Some(Unblocked)
    else if name == "in_flight" then Some(InFlight)
    else None
  }

  function WithGate(r: Row, g: Gate, value: bool, session: Option<string>): Row {
    match g
    case ChallengeCleared => r.(challengeCleared := value)
    case NfrCleared => r.(nfrCleared := value)
    case Unblocked => r.(unblocked := value)
    case InFlight => r.(inFlight := value, session := if value then session else None)
  }

  function SetGate(db: Db, id: string, gate: string, value: bool, session: Option<string>): Db {
    match GateNamed(gate)
    case None => db
    case Some(g) => UpdateRow(InsertRow(db, id, id, None), id, (r: Row) => WithGate(r, g, value, session))
  }

  function Start(db: Db, id: string, title: string, project: string, session: string): Db {
    UpdateRow(InsertRow(db, id, title, Some(project)), id,
              (r: Row) => r.(project := if r.project.Some? then r.project else Some(project),
                             inFlight := true, done := false, session := Some(session)))
  }

  function MarkDone(db: Db, id: string): Db {
    UpdateRow(db, id, (r: Row) => r.(done := true, inFlight := false, session := None))
  }

  // ---- every write keeps the tables sound ------------------------------------------------

  lemma InsertRowSound(db: Db, id: string, title: string, project: Option<string>)
    requires Sound(db)
    ensures Sound(InsertRow(db, id, title, project))
  {
    var r := InsertRow(db, id, title, project);
    if id !in db.rows {
      assert id !in db.order by {
        assert id in db.order ==> id in Elems(db.order);
      }
      assert Elems(r.order) == Elems(db.order) + {id};
    }
  }

  lemma RowWriteSound(db: Db, id: string, r: Row)
    requires Sound(db) && id in db.rows
    requires r.session.Some? ==> r.inFlight
    ensures Sound(db.(rows := db.rows[id := r]))
  {
    assert db.rows[id := r].Keys == db.rows.Keys;
  }

  lemma AddTaskSound(db: Db, t: NewTask)
    requires Sound(db)
    ensures Sound(AddTask(db, t)) && AddTask(db, t).edges == db.edges
  {
    InsertRowSound(db, t.id, t.title, t.project);
    var inserted := InsertRow(db, t.id, t.title, t.project);
    assert AddTask(db, t).rows.Keys == inserted.rows.Keys;
  }

  lemma {:induction false} AddTasksSound(db: Db, ts: seq<NewTask>)
    requires Sound(db)
    ensures Sound(AddTasks(db, ts)) && AddTasks(db, ts).edges == db.edges
    decreases |ts|
  {
    if ts != [] {
      AddTaskSound(db, ts[0]);
      AddTasksSound(AddTask(db, ts[0]), ts[1..]);
    }
  }

  lemma {:induction false} AddEdgesSound(db: Db, es: seq<Edge>)
    requires Sound(db) && !HasCycle(db.edges + Elems(es))
    ensures Sound(AddEdges(db, es)) && AddEdges(db, es).edges == db.edges + Elems(es)
    decreases |es|
  {
    if es == [] {
      assert db.edges + Elems(es) == db.edges;
    } else {
      var e := es[0];
      InsertRowSound(db, e.0, e.0, None);
      InsertRowSound(InsertRow(db, e.0, e.0, None), e.1, e.1, None);
      var next := AddEdge(db, e);
      assert next.edges + Elems(es[1..]) == db.edges + Elems(es);
      if HasCycle(next.edges) {
        CycleMonotone(next.edges, db.edges + Elems(es));
      }
      AddEdgesSound(next, es[1..]);
    }
  }

  /** A refused call changes nothing; an accepted one adds exactly its edges. */
  lemma CreateSound(db: Db, ts: seq<NewTask>, es: seq<Edge>)
    requires Sound(db)
    ensures Sound(Create(db, ts, es))
    ensures Create(db, ts, es).edges == if Refuses(db, es) then db.edges else db.edges + Elems(es)
  {
    if !Refuses(db, es) {
      AddTasksSound(db, ts);
      AddEdgesSound(AddTasks(db, ts), es);
    }
  }

  lemma WithGateKeeps(r: Row, g: Gate, value: bool, session: Option<string>)
    ensures WithGate(r, g, value, session).title == r.title && WithGate(r, g, value, session).project == r.project
    ensures (r.session.Some? ==> r.inFlight) ==>
              WithGate(r, g, value, session).session.Some? ==> WithGate(r, g, value, session).inFlight
  {
  }

  /** A gate write touches one row, creating it as a stub if it is not there. */
  lemma SetGateRows(db: Db, id: string, gate: string, value: bool, session: Option<string>)
    requires GateNamed(gate).Some?
    ensures var before := InsertRow(db, id, id, None);
            SetGate(db, id, gate, value, session)
            == before.(rows := before.rows[id := WithGate(before.rows[id], GateNamed(gate).value, value, session)])
  {
  }

  lemma SetGateSound(db: Db, id: string, gate: string, value: bool, session: Option<string>)
    requires Sound(db)
    ensures Sound(SetGate(db, id, gate, value, session))
  {
    if GateNamed(gate).Some? {
      SetGateRows(db, id, gate, value, session);
      InsertRowSound(db, id, id, None);
      var before := InsertRow(db, id, id, None);
      WithGateKeeps(before.rows[id], GateNamed(gate).value, value, session);
      RowWriteSound(before, id, WithGate(before.rows[id], GateNamed(gate).value, value, session));
    }
  }

  lemma StartSound(db: Db, id: string, title: string, project: string, session: string)
    requires Sound(db)
    ensures Sound(Start(db, id, title, project, session))
  {
    InsertRowSound(db, id, title, Some(project));
    var d := InsertRow(db, id, title, Some(project));
    assert Start(db, id, title, project, session).rows.Keys == d.rows.Keys;
  }

  lemma MarkDoneSound(db: Db, id: string)
    requires Sound(db)
    ensures Sound(MarkDone(db, id))
  {
    assert MarkDone(db, id).rows.Keys == db.rows.Keys;
  }

  // ---- what an accepted create leaves in the rows ------------------------------------------

  function Ids(ts: seq<NewTask>): set<string> {
    set t | t in ts :: t.id
  }

  function Endpoints(es: seq<Edge>): set<string> {
    (set e | e in es :: e.0) + set e | e in es :: e.1
  }

  /** The owner an unowned row ends with: the first non-empty project offered. */
  function Owner(current: Option<string>, ts: seq<NewTask>, id: string): Option<string> {
    if current.Some? || ts == [] then current
    else if ts[0].id == id && NamesProject(ts[0].project) then ts[0].project
    else Owner(None, ts[1..], id)
  }

  lemma {:induction false} AddTasksKeys(db: Db, ts: seq<NewTask>)
    ensures AddTasks(db, ts).rows.Keys == db.rows.Keys + Ids(ts)
    decreases |ts|
  {
    if ts == [] {
      assert Ids(ts) == {};
    } else {
      AddTasksKeys(AddTask(db, ts[0]), ts[1..]);
      assert ts == [ts[0]] + ts[1..];
      assert Ids(ts) == {ts[0].id} + Ids(ts[1..]);
    }
  }

  lemma AddTaskRow(db: Db, t: NewTask, id: string)
    requires id in db.rows
    ensures id in AddTask(db, t).rows
    ensures var owner := db.rows[id].project;
            AddTask(db, t).rows[id]
            == db.rows[id].(project := if owner.None? && t.id == id && NamesProject(t.project) then t.project
                                       else owner)
  {
    assert InsertRow(db, t.id, t.title, t.project).rows[id] == db.rows[id];
  }

  lemma {:induction false} AddTasksOldRow(db: Db, ts: seq<NewTask>, id: string)
    requires id in db.rows
    ensures id in AddTasks(db, ts).rows
    ensures AddTasks(db, ts).rows[id] == db.rows[id].(project := Owner(db.rows[id].project, ts, id))
    decreases |ts|
  {
    if ts != [] {
      var next := AddTask(db, ts[0]);
      AddTaskRow(db, ts[0], id);
      AddTasksOldRow(next, ts[1..], id);
      assert Owner(next.rows[id].project, ts[1..], id) == Owner(db.rows[id].project, ts, id);
    }
  }

  lemma {:induction false} AddTasksNewRow(db: Db, ts: seq<NewTask>, k: nat)
    requires k < |ts| && ts[k].id !in db.rows && ts[k].id !in Ids(ts[..k])
    ensures ts[k].id in AddTasks(db, ts).rows
    ensures AddTasks(db, ts).rows[ts[k].id] == NewRow(ts[k].title, Owner(ts[k].project, ts[k..], ts[k].id))
    decreases |ts|
  {
    var next := AddTask(db, ts[0]);
    if k == 0 {
      assert ts[0..] == ts;
      AddTasksOldRow(next, ts[1..], ts[0].id);
    } else {
      assert ts[0] in ts[..k];
      forall i | i in Ids(ts[1..][..k - 1]) ensures i in Ids(ts[..k]) {
        var t :| t in ts[1..][..k - 1] && t.id == i;
        assert t in ts[..k];
      }
      assert ts[1..][k - 1..] == ts[k..];
      AddTasksNewRow(next, ts[1..], k - 1);
    }
  }

  lemma AddEdgeRow(db: Db, e: Edge, id: string)
    ensures AddEdge(db, e).rows.Keys == db.rows.Keys + {e.0, e.1}
    ensures id in db.rows ==> AddEdge(db, e).rows[id] == db.rows[id]
    ensures id !in db.rows && (id == e.0 || id == e.1) ==> AddEdge(db, e).rows[id] == NewRow(id, None)
  {
    assert InsertRow(db, e.0, e.0, None).rows.Keys == db.rows.Keys + {e.0};
  }

  lemma {:induction false} AddEdgesRows(db: Db, es: seq<Edge>, id: string)
    ensures AddEdges(db, es).rows.Keys == db.rows.Keys + Endpoints(es)
    ensures id in db.rows ==> AddEdges(db, es).rows[id] == db.rows[id]
    ensures id !in db.rows && id in Endpoints(es) ==> AddEdges(db, es).rows[id] == NewRow(id, None)
    ensures AddEdges(db, es).edges == db.edges + Elems(es)
    decreases |es|
  {
    if es == [] {
      assert db.edges + Elems(es) == db.edges;
    } else {
      var next := AddEdge(db, es[0]);
      AddEdgeRow(db, es[0], id);
      EndpointsUnfold(es);
      AddEdgesRows(next, es[1..], id);
    }
  }

  lemma EndpointsUnfold(es: seq<Edge>)
    requires es != []
    ensures Endpoints(es) == {es[0].0, es[0].1} + Endpoints(es[1..])
    ensures Elems(es) == {es[0]} + Elems(es[1..])
  {
    assert es == [es[0]] + es[1..];
  }

  /** An accepted call adds its tasks and its edges' endpoints and no other row. A
      known row keeps its title, gates, claim and completion, and its owner if it
      has one; a new row is closed on every gate and keeps the first title given. */
  lemma {:induction false} AcceptedCreateRows(db: Db, ts: seq<NewTask>, es: seq<Edge>, id: string)
    requires !Refuses(db, es)
    ensures Create(db, ts, es).rows.Keys == db.rows.Keys + Ids(ts) + Endpoints(es)
    ensures id in db.rows ==>
              Create(db, ts, es).rows[id] == db.rows[id].(project := Owner(db.rows[id].project, ts, id))
    ensures forall k :: 0 <= k < |ts| && ts[k].id == id && id !in db.rows && id !in Ids(ts[..k]) ==>
              Create(db, ts, es).rows[id]
              == Row(ts[k].title, Owner(ts[k].project, ts[k..], id), false, false, false, false, None, false, false)
    ensures id in Endpoints(es) && id !in db.rows && id !in Ids(ts) ==>
              Create(db, ts, es).rows[id] == Row(id, None, false, false, false, false, None, false, false)
  {
    AddTasksKeys(db, ts);
    if id in db.rows {
      AddTasksOldRow(db, ts, id);
    }
    forall k | 0 <= k < |ts| && ts[k].id == id && id !in db.rows && id !in Ids(ts[..k])
      ensures AddTasks(db, ts).rows[id] == NewRow(ts[k].title, Owner(ts[k].project, ts[k..], id))
    {
      AddTasksNewRow(db, ts, k);
    }
    AddEdgesRows(AddTasks(db, ts), es, id);
  }

  /** No task is created with a gate cleared, claimed, finished or stale. */
  lemma CreatedRowsStartClosed(db: Db, ts: seq<NewTask>, es: seq<Edge>, id: string)
    requires id !in db.rows && id in Create(db, ts, es).rows
    ensures var r := Create(db, ts, es).rows[id];
            && !r.challengeCleared && !r.nfrCleared && !r.unblocked && !r.inFlight && !r.done && !r.stale
            && r.session.None?
  {
    AcceptedCreateRows(db, ts, es, id);
    if id in Ids(ts) {
      var t :| t in ts && t.id == id;
      var k :| 0 <= k < |ts| && ts[k] == t;
      var f := FirstOf(ts, id, k);
    }
  }

  /** An unowned row takes the first owner a create names; "" names none. */
  lemma AdoptionExactly(db: Db, t: NewTask)
    requires t.id in db.rows
    ensures t.id in AddTask(db, t).rows
    ensures AddTask(db, t).rows[t.id].project
            == if db.rows[t.id].project.None? && t.project.Some? && t.project.value != "" then t.project
               else db.rows[t.id].project
  {
  }

  /** The row a write finds, or the stub it makes. */
  function RowOrStub(db: Db, id: string): Row {
    if id in db.rows then db.rows[id] else Row(id, None, false, false, false, false, None, false, false)
  }

  /** Each gate name writes its own column, the in-flight gate the claim too, and no other
      name writes anything. */
  lemma GateColumns(db: Db, id: string, gate: string, value: bool, session: Option<string>)
    ensures var after := SetGate(db, id, gate, value, session);
            var r := RowOrStub(db, id);
            && (gate == "challenge_cleared" ==> id in after.rows && after.rows[id] == r.(challengeCleared := value))
            && (gate == "nfr_cleared" ==> id in after.rows && after.rows[id] == r.(nfrCleared := value))
            && (gate == "unblocked" ==> id in after.rows && after.rows[id] == r.(unblocked := value))
            && (gate == "in_flight" ==>
                  id in after.rows
                  && after.rows[id] == r.(inFlight := value, session := if value then session else None))
            && (gate !in {"challenge_cleared", "nfr_cleared", "unblocked", "in_flight"} ==> after == db)
  {
  }

  /** What starting and finishing leave in the row. */
  lemma StartAndDoneColumns(db: Db, id: string, title: string, project: string, session: string)
    ensures var after := Start(db, id, title, project, session);
            && id in after.rows
            && (id !in db.rows ==>
                  after.rows[id]
                  == Row(title, Some(project), false, false, false, true, Some(session), false, false))
            && (id in db.rows ==>
                  after.rows[id]
                  == db.rows[id].(project := if db.rows[id].project.None? then Some(project) else db.rows[id].project,
                                  inFlight := true, done := false, session := Some(session)))
    ensures id in db.rows ==>
              id in MarkDone(db, id).rows
              && MarkDone(db, id).rows[id] == db.rows[id].(done := true, inFlight := false, session := None)
    ensures id !in db.rows ==> MarkDone(db, id) == db
  {
  }

  // ---- writes are safe to repeat ---------------------------------------------------------

  lemma {:induction false} AddTasksAgain(db: Db, ts: seq<NewTask>)
    requires forall t :: t in ts ==> t.id in db.rows
    requires forall t :: t in ts && NamesProject(t.project) ==> db.rows[t.id].project.Some?
    ensures AddTasks(db, ts) == db
  {
    if ts != [] {
      assert ts[0] in ts;
      assert AddTask(db, ts[0]) == db;
      AddTasksAgain(db, ts[1..]);
    }
  }

  lemma {:induction false} AddEdgesAgain(db: Db, es: seq<Edge>)
    requires forall e :: e in es ==> e in db.edges && e.0 in db.rows && e.1 in db.rows
    ensures AddEdges(db, es) == db
  {
    if es != [] {
      assert es[0] in es;
      assert db.edges + {es[0]} == db.edges;
      AddEdgesAgain(db, es[1..]);
    }
  }

  lemma {:induction false} OwnerNamed(current: Option<string>, ts: seq<NewTask>, k: nat)
    requires k < |ts| && NamesProject(ts[k].project)
    ensures Owner(current, ts, ts[k].id).Some?
  {
    if current.None? && k > 0 {
      OwnerNamed(None, ts[1..], k - 1);
    }
  }

  lemma AddTasksOwned(db: Db, ts: seq<NewTask>, k: nat)
    requires k < |ts| && NamesProject(ts[k].project)
    ensures ts[k].id in AddTasks(db, ts).rows && AddTasks(db, ts).rows[ts[k].id].project.Some?
  {
    var id := ts[k].id;
    if id in db.rows {
      AddTasksOldRow(db, ts, id);
      OwnerNamed(db.rows[id].project, ts, k);
    } else {
      var f := FirstOf(ts, id, k);
      AddTasksNewRow(db, ts, f);
      OwnerNamed(ts[f].project, ts[f..], k - f);
    }
  }

  lemma FirstOf(ts: seq<NewTask>, id: string, k: nat) returns (f: nat)
    requires k < |ts| && ts[k].id == id
    ensures f <= k && ts[f].id == id && id !in Ids(ts[..f])
  {
    f := 0;
    while ts[f].id != id
      invariant f <= k && id !in Ids(ts[..f])
      decreases k - f
    {
      assert ts[..f + 1] == ts[..f] + [ts[f]];
      f := f + 1;
    }
  }

  /** Repeating a create, accepted or refused, changes nothing more. */
  lemma CreateIdempotent(db: Db, ts: seq<NewTask>, es: seq<Edge>)
    requires Sound(db)
    ensures Create(Create(db, ts, es), ts, es) == Create(db, ts, es)
  {
    if !Refuses(db, es) {
      var once := Create(db, ts, es);
      CreateSound(db, ts, es);
      assert once.edges + Elems(es) == once.edges;
      forall t | t in ts
        ensures t.id in once.rows && (NamesProject(t.project) ==> once.rows[t.id].project.Some?)
      {
        var k :| 0 <= k < |ts| && ts[k] == t;
        AddTasksKeys(db, ts);
        AddEdgesRows(AddTasks(db, ts), es, t.id);
        if NamesProject(t.project) {
          AddTasksOwned(db, ts, k);
        }
      }
      AddTasksAgain(once, ts);
      forall e | e in es ensures e in once.edges && e.0 in once.rows && e.1 in once.rows {
        assert e in Elems(es);
      }
      AddEdgesAgain(once, es);
    }
  }

  function Write(db: Db, id: string, r: Row): Db {
    db.(rows := db.rows[id := r])
  }

  lemma WriteTwice(db: Db, id: string, r: Row, q: Row)
    ensures Write(Write(db, id, r), id, q) == Write(db, id, q)
  {
    assert db.rows[id := r][id := q] == db.rows[id := q];
  }

  lemma WritesCommute(db: Db, a: string, r: Row, b: string, q: Row)
    requires a != b
    ensures Write(Write(db, a, r), b, q) == Write(Write(db, b, q), a, r)
  {
    assert db.rows[a := r][b := q] == db.rows[b := q][a := r];
  }

  /** On a known task a gate write is one row write; on a new one it is that after the stub. */
  lemma SetGateWrites(db: Db, id: string, gate: string, value: bool, session: Option<string>)
    requires GateNamed(gate).Some?
    ensures id in db.rows ==>
              SetGate(db, id, gate, value, session)
              == Write(db, id, WithGate(db.rows[id], GateNamed(gate).value, value, session))
    ensures SetGate(db, id, gate, value, session) == SetGate(InsertRow(db, id, id, None), id, gate, value, session)
  {
    SetGateRows(db, id, gate, value, session);
    SetGateRows(InsertRow(db, id, id, None), id, gate, value, session);
  }

  lemma RowGateLast(r: Row, g: Gate, was: bool, value: bool, before: Option<string>, session: Option<string>)
    ensures WithGate(WithGate(r, g, was, before), g, value, session) == WithGate(r, g, value, session)
  {
  }

  lemma RowGatesCommute(r: Row, g: Gate, v: bool, s: Option<string>, h: Gate, w: bool, t: Option<string>)
    requires g != h
    ensures WithGate(WithGate(r, g, v, s), h, w, t) == WithGate(WithGate(r, h, w, t), g, v, s)
  {
    match g
    case ChallengeCleared =>
    case NfrCleared =>
    case Unblocked =>
    case InFlight =>
  }

  lemma GateNamesDiffer(g: string, h: string)
    requires g != h && GateNamed(g).Some?
    ensures GateNamed(g) != GateNamed(h)
  {
  }

  /** A gate holds what was last written to it, whatever stood before. */
  lemma LastGateWriteWins(db: Db, id: string, gate: string, was: bool, value: bool, before: Option<string>,
                          session: Option<string>)
    ensures SetGate(SetGate(db, id, gate, was, before), id, gate, value, session)
            == SetGate(db, id, gate, value, session)
  {
    if GateNamed(gate).Some? {
      var g, known := GateNamed(gate).value, InsertRow(db, id, id, None);
      SetGateWrites(db, id, gate, was, before);
      SetGateWrites(db, id, gate, value, session);
      KnownGateLast(known, id, gate, was, value, before, session);
    }
  }

  lemma KnownGateLast(db: Db, id: string, gate: string, was: bool, value: bool, before: Option<string>,
                      session: Option<string>)
    requires GateNamed(gate).Some? && id in db.rows
    ensures SetGate(SetGate(db, id, gate, was, before), id, gate, value, session)
            == SetGate(db, id, gate, value, session)
  {
    var g, r := GateNamed(gate).value, db.rows[id];
    SetGateWrites(db, id, gate, was, before);
    SetGateWrites(db, id, gate, value, session);
    SetGateWrites(Write(db, id, WithGate(r, g, was, before)), id, gate, value, session);
    RowGateLast(r, g, was, value, before, session);
    WriteTwice(db, id, WithGate(r, g, was, before), WithGate(r, g, value, session));
  }

  lemma KnownGatesCommute(db: Db, a: string, g: string, v: bool, s: Option<string>, b: string, h: string, w: bool,
                          t: Option<string>)
    requires GateNamed(g).Some? && GateNamed(h).Some? && a in db.rows && b in db.rows
    requires a != b || g != h
    ensures SetGate(SetGate(db, a, g, v, s), b, h, w, t) == SetGate(SetGate(db, b, h, w, t), a, g, v, s)
  {
    var gate, other := GateNamed(g).value, GateNamed(h).value;
    var r, q := WithGate(db.rows[a], gate, v, s), WithGate(db.rows[b], other, w, t);
    SetGateWrites(db, a, g, v, s);
    SetGateWrites(db, b, h, w, t);
    SetGateWrites(Write(db, a, r), b, h, w, t);
    SetGateWrites(Write(db, b, q), a, g, v, s);
    if a != b {
      WritesCommute(db, a, r, b, q);
    } else {
      GateNamesDiffer(g, h);
      RowGatesCommute(db.rows[a], gate, v, s, other, w, t);
      WriteTwice(db, a, r, WithGate(r, other, w, t));
      WriteTwice(db, a, q, WithGate(q, gate, v, s));
    }
  }

  /** Gates are independent: writes to different gates, or to different known tasks, commute. */
  lemma GateWritesCommute(db: Db, a: string, g: string, v: bool, s: Option<string>, b: string, h: string, w: bool,
                          t: Option<string>)
    requires a == b || (a in db.rows && b in db.rows)
    requires a != b || g != h
    ensures SetGate(SetGate(db, a, g, v, s), b, h, w, t) == SetGate(SetGate(db, b, h, w, t), a, g, v, s)
  {
    if GateNamed(g).Some? && GateNamed(h).Some? {
      SetGateWrites(db, a, g, v, s);
      SetGateWrites(db, b, h, w, t);
      KnownGatesCommute(InsertRow(db, a, a, None), a, g, v, s, b, h, w, t);
    }
  }

  /** Releasing a claim gives back the database as it was before the claim exactly when
      the task was known and nobody held it. */
  lemma ReleaseUndoesClaim(db: Db, id: string, session: Option<string>, other: Option<string>)
    requires Sound(db)
    ensures SetGate(SetGate(db, id, "in_flight", true, session), id, "in_flight", false, other) == db
            <==> id in db.rows && !db.rows[id].inFlight
  {
    LastGateWriteWins(db, id, "in_flight", true, false, session, other);
    SetGateRows(db, id, "in_flight", false, other);
    if id in db.rows && !db.rows[id].inFlight {
      assert SetGate(db, id, "in_flight", false, other).rows == db.rows;
    }
  }

  lemma StartIdempotent(db: Db, id: string, title: string, project: string, session: string)
    ensures Start(Start(db, id, title, project, session), id, title, project, session)
            == Start(db, id, title, project, session)
  {
    var once := Start(db, id, title, project, session);
    assert Start(once, id, title, project, session).rows == once.rows;
  }

  lemma MarkDoneIdempotent(db: Db, id: string)
    ensures MarkDone(MarkDone(db, id), id) == MarkDone(db, id)
  {
    var once := MarkDone(db, id);
    assert MarkDone(once, id).rows == once.rows;
  }
}
