/** The value plan as a batch client of the task graph. */
module PlanStatus {
  import opened Prelude
  import opened Digraph
  import opened TaskGraph
  import opened Scheduler
  import opened TaskStore

  datatype PlanTask = PlanTask(id: string, title: string)

  function Owned(plan: seq<PlanTask>, project: string): seq<NewTask> {
    Map((t: PlanTask) => NewTask(t.id, t.title, Some(project)), plan)
  }

  function PlanIds(plan: seq<PlanTask>): seq<string> {
    Map((t: PlanTask) => t.id, plan)
  }

  function Unblock(db: Db, id: string): Db {
    SetGate(db, id, "unblocked", true, None)
  }

  function UnblockAll(db: Db, ids: seq<string>): Db
    decreases |ids|
  {
    if ids == [] then db else UnblockAll(Unblock(db, ids[0]), ids[1..])
  }

  ghost function Load(db: Db, project: string, plan: seq<PlanTask>, es: seq<Edge>): Db {
    UnblockAll(Create(db, Owned(plan, project), es), PlanIds(plan))
  }

  method LoadPlan(store: Store, project: string, plan: seq<PlanTask>, es: seq<Edge>) returns (reply: CreateReply)
    requires Sound(store.Value())
    modifies store
    ensures Sound(store.Value()) && store.Value() == Load(old(store.Value()), project, plan, es)
    ensures reply.Added? <==> !Refuses(old(store.Value()), es)
  {
    var tasks := Owned(plan, project);
    reply := store.CreateTaskGraph(tasks, es);
    ghost var created := store.Value();
    var ids := PlanIds(plan);
    for i := 0 to |ids|
      invariant Sound(store.Value())
      invariant UnblockAll(created, ids) == UnblockAll(store.Value(), ids[i..])
    {
      var _ := store.SetTaskGate(ids[i], "unblocked", true, None);
      assert ids[i..][1..] == ids[i + 1..];
    }
  }

  // ---- what loading does to a row --------------------------------------------------------

  lemma {:induction false} UnblockAllRow(db: Db, ids: seq<string>, id: string)
    ensures UnblockAll(db, ids).rows.Keys == db.rows.Keys + Elems(ids)
    ensures UnblockAll(db, ids).edges == db.edges
    ensures id in db.rows ==>
              UnblockAll(db, ids).rows[id] == if id in ids then db.rows[id].(unblocked := true) else db.rows[id]
    ensures id !in db.rows && id in ids ==> UnblockAll(db, ids).rows[id] == NewRow(id, None).(unblocked := true)
    decreases |ids|
  {
    if ids != [] {
      var next := Unblock(db, ids[0]);
      UnblockAllRow(next, ids[1..], id);
      assert ids == [ids[0]] + ids[1..];
      assert next.rows.Keys == db.rows.Keys + {ids[0]};
    }
  }

  lemma {:induction false} UnblockAllAgain(db: Db, ids: seq<string>)
    requires forall id :: id in ids ==> id in db.rows && db.rows[id].unblocked
    ensures UnblockAll(db, ids) == db
    decreases |ids|
  {
    if ids != [] {
      assert ids[0] in ids;
      assert Unblock(db, ids[0]).rows == db.rows;
      UnblockAllAgain(db, ids[1..]);
    }
  }

  lemma PlanIdsAreIds(plan: seq<PlanTask>, project: string)
    ensures Elems(PlanIds(plan)) == Ids(Owned(plan, project))
  {
    var ids, ts := PlanIds(plan), Owned(plan, project);
    forall id | id in Elems(ids) ensures id in Ids(ts) {
      var i :| 0 <= i < |ids| && ids[i] == id;
      assert ts[i] in ts;
    }
    forall id | id in Ids(ts) ensures id in Elems(ids) {
      var i :| 0 <= i < |ts| && ts[i].id == id;
      assert ids[i] == id;
    }
  }

  /** Loading marks plan rows ready and may give an unowned row its project; the
      completion, claim, label and other gates of every known row are untouched. */
  lemma LoadKeepsProgress(db: Db, project: string, plan: seq<PlanTask>, es: seq<Edge>, id: string)
    requires Sound(db) && id in db.rows
    ensures id in Load(db, project, plan, es).rows
    ensures var before := db.rows[id];
            var after := Load(db, project, plan, es).rows[id];
            after == before.(unblocked := before.unblocked || id in PlanIds(plan), project := after.project)
            && (before.project.Some? ==> after.project == before.project)
  {
    var ts := Owned(plan, project);
    if !Refuses(db, es) {
      AcceptedCreateRows(db, ts, es, id);
    }
    UnblockAllRow(Create(db, ts, es), PlanIds(plan), id);
  }

  /** A task an accepted plan brings is the project's, carries its label, and is ready but
      for its parents. */
  lemma LoadedTask(db: Db, project: string, plan: seq<PlanTask>, es: seq<Edge>, k: nat)
    requires Sound(db) && !Refuses(db, es) && k < |plan|
    requires plan[k].id !in db.rows && forall j :: 0 <= j < k ==> plan[j].id != plan[k].id
    ensures plan[k].id in Load(db, project, plan, es).rows
    ensures Load(db, project, plan, es).rows[plan[k].id]
            == Row(plan[k].title, Some(project), false, false, true, false, None, false, false)
  {
    var ts, ids := Owned(plan, project), PlanIds(plan);
    forall t | t in ts[..k] ensures t.id != plan[k].id {
    }
    AcceptedCreateRows(db, ts, es, plan[k].id);
    assert ids[k] == plan[k].id;
    UnblockAllRow(Create(db, ts, es), ids, plan[k].id);
  }

  /** Loading twice is loading once, refused plan or not. */
  lemma LoadIdempotent(db: Db, project: string, plan: seq<PlanTask>, es: seq<Edge>)
    requires Sound(db)
    ensures Load(Load(db, project, plan, es), project, plan, es) == Load(db, project, plan, es)
  {
    var ts, ids := Owned(plan, project), PlanIds(plan);
    var created := Create(db, ts, es);
    var once := Load(db, project, plan, es);
    CreateSound(db, ts, es);
    PlanIdsAreIds(plan, project);
    forall id | id in ids ensures id in once.rows && once.rows[id].unblocked {
      UnblockAllRow(created, ids, id);
    }
    UnblockAllRow(created, ids, "");
    assert Refuses(once, es) <==> Refuses(db, es) by {
      if !Refuses(db, es) {
        assert once.edges + Elems(es) == created.edges;
      }
    }
    if !Refuses(db, es) {
      LoadedRowsStay(db, project, plan, es);
    }
    UnblockAllAgain(once, ids);
  }

  lemma LoadedRowsStay(db: Db, project: string, plan: seq<PlanTask>, es: seq<Edge>)
    requires Sound(db) && !Refuses(db, es)
    ensures Create(Load(db, project, plan, es), Owned(plan, project), es) == Load(db, project, plan, es)
  {
    var ts, ids := Owned(plan, project), PlanIds(plan);
    var created := Create(db, ts, es);
    var once := Load(db, project, plan, es);
    AddTasksKeys(db, ts);
    AddEdgesRows(AddTasks(db, ts), es, "");
    UnblockAllRow(created, ids, "");
    forall t | t in ts ensures t.id in once.rows && (NamesProject(t.project) ==> once.rows[t.id].project.Some?) {
      var k :| 0 <= k < |ts| && ts[k] == t;
      AddEdgesRows(AddTasks(db, ts), es, t.id);
      UnblockAllRow(created, ids, t.id);
      if NamesProject(t.project) {
        AddTasksOwned(db, ts, k);
      }
    }
    AddTasksAgain(once, ts);
    forall e | e in es ensures e in once.edges && e.0 in once.rows && e.1 in once.rows {
      assert e in Elems(es);
      assert e.0 in Endpoints(es) && e.1 in Endpoints(es);
    }
    AddEdgesAgain(once, es);
  }

  /** A refused plan is not a no-op: its unknown tasks appear as unowned stubs, open
      to whoever asks for any project's next task. */
  lemma RefusedPlanLeavesStubs(db: Db, project: string, plan: seq<PlanTask>, es: seq<Edge>, id: string)
    requires Sound(db) && Refuses(db, es) && id in PlanIds(plan) && id !in db.rows
    ensures id in Load(db, project, plan, es).rows
    ensures Load(db, project, plan, es).rows[id] == Row(id, None, false, false, true, false, None, false, false)
    ensures Ready(Load(db, project, plan, es), None, id)
    ensures !Ready(Load(db, project, plan, es), Some(project), id)
  {
    UnblockAllRow(db, PlanIds(plan), id);
    assert forall e :: e in db.edges ==> e.1 != id;
  }

  /** A refused load changes nothing exactly when every plan task is already known and
      unblocked. */
  lemma RefusedLoadIsNoOpExactly(db: Db, project: string, plan: seq<PlanTask>, es: seq<Edge>)
    requires Sound(db) && Refuses(db, es)
    ensures Load(db, project, plan, es) == db <==>
              forall id :: id in PlanIds(plan) ==> id in db.rows && db.rows[id].unblocked
  {
    var ids := PlanIds(plan);
    if Load(db, project, plan, es) == db {
      forall id | id in ids ensures id in db.rows && db.rows[id].unblocked {
        UnblockAllRow(db, ids, id);
        assert id in Elems(ids);
      }
    }
    if forall id :: id in ids ==> id in db.rows && db.rows[id].unblocked {
      UnblockAllAgain(db, ids);
    }
  }

  // ---- the status report ---------------------------------------------------------------------

  datatype Status = Status(planTasks: nat, notLoaded: seq<string>, done: seq<string>, inFlight: seq<string>,
                           next: Option<string>, left: seq<string>)

  function Known(db: Db): string -> bool {
    (id: string) => id in db.rows
  }

  function IsDone(db: Db): string -> bool {
    (id: string) => id in db.rows && db.rows[id].done
  }

  function IsFlying(db: Db): string -> bool {
    (id: string) => id in db.rows && db.rows[id].inFlight && !db.rows[id].done
  }

  function Report(db: Db, project: string, plan: seq<PlanTask>): Status {
    var ids := PlanIds(plan);
    var known := Filter(ids, Known(db));
    var done := Filter(known, IsDone(db));
    Status(|ids|, Filter(ids, id => id !in db.rows), done, Filter(known, IsFlying(db)),
           NextTask(db, Some(project)), Filter(known, id => id !in done))
  }

  ghost predicate InPlan(plan: seq<PlanTask>, id: string) {
    exists i :: 0 <= i < |plan| && plan[i].id == id
  }

  lemma InPlanIds(plan: seq<PlanTask>, id: string)
    ensures InPlan(plan, id) <==> id in PlanIds(plan)
  {
    var ids := PlanIds(plan);
    if i :| 0 <= i < |plan| && plan[i].id == id {
      assert ids[i] == id;
    }
    if id in ids {
      var i :| 0 <= i < |ids| && ids[i] == id;
      assert plan[i].id == id;
    }
  }

  lemma {:induction false} SplitLength<T>(s: seq<T>, p: T -> bool, q: T -> bool)
    requires forall x :: x in s ==> p(x) != q(x)
    ensures |Filter(s, p)| + |Filter(s, q)| == |s|
  {
    if s != [] {
      SplitLength(s[1..], p, q);
    }
  }

  /** The report accounts for every plan task once: done, left, or not loaded; what
      is in flight is among what is left. */
  lemma ReportAccountsForAll(db: Db, project: string, plan: seq<PlanTask>)
    ensures var s := Report(db, project, plan);
            && |s.done| + |s.left| + |s.notLoaded| == s.planTasks
            && s.planTasks == |plan| && s.next == NextTask(db, Some(project))
            && (forall id :: id in s.left <==> InPlan(plan, id) && id in db.rows && !db.rows[id].done)
            && (forall id :: id in s.done <==> InPlan(plan, id) && id in db.rows && db.rows[id].done)
            && (forall id :: id in s.inFlight <==> id in s.left && db.rows[id].inFlight)
            && (forall id :: id in s.notLoaded <==> InPlan(plan, id) && id !in db.rows)
  {
    var ids := PlanIds(plan);
    var known := Filter(ids, Known(db));
    var done := Filter(known, IsDone(db));
    forall id ensures InPlan(plan, id) <==> id in ids {
      InPlanIds(plan, id);
    }
    SplitLength(ids, Known(db), id => id !in db.rows);
    SplitLength(known, IsDone(db), id => id !in done);
  }

  /** Nothing next means every task of the project still left in the plan waits on a
      closed gate, a claim or another owner's task. */
  lemma NothingReadyIsExplained(db: Db, project: string, plan: seq<PlanTask>)
    requires Sound(db) && Report(db, project, plan).next.None?
    ensures forall id :: id in Report(db, project, plan).left && db.rows[id].project == Some(project) ==>
              Explained(db, Some(project), id)
  {
    NoUnexplainedStall(db, Some(project));
    ReportAccountsForAll(db, project, plan);
  }
}
