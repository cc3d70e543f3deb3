/** The stub repair: the one write that deletes rows, and the guard that makes
    deleting safe. */
module Repair {
  import opened Prelude
  import opened Digraph
  import opened TaskGraph
  import opened Scheduler
  import opened TaskStore

  predicate IsStub(id: string, r: Row) {
    id == r.title
  }

  predicate Doomed(rows: map<string, Row>, id: string) {
    id in rows && IsStub(id, rows[id]) && rows[id].done
  }

  function Sources(edges: set<Edge>): set<string> {
    set e | e in edges :: e.0
  }

  function Targets(edges: set<Edge>): set<string> {
    set e | e in edges :: e.1
  }

  /** Done stubs an edge still names. */
  function ReferencedByEdges(db: Db): set<string> {
    set id | id in db.rows && Doomed(db.rows, id) && id in Sources(db.edges) + Targets(db.edges)
  }

  function Defused(r: Row): Row {
    r.(challengeCleared := false, nfrCleared := false, unblocked := false, stale := true)
  }

  function Survives(rows: map<string, Row>): string -> bool {
    (id: string) => !Doomed(rows, id)
  }

  /** `apply`, with no look at the edges. */
  function ApplyUnguarded(db: Db): Db {
    Db(map id | id in db.rows && !Doomed(db.rows, id) ::
         if IsStub(id, db.rows[id]) then Defused(db.rows[id]) else db.rows[id],
       Filter(db.order, Survives(db.rows)),
       db.edges)
  }

  /** The script with --apply: refuse when a done stub is on an edge. */
  function Repaired(db: Db): Db {
    if ReferencedByEdges(db) != {} then db else ApplyUnguarded(db)
  }

  /** The guard is exactly the condition under which deleting orphans no edge. */
  lemma GuardIsExact(db: Db)
    requires Sound(db)
    ensures Sound(ApplyUnguarded(db)) <==> ReferencedByEdges(db) == {}
    ensures Closed(ApplyUnguarded(db)) <==> ReferencedByEdges(db) == {}
  {
    var after := ApplyUnguarded(db);
    FilterNoDup(db.order, Survives(db.rows));
    assert forall id :: id in db.order <==> id in db.rows by {
      assert forall id :: id in db.order <==> id in Elems(db.order);
    }
    assert Elems(after.order) == after.rows.Keys;
    if ReferencedByEdges(db) == {} {
      forall e | e in db.edges ensures e.0 in after.rows && e.1 in after.rows {
        assert e.0 in Sources(db.edges) && e.1 in Targets(db.edges);
        assert e.0 !in ReferencedByEdges(db) && e.1 !in ReferencedByEdges(db);
      }
    } else {
      var id :| id in ReferencedByEdges(db);
      var e :| e in db.edges && (e.0 == id || e.1 == id);
      assert id !in after.rows;
    }
  }

  /** Row by row: a row whose label is its own id goes if it is done; if not it stays with
      its gates closed and marked stale; any other row stays as it is. The repair is
      refused exactly when an edge names a row that would go. */
  lemma RepairedRows(db: Db, id: string)
    requires Sound(db)
    ensures Repaired(db) == db
            || (&& (id in Repaired(db).rows <==> id in db.rows && !(db.rows[id].title == id && db.rows[id].done))
                && (id in Repaired(db).rows ==>
                      Repaired(db).rows[id]
                      == if db.rows[id].title == id
                         then db.rows[id].(challengeCleared := false, nfrCleared := false, unblocked := false,
                                           stale := true)
                         else db.rows[id]))
    ensures (exists e, v :: e in db.edges && (v == e.0 || v == e.1) && v in db.rows && db.rows[v].title == v
                            && db.rows[v].done)
            <==> ReferencedByEdges(db) != {}
  {
    if e, v :| e in db.edges && (v == e.0 || v == e.1) && v in db.rows && db.rows[v].title == v && db.rows[v].done {
      assert v in ReferencedByEdges(db);
    }
    if ReferencedByEdges(db) != {} {
      var v :| v in ReferencedByEdges(db);
      var e :| e in db.edges && (v == e.0 || v == e.1);
    }
  }

  lemma RepairedSound(db: Db)
    requires Sound(db)
    ensures Sound(Repaired(db)) && Repaired(db).edges == db.edges
  {
    GuardIsExact(db);
  }

  /** Afterwards no stub can be served, and every real task is served exactly when
      it would have been before. */
  lemma RepairStopsPhantoms(db: Db, project: Option<string>, id: string)
    requires Sound(db) && ReferencedByEdges(db) == {}
    ensures Ready(Repaired(db), project, id) <==> Ready(db, project, id) && !IsStub(id, db.rows[id])
  {
    var after := Repaired(db);
    assert forall u :: Unfinished(after, u) <==> Unfinished(db, u);
  }

  lemma RepairOfRepaired(db: Db)
    requires forall id :: id in db.rows ==> !Doomed(db.rows, id)
    requires forall id :: id in db.rows && IsStub(id, db.rows[id]) ==> Defused(db.rows[id]) == db.rows[id]
    ensures Repaired(db) == db
  {
    FilterAll(db.order, Survives(db.rows));
    assert ApplyUnguarded(db).rows == db.rows;
  }

  /** A second repair finds nothing left to change. */
  lemma {:induction false} RepairIdempotent(db: Db)
    requires Sound(db)
    ensures Repaired(Repaired(db)) == Repaired(db)
  {
    if ReferencedByEdges(db) == {} {
      var once := Repaired(db);
      forall id | id in once.rows
        ensures !Doomed(once.rows, id) && (IsStub(id, once.rows[id]) ==> Defused(once.rows[id]) == once.rows[id])
      {
        assert !Doomed(db.rows, id);
      }
      RepairOfRepaired(once);
    }
  }

  lemma StubsLeft(db: Db)
    ensures (set id | id in ApplyUnguarded(db).rows && IsStub(id, ApplyUnguarded(db).rows[id]))
            == set id | id in db.rows && IsStub(id, db.rows[id]) && !db.rows[id].done
  {
  }

  lemma DoomedCount(db: Db)
    ensures |set id | id in db.rows && Doomed(db.rows, id)| == |db.rows| - |ApplyUnguarded(db).rows|
  {
    var doomed := set id | id in db.rows && Doomed(db.rows, id);
    assert db.rows.Keys - doomed == ApplyUnguarded(db).rows.Keys;
    assert |db.rows.Keys| == |db.rows| && |ApplyUnguarded(db).rows.Keys| == |ApplyUnguarded(db).rows|;
  }

  /** The deletion and the update, with no look at the edges. */
  method ApplyRepair(store: Store) returns (deleted: nat, defused: nat)
    modifies store`rows, store`order
    ensures store.Value() == ApplyUnguarded(old(store.Value()))
    ensures deleted == |old(store.rows)| - |store.rows|
    ensures defused == |set id | id in store.rows && IsStub(id, store.rows[id])|
  {
    ghost var before := store.Value();
    DoomedCount(before);
    StubsLeft(before);
    var rows := store.rows;
    deleted := |set id | id in rows && Doomed(rows, id)|;
    store.order := Filter(store.order, Survives(rows));
    var kept := map id | id in rows && !Doomed(rows, id) :: rows[id];
    var toDefuse := set id | id in rows && IsStub(id, rows[id]) && !rows[id].done;
    defused := |toDefuse|;
    store.rows := map id | id in kept :: if id in toDefuse then Defused(kept[id]) else kept[id];
    assert store.rows == ApplyUnguarded(before).rows;
  }

  /** The script run against the live store: with --apply it repairs, unless a done
      stub is on an edge; without, it changes nothing. */
  method RunRepair(store: Store, apply: bool) returns (refused: bool)
    requires Sound(store.Value())
    modifies store`rows, store`order
    ensures Sound(store.Value())
    ensures store.Value() == if apply then Repaired(old(store.Value())) else old(store.Value())
    ensures refused <==> ReferencedByEdges(old(store.Value())) != {}
  {
    var db := Db(store.rows, store.order, store.edges);
    RepairedSound(db);
    refused := false;
    if forall id :: id in db.rows ==> !IsStub(id, db.rows[id]) {
      RepairOfRepaired(db);
    } else if ReferencedByEdges(db) != {} {
      refused := true;
    } else if apply {
      var _, _ := ApplyRepair(store);
    }
  }
}
