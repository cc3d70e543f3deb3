/** The live store: the tables as mutable fields, each public call one
    transaction. Every method is proved against the table functions. */
module TaskStore {
  import opened Prelude
  import opened Digraph
  import opened TaskGraph
  import CycleGuard

  datatype CreateReply =
    | Added(created: nat, edgesAdded: nat, totalTasks: nat)
    | SelfEdgeError
    | CycleError

  datatype Flying = Flying(id: string, title: string, session: Option<string>)

  predicate IsOpen(rows: map<string, Row>, project: string, id: string) {
    id in rows && rows[id].project == Some(project) && !rows[id].done
  }

  function Open(rows: map<string, Row>, project: string): string -> bool {
    (id: string) => IsOpen(rows, project, id)
  }

  function OpenAndFlying(rows: map<string, Row>, project: string): string -> bool {
    (id: string) => IsOpen(rows, project, id) && rows[id].inFlight
  }

  /** Does a row id come before another in rowid order? */
  predicate ComesBefore(order: seq<string>, a: string, b: string) {
    exists x, y :: 0 <= x < y < |order| && order[x] == a && order[y] == b
  }

  /** The listed rows are exactly the open in-flight ones, with their columns, by rowid. */
  ghost predicate ShowsFlying(flying: seq<Flying>, rows: map<string, Row>, order: seq<string>, project: string) {
    && (forall id ::
          id in rows && rows[id].project == Some(project) && !rows[id].done && rows[id].inFlight
          <==> exists i :: 0 <= i < |flying| && flying[i].id == id)
    && (forall i :: 0 <= i < |flying| ==>
          flying[i].id in rows
          && flying[i].title == rows[flying[i].id].title && flying[i].session == rows[flying[i].id].session)
    && (forall i, j :: 0 <= i < j < |flying| ==>
          flying[i].id != flying[j].id && ComesBefore(order, flying[i].id, flying[j].id))
  }

  function Described(rows: map<string, Row>, ids: seq<string>): (flying: seq<Flying>)
    requires forall id :: id in ids ==> id in rows
  {
    seq(|ids|, i requires 0 <= i < |ids| => Flying(ids[i], rows[ids[i]].title, rows[ids[i]].session))
  }

  lemma DescribedShowsFlying(order: seq<string>, rows: map<string, Row>, project: string)
    requires NoDup(order) && Elems(order) == rows.Keys
    ensures ShowsFlying(Described(rows, Filter(order, OpenAndFlying(rows, project))), rows, order, project)
  {
    var ids := Filter(order, OpenAndFlying(rows, project));
    var flying := Described(rows, ids);
    FilterKeepsOrder(order, OpenAndFlying(rows, project));
    FilterNoDup(order, OpenAndFlying(rows, project));
    forall id
      ensures id in rows && rows[id].project == Some(project) && !rows[id].done && rows[id].inFlight
              <==> exists i :: 0 <= i < |flying| && flying[i].id == id
    {
      assert id in rows <==> id in Elems(order);
      if id in ids {
        var i :| 0 <= i < |ids| && ids[i] == id;
        assert flying[i].id == id;
      }
      if exists i :: 0 <= i < |flying| && flying[i].id == id {
        var i :| 0 <= i < |flying| && flying[i].id == id;
        assert ids[i] in ids;
      }
    }
  }

  lemma {:induction false} FilterKeepsOrder(order: seq<string>, keep: string -> bool)
    ensures forall i, j :: 0 <= i < j < |Filter(order, keep)| ==>
                             ComesBefore(order, Filter(order, keep)[i], Filter(order, keep)[j])
  {
    if order != [] {
      var rest, all := Filter(order[1..], keep), Filter(order, keep);
      FilterKeepsOrder(order[1..], keep);
      forall i, j | 0 <= i < j < |all| ensures ComesBefore(order, all[i], all[j]) {
        if keep(order[0]) && i == 0 {
          assert all[j] in rest && all[j] in order[1..];
          var y :| 0 <= y < |order[1..]| && order[1..][y] == all[j];
          assert order[0] == all[0] && order[y + 1] == all[j];
        } else {
          var d := if keep(order[0]) then 1 else 0;
          assert ComesBefore(order[1..], rest[i - d], rest[j - d]);
          var x, y :| 0 <= x < y < |order[1..]| && order[1..][x] == all[i] && order[1..][y] == all[j];
          assert order[x + 1] == all[i] && order[y + 1] == all[j];
        }
      }
    }
  }

  /** Counting rows by rowid is counting ids. */
  lemma OpenCounted(order: seq<string>, rows: map<string, Row>, project: string)
    requires NoDup(order) && Elems(order) == rows.Keys
    ensures |Filter(order, Open(rows, project))|
            == |set id | id in rows && rows[id].project == Some(project) && !rows[id].done|
  {
    var open := Filter(order, Open(rows, project));
    FilterNoDup(order, Open(rows, project));
    NoDupCard(open);
    assert forall id :: id in order <==> id in Elems(order);
    assert Elems(open) == set id | id in rows && rows[id].project == Some(project) && !rows[id].done;
  }

  class Store {
    var rows: map<string, Row>
    var order: seq<string>
    var edges: set<Edge>

    ghost function Value(): Db
      reads this
    {
      Db(rows, order, edges)
    }

    constructor ()
      ensures Value() == EMPTY && Sound(Value())
    {
      rows, order, edges := map[], [], {};
      new;
      assert !HasCycle(edges) by {
        RankedIsAcyclic({}, map[]);
      }
    }

    method InsertTask(id: string, title: string, project: Option<string>) returns (count: nat)
      modifies this`rows, this`order
      ensures Value() == InsertRow(old(Value()), id, title, project)
      ensures count == if id in old(rows) then 0 else 1
    {
      count := 0;
      if id !in rows {
        rows, order, count := rows[id := NewRow(title, project)], order + [id], 1;
      }
    }

    /** SELECT parent_id, child_id FROM edges: every edge once, in no promised order. */
    method ExistingEdges() returns (es: seq<Edge>)
      ensures Elems(es) == edges && |es| == |edges|
    {
      es := [];
      var left := edges;
      while left != {}
        invariant left <= edges && Elems(es) == edges - left && |es| + |left| == |edges|
      {
        var e :| e in left;
        left := left - {e};
        es := es + [e];
        assert Elems(es) == Elems(es[..|es| - 1]) + {e};
      }
    }

    method SeedTasks(ts: seq<NewTask>) returns (created: nat)
      modifies this`rows, this`order
      ensures Value() == AddTasks(old(Value()), ts)
      ensures created == |rows| - |old(rows)|
    {
      created := 0;
      ghost var start := Value();
      for i := 0 to |ts|
        invariant AddTasks(start, ts) == AddTasks(Value(), ts[i..])
        invariant created == |rows| - |old(rows)|
        invariant edges == old(edges)
      {
        var t := ts[i];
        var n := InsertTask(t.id, t.title, t.project);
        created := created + n;
        if NamesProject(t.project) && t.id in rows && rows[t.id].project.None? {
          rows := rows[t.id := rows[t.id].(project := t.project)];
        }
        assert ts[i..][1..] == ts[i + 1..];
      }
    }

    method LinkTask(parent: string, child: string) returns (added: nat)
      modifies this
      ensures Value() == AddEdge(old(Value()), (parent, child))
      ensures added == |edges| - |old(edges)|
    {
      var _ := InsertTask(parent, parent, None);
      var _ := InsertTask(child, child, None);
      added := if (parent, child) in edges then 0 else 1;
      edges := edges + {(parent, child)};
      assert added == 0 ==> edges == old(edges);
    }

    method LinkTasks(es: seq<Edge>) returns (added: nat)
      modifies this
      ensures Value() == AddEdges(old(Value()), es)
      ensures added == |edges| - |old(edges)|
    {
      added := 0;
      ghost var start := Value();
      for i := 0 to |es|
        invariant AddEdges(start, es) == AddEdges(Value(), es[i..])
        invariant added == |edges| - |old(edges)|
      {
        var n := LinkTask(es[i].0, es[i].1);
        added := added + n;
        assert es[i..][0] == (es[i].0, es[i].1) && es[i..][1..] == es[i + 1..];
      }
    }

    /** Accepted exactly when the edges keep the graph acyclic; a refused call
        leaves every table as it was; the counts are rows and edges really added. */
    method CreateTaskGraph(ts: seq<NewTask>, es: seq<Edge>) returns (reply: CreateReply)
      requires Sound(Value())
      modifies this
      ensures Sound(Value()) && Value() == Create(old(Value()), ts, es)
      ensures reply.Added? <==> !Refuses(old(Value()), es)
      ensures reply.SelfEdgeError? <==> HasSelfEdge(es)
      ensures !reply.Added? ==> Value() == old(Value())
      ensures reply.Added? ==>
                && reply.created == |AddTasks(old(Value()), ts).rows| - |old(rows)|
                && reply.edgesAdded == |edges| - |old(edges)|
                && reply.totalTasks == |rows|
    {
      CreateSound(Value(), ts, es);
      if exists i :: 0 <= i < |es| && es[i].0 == es[i].1 {
        return SelfEdgeError;
      }
      var before := (rows, order, edges);
      var created := SeedTasks(ts);
      var existing := ExistingEdges();
      ElemsConcat(existing, es);
      var cyclic := CycleGuard.WouldCycle(existing + es);
      if cyclic {
        rows, order, edges := before.0, before.1, before.2;
        return CycleError;
      }
      var edgesAdded := LinkTasks(es);
      return Added(created, edgesAdded, |rows|);
    }

    method SetTaskGate(id: string, gate: string, value: bool, session: Option<string>) returns (ok: bool)
      requires Sound(Value())
      modifies this`rows, this`order
      ensures Sound(Value()) && Value() == SetGate(old(Value()), id, gate, value, session)
      ensures ok <==> GateNamed(gate).Some?
    {
      SetGateSound(Value(), id, gate, value, session);
      var g := GateNamed(gate);
      if g.None? {
        return false;
      }
      var _ := InsertTask(id, id, None);
      var newSession := if value then session else None;
      var r := rows[id];
      match g.value {
        case ChallengeCleared => r := r.(challengeCleared := value);
        case NfrCleared => r := r.(nfrCleared := value);
        case Unblocked => r := r.(unblocked := value);
        case InFlight => r := r.(inFlight := value);
      }
      if g.value == InFlight {
        r := r.(session := newSession);
      }
      assert r == WithGate(rows[id], g.value, value, session);
      rows := rows[id := r];
      return true;
    }

    method StartTask(id: string, title: string, project: string, session: string)
      requires Sound(Value())
      modifies this`rows, this`order
      ensures Sound(Value()) && Value() == Start(old(Value()), id, title, project, session)
    {
      StartSound(Value(), id, title, project, session);
      var _ := InsertTask(id, title, Some(project));
      var owner := if rows[id].project.Some? then rows[id].project else Some(project);
      rows := rows[id := rows[id].(project := owner, inFlight := true, done := false, session := Some(session))];
    }

    method MarkTaskDone(id: string)
      requires Sound(Value())
      modifies this`rows
      ensures Sound(Value()) && Value() == MarkDone(old(Value()), id)
    {
      MarkDoneSound(Value(), id);
      if id in rows {
        rows := rows[id := rows[id].(done := true, inFlight := false, session := None)];
      }
    }

    /** This project's unfinished in-flight rows with their label and claim, each once,
        oldest first, and how many of its rows are unfinished. */
    method OpenTasks(project: string) returns (flying: seq<Flying>, openCount: nat)
      requires Sound(Value())
      ensures ShowsFlying(flying, rows, order, project)
      ensures openCount == |set id | id in rows && rows[id].project == Some(project) && !rows[id].done|
    {
      flying := Described(rows, Filter(order, OpenAndFlying(rows, project)));
      DescribedShowsFlying(order, rows, project);
      openCount := |Filter(order, Open(rows, project))|;
      OpenCounted(order, rows, project);
    }
  }
}
