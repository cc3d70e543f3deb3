/** Several sessions retiring learnings at once: each call reads the store under one
    lock and appends its tombstone under another, with anything in between. */
module ConcurrentRetire {
  import opened Prelude
  import opened PatternStore

  /** A call: which learning, why, and the time it will stamp. */
  datatype Call = Call(id: string, reason: string, now: string)

  datatype Phase = Waiting | Holding(tomb: Row) | Replied(reply: RetireReply)

  datatype Sys = Sys(rows: seq<Row>, phase: map<nat, Phase>)

  function Start(rows: seq<Row>, calls: map<nat, Call>): Sys {
    Sys(rows, map p | p in calls :: Waiting)
  }

  /** What a call makes of the rows it reads. */
  function AfterRead(rows: seq<Row>, call: Call, wellFormed: Row -> bool): Phase {
    if call.reason == "" then Replied(EmptyReason)
    else
      var current := LastById(rows, call.id);
      if current.None? then Replied(UnknownId)
      else if current.value.status == RETIRED then Replied(AlreadyRetired(current.value))
      else
        var tomb := current.value.(status := RETIRED, retiredReason := call.reason, retiredAt := call.now);
        if wellFormed(tomb) then Holding(tomb) else Replied(NotWellFormed)
  }

  /** The next step of call p: its read, then its append. */
  function Step(s: Sys, calls: map<nat, Call>, wellFormed: Row -> bool, p: nat): Sys {
    if p !in calls || p !in s.phase then s
    else
      match s.phase[p]
      case Waiting => s.(phase := s.phase[p := AfterRead(s.rows, calls[p], wellFormed)])
      case Holding(tomb) => Sys(s.rows + [tomb], s.phase[p := Replied(RetiredNow(tomb))])
      case Replied(_) => s
  }

  function Run(s: Sys, calls: map<nat, Call>, wellFormed: Row -> bool, schedule: seq<nat>): Sys
    decreases |schedule|
  {
    if schedule == [] then s else Run(Step(s, calls, wellFormed, schedule[0]), calls, wellFormed, schedule[1..])
  }

  // ---- tombstones ---------------------------------------------------------------------------

  ghost predicate Known(rows: seq<Row>, id: string) {
    exists i :: 0 <= i < |rows| && rows[i].id == Some(id)
  }

  /** A tombstone for a learning the store knew, and whose live row is its own. */
  ghost predicate IsTomb(rows: seq<Row>, tomb: Row) {
    tomb.status == RETIRED && tomb.id.Some? && Known(rows, tomb.id.value) && HoldsItsOwn(rows, tomb.id.value)
  }

  function NotAmong(tombs: seq<Row>): Row -> bool {
    (r: Row) => r.id.None? || forall k :: 0 <= k < |tombs| ==> tombs[k].id != r.id
  }

  /** A tombstone more changes no other id's standing. */
  lemma {:induction false} StaysOwn(rows: seq<Row>, tombs: seq<Row>, id: string)
    requires HoldsItsOwn(rows, id) && Known(rows, id)
    requires forall k :: 0 <= k < |tombs| ==> tombs[k].status == RETIRED && tombs[k].id.Some?
    ensures HoldsItsOwn(rows + tombs, id) && Known(rows + tombs, id)
  {
    if tombs == [] {
      assert rows + tombs == rows;
    } else {
      var n := |tombs| - 1;
      var before, tomb := rows + tombs[..n], tombs[n];
      StaysOwn(rows, tombs[..n], id);
      assert rows + tombs == before + [tomb];
      TombstoneRetiresKey(before, tomb, tomb.id.value, id);
      var i :| 0 <= i < |before| && before[i].id == Some(id);
      assert (before + [tomb])[i].id == Some(id);
    }
  }

  /** However many tombstones follow, whatever their order and repetition, the live view
      loses exactly the rows of their ids and keeps all others in place. */
  lemma {:induction false} TombstonesRetireTheirIds(rows: seq<Row>, tombs: seq<Row>)
    requires forall k :: 0 <= k < |tombs| ==> IsTomb(rows, tombs[k])
    ensures Effective(rows + tombs) == Filter(Effective(rows), NotAmong(tombs))
  {
    if tombs == [] {
      assert rows + tombs == rows;
      FilterAll(Effective(rows), NotAmong(tombs));
    } else {
      var n := |tombs| - 1;
      var init, tomb := tombs[..n], tombs[n];
      var id := tomb.id.value;
      TombstonesRetireTheirIds(rows, init);
      StaysOwn(rows, init, id);
      RetireRemovesOnlyThatId(rows + init, tomb, id);
      assert rows + tombs == (rows + init) + [tomb];
      OneMoreTomb(Effective(rows), init, tomb);
      assert tombs == init + [tomb];
    }
  }

  lemma OneMoreTomb(live: seq<Row>, tombs: seq<Row>, tomb: Row)
    requires tomb.id.Some?
    ensures Filter(Filter(live, NotAmong(tombs)), HasOtherId(tomb.id.value)) == Filter(live, NotAmong(tombs + [tomb]))
  {
    var more := tombs + [tomb];
    forall r | r in live ensures NotAmong(more)(r) == (NotAmong(tombs)(r) && HasOtherId(tomb.id.value)(r)) {
      assert more[|tombs|] == tomb && forall k :: 0 <= k < |tombs| ==> more[k] == tombs[k];
    }
    FilterTwice(live, NotAmong(tombs), HasOtherId(tomb.id.value), NotAmong(more));
  }

  // ---- every interleaving ---------------------------------------------------------------------

  /** The ids of the calls hold their own rows in the store they start from. */
  ghost predicate Clean(rows: seq<Row>, calls: map<nat, Call>) {
    forall p :: p in calls ==> HoldsItsOwn(rows, calls[p].id)
  }

  ghost predicate IsRetired(rows: seq<Row>, id: string) {
    LastById(rows, id).Some? && LastById(rows, id).value.status == RETIRED
  }

  /** What a call's phase says: a tombstone in hand is for its own, known id; a call that
      answered with a retired row left its id retired. */
  ghost predicate CallOk(start: seq<Row>, rows: seq<Row>, call: Call, phase: Phase) {
    match phase
    case Waiting => true
    case Holding(tomb) => IsTomb(start, tomb) && tomb.id == Some(call.id)
    case Replied(reply) => reply.AlreadyRetired? || reply.RetiredNow? ==> IsRetired(rows, call.id)
  }

  ghost predicate Inv(start: seq<Row>, calls: map<nat, Call>, s: Sys) {
    && s.phase.Keys == calls.Keys
    && start <= s.rows && (forall k :: |start| <= k < |s.rows| ==> IsTomb(start, s.rows[k]))
    && forall p :: p in calls ==> CallOk(start, s.rows, calls[p], s.phase[p])
  }

  lemma LastOfSnoc(rows: seq<Row>, row: Row, id: string)
    ensures LastById(rows + [row], id) == if row.id == Some(id) then Some(row) else LastById(rows, id)
  {
    assert (rows + [row])[..|rows|] == rows;
  }

  /** An id found among the rows was known from the start. */
  lemma KnownAtStart(start: seq<Row>, rows: seq<Row>, id: string)
    requires start <= rows && forall k :: |start| <= k < |rows| ==> IsTomb(start, rows[k])
    requires LastById(rows, id).Some?
    ensures Known(start, id)
  {
    LastByIdHasId(rows, id);
    var i :| 0 <= i < |rows| && rows[i].id == Some(id);
    if i < |start| {
      assert start[i].id == Some(id);
    } else {
      assert IsTomb(start, rows[i]);
    }
  }

  lemma ReadOk(start: seq<Row>, calls: map<nat, Call>, wellFormed: Row -> bool, s: Sys, p: nat)
    requires Inv(start, calls, s) && Clean(start, calls) && p in calls
    ensures CallOk(start, s.rows, calls[p], AfterRead(s.rows, calls[p], wellFormed))
  {
    LastByIdHasId(s.rows, calls[p].id);
    if LastById(s.rows, calls[p].id).Some? {
      KnownAtStart(start, s.rows, calls[p].id);
    }
  }

  lemma StepKeeps(start: seq<Row>, calls: map<nat, Call>, wellFormed: Row -> bool, s: Sys, p: nat)
    requires Inv(start, calls, s) && Clean(start, calls)
    ensures Inv(start, calls, Step(s, calls, wellFormed, p))
  {
    if p in calls {
      var after := Step(s, calls, wellFormed, p);
      assert after.phase.Keys == s.phase.Keys;
      match s.phase[p]
      case Waiting => ReadOk(start, calls, wellFormed, s, p);
      case Holding(tomb) =>
        assert CallOk(start, s.rows, calls[p], s.phase[p]);
        forall q | q in calls ensures CallOk(start, after.rows, calls[q], after.phase[q]) {
          assert CallOk(start, s.rows, calls[q], s.phase[q]);
          LastOfSnoc(s.rows, tomb, calls[q].id);
        }
      case Replied(_) =>
    }
  }

  lemma {:induction false} RunKeeps(start: seq<Row>, calls: map<nat, Call>, wellFormed: Row -> bool, s: Sys,
                                    schedule: seq<nat>)
    requires Inv(start, calls, s) && Clean(start, calls)
    ensures Inv(start, calls, Run(s, calls, wellFormed, schedule))
    decreases |schedule|
  {
    if schedule != [] {
      StepKeeps(start, calls, wellFormed, s, schedule[0]);
      RunKeeps(start, calls, wellFormed, Step(s, calls, wellFormed, schedule[0]), schedule[1..]);
    }
  }

  /** Nothing of a retired id is in the live view. */
  lemma RetiredIsNotLive(rows: seq<Row>, id: string, r: Row)
    requires IsRetired(rows, id) && r in Effective(rows)
    ensures r.id != Some(id)
  {
    EffectiveIsLatest(rows);
    var at := Positions(rows);
    var k :| 0 <= k < |at| && Effective(rows)[k] == r;
    assert at[k] in at && StillStands(rows, at[k]);
    if r.id == Some(id) {
      forall j | at[k] < j < |rows| ensures rows[j].id != Some(id) {
        assert RowKeys(rows)[j] != RowKeys(rows)[at[k]];
      }
      StandingIsLast(rows, at[k], id);
      assert false;
    }
  }

  lemma {:induction false} StandingIsLast(rows: seq<Row>, i: nat, id: string)
    requires i < |rows| && rows[i].id == Some(id)
    requires forall j :: i < j < |rows| ==> rows[j].id != Some(id)
    ensures LastById(rows, id) == Some(rows[i])
  {
    if i < |rows| - 1 {
      StandingIsLast(rows[..|rows| - 1], i, id);
    }
  }

  predicate ReportsRetired(s: Sys, p: nat) {
    p in s.phase && s.phase[p].Replied? && (s.phase[p].reply.AlreadyRetired? || s.phase[p].reply.RetiredNow?)
  }

  /** Whatever the interleaving, the store is what it was and then tombstones; the live
      view is the first one less the ids they name, in place; and a call that reports its
      learning retired is right about the view from then on. */
  lemma InterleavedRetiresAgree(start: seq<Row>, calls: map<nat, Call>, wellFormed: Row -> bool, schedule: seq<nat>,
                                p: nat, r: Row)
    requires Clean(start, calls)
    ensures var s := Run(Start(start, calls), calls, wellFormed, schedule);
            && start <= s.rows
            && Effective(s.rows) == Filter(Effective(start), NotAmong(s.rows[|start|..]))
            && (p in calls && ReportsRetired(s, p) && r in Effective(s.rows) ==> r.id != Some(calls[p].id))
  {
    var s := Run(Start(start, calls), calls, wellFormed, schedule);
    assert Start(start, calls).phase.Keys == calls.Keys;
    RunKeeps(start, calls, wellFormed, Start(start, calls), schedule);
    var tombs := s.rows[|start|..];
    assert s.rows == start + tombs;
    forall k | 0 <= k < |tombs| ensures IsTomb(start, tombs[k]) {
      assert tombs[k] == s.rows[|start| + k];
    }
    TombstonesRetireTheirIds(start, tombs);
    if p in calls && ReportsRetired(s, p) && r in Effective(s.rows) {
      assert CallOk(start, s.rows, calls[p], s.phase[p]);
      RetiredIsNotLive(s.rows, calls[p].id, r);
    }
  }

  lemma FourSteps(s: Sys, calls: map<nat, Call>, wellFormed: Row -> bool, a: nat, b: nat, c: nat, d: nat)
    ensures Run(s, calls, wellFormed, [a, b, c, d])
            == Step(Step(Step(Step(s, calls, wellFormed, a), calls, wellFormed, b), calls, wellFormed, c), calls,
                    wellFormed, d)
  {
    var s1 := Step(s, calls, wellFormed, a);
    var s2 := Step(s1, calls, wellFormed, b);
    var s3 := Step(s2, calls, wellFormed, c);
    assert [a, b, c, d][1..] == [b, c, d] && [b, c, d][1..] == [c, d] && [c, d][1..] == [d] && [d][1..] == [];
    assert Run(s3, calls, wellFormed, [d]) == Run(Step(s3, calls, wellFormed, d), calls, wellFormed, []);
    assert Run(s2, calls, wellFormed, [c, d]) == Run(s3, calls, wellFormed, [d]);
    assert Run(s1, calls, wellFormed, [b, c, d]) == Run(s2, calls, wellFormed, [c, d]);
  }

  function Twice(call: Call): map<nat, Call> {
    map[0 := call, 1 := call]
  }

  function Tomb(live: Row, call: Call): Row {
    live.(status := RETIRED, retiredReason := call.reason, retiredAt := call.now)
  }

  lemma FirstRead(live: Row, call: Call)
    requires live.id == Some(call.id) && live.status != RETIRED && call.reason != ""
    ensures AfterRead([live], call, r => true) == Holding(Tomb(live, call))
  {
    LastOfSnoc([], live, call.id);
    assert [] + [live] == [live];
  }

  lemma ReadAfterAppend(live: Row, call: Call)
    requires live.id == Some(call.id) && call.reason != ""
    ensures AfterRead([live] + [Tomb(live, call)], call, r => true) == Replied(AlreadyRetired(Tomb(live, call)))
  {
    LastOfSnoc([live], Tomb(live, call), call.id);
  }

  /** Two calls that both read before either appends both append. */
  lemma BothMayAppend(live: Row, call: Call)
    requires live.id == Some(call.id) && live.status != RETIRED && call.reason != ""
    ensures Run(Start([live], Twice(call)), Twice(call), r => true, [0, 1, 0, 1]).rows
            == [live, Tomb(live, call), Tomb(live, call)]
  {
    FourSteps(Start([live], Twice(call)), Twice(call), r => true, 0, 1, 0, 1);
    FirstRead(live, call);
  }

  /** One call after the other, the second appends nothing. */
  lemma InTurnOneAppends(live: Row, call: Call)
    requires live.id == Some(call.id) && live.status != RETIRED && call.reason != ""
    ensures Run(Start([live], Twice(call)), Twice(call), r => true, [0, 0, 1, 1]).rows == [live, Tomb(live, call)]
  {
    FourSteps(Start([live], Twice(call)), Twice(call), r => true, 0, 0, 1, 1);
    FirstRead(live, call);
    ReadAfterAppend(live, call);
  }
}
