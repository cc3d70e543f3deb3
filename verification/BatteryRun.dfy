/** The battery's run loop over its append-only results log: budgeted, stoppable
    at any moment, and resumable. */
module BatteryRun {
  import opened Prelude
  import opened BatteryPlan
  import Budget

  const MAX_CONSECUTIVE_INFRA := 3
  const INFRA_ERROR := "infra_error"

  datatype ResultRow = ResultRow(key: Key, status: string, cost: real)

  /** A line of the results file; one that does not parse is skipped by every reader. */
  datatype Line = Unreadable | Written(row: ResultRow)

  /** What the agent, the checkout and the grading make of one run. */
  datatype Outcome = Outcome(status: string, cost: real)

  /** May the next run start, given what was spent and the costs so far? */
  type StartRule = (real, seq<real>) -> bool

  function CapRule(cap: Option<real>, maxRun: real): StartRule {
    (spent: real, costs: seq<real>) => !Budget.OverCap(spent, costs, cap, maxRun)
  }

  datatype Stop = Finished | CapReached | InfraStreak | Killed

  datatype Report = Report(planned: nat, ran: nat, skippedDone: nat, spent: real, stop: Stop)

  predicate Settles(l: Line, key: Key) {
    l.Written? && l.row.key == key && l.row.status != INFRA_ERROR
  }

  function SettlesKey(key: Key): Line -> bool {
    (l: Line) => Settles(l, key)
  }

  /** How many rows count as a finished run of this task, arm and repetition. */
  function Settled(lines: seq<Line>, key: Key): nat {
    |Filter(lines, SettlesKey(key))|
  }

  function DoneKeys(lines: seq<Line>): set<Key> {
    set l | l in lines && l.Written? && l.row.status != INFRA_ERROR :: l.row.key
  }

  function Costs(rows: seq<ResultRow>): seq<real> {
    Map((r: ResultRow) => r.cost, rows)
  }

  function RowKeys(rows: seq<ResultRow>): seq<Key> {
    Map((r: ResultRow) => r.key, rows)
  }

  function AsLines(rows: seq<ResultRow>): seq<Line> {
    Map((r: ResultRow) => Written(r), rows)
  }

  /** Infrastructure failures at the end of the rows, in a row. */
  function Streak(rows: seq<ResultRow>): nat {
    if rows == [] || rows[|rows| - 1].status != INFRA_ERROR then 0
    else Streak(rows[..|rows| - 1]) + 1
  }

  ghost predicate Started(spec: RunSpec, before: seq<ResultRow>, row: ResultRow, rule: StartRule) {
    row.key == KeyOf(spec) && rule(Budget.Sum(Costs(before)), Costs(before)) && Streak(before) < MAX_CONSECUTIVE_INFRA
  }

  /** Rows one call can have written against its plan: in plan order, each run
      allowed by the spending rule and after fewer than three failures in a row. */
  ghost predicate Session(specs: seq<RunSpec>, rows: seq<ResultRow>, rule: StartRule) {
    && |rows| <= |specs|
    && forall i {:trigger Started(specs[i], rows[..i], rows[i], rule)} ::
      0 <= i < |rows| ==> Started(specs[i], rows[..i], rows[i], rule)
  }

  // ---- the loop ------------------------------------------------------------------------------

  /** The checks at the head of the loop, in their order; Finished means go on. */
  function BreakHere(ran: nat, spent: real, costs: seq<real>, streak: nat, killed: Option<nat>, rule: StartRule): Stop
  {
    if killed == Some(ran) then Killed
    else if !rule(spent, costs) then CapReached
    else if streak >= MAX_CONSECUTIVE_INFRA then InfraStreak
    else Finished
  }

  /** The reason given is the reason there was. */
  ghost predicate StopsBecause(stop: Stop, specs: seq<RunSpec>, rows: seq<ResultRow>, killed: Option<nat>,
                               rule: StartRule)
  {
    match stop
    case Finished => |rows| == |specs|
    case CapReached => |rows| < |specs| && !rule(Budget.Sum(Costs(rows)), Costs(rows))
    case InfraStreak => |rows| < |specs| && Streak(rows) == MAX_CONSECUTIVE_INFRA
    case Killed => |rows| < |specs| && killed == Some(|rows|)
  }

  /** The running totals of the loop are those of the rows written so far. */
  ghost predicate Tallies(rows: seq<ResultRow>, spent: real, costs: seq<real>, streak: nat) {
    costs == Costs(rows) && spent == Budget.Sum(costs) && streak == Streak(rows) <= MAX_CONSECUTIVE_INFRA
  }

  ghost predicate Answers(specs: seq<RunSpec>, rows: seq<ResultRow>, agent: (nat, RunSpec) -> Outcome)
    requires |rows| <= |specs|
  {
    forall i :: 0 <= i < |rows| ==> Outcome(rows[i].status, rows[i].cost) == agent(i, specs[i])
  }

  lemma SessionGrows(specs: seq<RunSpec>, rows: seq<ResultRow>, row: ResultRow, agent: (nat, RunSpec) -> Outcome,
                     rule: StartRule)
    requires Session(specs, rows, rule) && |rows| < |specs| && Answers(specs, rows, agent)
    requires Started(specs[|rows|], rows, row, rule)
    requires Outcome(row.status, row.cost) == agent(|rows|, specs[|rows|])
    ensures Session(specs, rows + [row], rule) && Answers(specs, rows + [row], agent)
  {
    var more := rows + [row];
    assert more[..|rows|] == rows;
    forall i | 0 <= i < |more| ensures Started(specs[i], more[..i], more[i], rule) {
      if i < |rows| {
        assert more[..i] == rows[..i];
        assert Started(specs[i], rows[..i], rows[i], rule);
      }
    }
  }

  lemma LogGrows(before: seq<Line>, lines: seq<Line>, rows: seq<ResultRow>, row: ResultRow)
    requires lines == before + AsLines(rows)
    ensures lines + [Written(row)] == before + AsLines(rows + [row])
  {
    assert AsLines(rows + [row]) == AsLines(rows) + [Written(row)];
  }

  lemma TalliesGrow(rows: seq<ResultRow>, row: ResultRow, spent: real, costs: seq<real>, streak: nat)
    requires Tallies(rows, spent, costs, streak) && streak < MAX_CONSECUTIVE_INFRA
    ensures Tallies(rows + [row], spent + row.cost, costs + [row.cost],
                    if row.status == INFRA_ERROR then streak + 1 else 0)
  {
    assert (rows + [row])[..|rows|] == rows;
    assert (costs + [row.cost])[..|rows|] == costs;
    assert Costs(rows + [row]) == costs + [row.cost];
  }

  /** What the loop keeps. */
  ghost predicate Progress(specs: seq<RunSpec>, rows: seq<ResultRow>, spent: real, costs: seq<real>, streak: nat,
                           agent: (nat, RunSpec) -> Outcome, rule: StartRule)
  {
    Tallies(rows, spent, costs, streak) && Session(specs, rows, rule) && Answers(specs, rows, agent)
  }

  lemma ProgressStarts(specs: seq<RunSpec>, agent: (nat, RunSpec) -> Outcome, rule: StartRule)
    ensures Progress(specs, [], 0.0, [], 0, agent, rule)
  {
    assert Costs([]) == [];
  }

  lemma ProgressGrows(specs: seq<RunSpec>, rows: seq<ResultRow>, spent: real, costs: seq<real>, streak: nat,
                      agent: (nat, RunSpec) -> Outcome, rule: StartRule, row: ResultRow)
    requires Progress(specs, rows, spent, costs, streak, agent, rule) && |rows| < |specs|
    requires rule(spent, costs) && streak < MAX_CONSECUTIVE_INFRA
    requires row.key == KeyOf(specs[|rows|]) && Outcome(row.status, row.cost) == agent(|rows|, specs[|rows|])
    ensures Progress(specs, rows + [row], spent + row.cost, costs + [row.cost],
                     if row.status == INFRA_ERROR then streak + 1 else 0, agent, rule)
  {
    SessionGrows(specs, rows, row, agent, rule);
    TalliesGrow(rows, row, spent, costs, streak);
  }

  /** What a call over a plan leaves: legal rows with the agent's answers, their exact
      total, and a true reason for having stopped. */
  ghost predicate PlanRun(specs: seq<RunSpec>, rows: seq<ResultRow>, spent: real, stop: Stop,
                          agent: (nat, RunSpec) -> Outcome, killed: Option<nat>, rule: StartRule)
  {
    && Session(specs, rows, rule) && Answers(specs, rows, agent)
    && spent == Budget.Sum(Costs(rows)) && StopsBecause(stop, specs, rows, killed, rule)
  }

  lemma EndIsJustified(specs: seq<RunSpec>, rows: seq<ResultRow>, spent: real, costs: seq<real>, streak: nat,
                       agent: (nat, RunSpec) -> Outcome, killed: Option<nat>, rule: StartRule, stop: Stop)
    requires Progress(specs, rows, spent, costs, streak, agent, rule)
    requires if stop == Finished then |rows| == |specs|
             else |rows| < |specs| && stop == BreakHere(|rows|, spent, costs, streak, killed, rule)
    ensures PlanRun(specs, rows, spent, stop, agent, killed, rule)
  {
  }

  /** The reasons for stopping, in numbers: the cap stops a call only when what was spent
      and the estimate, max_run until three costs are known and then their mean, are above
      it; the streak stops it only after three infrastructure failures; and else the plan
      is run to its end. */
  lemma StopInNumbers(specs: seq<RunSpec>, rows: seq<ResultRow>, spent: real, stop: Stop,
                      agent: (nat, RunSpec) -> Outcome, killed: Option<nat>, cap: Option<real>, maxRun: real)
    requires PlanRun(specs, rows, spent, stop, agent, killed, CapRule(cap, maxRun))
    ensures stop == CapReached ==>
              |rows| < |specs| && cap.Some?
              && (if |rows| < 3 then spent + maxRun > cap.value
                  else spent + spent / (|rows| as real) > cap.value)
    ensures stop == InfraStreak ==>
              |rows| >= 3 && forall i :: |rows| - 3 <= i < |rows| ==> rows[i].status == "infra_error"
    ensures stop == Finished ==> |rows| == |specs|
    ensures stop == Killed ==> killed == Some(|rows|)
  {
    if stop == InfraStreak {
      StreakShows(rows);
    }
  }

  /** A row for each run made, in order, with that run's task, arm and repetition and the
      agent's answer to it. */
  ghost predicate RowsAnswer(specs: seq<RunSpec>, rows: seq<ResultRow>, agent: (nat, RunSpec) -> Outcome) {
    && |rows| <= |specs|
    && forall i :: 0 <= i < |rows| ==>
                     rows[i] == ResultRow((specs[i].task.id, specs[i].arm, specs[i].rep), agent(i, specs[i]).status,
                                          agent(i, specs[i]).cost)
  }

  /** What a call writes. */
  lemma RowsAnswerThePlan(specs: seq<RunSpec>, rows: seq<ResultRow>, spent: real, stop: Stop,
                          agent: (nat, RunSpec) -> Outcome, killed: Option<nat>, rule: StartRule)
    requires PlanRun(specs, rows, spent, stop, agent, killed, rule)
    ensures RowsAnswer(specs, rows, agent)
  {
    forall i | 0 <= i < |rows|
      ensures rows[i] == ResultRow((specs[i].task.id, specs[i].arm, specs[i].rep), agent(i, specs[i]).status,
                                   agent(i, specs[i]).cost)
    {
      assert Started(specs[i], rows[..i], rows[i], rule);
    }
  }

  lemma {:induction false} StreakShows(rows: seq<ResultRow>)
    ensures Streak(rows) <= |rows|
    ensures forall i :: |rows| - Streak(rows) <= i < |rows| ==> rows[i].status == "infra_error"
  {
    if rows != [] && rows[|rows| - 1].status == INFRA_ERROR {
      StreakShows(rows[..|rows| - 1]);
    }
  }

  class ResultsLog {
    var lines: seq<Line>

    method LoadDone() returns (done: set<Key>)
      ensures done == DoneKeys(lines)
      ensures forall key :: key in done <==>
                exists i :: 0 <= i < |lines| && lines[i].Written? && lines[i].row.key == key
                            && lines[i].row.status != "infra_error"
    {
      done := {};
      for i := 0 to |lines|
        invariant done == DoneKeys(lines[..i])
      {
        PrefixGrow(lines, i);
        if lines[i].Written? && lines[i].row.status != INFRA_ERROR {
          done := done + {lines[i].row.key};
        }
      }
      assert lines[..|lines|] == lines;
    }

    /** One run, its row appended to the log. */
    method ExecuteAndRecord(spec: RunSpec, n: nat, agent: (nat, RunSpec) -> Outcome) returns (row: ResultRow)
      modifies this
      ensures row.key == KeyOf(spec) && Outcome(row.status, row.cost) == agent(n, spec)
      ensures lines == old(lines) + [Written(row)]
    {
      var outcome := agent(n, spec);
      row := ResultRow(KeyOf(spec), outcome.status, outcome.cost);
      lines := lines + [Written(row)];
    }

    /** The next run of the plan, and how many infrastructure failures in a row that makes. */
    method RunNext(specs: seq<RunSpec>, agent: (nat, RunSpec) -> Outcome, ghost rule: StartRule,
                   ghost rows: seq<ResultRow>, ghost spent: real, costs: seq<real>, streak: nat,
                   ghost before: seq<Line>)
      returns (row: ResultRow, failures: nat)
      requires Progress(specs, rows, spent, costs, streak, agent, rule) && |costs| < |specs|
      requires rule(spent, costs) && streak < MAX_CONSECUTIVE_INFRA
      requires lines == before + AsLines(rows)
      modifies this
      ensures lines == before + AsLines(rows + [row])
      ensures Progress(specs, rows + [row], spent + row.cost, costs + [row.cost], failures, agent, rule)
    {
      ghost var logged := lines;
      row := ExecuteAndRecord(specs[|costs|], |costs|, agent);
      LogGrows(before, logged, rows, row);
      ProgressGrows(specs, rows, spent, costs, streak, agent, rule, row);
      failures := if row.status == INFRA_ERROR then streak + 1 else 0;
    }

    /** The loop over the plan, with the cap as a rule on what was spent. `agent` answers
        the i-th run; `killed` is when the process dies, if it does. */
    method RunPlan(specs: seq<RunSpec>, agent: (nat, RunSpec) -> Outcome, killed: Option<nat>, rule: StartRule)
      returns (rows: seq<ResultRow>, spent: real, stop: Stop)
      modifies this
      ensures lines == old(lines) + AsLines(rows)
      ensures PlanRun(specs, rows, spent, stop, agent, killed, rule)
    {
      var costs, streak := [], 0;
      rows, spent := [], 0.0;
      ProgressStarts(specs, agent, rule);
      for ran := 0 to |specs|
        invariant ran == |rows| && lines == old(lines) + AsLines(rows)
        invariant Progress(specs, rows, spent, costs, streak, agent, rule)
      {
        stop := BreakHere(ran, spent, costs, streak, killed, rule);
        if stop != Finished {
          EndIsJustified(specs, rows, spent, costs, streak, agent, killed, rule, stop);
          return;
        }
        var row, failures := RunNext(specs, agent, rule, rows, spent, costs, streak, old(lines));
        rows, spent, costs, streak := rows + [row], spent + row.cost, costs + [row.cost], failures;
      }
      stop := Finished;
      EndIsJustified(specs, rows, spent, costs, streak, agent, killed, rule, stop);
    }

    /** One call: plan what the log does not hold, then run the plan. */
    method RunBattery(tasks: seq<Task>, arms: seq<string>, k: int, agent: (nat, RunSpec) -> Outcome,
                      killed: Option<nat>, cap: Option<real>, maxRun: real)
      returns (report: Report, rows: seq<ResultRow>)
      modifies this
      ensures lines == old(lines) + AsLines(rows)
      ensures var specs := Plan(tasks, arms, k, DoneKeys(old(lines)));
              PlanRun(specs, rows, report.spent, report.stop, agent, killed, CapRule(cap, maxRun))
              && report.planned == |specs| && RowsAnswer(specs, rows, agent)
      ensures report.stop == CapReached ==>
                cap.Some?
                && (if |rows| < 3 then report.spent + maxRun > cap.value
                    else report.spent + report.spent / (|rows| as real) > cap.value)
      ensures report.ran == |rows|
      ensures report.skippedDone == |DoneKeys(old(lines))|
    {
      var done := LoadDone();
      var specs := Plan(tasks, arms, k, done);
      var spent, stop;
      rows, spent, stop := RunPlan(specs, agent, killed, CapRule(cap, maxRun));
      StopInNumbers(specs, rows, spent, stop, agent, killed, cap, maxRun);
      RowsAnswerThePlan(specs, rows, spent, stop, agent, killed, CapRule(cap, maxRun));
      report := Report(|specs|, |rows|, |done|, spent, stop);
    }
  }

  // ---- money and failures ---------------------------------------------------------------------

  lemma SessionAllowed(specs: seq<RunSpec>, rows: seq<ResultRow>, cap: Option<real>, maxRun: real)
    requires Session(specs, rows, CapRule(cap, maxRun))
    ensures Budget.Allowed(Costs(rows), cap, maxRun)
  {
    forall i | 0 <= i < |rows| ensures Budget.MayFollow(Costs(rows)[..i], cap, maxRun) {
      assert Started(specs[i], rows[..i], rows[i], CapRule(cap, maxRun));
      assert Costs(rows)[..i] == Costs(rows[..i]);
    }
  }

  /** If every run costs between 0 and maxRun, three runs never pass the cap, and from
      the fourth on the total less one full-price run is at most n/(n+1) of it. */
  lemma SessionSpend(specs: seq<RunSpec>, rows: seq<ResultRow>, cap: real, maxRun: real)
    requires Session(specs, rows, CapRule(Some(cap), maxRun)) && Budget.InRange(Costs(rows), maxRun)
    ensures var costs := Costs(rows);
            && |costs| == |rows|
            && (1 <= |costs| <= 3 ==> Budget.Sum(costs) <= cap)
            && (|costs| > 3 ==> Budget.Times(|costs|, Budget.Sum(costs) - maxRun) <= Budget.Times(|costs| - 1, cap))
  {
    SessionAllowed(specs, rows, Some(cap), maxRun);
    Budget.SpendBound(Costs(rows), cap, maxRun);
  }

  /** With settings that are safe for the plan's length, the cap is never passed. */
  lemma SessionWithinCap(specs: seq<RunSpec>, rows: seq<ResultRow>, cap: real, maxRun: real)
    requires Session(specs, rows, CapRule(Some(cap), maxRun)) && Budget.InRange(Costs(rows), maxRun)
    requires 0.0 <= maxRun && Budget.SafeSettings(|specs|, cap, maxRun)
    ensures Budget.Sum(Costs(rows)) <= cap
  {
    SessionAllowed(specs, rows, Some(cap), maxRun);
    Budget.SafeKeepsCap(|specs|, cap, maxRun, Costs(rows));
  }

  lemma ThreeFailuresShow(rows: seq<ResultRow>)
    requires |rows| >= 3
    requires forall j :: |rows| - 3 <= j < |rows| ==> rows[j].status == INFRA_ERROR
    ensures Streak(rows) >= 3
  {
    var one := rows[..|rows| - 1];
    var two := one[..|one| - 1];
    assert Streak(rows) == Streak(one) + 1 && Streak(one) == Streak(two) + 1;
    assert two[|two| - 1].status == INFRA_ERROR;
  }

  /** Of any four rows a call writes one after another, one is not an
      infrastructure failure. */
  lemma NoFourFailuresInARow(specs: seq<RunSpec>, rows: seq<ResultRow>, rule: StartRule, i: nat)
    requires Session(specs, rows, rule) && i + 3 < |rows|
    ensures exists j :: i <= j <= i + 3 && rows[j].status != INFRA_ERROR
  {
    var before := rows[..i + 3];
    assert Started(specs[i + 3], before, rows[i + 3], rule);
    if forall j :: i <= j < i + 3 ==> before[j].status == INFRA_ERROR {
      ThreeFailuresShow(before);
      assert false;
    }
    var j :| i <= j < i + 3 && before[j].status != INFRA_ERROR;
    assert rows[j] == before[j];
  }

  // ---- exactly once ----------------------------------------------------------------------------

  lemma SettledIffDone(lines: seq<Line>, key: Key)
    ensures Settled(lines, key) == 0 <==> key !in DoneKeys(lines)
  {
    var hits := Filter(lines, SettlesKey(key));
    if key in DoneKeys(lines) {
      var l :| l in lines && Settles(l, key);
      assert l in hits;
    }
    if hits != [] {
      assert hits[0] in hits;
      assert hits[0] in lines && Settles(hits[0], key);
    }
  }

  /** Is there a row that finishes this key? */
  ghost predicate Finishes(rows: seq<ResultRow>, key: Key) {
    exists i :: 0 <= i < |rows| && rows[i].key == key && rows[i].status != INFRA_ERROR
  }

  lemma FinishesUnfold(rows: seq<ResultRow>, key: Key)
    requires rows != [] && NoDup(RowKeys(rows))
    ensures NoDup(RowKeys(rows[1..]))
    ensures Finishes(rows, key) <==> Finishes(rows[1..], key) || (rows[0].key == key && rows[0].status != INFRA_ERROR)
    ensures rows[0].key == key ==> !Finishes(rows[1..], key)
  {
    var keys, rest := RowKeys(rows), rows[1..];
    assert forall i :: 0 <= i < |rest| ==> rest[i] == rows[i + 1] && RowKeys(rest)[i] == keys[i + 1];
    if Finishes(rows, key) {
      var i :| 0 <= i < |rows| && rows[i].key == key && rows[i].status != INFRA_ERROR;
      assert i > 0 ==> rest[i - 1] == rows[i];
    }
    if rows[0].key == key {
      forall i | 0 <= i < |rest| ensures rest[i].key != key {
        assert keys[0] != keys[i + 1];
      }
    }
  }

  lemma {:induction false} DistinctRowsSettleOnce(rows: seq<ResultRow>, key: Key)
    requires NoDup(RowKeys(rows))
    ensures Settled(AsLines(rows), key) == if Finishes(rows, key) then 1 else 0
  {
    if rows != [] {
      FinishesUnfold(rows, key);
      DistinctRowsSettleOnce(rows[1..], key);
      assert AsLines(rows) == [Written(rows[0])] + AsLines(rows[1..]);
      assert AsLines(rows)[1..] == AsLines(rows[1..]);
    }
  }

  /** Task ids and arms without duplicates, or nothing to plan. */
  ghost predicate CleanInput(tasks: seq<Task>, arms: seq<string>, k: int) {
    k <= 0 || tasks == [] || arms == [] || (NoDup(TaskIds(tasks)) && NoDup(arms))
  }

  lemma SessionRows(tasks: seq<Task>, arms: seq<string>, k: int, done: set<Key>, rows: seq<ResultRow>, rule: StartRule)
    requires CleanInput(tasks, arms, k) && Session(Plan(tasks, arms, k, done), rows, rule)
    ensures NoDup(RowKeys(rows))
    ensures forall i :: 0 <= i < |rows| ==> rows[i].key !in done
  {
    var specs := Plan(tasks, arms, k, done);
    PlanDistinct(tasks, arms, k);
    FilterNoDupMap((s: RunSpec) => KeyOf(s), Specs(tasks, arms, k), NotIn(done));
    forall i | 0 <= i < |rows| ensures rows[i].key !in done && RowKeys(rows)[i] == KeysInOrder(specs)[i] {
      assert Started(specs[i], rows[..i], rows[i], rule);
      assert specs[i] in specs;
    }
  }

  /** One call settles each key it runs successfully, never one settled before, and
      none twice. */
  lemma SessionSettles(lines: seq<Line>, tasks: seq<Task>, arms: seq<string>, k: int, rows: seq<ResultRow>,
                       rule: StartRule, key: Key)
    requires CleanInput(tasks, arms, k)
    requires Session(Plan(tasks, arms, k, DoneKeys(lines)), rows, rule)
    ensures Settled(lines + AsLines(rows), key)
            == Settled(lines, key)
               + if Finishes(rows, key) then 1 else 0
    ensures Settled(lines, key) > 0 ==> Settled(lines + AsLines(rows), key) == Settled(lines, key)
  {
    SessionRows(tasks, arms, k, DoneKeys(lines), rows, rule);
    FilterConcat(lines, AsLines(rows), SettlesKey(key));
    DistinctRowsSettleOnce(rows, key);
    SettledIffDone(lines, key);
  }

  /** A call with its arguments and the rows it got to write before it ended. */
  datatype Call = Call(tasks: seq<Task>, arms: seq<string>, k: int, rule: StartRule, rows: seq<ResultRow>)

  ghost predicate Legal(lines: seq<Line>, c: Call) {
    CleanInput(c.tasks, c.arms, c.k)
    && Session(Plan(c.tasks, c.arms, c.k, DoneKeys(lines)), c.rows, c.rule)
  }

  function LogAfter(lines: seq<Line>, calls: seq<Call>): seq<Line>
    decreases |calls|
  {
    if calls == [] then lines else LogAfter(lines + AsLines(calls[0].rows), calls[1..])
  }

  ghost predicate LegalHistory(lines: seq<Line>, calls: seq<Call>)
    decreases |calls|
  {
    calls == [] || (Legal(lines, calls[0]) && LegalHistory(lines + AsLines(calls[0].rows), calls[1..]))
  }

  /** Any number of calls on one log, each stopped or killed wherever it was: no task,
      arm and repetition is ever settled twice, and what was settled stays settled. */
  lemma {:induction false} SettledAtMostOnce(lines: seq<Line>, calls: seq<Call>, key: Key)
    requires LegalHistory(lines, calls) && Settled(lines, key) <= 1
    ensures Settled(lines, key) <= Settled(LogAfter(lines, calls), key) <= 1
    ensures lines <= LogAfter(lines, calls)
    decreases |calls|
  {
    if calls != [] {
      var c := calls[0];
      SessionSettles(lines, c.tasks, c.arms, c.k, c.rows, c.rule, key);
      SettledAtMostOnce(lines + AsLines(c.rows), calls[1..], key);
    }
  }

  /** A key is planned exactly while no row settles it: infrastructure failures are
      tried again, finished runs are not. */
  lemma PlannedUntilSettled(lines: seq<Line>, tasks: seq<Task>, arms: seq<string>, k: int, s: RunSpec)
    ensures s in Plan(tasks, arms, k, DoneKeys(lines)) <==>
              s in Specs(tasks, arms, k) && Settled(lines, KeyOf(s)) == 0
  {
    SettledIffDone(lines, KeyOf(s));
  }

  /** A call that runs its plan to the end without an infrastructure failure leaves
      exactly one settling row for every planned key, and nothing for the next call. */
  lemma FullCallSettlesAll(lines: seq<Line>, c: Call, s: RunSpec)
    requires Legal(lines, c) && Settled(lines, KeyOf(s)) <= 1
    requires |c.rows| == |Plan(c.tasks, c.arms, c.k, DoneKeys(lines))|
    requires forall i :: 0 <= i < |c.rows| ==> c.rows[i].status != INFRA_ERROR
    requires s in Specs(c.tasks, c.arms, c.k)
    ensures Settled(lines + AsLines(c.rows), KeyOf(s)) == 1
    ensures s !in Plan(c.tasks, c.arms, c.k, DoneKeys(lines + AsLines(c.rows)))
  {
    var specs := Plan(c.tasks, c.arms, c.k, DoneKeys(lines));
    SessionSettles(lines, c.tasks, c.arms, c.k, c.rows, c.rule, KeyOf(s));
    SettledIffDone(lines, KeyOf(s));
    if Settled(lines, KeyOf(s)) == 0 {
      assert s in specs;
      var i :| 0 <= i < |specs| && specs[i] == s;
      assert Started(specs[i], c.rows[..i], c.rows[i], c.rule);
    }
    PlannedUntilSettled(lines + AsLines(c.rows), c.tasks, c.arms, c.k, s);
  }

  // ---- stopping anywhere leaves paired data --------------------------------------------------------

  /** The log holds finished runs of the first |lines| planned keys, in order. */
  ghost predicate HoldsFront(lines: seq<Line>, specs: seq<RunSpec>) {
    |lines| <= |specs| && forall i :: 0 <= i < |lines| ==> Settles(lines[i], KeyOf(specs[i]))
  }

  lemma FrontIsDone(lines: seq<Line>, specs: seq<RunSpec>, i: nat)
    requires HoldsFront(lines, specs) && NoDup(KeysInOrder(specs)) && i < |specs|
    ensures KeyOf(specs[i]) in DoneKeys(lines) <==> i < |lines|
  {
    if i < |lines| {
      assert lines[i] in lines;
    } else {
      forall j | 0 <= j < |lines| ensures lines[j].row.key != KeyOf(specs[i]) {
        assert KeysInOrder(specs)[j] != KeysInOrder(specs)[i];
      }
    }
  }

  /** A call without infrastructure failures on such a log makes the front longer. */
  lemma FrontGrows(lines: seq<Line>, specs: seq<RunSpec>, rows: seq<ResultRow>, rule: StartRule)
    requires HoldsFront(lines, specs) && NoDup(KeysInOrder(specs))
    requires Session(Filter(specs, NotIn(DoneKeys(lines))), rows, rule)
    requires forall i :: 0 <= i < |rows| ==> rows[i].status != INFRA_ERROR
    ensures HoldsFront(lines + AsLines(rows), specs)
  {
    forall i | 0 <= i < |specs| ensures KeyOf(specs[i]) in DoneKeys(lines) <==> i < |lines| {
      FrontIsDone(lines, specs, i);
    }
    PlanAfterFront(specs, |lines|, DoneKeys(lines));
    var left := specs[|lines|..];
    forall i | 0 <= i < |rows| ensures Settles(AsLines(rows)[i], KeyOf(specs[|lines| + i])) {
      assert Started(left[i], rows[..i], rows[i], rule);
      assert left[i] == specs[|lines| + i];
    }
  }

  function ArmLine(arm: string): Line -> bool {
    (l: Line) => l.Written? && l.row.key.1 == arm
  }

  lemma {:induction false} FrontOfArm(lines: seq<Line>, specs: seq<RunSpec>, arm: string)
    requires HoldsFront(lines, specs)
    ensures |Filter(lines, ArmLine(arm))| == |Filter(specs[..|lines|], OfArm(arm))|
  {
    if lines != [] {
      var n := |lines| - 1;
      FrontOfArm(lines[..n], specs, arm);
      PrefixGrow(lines, n);
      PrefixGrow(specs, n);
      assert lines == lines[..n + 1] && Settles(lines[n], KeyOf(specs[n]));
      FilterConcat(lines[..n], [lines[n]], ArmLine(arm));
      FilterConcat(specs[..n], [specs[n]], OfArm(arm));
    }
  }

  /** Calls repeating one battery, none with an infrastructure failure. */
  ghost predicate Repeats(calls: seq<Call>, tasks: seq<Task>, arms: seq<string>, k: int) {
    forall c :: c in calls ==>
                  c.tasks == tasks && c.arms == arms && c.k == k
                  && forall i :: 0 <= i < |c.rows| ==> c.rows[i].status != INFRA_ERROR
  }

  lemma {:induction false} CallsExtendFront(lines: seq<Line>, calls: seq<Call>, tasks: seq<Task>, arms: seq<string>,
                                            k: int)
    requires CleanInput(tasks, arms, k) && Repeats(calls, tasks, arms, k)
    requires LegalHistory(lines, calls) && HoldsFront(lines, Specs(tasks, arms, k))
    ensures HoldsFront(LogAfter(lines, calls), Specs(tasks, arms, k))
    decreases |calls|
  {
    if calls != [] {
      var c := calls[0];
      assert c in calls;
      PlanDistinct(tasks, arms, k);
      FrontGrows(lines, Specs(tasks, arms, k), c.rows, c.rule);
      CallsExtendFront(lines + AsLines(c.rows), calls[1..], tasks, arms, k);
    }
  }

  /** However often a battery is stopped and resumed, as long as no run fails for reasons
      of infrastructure, any two arms are at most one run apart in the log. */
  lemma ResumingLeavesPairs(calls: seq<Call>, tasks: seq<Task>, arms: seq<string>, k: int, a: string, b: string)
    requires NoDup(TaskIds(tasks)) && NoDup(arms) && a in arms && b in arms
    requires Repeats(calls, tasks, arms, k) && LegalHistory([], calls)
    ensures var log := LogAfter([], calls);
            |Filter(log, ArmLine(a))| <= |Filter(log, ArmLine(b))| + 1
  {
    var log, specs := LogAfter([], calls), Specs(tasks, arms, k);
    CallsExtendFront([], calls, tasks, arms, k);
    FrontOfArm(log, specs, a);
    FrontOfArm(log, specs, b);
    StoppingEarlyLeavesPairs(Blocks(tasks, k), arms, |log|, a, b);
  }

  // ---- duplicate ids or arms break it ------------------------------------------------------------

  function AllOk(specs: seq<RunSpec>): seq<ResultRow> {
    Map((s: RunSpec) => ResultRow(KeyOf(s), "ok", 0.0), specs)
  }

  lemma {:induction false} NoStreak(rows: seq<ResultRow>)
    requires forall i :: 0 <= i < |rows| ==> rows[i].status != INFRA_ERROR
    ensures Streak(rows) == 0
  {
  }

  lemma AllOkIsSession(specs: seq<RunSpec>)
    ensures Session(specs, AllOk(specs), CapRule(None, 0.0))
  {
    var rows := AllOk(specs);
    forall i | 0 <= i < |rows| ensures Started(specs[i], rows[..i], rows[i], CapRule(None, 0.0)) {
      NoStreak(rows[..i]);
    }
  }

  lemma TwoRowsSettleTwice(rows: seq<ResultRow>, i: nat, j: nat)
    requires i < j < |rows| && rows[i].key == rows[j].key
    requires rows[i].status != INFRA_ERROR && rows[j].status != INFRA_ERROR
    ensures Settled(AsLines(rows), rows[i].key) >= 2
  {
    var lines, keep := AsLines(rows), SettlesKey(rows[i].key);
    var a, b := lines[..j], lines[j..];
    assert lines == a + b;
    FilterConcat(a, b, keep);
    assert a[i] in a && keep(a[i]) && a[i] in Filter(a, keep);
    assert b[0] in b && keep(b[0]) && b[0] in Filter(b, keep);
  }

  /** On a fresh log, whatever a call may write settles every key at most once exactly
      when task ids and arms have no duplicates (or nothing is planned). */
  lemma OnceNeedsCleanInput(tasks: seq<Task>, arms: seq<string>, k: int)
    ensures CleanInput(tasks, arms, k) <==>
              forall rows, rule, key :: Session(Plan(tasks, arms, k, {}), rows, rule) ==>
                                          Settled(AsLines(rows), key) <= 1
  {
    var specs := Plan(tasks, arms, k, {});
    if CleanInput(tasks, arms, k) {
      forall rows, rule, key | Session(specs, rows, rule) ensures Settled(AsLines(rows), key) <= 1 {
        SessionRows(tasks, arms, k, {}, rows, rule);
        DistinctRowsSettleOnce(rows, key);
      }
    } else {
      AllOkIsSession(specs);
      AllOkNeedsCleanInput(tasks, arms, k);
    }
  }

  lemma AllOkNeedsCleanInput(tasks: seq<Task>, arms: seq<string>, k: int)
    ensures CleanInput(tasks, arms, k) <==>
              forall key :: Settled(AsLines(AllOk(Plan(tasks, arms, k, {}))), key) <= 1
  {
    var specs := Specs(tasks, arms, k);
    var rows := AllOk(specs);
    FilterAll(specs, NotIn({}));
    assert Plan(tasks, arms, k, {}) == specs;
    PlanDistinct(tasks, arms, k);
    assert RowKeys(rows) == KeysInOrder(specs);
    CleanIffOnce(rows);
  }

  lemma CleanIffOnce(rows: seq<ResultRow>)
    requires forall i :: 0 <= i < |rows| ==> rows[i].status != INFRA_ERROR
    ensures NoDup(RowKeys(rows)) <==> forall key :: Settled(AsLines(rows), key) <= 1
  {
    if NoDup(RowKeys(rows)) {
      forall key ensures Settled(AsLines(rows), key) <= 1 {
        DistinctRowsSettleOnce(rows, key);
      }
    } else {
      var i, j :| 0 <= i < j < |rows| && RowKeys(rows)[i] == RowKeys(rows)[j];
      TwoRowsSettleTwice(rows, i, j);
    }
  }
}
