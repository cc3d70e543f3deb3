/** Processes calling the locked JSONL operations on one file, interleaved step by
    step: taking the lock, scanning a line, writing or reading a character,
    releasing, dying. Whatever the schedule, the outcome is that of running the
    calls one after another. */
module LockProtocol {
  import opened Prelude
  import opened SharedFile

  datatype Phase =
    | Idle
    | Scanning(next: nat)
    | Writing(sent: nat)
    | Reading(got: string)
    | Releasing(answer: Answer)
    | Finished(answer: Answer)
    | Dead

  /** `history` lists the calls in the order their outcome was settled. */
  datatype Sys = Sys(requests: map<nat, Request>, phase: map<nat, Phase>, text: string, exclusive: Option<nat>,
                     shared: set<nat>, history: seq<nat>)

  datatype Action = Acquire | Scan | Write | Read | Release | Die

  function Start(requests: map<nat, Request>, initial: seq<string>): Sys {
    Sys(requests, map p | p in requests :: Idle, Join(initial), None, {}, [])
  }

  function In(s: Sys, p: nat, phase: Phase): Sys {
    s.(phase := s.phase[p := phase])
  }

  // ---- the steps: an action that is not possible changes nothing ------------------------------

  function DoAcquire(s: Sys, p: nat): Sys
    requires p in s.requests
  {
    if s.requests[p].ReadAll? then
      if s.exclusive.None? then In(s, p, Reading("")).(shared := s.shared + {p}) else s
    else if s.exclusive.None? && s.shared == {} then
      In(s, p, if s.requests[p].Append? then Writing(0) else Scanning(0)).(exclusive := Some(p))
    else s
  }

  function Settle(s: Sys, p: nat, answer: Answer): Sys {
    In(s, p, Releasing(answer)).(history := s.history + [p])
  }

  function DoScan(idOf: IdOf, s: Sys, p: nat, next: nat): Sys
    requires p in s.requests && s.requests[p].AppendIfAbsent?
  {
    var lines := Split("", s.text);
    if next >= |lines| then In(s, p, Writing(0))
    else if idOf(lines[next]) == Some(s.requests[p].id) then Settle(s, p, Wrote(false))
    else In(s, p, Scanning(next + 1))
  }

  function DoWrite(s: Sys, p: nat, sent: nat): Sys
    requires p in s.requests && !s.requests[p].ReadAll?
  {
    var payload := s.requests[p].line + "\n";
    if sent < |payload| then In(s, p, Writing(sent + 1)).(text := s.text + [payload[sent]])
    else Settle(s, p, Wrote(true))
  }

  function DoRead(s: Sys, p: nat, got: string): Sys {
    if |got| < |s.text| then In(s, p, Reading(got + [s.text[|got|]]))
    else Settle(s, p, ReadBack(Split("", got)))
  }

  function Unlock(s: Sys, p: nat): Sys {
    s.(exclusive := if s.exclusive == Some(p) then None else s.exclusive, shared := s.shared - {p})
  }

  /** One step of process p. A process may die at any point but inside its write; its
      lock goes with it. */
  function Step(idOf: IdOf, s: Sys, p: nat, a: Action): Sys {
    if p !in s.requests || p !in s.phase then s
    else
      match (a, s.phase[p])
      case (Acquire, Idle) => DoAcquire(s, p)
      case (Scan, Scanning(next)) => if s.requests[p].AppendIfAbsent? then DoScan(idOf, s, p, next) else s
      case (Write, Writing(sent)) => if s.requests[p].ReadAll? then s else DoWrite(s, p, sent)
      case (Read, Reading(got)) => DoRead(s, p, got)
      case (Release, Releasing(answer)) => Unlock(In(s, p, Finished(answer)), p)
      case (Die, Finished(_)) => s
      case (Die, Writing(sent)) => if sent == 0 then Unlock(In(s, p, Dead), p) else s
      case (Die, _) => Unlock(In(s, p, Dead), p)
      case _ => s
  }

  function Run(idOf: IdOf, s: Sys, schedule: seq<(nat, Action)>): Sys
    decreases |schedule|
  {
    if schedule == [] then s else Run(idOf, Step(idOf, s, schedule[0].0, schedule[0].1), schedule[1..])
  }

  // ---- the invariant -----------------------------------------------------------------------------

  ghost predicate Recorded(s: Sys) {
    && NoDup(s.history)
    && (forall k :: 0 <= k < |s.history| ==> s.history[k] in s.requests)
    && s.phase.Keys == s.requests.Keys
    && (forall p :: p in s.requests && !s.requests[p].ReadAll? ==> OneLine(s.requests[p].line))
  }

  /** The whole lines settled so far. */
  function Settled(idOf: IdOf, initial: seq<string>, s: Sys): seq<string>
    requires forall k :: 0 <= k < |s.history| ==> s.history[k] in s.requests
  {
    Serial(idOf, initial, s.requests, s.history)
  }

  /** What the writer inside its write has put behind them. */
  function Partial(s: Sys): string {
    if s.exclusive.Some? && s.exclusive.value in s.phase && s.phase[s.exclusive.value].Writing?
       && s.exclusive.value in s.requests && !s.requests[s.exclusive.value].ReadAll?
    then
      var payload := s.requests[s.exclusive.value].line + "\n";
      if s.phase[s.exclusive.value].sent <= |payload| then payload[..s.phase[s.exclusive.value].sent] else payload
    else ""
  }

  ghost predicate AnsweredAs(idOf: IdOf, initial: seq<string>, s: Sys, p: nat, answer: Answer)
    requires Recorded(s)
  {
    exists k :: 0 <= k < |s.history| && s.history[k] == p
                && answer == SerialAnswer(idOf, initial, s.requests, s.history, k)
  }

  /** What each process's phase says about the lock, the file and the history. */
  ghost predicate ProcOk(idOf: IdOf, initial: seq<string>, s: Sys, p: nat)
    requires Recorded(s) && p in s.requests
  {
    var lines := Settled(idOf, initial, s);
    match s.phase[p]
    case Idle => s.exclusive != Some(p) && p !in s.shared && p !in s.history
    case Scanning(next) =>
      s.exclusive == Some(p) && p !in s.history && s.requests[p].AppendIfAbsent?
      && next <= |lines| && forall k :: 0 <= k < next ==> idOf(lines[k]) != Some(s.requests[p].id)
    case Writing(sent) =>
      s.exclusive == Some(p) && p !in s.history && !s.requests[p].ReadAll? && sent <= |s.requests[p].line| + 1
      && (s.requests[p].AppendIfAbsent? ==> !Holds(idOf, lines, s.requests[p].id))
    case Reading(got) => p in s.shared && p !in s.history && s.requests[p].ReadAll? && got <= s.text
    case Releasing(answer) =>
      (if s.requests[p].ReadAll? then p in s.shared else s.exclusive == Some(p))
      && AnsweredAs(idOf, initial, s, p, answer)
    case Finished(answer) => s.exclusive != Some(p) && p !in s.shared && AnsweredAs(idOf, initial, s, p, answer)
    case Dead => s.exclusive != Some(p) && p !in s.shared
  }

  ghost predicate Inv(idOf: IdOf, initial: seq<string>, s: Sys) {
    && Recorded(s)
    && AllOneLine(initial) && AllOneLine(Settled(idOf, initial, s))
    && s.text == Join(Settled(idOf, initial, s)) + Partial(s)
    && (s.exclusive.Some? ==>
          s.exclusive.value in s.requests && s.shared == {} && !s.requests[s.exclusive.value].ReadAll?)
    && (forall p :: p in s.shared ==> p in s.requests && s.requests[p].ReadAll?)
    && (forall p :: p in s.requests ==> ProcOk(idOf, initial, s, p))
  }

  lemma StartInv(idOf: IdOf, requests: map<nat, Request>, initial: seq<string>)
    requires AllOneLine(initial)
    requires forall p :: p in requests && !requests[p].ReadAll? ==> OneLine(requests[p].line)
    ensures Inv(idOf, initial, Start(requests, initial))
  {
    var s := Start(requests, initial);
    assert s.phase.Keys == s.requests.Keys && Partial(s) == "";
    assert Settled(idOf, initial, s) == initial && Join(initial) + "" == Join(initial);
    forall p | p in s.requests ensures ProcOk(idOf, initial, s, p) {
      assert s.phase[p] == Idle;
    }
  }

  // ---- steps that settle nothing ---------------------------------------------------------------------

  /** A process that neither moved nor was overtaken keeps its standing. */
  lemma OthersKeep(idOf: IdOf, initial: seq<string>, s: Sys, s': Sys, p: nat, q: nat)
    requires Recorded(s) && Recorded(s') && s'.requests == s.requests && s'.history == s.history
    requires q in s.requests && q != p && s'.phase[q] == s.phase[q]
    requires s'.exclusive == Some(q) <==> s.exclusive == Some(q)
    requires q in s'.shared <==> q in s.shared
    requires s.text <= s'.text
    requires ProcOk(idOf, initial, s, q)
    ensures ProcOk(idOf, initial, s', q)
  {
  }

  lemma AcquireInv(idOf: IdOf, initial: seq<string>, s: Sys, p: nat)
    requires Inv(idOf, initial, s) && p in s.requests && s.phase[p].Idle?
    ensures Inv(idOf, initial, DoAcquire(s, p))
  {
    var s' := DoAcquire(s, p);
    if s' != s {
      assert s'.phase.Keys == s.phase.Keys;
      assert Partial(s) == "" && Partial(s') == "";
      forall q | q in s.requests ensures ProcOk(idOf, initial, s', q) {
        assert ProcOk(idOf, initial, s, q);
        if q != p {
          OthersKeep(idOf, initial, s, s', p, q);
        }
      }
    }
  }

  lemma ScanOnInv(idOf: IdOf, initial: seq<string>, s: Sys, p: nat, phase: Phase)
    requires Inv(idOf, initial, s) && p in s.requests && s.phase[p].Scanning?
    requires phase == Writing(0) || phase.Scanning?
    requires ProcOk(idOf, initial, In(s, p, phase), p)
    ensures Inv(idOf, initial, In(s, p, phase))
  {
    var s' := In(s, p, phase);
    assert s'.phase.Keys == s.phase.Keys;
    assert ProcOk(idOf, initial, s, p);
    assert Partial(s) == "" && Partial(s') == "";
    forall q | q in s.requests ensures ProcOk(idOf, initial, s', q) {
      assert ProcOk(idOf, initial, s, q);
      if q != p {
        OthersKeep(idOf, initial, s, s', p, q);
      }
    }
  }

  // ---- settling -----------------------------------------------------------------------------------------

  lemma SettleRecords(idOf: IdOf, initial: seq<string>, s: Sys, p: nat, answer: Answer)
    requires Recorded(s) && p in s.requests && p !in s.history
    requires answer == AnswerTo(idOf, Settled(idOf, initial, s), s.requests[p])
    ensures var s' := Settle(s, p, answer);
            && Recorded(s') && AnsweredAs(idOf, initial, s', p, answer)
            && Settled(idOf, initial, s') == LinesAfter(idOf, Settled(idOf, initial, s), s.requests[p])
  {
    var s' := Settle(s, p, answer);
    assert s'.phase.Keys == s.phase.Keys;
    assert s'.history[..|s.history|] == s.history;
    assert s'.history[|s.history|] == p
           && answer == SerialAnswer(idOf, initial, s.requests, s'.history, |s.history|);
  }

  lemma AnswerStays(idOf: IdOf, initial: seq<string>, s: Sys, s': Sys, p: nat, q: nat, answer: Answer)
    requires Recorded(s) && Recorded(s') && s'.requests == s.requests && s'.history == s.history + [p]
    requires AnsweredAs(idOf, initial, s, q, answer)
    ensures AnsweredAs(idOf, initial, s', q, answer)
  {
    var k :| 0 <= k < |s.history| && s.history[k] == q
             && answer == SerialAnswer(idOf, initial, s.requests, s.history, k);
    assert s'.history[..k] == s.history[..k] && s'.history[k] == q;
    assert answer == SerialAnswer(idOf, initial, s'.requests, s'.history, k);
  }

  /** A call that settles leaves every process that is not inside a write or a scan
      as it stands. */
  lemma SettleOthers(idOf: IdOf, initial: seq<string>, s: Sys, p: nat, answer: Answer, q: nat)
    requires Recorded(s) && Recorded(Settle(s, p, answer)) && q in s.requests && q != p
    requires ProcOk(idOf, initial, s, q) && !s.phase[q].Scanning? && !s.phase[q].Writing?
    ensures ProcOk(idOf, initial, Settle(s, p, answer), q)
  {
    var s' := Settle(s, p, answer);
    if s.phase[q].Releasing? || s.phase[q].Finished? {
      AnswerStays(idOf, initial, s, s', p, q, s.phase[q].answer);
    }
  }

  predicate HoldsLock(s: Sys, p: nat)
    requires p in s.requests
  {
    if s.requests[p].ReadAll? then p in s.shared else s.exclusive == Some(p)
  }

  /** While a call settles, no other process is inside a scan or a write. */
  lemma SettlersAreAlone(idOf: IdOf, initial: seq<string>, s: Sys, p: nat, q: nat)
    requires Inv(idOf, initial, s) && p in s.requests && HoldsLock(s, p) && q in s.requests && q != p
    ensures !s.phase[q].Scanning? && !s.phase[q].Writing?
  {
    assert ProcOk(idOf, initial, s, q);
  }

  lemma OneMoreLine(idOf: IdOf, lines: seq<string>, r: Request)
    requires AllOneLine(lines) && (!r.ReadAll? ==> OneLine(r.line))
    ensures AllOneLine(LinesAfter(idOf, lines, r))
  {
  }

  lemma SettleKeepsProc(idOf: IdOf, initial: seq<string>, s: Sys, p: nat, answer: Answer, q: nat)
    requires Inv(idOf, initial, s) && p in s.requests && p !in s.history && HoldsLock(s, p) && q in s.requests
    requires answer == AnswerTo(idOf, Settled(idOf, initial, s), s.requests[p])
    ensures Recorded(Settle(s, p, answer)) && ProcOk(idOf, initial, Settle(s, p, answer), q)
  {
    SettleRecords(idOf, initial, s, p, answer);
    assert ProcOk(idOf, initial, s, q);
    if q != p {
      SettlersAreAlone(idOf, initial, s, p, q);
      SettleOthers(idOf, initial, s, p, answer, q);
    } else {
      assert Settle(s, p, answer).phase[p] == Releasing(answer);
    }
  }

  lemma NothingPartialLeft(idOf: IdOf, initial: seq<string>, s: Sys, p: nat, answer: Answer)
    requires Inv(idOf, initial, s) && p in s.requests && HoldsLock(s, p)
    ensures Partial(Settle(s, p, answer)) == ""
  {
    assert Settle(s, p, answer).phase[p] == Releasing(answer);
  }

  lemma SettleKeepsText(idOf: IdOf, initial: seq<string>, s: Sys, p: nat, answer: Answer)
    requires Recorded(s) && p in s.requests && p !in s.history && AllOneLine(Settled(idOf, initial, s))
    requires answer == AnswerTo(idOf, Settled(idOf, initial, s), s.requests[p])
    requires s.text == Join(LinesAfter(idOf, Settled(idOf, initial, s), s.requests[p]))
    ensures var s' := Settle(s, p, answer);
            Recorded(s') && s'.text == Join(Settled(idOf, initial, s')) && AllOneLine(Settled(idOf, initial, s'))
  {
    SettleRecords(idOf, initial, s, p, answer);
    OneMoreLine(idOf, Settled(idOf, initial, s), s.requests[p]);
  }

  lemma SettleInv(idOf: IdOf, initial: seq<string>, s: Sys, p: nat, answer: Answer)
    requires Inv(idOf, initial, s) && p in s.requests && p !in s.history && HoldsLock(s, p)
    requires answer == AnswerTo(idOf, Settled(idOf, initial, s), s.requests[p])
    requires s.text == Join(LinesAfter(idOf, Settled(idOf, initial, s), s.requests[p]))
    ensures Inv(idOf, initial, Settle(s, p, answer))
  {
    SettleKeepsText(idOf, initial, s, p, answer);
    NothingPartialLeft(idOf, initial, s, p, answer);
    assert s.text + "" == s.text;
    forall q | q in s.requests ensures ProcOk(idOf, initial, Settle(s, p, answer), q) {
      SettleKeepsProc(idOf, initial, s, p, answer, q);
    }
  }

  /** A scan that meets the id settles with False. */
  lemma FoundInv(idOf: IdOf, initial: seq<string>, s: Sys, p: nat, at: nat)
    requires Inv(idOf, initial, s) && p in s.requests && s.requests[p].AppendIfAbsent?
    requires p !in s.history && HoldsLock(s, p) && s.text == Join(Settled(idOf, initial, s))
    requires at < |Settled(idOf, initial, s)| && idOf(Settled(idOf, initial, s)[at]) == Some(s.requests[p].id)
    ensures Inv(idOf, initial, Settle(s, p, Wrote(false)))
  {
    assert Holds(idOf, Settled(idOf, initial, s), s.requests[p].id);
    SettleInv(idOf, initial, s, p, Wrote(false));
  }

  lemma ScanInv(idOf: IdOf, initial: seq<string>, s: Sys, p: nat)
    requires Inv(idOf, initial, s) && p in s.requests && s.phase[p].Scanning?
    ensures s.requests[p].AppendIfAbsent?
    ensures Inv(idOf, initial, DoScan(idOf, s, p, s.phase[p].next))
  {
    var lines, next := Settled(idOf, initial, s), s.phase[p].next;
    assert ProcOk(idOf, initial, s, p);
    assert Partial(s) == "" && Join(lines) + "" == Join(lines);
    SplitJoin(lines);
    if next >= |lines| {
      assert In(s, p, Writing(0)).phase.Keys == s.phase.Keys;
      ScanOnInv(idOf, initial, s, p, Writing(0));
    } else if idOf(lines[next]) == Some(s.requests[p].id) {
      FoundInv(idOf, initial, s, p, next);
    } else {
      assert In(s, p, Scanning(next + 1)).phase.Keys == s.phase.Keys;
      ScanOnInv(idOf, initial, s, p, Scanning(next + 1));
    }
  }

  lemma WriteOnText(idOf: IdOf, initial: seq<string>, s: Sys, p: nat, sent: nat)
    requires Inv(idOf, initial, s) && p in s.requests && s.phase[p] == Writing(sent)
    requires !s.requests[p].ReadAll? && sent < |s.requests[p].line| + 1
    ensures DoWrite(s, p, sent).text == Join(Settled(idOf, initial, s)) + Partial(DoWrite(s, p, sent))
  {
    var s' := DoWrite(s, p, sent);
    var payload := s.requests[p].line + "\n";
    assert ProcOk(idOf, initial, s, p);
    assert Partial(s) == payload[..sent] && Partial(s') == payload[..sent + 1] == payload[..sent] + [payload[sent]];
  }

  lemma WriteOnInv(idOf: IdOf, initial: seq<string>, s: Sys, p: nat, sent: nat)
    requires Inv(idOf, initial, s) && p in s.requests && s.phase[p] == Writing(sent)
    requires !s.requests[p].ReadAll? && sent < |s.requests[p].line| + 1
    ensures Inv(idOf, initial, DoWrite(s, p, sent))
  {
    var s' := DoWrite(s, p, sent);
    assert s'.phase.Keys == s.phase.Keys;
    WriteOnText(idOf, initial, s, p, sent);
    forall q | q in s.requests ensures ProcOk(idOf, initial, s', q) {
      assert ProcOk(idOf, initial, s, q);
      if q != p {
        OthersKeep(idOf, initial, s, s', p, q);
      }
    }
  }

  lemma WriteInv(idOf: IdOf, initial: seq<string>, s: Sys, p: nat)
    requires Inv(idOf, initial, s) && p in s.requests && s.phase[p].Writing?
    ensures !s.requests[p].ReadAll?
    ensures Inv(idOf, initial, DoWrite(s, p, s.phase[p].sent))
  {
    var lines, sent := Settled(idOf, initial, s), s.phase[p].sent;
    assert ProcOk(idOf, initial, s, p);
    var line := s.requests[p].line;
    if sent < |line| + 1 {
      WriteOnInv(idOf, initial, s, p, sent);
    } else {
      assert Partial(s) == line + "\n";
      assert (lines + [line])[..|lines|] == lines;
      assert Join(lines + [line]) == Join(lines) + line + "\n" == Join(lines) + (line + "\n");
      SettleInv(idOf, initial, s, p, Wrote(true));
    }
  }

  lemma ReadInv(idOf: IdOf, initial: seq<string>, s: Sys, p: nat)
    requires Inv(idOf, initial, s) && p in s.requests && s.phase[p].Reading?
    ensures Inv(idOf, initial, DoRead(s, p, s.phase[p].got))
  {
    var got := s.phase[p].got;
    assert ProcOk(idOf, initial, s, p);
    assert s.exclusive.None? && Partial(s) == "";
    var lines := Settled(idOf, initial, s);
    assert Join(lines) + "" == Join(lines);
    if |got| < |s.text| {
      var s' := DoRead(s, p, got);
      assert s'.phase.Keys == s.phase.Keys && Partial(s') == "";
      forall q | q in s.requests ensures ProcOk(idOf, initial, s', q) {
        assert ProcOk(idOf, initial, s, q);
        if q != p {
          OthersKeep(idOf, initial, s, s', p, q);
        }
      }
    } else {
      assert got == s.text;
      SplitJoin(lines);
      SettleInv(idOf, initial, s, p, ReadBack(lines));
    }
  }

  // ---- leaving ---------------------------------------------------------------------------------------------

  lemma LeaveInv(idOf: IdOf, initial: seq<string>, s: Sys, p: nat, phase: Phase)
    requires Inv(idOf, initial, s) && p in s.requests && (s.phase[p].Writing? ==> s.phase[p].sent == 0)
    requires phase == Dead || (s.phase[p].Releasing? && phase == Finished(s.phase[p].answer))
    ensures Inv(idOf, initial, Unlock(In(s, p, phase), p))
  {
    var s' := Unlock(In(s, p, phase), p);
    assert s'.phase.Keys == s.phase.Keys;
    assert ProcOk(idOf, initial, s, p);
    LeavingKeepsPartial(idOf, initial, s, p, phase);
    forall q | q in s.requests ensures ProcOk(idOf, initial, s', q) {
      assert ProcOk(idOf, initial, s, q);
      if q != p {
        OthersKeep(idOf, initial, s, s', p, q);
      }
    }
  }

  lemma LeavingKeepsPartial(idOf: IdOf, initial: seq<string>, s: Sys, p: nat, phase: Phase)
    requires Inv(idOf, initial, s) && p in s.requests && (s.phase[p].Writing? ==> s.phase[p].sent == 0)
    requires phase == Dead || phase.Finished?
    ensures Partial(Unlock(In(s, p, phase), p)) == Partial(s)
  {
    assert ProcOk(idOf, initial, s, p);
    if s.exclusive == Some(p) {
      assert Partial(s) == "";
    }
  }

  lemma StepInv(idOf: IdOf, initial: seq<string>, s: Sys, p: nat, a: Action)
    requires Inv(idOf, initial, s)
    ensures Inv(idOf, initial, Step(idOf, s, p, a))
  {
    if p in s.requests {
      assert ProcOk(idOf, initial, s, p);
      match (a, s.phase[p])
      case (Acquire, Idle) => AcquireInv(idOf, initial, s, p);
      case (Scan, Scanning(next)) => ScanInv(idOf, initial, s, p);
      case (Write, Writing(sent)) => WriteInv(idOf, initial, s, p);
      case (Read, Reading(got)) => ReadInv(idOf, initial, s, p);
      case (Release, Releasing(answer)) => LeaveInv(idOf, initial, s, p, Finished(answer));
      case (Die, Finished(_)) =>
      case (Die, Writing(sent)) =>
        if sent == 0 {
          LeaveInv(idOf, initial, s, p, Dead);
        }
      case (Die, _) => LeaveInv(idOf, initial, s, p, Dead);
      case _ =>
    }
  }

  lemma {:induction false} RunInv(idOf: IdOf, initial: seq<string>, s: Sys, schedule: seq<(nat, Action)>)
    requires Inv(idOf, initial, s)
    ensures Inv(idOf, initial, Run(idOf, s, schedule))
    decreases |schedule|
  {
    if schedule != [] {
      StepInv(idOf, initial, s, schedule[0].0, schedule[0].1);
      RunInv(idOf, initial, Step(idOf, s, schedule[0].0, schedule[0].1), schedule[1..]);
    }
  }

  // ---- what callers get ----------------------------------------------------------------------------------

  ghost predicate Reachable(idOf: IdOf, initial: seq<string>, requests: map<nat, Request>, s: Sys) {
    && AllOneLine(initial)
    && (forall p :: p in requests && !requests[p].ReadAll? ==> OneLine(requests[p].line))
    && exists schedule :: s == Run(idOf, Start(requests, initial), schedule)
  }

  lemma {:induction false} RunKeepsRequests(idOf: IdOf, s: Sys, schedule: seq<(nat, Action)>)
    ensures Run(idOf, s, schedule).requests == s.requests
    decreases |schedule|
  {
    if schedule != [] {
      RunKeepsRequests(idOf, Step(idOf, s, schedule[0].0, schedule[0].1), schedule[1..]);
    }
  }

  lemma ReachableInv(idOf: IdOf, initial: seq<string>, requests: map<nat, Request>, s: Sys)
    requires Reachable(idOf, initial, requests, s)
    ensures Inv(idOf, initial, s) && s.requests == requests
  {
    var schedule :| s == Run(idOf, Start(requests, initial), schedule);
    StartInv(idOf, requests, initial);
    RunInv(idOf, initial, Start(requests, initial), schedule);
    RunKeepsRequests(idOf, Start(requests, initial), schedule);
  }

  /** Did call p return this answer? */
  predicate Got(s: Sys, p: nat, answer: Answer) {
    p in s.phase && s.phase[p] == Finished(answer)
  }

  /** Under any interleaving the calls behave as if run one after another, in the order
      of the history: each finished call got the answer it gets there, and the file is
      those whole lines, plus what a writer now inside its write has sent. */
  lemma LockedCallsAreSerial(idOf: IdOf, initial: seq<string>, requests: map<nat, Request>, s: Sys)
    requires Reachable(idOf, initial, requests, s)
    ensures NoDup(s.history) && forall k :: 0 <= k < |s.history| ==> s.history[k] in requests
    ensures s.text == Join(Serial(idOf, initial, requests, s.history)) + Partial(s)
    ensures (forall p :: p in requests ==> p in s.phase && !s.phase[p].Writing?) ==>
              Split("", s.text) == Serial(idOf, initial, requests, s.history)
    ensures forall p, answer :: p in requests && Got(s, p, answer) ==>
              exists k :: 0 <= k < |s.history| && s.history[k] == p
                          && answer == SerialAnswer(idOf, initial, requests, s.history, k)
  {
    ReachableInv(idOf, initial, requests, s);
    forall p | p in requests && s.phase[p].Finished?
      ensures AnsweredAs(idOf, initial, s, p, s.phase[p].answer)
    {
      assert ProcOk(idOf, initial, s, p);
    }
    if forall p :: p in requests ==> !s.phase[p].Writing? {
      var lines := Settled(idOf, initial, s);
      assert Partial(s) == "" && Join(lines) + "" == Join(lines);
      SplitJoin(lines);
    }
  }

  /** No row already there or acknowledged is lost, at most one row per id is ever in
      the file, and no two callers are told they wrote the same id. */
  lemma GuardedAppendsNeverDuplicate(idOf: IdOf, initial: seq<string>, requests: map<nat, Request>, s: Sys, p: nat,
                                     q: nat)
    requires Reachable(idOf, initial, requests, s)
    requires forall i, j :: 0 <= i < j < |initial| && idOf(initial[i]).Some? ==> idOf(initial[i]) != idOf(initial[j])
    requires forall r :: r in requests ==>
               requests[r].ReadAll? || (requests[r].AppendIfAbsent? && idOf(requests[r].line) == Some(requests[r].id))
    ensures forall k :: 0 <= k < |s.history| ==> s.history[k] in requests
    ensures var lines := Serial(idOf, initial, requests, s.history);
            forall i, j :: 0 <= i < j < |lines| && idOf(lines[i]).Some? ==> idOf(lines[i]) != idOf(lines[j])
    ensures initial <= Serial(idOf, initial, requests, s.history)
    ensures p in requests && requests[p].AppendIfAbsent? && Got(s, p, Wrote(true)) ==>
              requests[p].line in Serial(idOf, initial, requests, s.history)
    ensures (p in requests && q in requests && p != q && requests[p].AppendIfAbsent? && requests[q].AppendIfAbsent?
             && requests[p].id == requests[q].id) ==>
              !(Got(s, p, Wrote(true)) && Got(s, q, Wrote(true)))
  {
    ReachableInv(idOf, initial, requests, s);
    IdsStayUnique(idOf, initial, requests, s.history);
    NoRowIsLost(idOf, initial, requests, s.history);
    if p in requests && requests[p].AppendIfAbsent? && Got(s, p, Wrote(true)) {
      var k := PlaceOf(idOf, initial, s, p);
      AcknowledgedLineIsThere(idOf, initial, requests, s.history, k);
      if q in requests && p != q && requests[q].AppendIfAbsent? && requests[p].id == requests[q].id
         && Got(s, q, Wrote(true)) {
        var m := PlaceOf(idOf, initial, s, q);
        OnlyOneWroteIt(idOf, initial, requests, s.history, requests[p].id, k, m);
        assert false;
      }
    }
  }

  /** Call p settled as the writer of this id: once it returns, it returns True. */
  ghost predicate IsWriter(idOf: IdOf, requests: map<nat, Request>, s: Sys, p: nat, id: string) {
    && p in requests && p in s.history && p in s.phase
    && requests[p].AppendIfAbsent? && requests[p].id == id
    && (s.phase[p].Finished? ==> Got(s, p, Wrote(true)))
  }

  /** Every finished caller of this id but one got False. */
  ghost predicate OthersGotFalse(requests: map<nat, Request>, s: Sys, writer: nat, id: string) {
    forall q :: q in requests && q != writer && requests[q].AppendIfAbsent? && requests[q].id == id ==>
                  q in s.phase && (s.phase[q].Finished? ==> Got(s, q, Wrote(false)))
  }

  /** Under any interleaving an id that is in the file and was not at first has one
      writer: that call gets True, and every other finished caller of the id False. */
  lemma ExactlyOneIsTold(idOf: IdOf, initial: seq<string>, requests: map<nat, Request>, s: Sys, id: string)
    returns (writer: nat)
    requires Reachable(idOf, initial, requests, s)
    requires forall r :: r in requests ==> GuardedWriter(idOf, requests[r])
    requires !Holds(idOf, initial, id)
    ensures forall k :: 0 <= k < |s.history| ==> s.history[k] in requests
    ensures Holds(idOf, Serial(idOf, initial, requests, s.history), id) ==>
              IsWriter(idOf, requests, s, writer, id) && OthersGotFalse(requests, s, writer, id)
  {
    ReachableInv(idOf, initial, requests, s);
    writer := 0;
    if Holds(idOf, Serial(idOf, initial, requests, s.history), id) {
      writer := WriterOf(idOf, initial, requests, s, id);
    }
  }

  lemma WriterOf(idOf: IdOf, initial: seq<string>, requests: map<nat, Request>, s: Sys, id: string)
    returns (writer: nat)
    requires Inv(idOf, initial, s) && s.requests == requests
    requires forall r :: r in requests ==> GuardedWriter(idOf, requests[r])
    requires !Holds(idOf, initial, id) && Holds(idOf, Serial(idOf, initial, requests, s.history), id)
    ensures IsWriter(idOf, requests, s, writer, id) && OthersGotFalse(requests, s, writer, id)
  {
    SomeoneWroteIt(idOf, initial, requests, s.history, id);
    var k :| 0 <= k < |s.history| && WroteId(idOf, initial, requests, s.history, k, id);
    writer := s.history[k];
    if s.phase[writer].Finished? {
      var at := PlaceOf(idOf, initial, s, writer);
      assert at == k;
    }
    forall q | q in requests && q != writer && requests[q].AppendIfAbsent? && requests[q].id == id
               && s.phase[q].Finished?
      ensures Got(s, q, Wrote(false))
    {
      var m := PlaceOf(idOf, initial, s, q);
      if s.phase[q].answer == Wrote(true) {
        OnlyOneWroteIt(idOf, initial, requests, s.history, id, k, m);
        assert false;
      }
    }
  }

  /** Until an id is in the file nobody is told it was there, and nobody wrote it. */
  lemma NobodyIsToldBefore(idOf: IdOf, initial: seq<string>, requests: map<nat, Request>, s: Sys, id: string, p: nat)
    requires Reachable(idOf, initial, requests, s)
    requires forall r :: r in requests ==> GuardedWriter(idOf, requests[r])
    requires p in requests && requests[p].AppendIfAbsent? && requests[p].id == id
    ensures p in s.phase && forall k :: 0 <= k < |s.history| ==> s.history[k] in requests
    ensures !Holds(idOf, Serial(idOf, initial, requests, s.history), id) ==> !s.phase[p].Finished?
  {
    ReachableInv(idOf, initial, requests, s);
    if s.phase[p].Finished? {
      var k := PlaceOf(idOf, initial, s, p);
      SettledMeansHeld(idOf, initial, requests, s.history, k);
    }
  }

  /** Once a guarded call has settled, its id is in the file. */
  lemma SettledMeansHeld(idOf: IdOf, initial: seq<string>, requests: map<nat, Request>, history: seq<nat>, k: nat)
    requires k < |history| && forall j :: 0 <= j < |history| ==> history[j] in requests
    requires requests[history[k]].AppendIfAbsent? && GuardedWriter(idOf, requests[history[k]])
    ensures Holds(idOf, Serial(idOf, initial, requests, history), requests[history[k]].id)
  {
    var id := requests[history[k]].id;
    var before := Serial(idOf, initial, requests, history[..k]);
    var after := Serial(idOf, initial, requests, history[..k + 1]);
    assert history[..k + 1][..k] == history[..k];
    SerialGrows(idOf, initial, requests, history, k + 1);
    var i: nat;
    if Holds(idOf, before, id) {
      i :| 0 <= i < |before| && idOf(before[i]) == Some(id);
    } else {
      i := |before|;
    }
    assert idOf(after[i]) == Some(id);
    assert Serial(idOf, initial, requests, history)[i] == after[i];
  }

  lemma PlaceOf(idOf: IdOf, initial: seq<string>, s: Sys, p: nat) returns (k: nat)
    requires Inv(idOf, initial, s) && p in s.requests && s.phase[p].Finished?
    ensures k < |s.history| && s.history[k] == p
            && s.phase[p].answer == SerialAnswer(idOf, initial, s.requests, s.history, k)
  {
    assert ProcOk(idOf, initial, s, p);
    k :| 0 <= k < |s.history| && s.history[k] == p
         && s.phase[p].answer == SerialAnswer(idOf, initial, s.requests, s.history, k);
  }

  lemma AcknowledgedLineIsThere(idOf: IdOf, initial: seq<string>, requests: map<nat, Request>, history: seq<nat>,
                                k: nat)
    requires k < |history| && forall j :: 0 <= j < |history| ==> history[j] in requests
    requires requests[history[k]].AppendIfAbsent?
    requires SerialAnswer(idOf, initial, requests, history, k) == Wrote(true)
    ensures requests[history[k]].line in Serial(idOf, initial, requests, history)
  {
    var before := Serial(idOf, initial, requests, history[..k]);
    assert history[..k + 1][..k] == history[..k];
    var after := Serial(idOf, initial, requests, history[..k + 1]);
    assert after[|before|] == requests[history[k]].line;
    SerialGrows(idOf, initial, requests, history, k + 1);
    assert Serial(idOf, initial, requests, history)[|before|] == requests[history[k]].line;
  }

  /** A reader gets whole lines: the file as it stood at one moment, a prefix of what
      it holds ever after. */
  lemma ReadersSeeWholeLines(idOf: IdOf, initial: seq<string>, requests: map<nat, Request>, s: Sys, p: nat)
    requires Reachable(idOf, initial, requests, s)
    requires p in requests && requests[p].ReadAll? && p in s.phase && s.phase[p].Finished?
    ensures s.phase[p].answer.ReadBack?
    ensures forall k :: 0 <= k < |s.history| ==> s.history[k] in requests
    ensures initial <= s.phase[p].answer.lines <= Serial(idOf, initial, requests, s.history)
  {
    ReachableInv(idOf, initial, requests, s);
    var k := PlaceOf(idOf, initial, s, p);
    SerialGrows(idOf, initial, requests, s.history, k);
    SerialGrows(idOf, initial, requests, s.history[..k], 0);
    assert s.history[..k][..0] == [];
  }

  /** No deadlock: while some call is neither finished nor dead, some process can take
      a step that is not dying. */
  lemma SomeoneCanMove(idOf: IdOf, initial: seq<string>, requests: map<nat, Request>, s: Sys, p: nat)
    returns (q: nat, a: Action)
    requires Reachable(idOf, initial, requests, s)
    requires p in requests && p in s.phase && !s.phase[p].Finished? && !s.phase[p].Dead?
    ensures a != Die && Step(idOf, s, q, a) != s
  {
    ReachableInv(idOf, initial, requests, s);
    q := p;
    if s.exclusive.Some? {
      q := s.exclusive.value;
    } else if s.shared != {} {
      q :| q in s.shared;
    }
    assert ProcOk(idOf, initial, s, q) && ProcOk(idOf, initial, s, p);
    a := match s.phase[q]
      case Idle => Acquire
      case Scanning(_) => Scan
      case Writing(_) => Write
      case Reading(_) => Read
      case _ => Release;
    MoveChanges(idOf, s, q, a);
  }

  lemma MoveChanges(idOf: IdOf, s: Sys, q: nat, a: Action)
    requires q in s.requests && q in s.phase
    requires match s.phase[q]
             case Idle => a == Acquire && s.exclusive.None? && (s.requests[q].ReadAll? || s.shared == {})
             case Scanning(_) => a == Scan && s.requests[q].AppendIfAbsent?
             case Writing(_) => a == Write && !s.requests[q].ReadAll?
             case Reading(_) => a == Read
             case Releasing(_) => a == Release
             case _ => false
    ensures Step(idOf, s, q, a) != s
  {
    assert Step(idOf, s, q, a).phase[q] != s.phase[q];
  }
}
