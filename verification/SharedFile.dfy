/** A file of text lines, and what its locked operations do when they run one at a
    time: the reference the locking protocol is measured against. */
module SharedFile {
  import opened Prelude

  datatype Request =
    | Append(line: string)
    | AppendIfAbsent(id: string, line: string)
    | ReadAll

  datatype Answer = Wrote(appended: bool) | ReadBack(lines: seq<string>)

  /** The "id" a line holds; none for blank or unparseable lines. */
  type IdOf = string -> Option<string>

  // ---- lines and text ------------------------------------------------------------------------

  function Join(lines: seq<string>): string {
    if lines == [] then "" else Join(lines[..|lines| - 1]) + lines[|lines| - 1] + "\n"
  }

  /** The lines of a text, a last one without its newline included. */
  function Split(held: string, text: string): seq<string>
    decreases |text|
  {
    if text == "" then if held == "" then [] else [held]
    else if text[0] == '\n' then [held] + Split("", text[1..])
    else Split(held + [text[0]], text[1..])
  }

  ghost predicate OneLine(line: string) {
    '\n' !in line
  }

  ghost predicate AllOneLine(lines: seq<string>) {
    forall i :: 0 <= i < |lines| ==> OneLine(lines[i])
  }

  lemma {:induction false} SplitOneLine(held: string, line: string, rest: string)
    requires OneLine(line)
    ensures Split(held, line + "\n" + rest) == [held + line] + Split("", rest)
    decreases |line|
  {
    var text := line + "\n" + rest;
    if line == "" {
      assert text[1..] == rest && held + line == held;
    } else {
      assert text[1..] == line[1..] + "\n" + rest;
      SplitOneLine(held + [line[0]], line[1..], rest);
      assert held + [line[0]] + line[1..] == held + line;
    }
  }

  lemma {:induction false} JoinFront(lines: seq<string>)
    requires lines != []
    ensures Join(lines) == lines[0] + "\n" + Join(lines[1..])
  {
    if |lines| > 1 {
      var init := lines[..|lines| - 1];
      JoinFront(init);
      assert lines[1..][..|lines| - 2] == init[1..];
      assert Join(lines[1..]) == Join(init[1..]) + lines[|lines| - 1] + "\n";
      assert Join(lines) == (lines[0] + "\n" + Join(init[1..])) + lines[|lines| - 1] + "\n";
    } else {
      assert lines[..0] == [] && lines[1..] == [];
    }
  }

  /** Reading back whole lines gives exactly the lines written. */
  lemma {:induction false} SplitJoin(lines: seq<string>)
    requires AllOneLine(lines)
    ensures Split("", Join(lines)) == lines
  {
    if lines != [] {
      JoinFront(lines);
      SplitOneLine("", lines[0], Join(lines[1..]));
      SplitJoin(lines[1..]);
      assert "" + lines[0] == lines[0];
    }
  }

  // ---- one operation at a time -----------------------------------------------------------------

  predicate Holds(idOf: IdOf, lines: seq<string>, id: string) {
    exists k :: 0 <= k < |lines| && idOf(lines[k]) == Some(id)
  }

  function LinesAfter(idOf: IdOf, lines: seq<string>, r: Request): seq<string> {
    match r
    case Append(line) => lines + [line]
    case AppendIfAbsent(id, line) => if Holds(idOf, lines, id) then lines else lines + [line]
    case ReadAll => lines
  }

  function AnswerTo(idOf: IdOf, lines: seq<string>, r: Request): Answer {
    match r
    case Append(line) => Wrote(true)
    case AppendIfAbsent(id, line) => Wrote(!Holds(idOf, lines, id))
    case ReadAll => ReadBack(lines)
  }

  /** The file after the requests of `history`, in that order. */
  function Serial(idOf: IdOf, initial: seq<string>, requests: map<nat, Request>, history: seq<nat>): seq<string>
    requires forall k :: 0 <= k < |history| ==> history[k] in requests
  {
    if history == [] then initial
    else
      LinesAfter(idOf, Serial(idOf, initial, requests, history[..|history| - 1]), requests[history[|history| - 1]])
  }

  /** What the k-th request of the history is answered. */
  function SerialAnswer(idOf: IdOf, initial: seq<string>, requests: map<nat, Request>, history: seq<nat>,
                        k: nat): Answer
    requires k < |history| && forall j :: 0 <= j < |history| ==> history[j] in requests
  {
    AnswerTo(idOf, Serial(idOf, initial, requests, history[..k]), requests[history[k]])
  }

  // ---- what a serial run guarantees ---------------------------------------------------------------

  lemma {:induction false} SerialGrows(idOf: IdOf, initial: seq<string>, requests: map<nat, Request>,
                                       history: seq<nat>, k: nat)
    requires k <= |history| && forall j :: 0 <= j < |history| ==> history[j] in requests
    ensures Serial(idOf, initial, requests, history[..k]) <= Serial(idOf, initial, requests, history)
  {
    if k == |history| {
      assert history[..k] == history;
    } else {
      var init := history[..|history| - 1];
      SerialGrows(idOf, initial, requests, init, k);
      assert init[..k] == history[..k];
    }
  }

  /** No row is lost: what was there stays, and the file is it followed by the line of
      every request that was told it wrote, in that order. */
  function WrittenLines(idOf: IdOf, initial: seq<string>, requests: map<nat, Request>, history: seq<nat>): seq<string>
    requires forall j :: 0 <= j < |history| ==> history[j] in requests
  {
    if history == [] then []
    else
      var last := |history| - 1;
      WrittenLines(idOf, initial, requests, history[..last])
      + if SerialAnswer(idOf, initial, requests, history, last) == Wrote(true) then [requests[history[last]].line]
        else []
  }

  lemma {:induction false} NoRowIsLost(idOf: IdOf, initial: seq<string>, requests: map<nat, Request>, history: seq<nat>)
    requires forall j :: 0 <= j < |history| ==> history[j] in requests
    ensures Serial(idOf, initial, requests, history) == initial + WrittenLines(idOf, initial, requests, history)
  {
    if history != [] {
      NoRowIsLost(idOf, initial, requests, history[..|history| - 1]);
    }
  }

  ghost predicate UniqueIds(idOf: IdOf, lines: seq<string>) {
    forall i, j :: 0 <= i < j < |lines| && idOf(lines[i]).Some? ==> idOf(lines[i]) != idOf(lines[j])
  }

  /** The caller's line carries the id it names. */
  ghost predicate GuardedWriter(idOf: IdOf, r: Request) {
    r.ReadAll? || (r.AppendIfAbsent? && idOf(r.line) == Some(r.id))
  }

  /** With guarded writers only, at most one row per id is ever present. */
  lemma {:induction false} IdsStayUnique(idOf: IdOf, initial: seq<string>, requests: map<nat, Request>,
                                         history: seq<nat>)
    requires forall j :: 0 <= j < |history| ==> history[j] in requests
    requires UniqueIds(idOf, initial) && forall p :: p in requests ==> GuardedWriter(idOf, requests[p])
    ensures UniqueIds(idOf, Serial(idOf, initial, requests, history))
  {
    if history != [] {
      IdsStayUnique(idOf, initial, requests, history[..|history| - 1]);
    }
  }

  /** Was the k-th request told it wrote a row for this id? */
  predicate WroteId(idOf: IdOf, initial: seq<string>, requests: map<nat, Request>, history: seq<nat>, k: nat,
                    id: string)
    requires forall j :: 0 <= j < |history| ==> history[j] in requests
  {
    && k < |history|
    && requests[history[k]].AppendIfAbsent? && requests[history[k]].id == id
    && SerialAnswer(idOf, initial, requests, history, k) == Wrote(true)
  }

  /** An id not in the file at first is in it exactly when some caller was told it
      wrote it. */
  lemma {:induction false} SomeoneWroteIt(idOf: IdOf, initial: seq<string>, requests: map<nat, Request>,
                                          history: seq<nat>,
                                          id: string)
    requires forall j :: 0 <= j < |history| ==> history[j] in requests
    requires forall p :: p in requests ==> GuardedWriter(idOf, requests[p])
    requires !Holds(idOf, initial, id)
    ensures Holds(idOf, Serial(idOf, initial, requests, history), id) <==>
              exists k :: 0 <= k < |history| && WroteId(idOf, initial, requests, history, k, id)
  {
    if history != [] {
      var last := |history| - 1;
      var init := history[..last];
      SomeoneWroteIt(idOf, initial, requests, init, id);
      forall k | 0 <= k < last
        ensures WroteId(idOf, initial, requests, init, k, id) <==> WroteId(idOf, initial, requests, history, k, id)
      {
        assert init[..k] == history[..k];
      }
      var before := Serial(idOf, initial, requests, init);
      var after := Serial(idOf, initial, requests, history);
      if Holds(idOf, before, id) {
        var k :| 0 <= k < |before| && idOf(before[k]) == Some(id);
        assert after[k] == before[k];
        var m :| 0 <= m < |init| && WroteId(idOf, initial, requests, init, m, id);
        assert WroteId(idOf, initial, requests, history, m, id);
      } else if Holds(idOf, after, id) {
        var k :| 0 <= k < |after| && idOf(after[k]) == Some(id);
        assert k == |before|;
        assert WroteId(idOf, initial, requests, history, last, id);
      }
      if WroteId(idOf, initial, requests, history, last, id) {
        assert after[|before|] == requests[history[last]].line;
      }
    }
  }

  /** And never two callers. */
  lemma OnlyOneWroteIt(idOf: IdOf, initial: seq<string>, requests: map<nat, Request>, history: seq<nat>, id: string,
                       k: nat, m: nat)
    requires forall j :: 0 <= j < |history| ==> history[j] in requests
    requires forall p :: p in requests ==> GuardedWriter(idOf, requests[p])
    requires WroteId(idOf, initial, requests, history, k, id) && WroteId(idOf, initial, requests, history, m, id)
    ensures k == m
  {
    if k < m {
      FirstWriterWins(idOf, initial, requests, history, id, k, m);
    } else if m < k {
      FirstWriterWins(idOf, initial, requests, history, id, m, k);
    }
  }

  lemma FirstWriterWins(idOf: IdOf, initial: seq<string>, requests: map<nat, Request>, history: seq<nat>, id: string,
                        k: nat, m: nat)
    requires forall j :: 0 <= j < |history| ==> history[j] in requests
    requires forall p :: p in requests ==> GuardedWriter(idOf, requests[p])
    requires k < m < |history| && WroteId(idOf, initial, requests, history, k, id)
    ensures !WroteId(idOf, initial, requests, history, m, id)
  {
    var mid := history[..m];
    var before := Serial(idOf, initial, requests, history[..k]);
    var after := Serial(idOf, initial, requests, history[..k + 1]);
    assert history[..k + 1][..k] == history[..k];
    assert after == before + [requests[history[k]].line];
    assert after[|before|] == requests[history[k]].line;
    SerialGrows(idOf, initial, requests, mid, k + 1);
    assert mid[..k + 1] == history[..k + 1];
    var later := Serial(idOf, initial, requests, mid);
    assert later[|before|] == requests[history[k]].line;
    assert Holds(idOf, later, id);
  }
}
