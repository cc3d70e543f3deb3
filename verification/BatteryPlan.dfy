/** What the replay battery plans to run, in which order, and in which chunks. */
module BatteryPlan {
  import opened Prelude
  import opened RoundRobin
  import opened Grouping

  datatype Task = Task(id: string, repo: string, language: string, isPublic: bool, files: nat, lines: nat)

  datatype RunSpec = RunSpec(task: Task, arm: string, rep: nat)

  type Key = (string, string, nat)

  const MAX_FILES := 4
  const MAX_LINES := 200

  function KeyOf(s: RunSpec): Key {
    (s.task.id, s.arm, s.rep)
  }

  // ---- plan -----------------------------------------------------------------------------

  /** One repetition of every task. */
  function BlockRow(tasks: seq<Task>, r: nat): seq<(Task, nat)> {
    Map((t: Task) => (t, r), tasks)
  }

  /** for r in range(k) for t in tasks */
  function Blocks(tasks: seq<Task>, k: int): seq<(Task, nat)> {
    if k <= 0 then [] else Blocks(tasks, k - 1) + BlockRow(tasks, k - 1)
  }

  function Block(b: (Task, nat), arms: seq<string>): seq<RunSpec> {
    Map((a: string) => RunSpec(b.0, a, b.1), arms)
  }

  /** ... for a in arms */
  function FromBlocks(blocks: seq<(Task, nat)>, arms: seq<string>): seq<RunSpec> {
    if blocks == [] then []
    else Block(blocks[0], arms) + FromBlocks(blocks[1..], arms)
  }

  function Specs(tasks: seq<Task>, arms: seq<string>, k: int): seq<RunSpec> {
    FromBlocks(Blocks(tasks, k), arms)
  }

  function NotIn(done: set<Key>): RunSpec -> bool {
    (s: RunSpec) => KeyOf(s) !in done
  }

  function Plan(tasks: seq<Task>, arms: seq<string>, k: int, done: set<Key>): seq<RunSpec> {
    Filter(Specs(tasks, arms, k), NotIn(done))
  }

  lemma {:induction false} BlocksMembers(tasks: seq<Task>, k: int, b: (Task, nat))
    ensures b in Blocks(tasks, k) <==> b.0 in tasks && b.1 < k
  {
    if k > 0 {
      BlocksMembers(tasks, k - 1, b);
      var row := BlockRow(tasks, k - 1);
      if b.0 in tasks && b.1 == k - 1 {
        var i :| 0 <= i < |tasks| && tasks[i] == b.0;
        assert row[i] == b;
      }
    }
  }

  lemma {:induction false} FromBlocksMembers(blocks: seq<(Task, nat)>, arms: seq<string>, s: RunSpec)
    ensures s in FromBlocks(blocks, arms) <==> (s.task, s.rep) in blocks && s.arm in arms
  {
    if blocks != [] {
      FromBlocksMembers(blocks[1..], arms, s);
      if blocks[0] == (s.task, s.rep) && s.arm in arms {
        var i :| 0 <= i < |arms| && arms[i] == s.arm;
        assert Block(blocks[0], arms)[i] == s;
      }
    }
  }

  /** The plan is every unfinished task, arm and repetition, and nothing else. */
  lemma PlanMembers(tasks: seq<Task>, arms: seq<string>, k: int, done: set<Key>, s: RunSpec)
    ensures s in Plan(tasks, arms, k, done) <==>
              s.task in tasks && s.arm in arms && s.rep < k && (s.task.id, s.arm, s.rep) !in done
  {
    BlocksMembers(tasks, k, (s.task, s.rep));
    FromBlocksMembers(Blocks(tasks, k), arms, s);
  }

  /** The order of the list: repetition by repetition, task by task, arm by arm. */
  lemma {:induction false} SpecAt(tasks: seq<Task>, arms: seq<string>, k: nat, r: nat, i: nat, j: nat)
    requires r < k && i < |tasks| && j < |arms|
    ensures 0 <= (r * |tasks| + i) * |arms| + j < |Specs(tasks, arms, k)|
    ensures Specs(tasks, arms, k)[(r * |tasks| + i) * |arms| + j] == RunSpec(tasks[i], arms[j], r)
  {
    BlockAt(tasks, k, r, i);
    SpecInBlock(Blocks(tasks, k), arms, r * |tasks| + i, j);
  }

  lemma {:induction false} BlockAt(tasks: seq<Task>, k: nat, r: nat, i: nat)
    requires r < k && i < |tasks|
    ensures |Blocks(tasks, k)| == k * |tasks| && 0 <= r * |tasks| + i < k * |tasks|
    ensures Blocks(tasks, k)[r * |tasks| + i] == (tasks[i], r)
  {
    BlocksLength(tasks, k - 1);
    assert k * |tasks| == (k - 1) * |tasks| + |tasks|;
    if r < k - 1 {
      BlockAt(tasks, k - 1, r, i);
    }
  }

  lemma {:induction false} BlocksLength(tasks: seq<Task>, k: nat)
    ensures |Blocks(tasks, k)| == k * |tasks|
  {
    if k > 0 {
      BlocksLength(tasks, k - 1);
      assert k * |tasks| == (k - 1) * |tasks| + |tasks|;
    }
  }

  lemma {:induction false} SpecInBlock(blocks: seq<(Task, nat)>, arms: seq<string>, b: nat, j: nat)
    requires b < |blocks| && j < |arms|
    ensures 0 <= b * |arms| + j < |FromBlocks(blocks, arms)|
    ensures FromBlocks(blocks, arms)[b * |arms| + j] == RunSpec(blocks[b].0, arms[j], blocks[b].1)
  {
    if b > 0 {
      SpecInBlock(blocks[1..], arms, b - 1, j);
      assert b * |arms| + j == |arms| + ((b - 1) * |arms| + j);
    }
  }

  // ---- are planned keys distinct? ---------------------------------------------------------

  function KeysInOrder(specs: seq<RunSpec>): seq<Key> {
    Map((s: RunSpec) => KeyOf(s), specs)
  }

  function TaskIds(tasks: seq<Task>): seq<string> {
    Map((t: Task) => t.id, tasks)
  }

  function BlockIds(blocks: seq<(Task, nat)>): seq<(string, nat)> {
    Map((b: (Task, nat)) => (b.0.id, b.1), blocks)
  }

  lemma BlockIdsMembers(blocks: seq<(Task, nat)>, x: (string, nat))
    ensures x in BlockIds(blocks) <==> exists b :: b in blocks && b.0.id == x.0 && b.1 == x.1
  {
    MapMembers((b: (Task, nat)) => (b.0.id, b.1), blocks, x);
  }

  lemma BlockIdsConcat(a: seq<(Task, nat)>, b: seq<(Task, nat)>)
    ensures BlockIds(a + b) == BlockIds(a) + BlockIds(b)
  {
  }

  lemma RowDistinct(tasks: seq<Task>, r: nat)
    ensures NoDup(BlockIds(BlockRow(tasks, r))) <==> NoDup(TaskIds(tasks))
  {
    var ids := BlockIds(BlockRow(tasks, r));
    assert forall i :: 0 <= i < |tasks| ==> ids[i] == (TaskIds(tasks)[i], r);
  }

  lemma {:induction false} RowsApart(tasks: seq<Task>, k: nat, x: (string, nat))
    requires x in BlockIds(Blocks(tasks, k))
    ensures x !in BlockIds(BlockRow(tasks, k))
  {
    BlockIdsMembers(Blocks(tasks, k), x);
    var b :| b in Blocks(tasks, k) && b.0.id == x.0 && b.1 == x.1;
    BlocksMembers(tasks, k, b);
    BlockIdsMembers(BlockRow(tasks, k), x);
  }

  lemma {:induction false} BlocksDistinct(tasks: seq<Task>, k: int)
    ensures NoDup(BlockIds(Blocks(tasks, k))) <==> k <= 0 || NoDup(TaskIds(tasks))
  {
    if k > 0 {
      BlocksDistinct(tasks, k - 1);
      var before, row := Blocks(tasks, k - 1), BlockRow(tasks, k - 1);
      RowDistinct(tasks, k - 1);
      BlockIdsConcat(before, row);
      NoDupConcat(BlockIds(before), BlockIds(row));
      forall x | x in BlockIds(before) ensures x !in BlockIds(row) {
        RowsApart(tasks, k - 1, x);
      }
    }
  }

  lemma BlockDistinct(b: (Task, nat), arms: seq<string>)
    ensures NoDup(KeysInOrder(Block(b, arms))) <==> NoDup(arms)
  {
    var keys := KeysInOrder(Block(b, arms));
    assert forall i :: 0 <= i < |arms| ==> keys[i] == (b.0.id, arms[i], b.1);
  }

  lemma FromBlocksKeys(blocks: seq<(Task, nat)>, arms: seq<string>, key: Key)
    ensures key in KeysInOrder(FromBlocks(blocks, arms)) <==> (key.0, key.2) in BlockIds(blocks) && key.1 in arms
  {
    var specs := FromBlocks(blocks, arms);
    MapMembers((s: RunSpec) => KeyOf(s), specs, key);
    BlockIdsMembers(blocks, (key.0, key.2));
    if key in KeysInOrder(specs) {
      var s :| s in specs && KeyOf(s) == key;
      FromBlocksMembers(blocks, arms, s);
    }
    if (key.0, key.2) in BlockIds(blocks) && key.1 in arms {
      var b :| b in blocks && b.0.id == key.0 && b.1 == key.2;
      FromBlocksMembers(blocks, arms, RunSpec(b.0, key.1, b.1));
    }
  }

  lemma {:induction false} FromBlocksDistinct(blocks: seq<(Task, nat)>, arms: seq<string>)
    ensures NoDup(KeysInOrder(FromBlocks(blocks, arms))) <==>
              blocks == [] || arms == [] || (NoDup(BlockIds(blocks)) && NoDup(arms))
  {
    if blocks != [] {
      var one, rest := blocks[..1], blocks[1..];
      var first, later := Block(blocks[0], arms), FromBlocks(rest, arms);
      FromBlocksDistinct(rest, arms);
      BlockDistinct(blocks[0], arms);
      MapConcat((s: RunSpec) => KeyOf(s), first, later);
      NoDupConcat(KeysInOrder(first), KeysInOrder(later));
      assert blocks == one + rest;
      BlockIdsConcat(one, rest);
      NoDupConcat(BlockIds(one), BlockIds(rest));
      FirstBlockApart(blocks, arms);
    }
  }

  lemma FirstBlockApart(blocks: seq<(Task, nat)>, arms: seq<string>)
    requires blocks != []
    ensures (forall key :: key in KeysInOrder(Block(blocks[0], arms)) ==>
                             key !in KeysInOrder(FromBlocks(blocks[1..], arms)))
            <==> arms == [] || forall x :: x in BlockIds(blocks[..1]) ==> x !in BlockIds(blocks[1..])
  {
    var keys := KeysInOrder(Block(blocks[0], arms));
    var id := (blocks[0].0.id, blocks[0].1);
    assert BlockIds(blocks[..1]) == [id];
    assert forall i :: 0 <= i < |arms| ==> keys[i] == (id.0, arms[i], id.1);
    forall key | key in keys
      ensures key in KeysInOrder(FromBlocks(blocks[1..], arms)) <==> id in BlockIds(blocks[1..])
    {
      FromBlocksKeys(blocks[1..], arms, key);
    }
    if arms != [] {
      assert keys[0] in keys;
    }
  }

  lemma BlocksEmpty(tasks: seq<Task>, k: int)
    ensures Blocks(tasks, k) == [] <==> k <= 0 || tasks == []
  {
    if k > 0 && tasks != [] {
      BlocksMembers(tasks, k, (tasks[0], 0));
    } else if Blocks(tasks, k) != [] {
      BlocksMembers(tasks, k, Blocks(tasks, k)[0]);
    }
  }

  /** Planned keys are distinct exactly when task ids and arms are, or nothing is
      planned at all. */
  lemma PlanDistinct(tasks: seq<Task>, arms: seq<string>, k: int)
    ensures NoDup(KeysInOrder(Specs(tasks, arms, k))) <==>
              k <= 0 || tasks == [] || arms == [] || (NoDup(TaskIds(tasks)) && NoDup(arms))
  {
    BlocksDistinct(tasks, k);
    BlocksEmpty(tasks, k);
    FromBlocksDistinct(Blocks(tasks, k), arms);
  }

  // ---- stopping early leaves paired data ----------------------------------------------------

  function OfArm(arm: string): RunSpec -> bool {
    (s: RunSpec) => s.arm == arm
  }

  lemma {:induction false} BlockOfArm(b: (Task, nat), arms: seq<string>, n: nat, arm: string)
    requires NoDup(arms) && n <= |arms|
    ensures |Filter(Block(b, arms)[..n], OfArm(arm))| == if arm in arms[..n] then 1 else 0
  {
    if n == 0 {
    } else {
      BlockOfArm(b, arms, n - 1, arm);
      var block := Block(b, arms);
      assert block[..n] == block[..n - 1] + [block[n - 1]] && arms[..n] == arms[..n - 1] + [arms[n - 1]];
      FilterConcat(block[..n - 1], [block[n - 1]], OfArm(arm));
    }
  }

  /** Order is repetition, then task, then arm: any front of the list has any two arms at
      most one run apart. */
  lemma {:induction false} StoppingEarlyLeavesPairs(blocks: seq<(Task, nat)>, arms: seq<string>, n: nat, a: string,
                                                    b: string)
    requires NoDup(arms) && a in arms && b in arms && n <= |FromBlocks(blocks, arms)|
    ensures |Filter(FromBlocks(blocks, arms)[..n], OfArm(a))| <= |Filter(FromBlocks(blocks, arms)[..n], OfArm(b))| + 1
  {
    if blocks != [] {
      var first, rest := Block(blocks[0], arms), FromBlocks(blocks[1..], arms);
      if n <= |arms| {
        assert FromBlocks(blocks, arms)[..n] == first[..n];
        BlockOfArm(blocks[0], arms, n, a);
        BlockOfArm(blocks[0], arms, n, b);
      } else {
        var m := n - |arms|;
        StoppingEarlyLeavesPairs(blocks[1..], arms, m, a, b);
        assert FromBlocks(blocks, arms)[..n] == first + rest[..m];
        BlockOfArm(blocks[0], arms, |arms|, a);
        BlockOfArm(blocks[0], arms, |arms|, b);
        assert first[..|arms|] == first && arms[..|arms|] == arms;
        FilterConcat(first, rest[..m], OfArm(a));
        FilterConcat(first, rest[..m], OfArm(b));
      }
    }
  }

  /** With a front of the list done and keys distinct, the plan is the rest of it. */
  lemma PlanAfterFront(specs: seq<RunSpec>, n: nat, done: set<Key>)
    requires n <= |specs|
    requires forall i :: 0 <= i < |specs| ==> (KeyOf(specs[i]) in done <==> i < n)
    ensures Filter(specs, NotIn(done)) == specs[n..]
  {
    SplitAt(specs, n);
    FilterConcat(specs[..n], specs[n..], NotIn(done));
    FilterNone(specs[..n], NotIn(done));
    FilterAll(specs[n..], NotIn(done));
  }

  // ---- stratified --------------------------------------------------------------------------

  predicate IsMultiFile(t: Task) {
    t.files > MAX_FILES || t.lines > MAX_LINES
  }

  function InBand(multi: bool): Task -> bool {
    (t: Task) => IsMultiFile(t) == multi
  }

  function GroupName(): Task -> string {
    (t: Task) => if t.isPublic then t.language else t.repo
  }

  function Band(tasks: seq<Task>, multi: bool): seq<Task> {
    ByTurns(Filter(tasks, InBand(multi)), GroupName())
  }

  function Stratified(tasks: seq<Task>): seq<Task> {
    Band(tasks, true) + Band(tasks, false)
  }

  method Stratify(tasks: seq<Task>) returns (ordered: seq<Task>)
    ensures ordered == Stratified(tasks)
  {
    ordered := [];
    var bands := [true, false];
    for b := 0 to 2
      invariant ordered == if b == 0 then [] else if b == 1 then Band(tasks, true) else Stratified(tasks)
    {
      var queues := SplitIntoQueues(Filter(tasks, InBand(bands[b])), GroupName());
      var turns := TakeAll(queues);
      ordered := ordered + turns;
    }
  }

  lemma BandPermutes(tasks: seq<Task>, multi: bool)
    ensures multiset(Band(tasks, multi)) == multiset(Filter(tasks, InBand(multi)))
    ensures forall t :: t in Band(tasks, multi) ==> IsMultiFile(t) == multi
  {
    var band := Filter(tasks, InBand(multi));
    TurnsPermute(band, GroupName());
    forall t | t in Band(tasks, multi) ensures IsMultiFile(t) == multi {
      assert t in multiset(Band(tasks, multi));
      assert t in band;
    }
  }

  lemma BandsCount(tasks: seq<Task>, t: Task)
    ensures multiset(Filter(tasks, InBand(true)))[t] + multiset(Filter(tasks, InBand(false)))[t] == multiset(tasks)[t]
  {
    FilterCount(tasks, InBand(IsMultiFile(t)), t);
    assert t !in Filter(tasks, InBand(!IsMultiFile(t)));
    assert multiset(Filter(tasks, InBand(!IsMultiFile(t))))[t] == 0;
  }

  lemma ConcatPermutes(big: seq<Task>, small: seq<Task>, tasks: seq<Task>)
    requires forall t :: multiset(big)[t] + multiset(small)[t] == multiset(tasks)[t]
    ensures multiset(big + small) == multiset(tasks)
  {
    assert multiset(big + small) == multiset(big) + multiset(small);
    forall t ensures multiset(big + small)[t] == multiset(tasks)[t] {
    }
  }

  lemma BigFirst(big: seq<Task>, small: seq<Task>)
    requires forall t :: t in big ==> IsMultiFile(t)
    requires forall t :: t in small ==> !IsMultiFile(t)
    ensures var all := big + small;
            forall i, j :: 0 <= i < j < |all| && (all[j].files > 4 || all[j].lines > 200) ==>
                             all[i].files > 4 || all[i].lines > 200
  {
    var all := big + small;
    forall i | 0 <= i < |big| ensures all[i].files > 4 || all[i].lines > 200 {
      assert all[i] == big[i] && big[i] in big;
    }
    forall i | |big| <= i < |all| ensures all[i].files <= 4 && all[i].lines <= 200 {
      assert all[i] == small[i - |big|] && small[i - |big|] in small;
    }
  }

  lemma StratifiedKeepsAll(tasks: seq<Task>)
    ensures multiset(Stratified(tasks)) == multiset(tasks)
  {
    var big, small := Band(tasks, true), Band(tasks, false);
    BandPermutes(tasks, true);
    BandPermutes(tasks, false);
    forall t ensures multiset(big)[t] + multiset(small)[t] == multiset(tasks)[t] {
      BandsCount(tasks, t);
    }
    ConcatPermutes(big, small, tasks);
  }

  /** No task is lost or repeated, and every task of more than 4 files or 200 lines comes
      before every smaller one. */
  lemma StratifiedPermutes(tasks: seq<Task>)
    ensures multiset(Stratified(tasks)) == multiset(tasks)
    ensures forall i, j :: 0 <= i < j < |Stratified(tasks)|
                           && (Stratified(tasks)[j].files > 4 || Stratified(tasks)[j].lines > 200) ==>
              Stratified(tasks)[i].files > 4 || Stratified(tasks)[i].lines > 200
  {
    StratifiedKeepsAll(tasks);
    BandPermutes(tasks, true);
    BandPermutes(tasks, false);
    BigFirst(Band(tasks, true), Band(tasks, false));
  }

  /** Within a band each repo (or language) keeps its input order, and a band stopped
      anywhere has given no group two more than another, unless that one ran out. */
  lemma StratifiedIsFair(tasks: seq<Task>, multi: bool, n: nat, g: string, h: string)
    requires n <= |Band(tasks, multi)|
    ensures var band := Filter(tasks, InBand(multi));
            var some := Band(tasks, multi)[..n];
            && Filter(Band(tasks, multi), InGroup(GroupName(), g)) == Filter(band, InGroup(GroupName(), g))
            && Filter(some, InGroup(GroupName(), g)) <= Filter(band, InGroup(GroupName(), g))
            && (|Filter(some, InGroup(GroupName(), g))| <= |Filter(some, InGroup(GroupName(), h))| + 1
                || Filter(some, InGroup(GroupName(), h)) == Filter(band, InGroup(GroupName(), h)))
  {
    TurnsKeepGroups(Filter(tasks, InBand(multi)), GroupName(), g);
    TurnsAreFair(Filter(tasks, InBand(multi)), GroupName(), n, g, h);
  }

  /** The same by the tasks' columns: a band is the tasks above 4 files or 200 lines, or
      the others; public tasks are spread by language and the rest by repository. */
  lemma StratifiedByColumns(tasks: seq<Task>, multi: bool, n: nat, g: string, h: string)
    requires n <= |Band(tasks, multi)|
    ensures Stratified(tasks) == Band(tasks, true) + Band(tasks, false)
    ensures var band := Filter(tasks, (t: Task) => (t.files > 4 || t.lines > 200) == multi);
            var ofG := (t: Task) => (if t.isPublic then t.language else t.repo) == g;
            var ofH := (t: Task) => (if t.isPublic then t.language else t.repo) == h;
            var some := Band(tasks, multi)[..n];
            && Filter(Band(tasks, multi), ofG) == Filter(band, ofG) && Filter(some, ofG) <= Filter(band, ofG)
            && (|Filter(some, ofG)| <= |Filter(some, ofH)| + 1 || Filter(some, ofH) == Filter(band, ofH))
  {
    var band := Filter(tasks, InBand(multi));
    var some := Band(tasks, multi)[..n];
    var ofG := (t: Task) => (if t.isPublic then t.language else t.repo) == g;
    var ofH := (t: Task) => (if t.isPublic then t.language else t.repo) == h;
    StratifiedIsFair(tasks, multi, n, g, h);
    FilterAgree(tasks, InBand(multi), (t: Task) => (t.files > 4 || t.lines > 200) == multi);
    FilterAgree(band, InGroup(GroupName(), g), ofG);
    FilterAgree(band, InGroup(GroupName(), h), ofH);
    FilterAgree(some, InGroup(GroupName(), g), ofG);
    FilterAgree(some, InGroup(GroupName(), h), ofH);
    FilterAgree(Band(tasks, multi), InGroup(GroupName(), g), ofG);
  }

  // ---- chunks ------------------------------------------------------------------------------

  function PendingIds(tasks: seq<Task>, arms: seq<string>, k: int, done: set<Key>): set<string> {
    set s | s in Plan(tasks, arms, k, done) :: s.task.id
  }

  function HasWork(ids: set<string>): Task -> bool {
    (t: Task) => t.id in ids
  }

  function PendingTasks(tasks: seq<Task>, arms: seq<string>, k: int, done: set<Key>): seq<Task> {
    Filter(Stratified(tasks), HasWork(PendingIds(tasks, arms, k, done)))
  }

  function NextChunk(tasks: seq<Task>, arms: seq<string>, k: int, done: set<Key>, n: int): seq<Task> {
    Take(PendingTasks(tasks, arms, k, done), n)
  }

  lemma PendingId(tasks: seq<Task>, arms: seq<string>, k: int, done: set<Key>, id: string)
    ensures id in PendingIds(tasks, arms, k, done) <==>
              exists t, arm, rep: nat ::
                t in tasks && t.id == id && arm in arms && rep < k && (id, arm, rep) !in done
  {
    if id in PendingIds(tasks, arms, k, done) {
      var s :| s in Plan(tasks, arms, k, done) && s.task.id == id;
      PlanMembers(tasks, arms, k, done, s);
    }
    if t, arm, rep: nat :| t in tasks && t.id == id && arm in arms && rep < k && (id, arm, rep) !in done {
      PlanMembers(tasks, arms, k, done, RunSpec(t, arm, rep));
      assert RunSpec(t, arm, rep) in Plan(tasks, arms, k, done);
    }
  }

  lemma StratifiedMembers(tasks: seq<Task>, t: Task)
    ensures t in Stratified(tasks) <==> t in tasks
  {
    StratifiedKeepsAll(tasks);
    assert t in tasks <==> t in multiset(tasks);
    assert t in Stratified(tasks) <==> t in multiset(Stratified(tasks));
  }

  lemma {:induction false} HasWorkMembers(order: seq<Task>, ids: set<string>, t: Task)
    ensures t in Filter(order, HasWork(ids)) <==> t in order && t.id in ids
  {
  }

  /** A task is pending exactly while some arm and repetition of it is not done. */
  lemma PendingMembers(tasks: seq<Task>, arms: seq<string>, k: int, done: set<Key>, t: Task)
    ensures t in PendingTasks(tasks, arms, k, done) <==>
              t in tasks && exists arm, rep: nat :: arm in arms && rep < k && (t.id, arm, rep) !in done
  {
    HasWorkMembers(Stratified(tasks), PendingIds(tasks, arms, k, done), t);
    StratifiedMembers(tasks, t);
    PendingId(tasks, arms, k, done, t.id);
  }

  /** The keys a fully run chunk leaves done. */
  function KeysOf(chunk: seq<Task>, arms: seq<string>, k: int): set<Key> {
    set s | s in Specs(chunk, arms, k) :: KeyOf(s)
  }

  lemma KeysOfMembers(chunk: seq<Task>, arms: seq<string>, k: int, key: Key)
    ensures key in KeysOf(chunk, arms, k) <==> key.0 in TaskIds(chunk) && key.1 in arms && key.2 < k
  {
    MapMembers((t: Task) => t.id, chunk, key.0);
    if key in KeysOf(chunk, arms, k) {
      var s :| s in Specs(chunk, arms, k) && KeyOf(s) == key;
      PlanMembers(chunk, arms, k, {}, s);
      assert s in Plan(chunk, arms, k, {});
    }
    if key.0 in TaskIds(chunk) && key.1 in arms && key.2 < k {
      var t :| t in chunk && t.id == key.0;
      var s := RunSpec(t, key.1, key.2);
      PlanMembers(chunk, arms, k, {}, s);
      assert s in Specs(chunk, arms, k) && KeyOf(s) == key;
    }
  }

  /** Running a chunk to the end leaves work exactly where it was, less the chunk. */
  lemma PendingAfterChunk(tasks: seq<Task>, arms: seq<string>, k: int, done: set<Key>, chunk: seq<Task>, id: string)
    ensures id in PendingIds(tasks, arms, k, done + KeysOf(chunk, arms, k)) <==>
              id in PendingIds(tasks, arms, k, done) && id !in TaskIds(chunk)
  {
    var after := done + KeysOf(chunk, arms, k);
    if id in PendingIds(tasks, arms, k, after) {
      var s :| s in Plan(tasks, arms, k, after) && s.task.id == id;
      PlanMembers(tasks, arms, k, after, s);
      PlanMembers(tasks, arms, k, done, s);
      KeysOfMembers(chunk, arms, k, KeyOf(s));
    }
    if id in PendingIds(tasks, arms, k, done) && id !in TaskIds(chunk) {
      var s :| s in Plan(tasks, arms, k, done) && s.task.id == id;
      PlanMembers(tasks, arms, k, done, s);
      KeysOfMembers(chunk, arms, k, KeyOf(s));
      PlanMembers(tasks, arms, k, after, s);
    }
  }

  function Outside(chunk: seq<Task>): Task -> bool {
    (t: Task) => t.id !in TaskIds(chunk)
  }

  lemma {:induction false} OutsidePrefix(pending: seq<Task>, n: nat)
    requires NoDup(TaskIds(pending)) && n <= |pending|
    ensures Filter(pending, Outside(pending[..n])) == pending[n..]
  {
    var chunk, rest := pending[..n], pending[n..];
    SplitAt(pending, n);
    MapConcat((t: Task) => t.id, chunk, rest);
    NoDupConcat(TaskIds(chunk), TaskIds(rest));
    FilterConcat(chunk, rest, Outside(chunk));
    forall t | t in chunk ensures !Outside(chunk)(t) {
      MapMembers((t: Task) => t.id, chunk, t.id);
    }
    FilterNone(chunk, Outside(chunk));
    forall t | t in rest ensures Outside(chunk)(t) {
      MapMembers((t: Task) => t.id, rest, t.id);
    }
    FilterAll(rest, Outside(chunk));
  }

  lemma {:induction false} ChunkStep(order: seq<Task>, before: set<string>, after: set<string>, n: nat)
    requires NoDup(TaskIds(Filter(order, HasWork(before)))) && n <= |Filter(order, HasWork(before))|
    requires forall id :: id in after <==> id in before && id !in TaskIds(Filter(order, HasWork(before))[..n])
    ensures Filter(order, HasWork(after)) == Filter(order, HasWork(before))[n..]
  {
    var pending := Filter(order, HasWork(before));
    FilterTwice(order, HasWork(before), Outside(pending[..n]), HasWork(after));
    OutsidePrefix(pending, n);
  }

  lemma PendingIdsAfterChunk(tasks: seq<Task>, arms: seq<string>, k: int, done: set<Key>, chunk: seq<Task>)
    ensures forall id :: id in PendingIds(tasks, arms, k, done + KeysOf(chunk, arms, k)) <==>
                           id in PendingIds(tasks, arms, k, done) && id !in TaskIds(chunk)
  {
    forall id ensures id in PendingIds(tasks, arms, k, done + KeysOf(chunk, arms, k)) <==>
                        id in PendingIds(tasks, arms, k, done) && id !in TaskIds(chunk)
    {
      PendingAfterChunk(tasks, arms, k, done, chunk, id);
    }
  }

  /** Finishing a chunk takes exactly that chunk off the front of the pending list. */
  lemma ChunkAdvances(tasks: seq<Task>, arms: seq<string>, k: int, done: set<Key>, n: nat)
    requires NoDup(TaskIds(tasks))
    ensures var chunk := NextChunk(tasks, arms, k, done, n);
            PendingTasks(tasks, arms, k, done + KeysOf(chunk, arms, k)) == PendingTasks(tasks, arms, k, done)[|chunk|..]
  {
    var chunk := NextChunk(tasks, arms, k, done, n);
    var before := PendingIds(tasks, arms, k, done);
    var after := PendingIds(tasks, arms, k, done + KeysOf(chunk, arms, k));
    PendingIdsDistinct(tasks, arms, k, done);
    PendingIdsAfterChunk(tasks, arms, k, done, chunk);
    PrefixByLength(chunk, PendingTasks(tasks, arms, k, done));
    ChunkStep(Stratified(tasks), before, after, |chunk|);
  }

  lemma PrefixByLength<T>(r: seq<T>, s: seq<T>)
    requires r <= s
    ensures r == s[..|r|]
  {
  }

  lemma PendingIdsDistinct(tasks: seq<Task>, arms: seq<string>, k: int, done: set<Key>)
    requires NoDup(TaskIds(tasks))
    ensures NoDup(TaskIds(PendingTasks(tasks, arms, k, done)))
  {
    StratifiedKeepsAll(tasks);
    IdsDistinctByCount(tasks, Stratified(tasks));
    FilterNoDupMap((t: Task) => t.id, Stratified(tasks), HasWork(PendingIds(tasks, arms, k, done)));
  }

  lemma IdsDistinctByCount(a: seq<Task>, b: seq<Task>)
    requires NoDup(TaskIds(a)) && multiset(a) == multiset(b)
    ensures NoDup(TaskIds(b))
  {
    assert forall t :: t in multiset(a) <==> t in a;
    assert forall t :: t in multiset(b) <==> t in b;
    forall i, j | 0 <= i < j < |a| ensures a[i] != a[j] {
      assert TaskIds(a)[i] != TaskIds(a)[j];
    }
    forall i, j | 0 <= i < j < |b| ensures TaskIds(b)[i] != TaskIds(b)[j] {
      if b[i] == b[j] {
        TwiceCounts(b, i, j);
        OnceCounts(a, b[i]);
        assert false;
      }
      assert b[i] in multiset(b) && b[j] in multiset(b);
      var x :| 0 <= x < |a| && a[x] == b[i];
      var y :| 0 <= y < |a| && a[y] == b[j];
      assert TaskIds(a)[x] != TaskIds(a)[y];
    }
  }

  ghost predicate RunsChunk(tasks: seq<Task>, arms: seq<string>, k: int, n: nat, before: set<Key>, chunk: seq<Task>,
                            after: set<Key>)
  {
    chunk == NextChunk(tasks, arms, k, before, n) && chunk != [] && after == before + KeysOf(chunk, arms, k)
  }

  /** Chunk after chunk, each run to the end: `dones[i]` is what is done before chunk i. */
  ghost predicate ChunkRun(tasks: seq<Task>, arms: seq<string>, k: int, n: nat, dones: seq<set<Key>>,
                           chunks: seq<seq<Task>>)
  {
    && |dones| == |chunks| + 1
    && forall i :: 0 <= i < |chunks| ==> RunsChunk(tasks, arms, k, n, dones[i], chunks[i], dones[i + 1])
  }

  function Flatten<T>(ss: seq<seq<T>>): seq<T> {
    if ss == [] then [] else Flatten(ss[..|ss| - 1]) + ss[|ss| - 1]
  }

  ghost predicate PeelsOnce<T>(before: seq<T>, chunk: seq<T>, after: seq<T>, n: nat) {
    chunk == Take(before, n) && chunk != [] && before == chunk + after
  }

  /** Each chunk is the first n of its list, and the next list is what is left. */
  ghost predicate Peels<T>(lists: seq<seq<T>>, chunks: seq<seq<T>>, n: nat) {
    && |lists| == |chunks| + 1
    && forall i :: 0 <= i < |chunks| ==> PeelsOnce(lists[i], chunks[i], lists[i + 1], n)
  }

  lemma {:induction false} PeelWalk<T>(lists: seq<seq<T>>, chunks: seq<seq<T>>, n: nat)
    requires Peels(lists, chunks, n)
    ensures Flatten(chunks) + lists[|chunks|] == lists[0] && |chunks| <= |Flatten(chunks)|
    decreases |chunks|
  {
    if chunks == [] {
      assert Flatten(chunks) + lists[0] == lists[0];
    } else {
      var m := |chunks| - 1;
      assert Peels(lists[..m + 1], chunks[..m], n);
      PeelWalk(lists[..m + 1], chunks[..m], n);
      assert PeelsOnce(lists[m], chunks[m], lists[m + 1], n);
      assert Flatten(chunks[..m]) + (chunks[m] + lists[m + 1]) == Flatten(chunks) + lists[m + 1];
    }
  }

  lemma OnlyLastIsShort<T>(lists: seq<seq<T>>, chunks: seq<seq<T>>, n: nat, i: nat)
    requires Peels(lists, chunks, n) && i < |chunks| - 1
    ensures |chunks[i]| == n
  {
    assert PeelsOnce(lists[i], chunks[i], lists[i + 1], n);
    assert PeelsOnce(lists[i + 1], chunks[i + 1], lists[i + 1 + 1], n);
  }

  lemma ChunkPeels(tasks: seq<Task>, arms: seq<string>, k: int, n: nat, before: set<Key>, chunk: seq<Task>,
                   after: set<Key>)
    requires NoDup(TaskIds(tasks)) && RunsChunk(tasks, arms, k, n, before, chunk, after)
    ensures PeelsOnce(PendingTasks(tasks, arms, k, before), chunk, PendingTasks(tasks, arms, k, after), n)
  {
    ChunkAdvances(tasks, arms, k, before, n);
    var pending := PendingTasks(tasks, arms, k, before);
    assert pending == chunk + pending[|chunk|..];
  }

  /** However many chunks have been run, together they are the front of the pending
      list in stratified order, each task once; there are no more chunks than pending
      tasks and only the last can be short; so when `next_chunk` comes back empty
      every pending task has been visited exactly once. */
  lemma ChunksVisitEachPendingOnce(tasks: seq<Task>, arms: seq<string>, k: int, n: nat, dones: seq<set<Key>>,
                                   chunks: seq<seq<Task>>)
    requires NoDup(TaskIds(tasks)) && n > 0 && ChunkRun(tasks, arms, k, n, dones, chunks)
    ensures Flatten(chunks) + PendingTasks(tasks, arms, k, dones[|chunks|]) == PendingTasks(tasks, arms, k, dones[0])
    ensures NoDup(TaskIds(PendingTasks(tasks, arms, k, dones[0])))
    ensures |chunks| <= |PendingTasks(tasks, arms, k, dones[0])|
    ensures forall i :: 0 <= i < |chunks| - 1 ==> |chunks[i]| == n
    ensures NextChunk(tasks, arms, k, dones[|chunks|], n) == [] ==>
              Flatten(chunks) == PendingTasks(tasks, arms, k, dones[0])
  {
    var lists := seq(|dones|, i requires 0 <= i < |dones| => PendingTasks(tasks, arms, k, dones[i]));
    forall i | 0 <= i < |chunks| ensures PeelsOnce(lists[i], chunks[i], lists[i + 1], n) {
      assert RunsChunk(tasks, arms, k, n, dones[i], chunks[i], dones[i + 1]);
      ChunkPeels(tasks, arms, k, n, dones[i], chunks[i], dones[i + 1]);
    }
    PeelWalk(lists, chunks, n);
    forall i | 0 <= i < |chunks| - 1 ensures |chunks[i]| == n {
      OnlyLastIsShort(lists, chunks, n, i);
    }
    PendingIdsDistinct(tasks, arms, k, dones[0]);
    EmptyTake(lists[|chunks|], n);
    assert Flatten(chunks) + [] == Flatten(chunks);
  }

  lemma EmptyTake<T>(s: seq<T>, n: nat)
    requires n > 0
    ensures Take(s, n) == [] <==> s == []
  {
  }
}
