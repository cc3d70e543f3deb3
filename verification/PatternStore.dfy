/** The append-only store of cross-project learnings: which rows are live, how one
    is retired, and in which order they apply. */
module PatternStore {
  import opened Prelude

  datatype Row = Row(id: Option<string>, statement: string, domain: Option<string>, subDomain: Option<string>,
                     createdAt: string, confirmed: int, status: string, retiredReason: string, retiredAt: string)

  const RETIRED := "retired"

  // ---- the live view ----------------------------------------------------------------------

  /** The decimal digits of n. */
  function Digits(n: nat): string {
    (if n < 10 then "" else Digits(n / 10)) + ["0123456789"[n % 10]]
  }

  /** The dictionary key a row without an id gets: its position, behind a NUL. */
  function AnonKey(i: nat): string {
    "\0row" + Digits(i)
  }

  function KeyAt(rows: seq<Row>, i: nat): string
    requires i < |rows|
  {
    if rows[i].id.Some? then rows[i].id.value else AnonKey(i)
  }

  /** The key of every row. */
  function RowKeys(rows: seq<Row>): (ks: seq<string>)
    ensures |ks| == |rows|
  {
    seq(|rows|, i requires 0 <= i < |rows| => KeyAt(rows, i))
  }

  /** The distinct keys among the first n, in first-seen order. */
  function KeysOf(ks: seq<string>, n: nat): seq<string>
    requires n <= |ks|
  {
    if n == 0 then []
    else
      var before := KeysOf(ks, n - 1);
      if ks[n - 1] in before then before else before + [ks[n - 1]]
  }

  /** Position of the last of the first n that is this key. */
  function LastAt(ks: seq<string>, n: nat, key: string): (i: Option<nat>)
    requires n <= |ks|
    ensures i.Some? ==> i.value < n
  {
    if n == 0 then None
    else if ks[n - 1] == key then Some(n - 1)
    else LastAt(ks, n - 1, key)
  }

  function LatestOf(rows: seq<Row>): string -> Option<Row> {
    (key: string) =>
      var last := LastAt(RowKeys(rows), |rows|, key);
      if last.Some? then Some(rows[last.value]) else None
  }

  /** The live rows among the given keys' latest rows. */
  function LiveOf(latest: string -> Option<Row>, keys: seq<string>): seq<Row> {
    if keys == [] then []
    else
      (if latest(keys[0]).Some? && latest(keys[0]).value.status != RETIRED then [latest(keys[0]).value] else [])
      + LiveOf(latest, keys[1..])
  }

  function Effective(rows: seq<Row>): seq<Row> {
    LiveOf(LatestOf(rows), KeysOf(RowKeys(rows), |rows|))
  }

  lemma {:induction false} KeysFacts(ks: seq<string>, n: nat)
    requires n <= |ks|
    ensures NoDup(KeysOf(ks, n))
    ensures forall i :: 0 <= i < n ==> ks[i] in KeysOf(ks, n)
    ensures forall key :: key in KeysOf(ks, n) ==> LastAt(ks, n, key).Some?
  {
    if n > 0 {
      KeysFacts(ks, n - 1);
    }
  }

  lemma {:induction false} LastIsLast(ks: seq<string>, n: nat, key: string)
    requires n <= |ks|
    ensures var last := LastAt(ks, n, key);
            && (last.Some? ==> ks[last.value] == key)
            && forall j :: 0 <= j < n && ks[j] == key ==> last.Some? && j <= last.value
  {
    if n > 0 {
      LastIsLast(ks, n - 1, key);
    }
  }

  /** The dictionary after the first n rows: its keys in insertion order, each with
      its latest row. */
  ghost predicate IsDict(latest: map<string, Row>, keys: seq<string>, rows: seq<Row>, ks: seq<string>, n: nat)
    requires n <= |rows| == |ks|
  {
    && keys == KeysOf(ks, n)
    && latest.Keys == Elems(keys)
    && forall key :: key in latest ==> LastAt(ks, n, key).Some? && latest[key] == rows[LastAt(ks, n, key).value]
  }

  lemma DictStep(latest: map<string, Row>, keys: seq<string>, rows: seq<Row>, ks: seq<string>, n: nat)
    requires n < |rows| == |ks| && IsDict(latest, keys, rows, ks, n)
    ensures IsDict(latest[ks[n] := rows[n]], if ks[n] in latest then keys else keys + [ks[n]], rows, ks, n + 1)
  {
    var key := ks[n];
    var after := latest[key := rows[n]];
    assert key in latest <==> key in keys;
    assert after.Keys == latest.Keys + {key};
    forall k | k in after ensures LastAt(ks, n + 1, k).Some? && after[k] == rows[LastAt(ks, n + 1, k).value] {
      assert LastAt(ks, n + 1, k) == if k == key then Some(n) else LastAt(ks, n, k);
    }
  }

  /** The dictionary loop: insertion keeps a key's first place, assignment its last row. */
  method BuildDict(rows: seq<Row>) returns (latest: map<string, Row>, keys: seq<string>)
    ensures IsDict(latest, keys, rows, RowKeys(rows), |rows|)
  {
    latest, keys := map[], [];
    ghost var ks := RowKeys(rows);
    for i := 0 to |rows|
      invariant IsDict(latest, keys, rows, ks, i)
    {
      DictStep(latest, keys, rows, ks, i);
      var key := if rows[i].id.Some? then rows[i].id.value else AnonKey(i);
      assert key == ks[i];
      if key !in latest {
        keys := keys + [key];
      }
      latest := latest[key := rows[i]];
    }
  }

  lemma LiveStep(latest: string -> Option<Row>, keys: seq<string>, k: nat, live: seq<Row>)
    requires k < |keys| && latest(keys[k]).Some?
    ensures var row := latest(keys[k]).value;
            live + LiveOf(latest, keys[k..])
            == (if row.status != RETIRED then live + [row] else live) + LiveOf(latest, keys[k + 1..])
  {
    assert keys[k..][1..] == keys[k + 1..];
  }

  method EffectivePatterns(rows: seq<Row>) returns (live: seq<Row>)
    ensures live == Effective(rows)
  {
    var latest, keys := BuildDict(rows);
    ghost var latestOf := LatestOf(rows);
    assert forall key :: key in latest ==> latestOf(key) == Some(latest[key]);
    live := [];
    for k := 0 to |keys|
      invariant LiveOf(latestOf, keys) == live + LiveOf(latestOf, keys[k..])
    {
      assert keys[k] in latest;
      LiveStep(latestOf, keys, k, live);
      if latest[keys[k]].status != RETIRED {
        live := live + [latest[keys[k]]];
      }
    }
  }

  // ---- what the live view means ------------------------------------------------------------

  lemma {:induction false} DigitsNonEmpty(n: nat)
    ensures Digits(n) != []
  {
  }

  lemma {:induction false} DigitsInjective(a: nat, b: nat)
    requires Digits(a) == Digits(b)
    ensures a == b
    decreases a + b
  {
    var da, db := Digits(a), Digits(b);
    assert da[|da| - 1] == "0123456789"[a % 10] && db[|db| - 1] == "0123456789"[b % 10];
    DigitNames(a % 10, b % 10);
    var fa, fb := da[..|da| - 1], db[..|db| - 1];
    assert fa == if a < 10 then "" else Digits(a / 10);
    assert fb == if b < 10 then "" else Digits(b / 10);
    DigitsNonEmpty(a / 10);
    DigitsNonEmpty(b / 10);
    if a >= 10 {
      DigitsInjective(a / 10, b / 10);
    }
  }

  lemma DigitNames(a: nat, b: nat)
    requires a < 10 && b < 10 && "0123456789"[a] == "0123456789"[b]
    ensures a == b
  {
  }

  lemma AnonKeysDiffer(i: nat, j: nat)
    requires AnonKey(i) == AnonKey(j)
    ensures i == j
  {
    assert AnonKey(i)[4..] == Digits(i) && AnonKey(j)[4..] == Digits(j);
    DigitsInjective(i, j);
  }

  /** No id spells the key of a row that has none. */
  ghost predicate NoClash(rows: seq<Row>) {
    forall i, j :: 0 <= i < |rows| && 0 <= j < |rows| && rows[i].id.Some? && rows[j].id.None? ==>
      rows[i].id.value != AnonKey(j)
  }

  predicate SameEntry(rows: seq<Row>, i: nat, j: nat)
    requires i < |rows| && j < |rows|
  {
    i == j || (rows[i].id.Some? && rows[i].id == rows[j].id)
  }

  /** Rows supersede each other exactly when they carry the same id, and rows without
      one stand for themselves, as long as no id spells such a row's key. */
  lemma KeysTellEntriesApart(rows: seq<Row>)
    ensures NoClash(rows) <==>
              forall i, j :: 0 <= i < |rows| && 0 <= j < |rows| ==>
                               (KeyAt(rows, i) == KeyAt(rows, j) <==> SameEntry(rows, i, j))
  {
    if NoClash(rows) {
      forall i, j | 0 <= i < |rows| && 0 <= j < |rows|
        ensures KeyAt(rows, i) == KeyAt(rows, j) <==> SameEntry(rows, i, j)
      {
        if rows[i].id.None? && rows[j].id.None? && KeyAt(rows, i) == KeyAt(rows, j) {
          AnonKeysDiffer(i, j);
        }
      }
    } else {
      var i, j :| 0 <= i < |rows| && 0 <= j < |rows| && rows[i].id.Some? && rows[j].id.None?
                  && rows[i].id.value == AnonKey(j);
      assert KeyAt(rows, i) == KeyAt(rows, j) && !SameEntry(rows, i, j);
    }
  }

  /** The positions of the live rows, in the order the view lists them. */
  function LivePositions(rows: seq<Row>, ks: seq<string>, keys: seq<string>): (at: seq<nat>)
    requires |ks| == |rows|
    ensures forall k :: 0 <= k < |at| ==> at[k] < |rows|
  {
    if keys == [] then []
    else
      var last := LastAt(ks, |ks|, keys[0]);
      (if last.Some? && rows[last.value].status != RETIRED then [last.value] else [])
      + LivePositions(rows, ks, keys[1..])
  }

  function Positions(rows: seq<Row>): (at: seq<nat>)
    ensures forall k :: 0 <= k < |at| ==> at[k] < |rows|
  {
    LivePositions(rows, RowKeys(rows), KeysOf(RowKeys(rows), |rows|))
  }

  lemma {:induction false} LivePositionsAreRows(rows: seq<Row>, keys: seq<string>)
    ensures var at := LivePositions(rows, RowKeys(rows), keys);
            && |LiveOf(LatestOf(rows), keys)| == |at|
            && forall k :: 0 <= k < |at| ==> at[k] < |rows| && LiveOf(LatestOf(rows), keys)[k] == rows[at[k]]
  {
    if keys != [] {
      LivePositionsAreRows(rows, keys[1..]);
    }
  }

  lemma {:induction false} LivePositionsMembers(rows: seq<Row>, ks: seq<string>, keys: seq<string>, i: nat)
    requires |ks| == |rows| && i < |rows|
    ensures i in LivePositions(rows, ks, keys) <==>
              ks[i] in keys && rows[i].status != RETIRED && LastAt(ks, |ks|, ks[i]) == Some(i)
  {
    if keys != [] {
      LivePositionsMembers(rows, ks, keys[1..], i);
      LastIsLast(ks, |ks|, keys[0]);
    }
  }

  /** Not retired, and no later row has its key. */
  ghost predicate StillStands(rows: seq<Row>, i: nat)
    requires i < |rows|
  {
    rows[i].status != RETIRED && forall j :: i < j < |rows| ==> RowKeys(rows)[j] != RowKeys(rows)[i]
  }

  lemma PositionStands(rows: seq<Row>, i: nat)
    requires i < |rows|
    ensures i in Positions(rows) <==> StillStands(rows, i)
  {
    var ks := RowKeys(rows);
    assert ks[i] in KeysOf(ks, |ks|) by {
      KeysFacts(ks, |ks|);
    }
    LivePositionsMembers(rows, ks, KeysOf(ks, |ks|), i);
    LastMeansNoneAfter(ks, i);
  }

  lemma LastMeansNoneAfter(ks: seq<string>, i: nat)
    requires i < |ks|
    ensures LastAt(ks, |ks|, ks[i]) == Some(i) <==> forall j :: i < j < |ks| ==> ks[j] != ks[i]
  {
    LastIsLast(ks, |ks|, ks[i]);
  }

  /** The view lists rows of the store, and a row is in it exactly when it is not
      retired and no later row has its key. */
  lemma EffectiveIsLatest(rows: seq<Row>)
    ensures |Effective(rows)| == |Positions(rows)|
    ensures forall k :: 0 <= k < |Positions(rows)| ==> Effective(rows)[k] == rows[Positions(rows)[k]]
    ensures forall i :: 0 <= i < |rows| ==> (i in Positions(rows) <==> StillStands(rows, i))
  {
    LivePositionsAreRows(rows, KeysOf(RowKeys(rows), |rows|));
    forall i | 0 <= i < |rows| ensures i in Positions(rows) <==> StillStands(rows, i) {
      PositionStands(rows, i);
    }
  }

  /** In a store without clashing keys: a row is live exactly when it is not retired and,
      if it has an id, no later row has the same one. */
  lemma LiveByColumns(rows: seq<Row>, i: nat)
    requires NoClash(rows) && i < |rows|
    ensures i in Positions(rows) <==>
              && rows[i].status != "retired"
              && (rows[i].id.Some? ==> forall j :: i < j < |rows| ==> rows[j].id != rows[i].id)
  {
    PositionStands(rows, i);
    forall j | i < j < |rows|
      ensures RowKeys(rows)[j] != RowKeys(rows)[i] <==> (rows[i].id.Some? ==> rows[j].id != rows[i].id)
    {
      KeysTellEntriesApart(rows);
      assert KeyAt(rows, j) == KeyAt(rows, i) <==> SameEntry(rows, j, i);
    }
    if rows[i].id.Some? && forall j :: i < j < |rows| ==> rows[j].id != rows[i].id {
      forall j | i < j < |rows| ensures RowKeys(rows)[j] != RowKeys(rows)[i] {
        assert rows[j].id != rows[i].id;
      }
    }
  }

  /** Where a key is first seen; n if it is not. */
  function FirstAt(ks: seq<string>, n: nat, key: string): (i: nat)
    requires n <= |ks|
    ensures i <= n
  {
    if n == 0 then 0
    else
      var before := FirstAt(ks, n - 1, key);
      if before < n - 1 || ks[n - 1] == key then before else n
  }

  ghost predicate ByFirstSeen(ks: seq<string>, keys: seq<string>) {
    forall a, b :: 0 <= a < b < |keys| ==> FirstAt(ks, |ks|, keys[a]) < FirstAt(ks, |ks|, keys[b])
  }

  lemma {:induction false} FirstIsFirst(ks: seq<string>, n: nat, key: string)
    requires n <= |ks|
    ensures FirstAt(ks, n, key) < n ==> ks[FirstAt(ks, n, key)] == key
    ensures forall i :: 0 <= i < n && ks[i] == key ==> FirstAt(ks, n, key) <= i
  {
    if n > 0 {
      FirstIsFirst(ks, n - 1, key);
    }
  }

  lemma {:induction false} KeysByFirstSeen(ks: seq<string>, n: nat)
    requires n <= |ks|
    ensures forall k :: 0 <= k < |KeysOf(ks, n)| ==> FirstAt(ks, n, KeysOf(ks, n)[k]) < n
    ensures forall key :: key !in KeysOf(ks, n) ==> FirstAt(ks, n, key) == n
    ensures forall a, b :: 0 <= a < b < |KeysOf(ks, n)| ==>
              FirstAt(ks, n, KeysOf(ks, n)[a]) < FirstAt(ks, n, KeysOf(ks, n)[b])
  {
    if n > 0 {
      KeysByFirstSeen(ks, n - 1);
      var before := KeysOf(ks, n - 1);
      forall k | 0 <= k < |before| ensures FirstAt(ks, n, before[k]) == FirstAt(ks, n - 1, before[k]) {
      }
    }
  }

  /** Somewhere position i's key has appeared and position j's has not yet. */
  ghost predicate SeenBefore(ks: seq<string>, i: nat, j: nat) {
    i < |ks| && j < |ks|
    && exists x :: 0 <= x < |ks| && ks[x] == ks[i] && forall y :: 0 <= y <= x ==> ks[y] != ks[j]
  }

  predicate FirstAtEarlier(ks: seq<string>, i: nat, j: nat) {
    i < |ks| && j < |ks| && FirstAt(ks, |ks|, ks[i]) < FirstAt(ks, |ks|, ks[j])
  }

  lemma EarlierIsSeenBefore(ks: seq<string>, i: nat, j: nat)
    requires FirstAtEarlier(ks, i, j)
    ensures SeenBefore(ks, i, j)
  {
    var x := FirstAt(ks, |ks|, ks[i]);
    FirstIsFirst(ks, |ks|, ks[i]);
    FirstIsFirst(ks, |ks|, ks[j]);
    assert ks[x] == ks[i];
  }

  lemma {:induction false} LiveByFirstSeen(rows: seq<Row>, ks: seq<string>, keys: seq<string>)
    requires |ks| == |rows| && ByFirstSeen(ks, keys)
    ensures forall k, m :: 0 <= k < m < |LivePositions(rows, ks, keys)| ==>
              FirstAtEarlier(ks, LivePositions(rows, ks, keys)[k], LivePositions(rows, ks, keys)[m])
  {
    if keys != [] {
      assert ByFirstSeen(ks, keys[1..]);
      LiveByFirstSeen(rows, ks, keys[1..]);
      var rest := LivePositions(rows, ks, keys[1..]);
      LastIsLast(ks, |ks|, keys[0]);
      forall m | 0 <= m < |rest| ensures FirstAt(ks, |ks|, keys[0]) < FirstAt(ks, |ks|, ks[rest[m]]) {
        LivePositionsMembers(rows, ks, keys[1..], rest[m]);
        var b :| 0 <= b < |keys[1..]| && keys[1..][b] == ks[rest[m]];
        assert keys[b + 1] == ks[rest[m]];
      }
    }
  }

  /** The view lists live rows in the order their ids were first seen. */
  lemma EffectiveInFirstSeenOrder(rows: seq<Row>)
    ensures var at := Positions(rows);
            forall k, m :: 0 <= k < m < |at| ==> SeenBefore(RowKeys(rows), at[k], at[m])
  {
    var ks := RowKeys(rows);
    KeysByFirstSeen(ks, |ks|);
    assert ByFirstSeen(ks, KeysOf(ks, |ks|));
    LiveByFirstSeen(rows, ks, KeysOf(ks, |ks|));
    var at := Positions(rows);
    forall k, m | 0 <= k < m < |at| ensures SeenBefore(ks, at[k], at[m]) {
      EarlierIsSeenBefore(ks, at[k], at[m]);
    }
  }

  // ---- retiring ------------------------------------------------------------------------------

  datatype Line = Unreadable | Entry(row: Row)

  datatype RetireReply =
    | EmptyReason
    | UnknownId
    | NotWellFormed
    | AlreadyRetired(row: Row)
    | RetiredNow(row: Row)

  function RowsOf(lines: seq<Line>): seq<Row> {
    if lines == [] then []
    else RowsOf(lines[..|lines| - 1]) + if lines[|lines| - 1].Entry? then [lines[|lines| - 1].row] else []
  }

  /** Rows are read in file order, and a line that is no row is passed over. */
  lemma {:induction false} RowsOfLines(a: seq<Line>, b: seq<Line>, row: Row)
    ensures RowsOf(a + b) == RowsOf(a) + RowsOf(b)
    ensures RowsOf([Unreadable]) == [] && RowsOf([Entry(row)]) == [row]
  {
    assert [Unreadable][..0] == [] && [Entry(row)][..0] == [];
    if b == [] {
      assert a + b == a;
    } else {
      var init := b[..|b| - 1];
      RowsOfLines(a, init, row);
      assert (a + b)[..|a + b| - 1] == a + init;
    }
  }

  /** The last row whose id is this one, rows without an id ignored. */
  function LastById(rows: seq<Row>, id: string): Option<Row> {
    if rows == [] then None
    else if rows[|rows| - 1].id == Some(id) then Some(rows[|rows| - 1])
    else LastById(rows[..|rows| - 1], id)
  }

  lemma {:induction false} LastByIdHasId(rows: seq<Row>, id: string)
    ensures LastById(rows, id).Some? ==> LastById(rows, id).value.id == Some(id)
    ensures LastById(rows, id).Some? <==> exists i :: 0 <= i < |rows| && rows[i].id == Some(id)
  {
    if rows != [] {
      var init := rows[..|rows| - 1];
      LastByIdHasId(init, id);
      if exists i :: 0 <= i < |rows| && rows[i].id == Some(id) {
        var i :| 0 <= i < |rows| && rows[i].id == Some(id);
        assert i < |init| ==> init[i].id == Some(id);
      }
      if exists i :: 0 <= i < |init| && init[i].id == Some(id) {
        var i :| 0 <= i < |init| && init[i].id == Some(id);
        assert rows[i].id == Some(id);
      }
    }
  }

  function HasOtherId(id: string): Row -> bool {
    (r: Row) => r.id != Some(id)
  }

  predicate Live(row: Option<Row>) {
    row.Some? && row.value.status != RETIRED
  }

  /** `after` is `before` with the row of one key retired. */
  ghost predicate RetiresKey(before: string -> Option<Row>, after: string -> Option<Row>, keys: seq<string>,
                             id: string) {
    && (forall key :: key in keys && key != id ==> after(key) == before(key))
    && (forall key :: key in keys && key != id && before(key).Some? ==> before(key).value.id != Some(id))
    && after(id).Some? && after(id).value.status == RETIRED
  }

  lemma {:induction false} RetiringFiltersLive(before: string -> Option<Row>, after: string -> Option<Row>,
                                               keys: seq<string>, id: string)
    requires RetiresKey(before, after, keys, id)
    requires Live(before(id)) ==> before(id).value.id == Some(id)
    ensures LiveOf(after, keys) == Filter(LiveOf(before, keys), HasOtherId(id))
  {
    if keys != [] {
      assert keys[0] in keys;
      RetiringFiltersLive(before, after, keys[1..], id);
      var first := if Live(before(keys[0])) then [before(keys[0]).value] else [];
      FilterConcat(first, LiveOf(before, keys[1..]), HasOtherId(id));
    }
  }

  /** Retiring a key whose live row is of no id hides that row, which has another id than
      the retired one. */
  lemma {:induction false} RetiringHidesARow(before: string -> Option<Row>, after: string -> Option<Row>,
                                             keys: seq<string>, id: string)
    requires RetiresKey(before, after, keys, id)
    requires Live(before(id)) && before(id).value.id != Some(id)
    ensures Filter(LiveOf(before, keys), HasOtherId(id)) == LiveOf(before, keys)
    ensures |LiveOf(after, keys)| <= |LiveOf(before, keys)| - if id in keys then 1 else 0
  {
    if keys != [] {
      assert keys[0] in keys && keys == [keys[0]] + keys[1..];
      RetiringHidesARow(before, after, keys[1..], id);
      var first := if Live(before(keys[0])) then [before(keys[0]).value] else [];
      FilterConcat(first, LiveOf(before, keys[1..]), HasOtherId(id));
    }
  }

  predicate HoldsOwn(row: Option<Row>, id: string) {
    Live(row) ==> row.value.id == Some(id)
  }

  lemma RetiringExactly(before: string -> Option<Row>, after: string -> Option<Row>, keys: seq<string>, id: string)
    requires RetiresKey(before, after, keys, id) && id in keys
    ensures LiveOf(after, keys) == Filter(LiveOf(before, keys), HasOtherId(id))
            <==> HoldsOwn(before(id), id)
  {
    if Live(before(id)) && before(id).value.id != Some(id) {
      RetiringHidesARow(before, after, keys, id);
    } else {
      RetiringFiltersLive(before, after, keys, id);
    }
  }

  lemma {:induction false} PrefixViews(ks: seq<string>, more: string, n: nat, key: string)
    requires n <= |ks|
    ensures KeysOf(ks + [more], n) == KeysOf(ks, n) && LastAt(ks + [more], n, key) == LastAt(ks, n, key)
  {
    if n > 0 {
      PrefixViews(ks, more, n - 1, key);
    }
  }

  lemma RowKeysSnoc(rows: seq<Row>, r: Row, id: string)
    requires r.id == Some(id)
    ensures RowKeys(rows + [r]) == RowKeys(rows) + [id]
  {
    var more := rows + [r];
    forall i | 0 <= i < |rows| ensures KeyAt(more, i) == KeyAt(rows, i) {
    }
  }

  lemma TombstoneRetiresKey(rows: seq<Row>, tomb: Row, id: string, key: string)
    requires tomb.id == Some(id) && tomb.status == RETIRED
    ensures key != id ==> LatestOf(rows + [tomb])(key) == LatestOf(rows)(key)
    ensures key != id && LatestOf(rows)(key).Some? ==> LatestOf(rows)(key).value.id != Some(id)
    ensures LatestOf(rows + [tomb])(id) == Some(tomb)
  {
    var ks, after := RowKeys(rows), rows + [tomb];
    RowKeysSnoc(rows, tomb, id);
    PrefixViews(ks, id, |ks|, key);
    assert RowKeys(after)[|rows|] == id;
    LastIsLast(ks, |ks|, key);
  }

  lemma EffectiveOver(rows: seq<Row>, n: nat, keys: seq<string>)
    requires n == |rows| && KeysOf(RowKeys(rows), n) == keys
    ensures Effective(rows) == LiveOf(LatestOf(rows), keys)
  {
  }

  lemma TombstoneRetires(rows: seq<Row>, tomb: Row, id: string, keys: seq<string>)
    requires tomb.id == Some(id) && tomb.status == RETIRED
    ensures RetiresKey(LatestOf(rows), LatestOf(rows + [tomb]), keys, id)
  {
    forall key {
      TombstoneRetiresKey(rows, tomb, id, key);
    }
    TombstoneRetiresKey(rows, tomb, id, id);
  }

  /** A tombstone for a known id brings no new key. */
  lemma TombstoneKeys(rows: seq<Row>, tomb: Row, id: string)
    requires tomb.id == Some(id) && exists i :: 0 <= i < |rows| && rows[i].id == Some(id)
    ensures var keys := KeysOf(RowKeys(rows), |rows|);
            id in keys && KeysOf(RowKeys(rows + [tomb]), |rows| + 1) == keys
  {
    var ks := RowKeys(rows);
    RowKeysSnoc(rows, tomb, id);
    KeysFacts(ks, |ks|);
    PrefixViews(ks, id, |ks|, id);
    var i :| 0 <= i < |rows| && rows[i].id == Some(id);
    assert ks[i] == id;
  }

  /** The live row kept under this id, if any, is the id's own, and not a row without an
      id whose made-up key happens to read the same. */
  ghost predicate HoldsItsOwn(rows: seq<Row>, id: string) {
    HoldsOwn(LatestOf(rows)(id), id)
  }

  lemma RetireStep(rows: seq<Row>, more: seq<Row>, id: string, keys: seq<string>)
    requires Effective(rows) == LiveOf(LatestOf(rows), keys) && Effective(more) == LiveOf(LatestOf(more), keys)
    requires id in keys && RetiresKey(LatestOf(rows), LatestOf(more), keys, id)
    ensures Effective(more) == Filter(Effective(rows), HasOtherId(id)) <==> HoldsItsOwn(rows, id)
  {
    RetiringExactly(LatestOf(rows), LatestOf(more), keys, id);
  }

  /** Appending a tombstone for a known id takes exactly that id's row out of the live
      view and leaves every other live row in its place, if and only if the id holds its own. */
  lemma RetireRemovesOnlyThatId(rows: seq<Row>, tomb: Row, id: string)
    requires tomb.id == Some(id) && tomb.status == RETIRED
    requires exists i :: 0 <= i < |rows| && rows[i].id == Some(id)
    ensures Effective(rows + [tomb]) == Filter(Effective(rows), HasOtherId(id)) <==> HoldsItsOwn(rows, id)
  {
    var keys := KeysOf(RowKeys(rows), |rows|);
    TombstoneKeys(rows, tomb, id);
    EffectiveOver(rows + [tomb], |rows| + 1, keys);
    TombstoneRetires(rows, tomb, id, keys);
    RetireStep(rows, rows + [tomb], id, keys);
  }

  /** A store with a clash: the second row has no id, and its made-up key reads like the
      first row's id. */
  lemma ClashHidesABystander(live: Row)
    requires live.status != RETIRED
    ensures var rows := [live.(id := Some("\0row1")), live.(id := None)];
            && !NoClash(rows) && !HoldsItsOwn(rows, "\0row1")
            && LastById(rows, "\0row1") == Some(rows[0])
  {
    var rows := [live.(id := Some("\0row1")), live.(id := None)];
    var ks := RowKeys(rows);
    assert AnonKey(1) == "\0row1";
    assert ks[1] == AnonKey(1);
    assert rows[..1] == [rows[0]];
    assert LastById(rows, AnonKey(1)) == LastById(rows[..1], AnonKey(1));
    assert rows[0].id.Some? && rows[1].id.None? && rows[0].id.value == AnonKey(1);
  }

  /** Without clashing keys the condition always holds. */
  lemma NoClashRetiresCleanly(rows: seq<Row>, id: string)
    requires forall j :: 0 <= j < |rows| && rows[j].id.None? ==> AnonKey(j) != id
    ensures HoldsItsOwn(rows, id)
  {
    LastIsLast(RowKeys(rows), |rows|, id);
  }

  class Store {
    var lines: seq<Line>

    /** Appends a tombstone for a known, live id; everything else appends nothing.
        `reason` is the reason stripped of surrounding blanks. */
    method RetireGlobalPattern(id: string, reason: string, now: string, wellFormed: Row -> bool)
      returns (reply: RetireReply)
      modifies this
      ensures reason == "" <==> reply.EmptyReason?
      ensures reply.UnknownId? <==> reason != "" && LastById(RowsOf(old(lines)), id).None?
      ensures reply.AlreadyRetired? <==>
                reason != "" && LastById(RowsOf(old(lines)), id).Some?
                && LastById(RowsOf(old(lines)), id).value.status == "retired"
      ensures reply.AlreadyRetired? ==> LastById(RowsOf(old(lines)), id) == Some(reply.row)
      ensures reason != "" && LastById(RowsOf(old(lines)), id).Some?
              && LastById(RowsOf(old(lines)), id).value.status != "retired" ==>
                var tomb := LastById(RowsOf(old(lines)), id).value.(status := "retired", retiredReason := reason,
                                                                    retiredAt := now);
                reply == if wellFormed(tomb) then RetiredNow(tomb) else NotWellFormed
      ensures reply.RetiredNow? ==>
                && lines == old(lines) + [Entry(reply.row)]
                && RowsOf(lines) == RowsOf(old(lines)) + [reply.row]
                && LastById(RowsOf(lines), id) == Some(reply.row)
      ensures reply.RetiredNow? ==>
                (Effective(RowsOf(lines)) == Filter(Effective(RowsOf(old(lines))), HasOtherId(id))
                 <==> HoldsItsOwn(RowsOf(old(lines)), id))
      ensures !reply.RetiredNow? ==> lines == old(lines)
    {
      if reason == "" {
        return EmptyReason;
      }
      var current := LastById(RowsOf(lines), id);
      if current.None? {
        return UnknownId;
      }
      if current.value.status == RETIRED {
        return AlreadyRetired(current.value);
      }
      var retired := current.value.(status := RETIRED, retiredReason := reason, retiredAt := now);
      if !wellFormed(retired) {
        return NotWellFormed;
      }
      LastByIdHasId(RowsOf(lines), id);
      RetireRemovesOnlyThatId(RowsOf(lines), retired, id);
      assert (lines + [Entry(retired)])[..|lines|] == lines;
      lines := lines + [Entry(retired)];
      return RetiredNow(retired);
    }
  }
}
