/** The event ledger: one file per project and month, and a reader that skips whole
    months. Month names and timestamps are compared as text, as the reader does. */
module EventLedger {
  import opened Prelude
  import opened TextOrder
  import StableSort

  // ---- month names --------------------------------------------------------------------------

  function Digit(d: nat): (c: char)
    requires d < 10
    ensures c as nat == '0' as nat + d
  {
    "0123456789"[d]
  }

  /** n in `width` decimal digits, zeros in front. */
  function Pad(n: nat, width: nat): (s: string)
    ensures |s| == width
  {
    if width == 0 then "" else Pad(n / 10, width - 1) + [Digit(n % 10)]
  }

  /** Months are counted from January of year 0: month k is month k % 12 + 1 of year k / 12. */
  function Stem(k: nat): (s: string)
    ensures |s| == 7
  {
    Pad(k / 12, 4) + "-" + Pad(k % 12 + 1, 2)
  }

  const LAST_MONTH := 9999 * 12 + 11

  /** A moment in UTC: its month, and the rest of its ISO text after the month. */
  datatype Moment = Moment(month: nat, rest: string)

  predicate IsMoment(t: Moment) {
    12 <= t.month <= LAST_MONTH
  }

  function Iso(t: Moment): string {
    Stem(t.month) + t.rest
  }

  lemma {:induction false} LessInFront(a: string, b: string, x: string, y: string)
    requires |a| == |b| && Less(a, b)
    ensures Less(a + x, b + y)
    decreases |a|
  {
    assert (a + x)[0] == a[0] && (b + y)[0] == b[0];
    assert (a + x)[1..] == a[1..] + x && (b + y)[1..] == b[1..] + y;
    if a[0] == b[0] {
      LessInFront(a[1..], b[1..], x, y);
    }
  }

  lemma {:induction false} LessBehind(p: string, x: string, y: string)
    requires Less(x, y)
    ensures Less(p + x, p + y)
  {
    if p == "" {
      assert p + x == x && p + y == y;
    } else {
      LessBehind(p[1..], x, y);
      assert (p + x)[1..] == p[1..] + x && (p + y)[1..] == p[1..] + y;
    }
  }

  lemma {:induction false} LessLonger(a: string, b: string, y: string)
    requires Less(a, b)
    ensures Less(a, b + y)
    decreases |a|
  {
    assert (b + y)[0] == b[0] && (b + y)[1..] == b[1..] + y;
    if a != "" && a[0] == b[0] {
      LessLonger(a[1..], b[1..], y);
    }
  }

  lemma DigitsAscend(a: nat, b: nat)
    requires a < b < 10
    ensures Less([Digit(a)], [Digit(b)])
  {
  }

  function PowerOfTen(w: nat): nat {
    if w == 0 then 1 else 10 * PowerOfTen(w - 1)
  }

  /** Padded numbers sort as numbers. */
  lemma {:induction false} PadAscends(a: nat, b: nat, width: nat)
    requires a < b < PowerOfTen(width)
    ensures Less(Pad(a, width), Pad(b, width))
  {
    if a / 10 < b / 10 {
      PadAscends(a / 10, b / 10, width - 1);
      LessInFront(Pad(a / 10, width - 1), Pad(b / 10, width - 1), [Digit(a % 10)], [Digit(b % 10)]);
    } else {
      DigitsAscend(a % 10, b % 10);
      LessBehind(Pad(a / 10, width - 1), [Digit(a % 10)], [Digit(b % 10)]);
    }
  }

  /** Month names sort as months. */
  lemma {:induction false} StemsAscend(a: nat, b: nat)
    requires a < b <= LAST_MONTH
    ensures Less(Stem(a), Stem(b))
  {
    assert PowerOfTen(2) == 10 * PowerOfTen(1) == 100 && PowerOfTen(4) == 100 * PowerOfTen(2);
    if a / 12 < b / 12 {
      PadAscends(a / 12, b / 12, 4);
      LessInFront(Pad(a / 12, 4), Pad(b / 12, 4), "-" + Pad(a % 12 + 1, 2), "-" + Pad(b % 12 + 1, 2));
      assert Stem(a) == Pad(a / 12, 4) + ("-" + Pad(a % 12 + 1, 2));
      assert Stem(b) == Pad(b / 12, 4) + ("-" + Pad(b % 12 + 1, 2));
    } else {
      PadAscends(a % 12 + 1, b % 12 + 1, 2);
      LessBehind(Pad(a / 12, 4) + "-", Pad(a % 12 + 1, 2), Pad(b % 12 + 1, 2));
    }
  }

  lemma StemsDiffer(a: nat, b: nat)
    requires a <= LAST_MONTH && b <= LAST_MONTH && Stem(a) == Stem(b)
    ensures a == b
  {
    Irreflexive(Stem(a));
    if a < b {
      StemsAscend(a, b);
    } else if b < a {
      StemsAscend(b, a);
    }
  }

  lemma MonthReads(n: nat, a: nat, b: nat)
    requires n == 10 * a + b && a < 10 && b < 10
    ensures Pad(n, 2) == [Digit(a), Digit(b)]
  {
    assert Pad(a, 1) == Pad(a / 10, 0) + [Digit(a % 10)] && n / 10 == a && n % 10 == b;
  }

  lemma YearReads(n: nat, a: nat, b: nat, c: nat, d: nat)
    requires n == 1000 * a + 100 * b + 10 * c + d && a < 10 && b < 10 && c < 10 && d < 10
    ensures Pad(n, 4) == [Digit(a), Digit(b), Digit(c), Digit(d)]
  {
    MonthReads(n / 100, a, b);
    assert n / 10 / 10 == n / 100 && n / 10 % 10 == c && n % 10 == d;
    assert Pad(n / 10, 3) == Pad(n / 100, 2) + [Digit(c)];
  }

  /** A month's name is four digits of year, a dash and two of month. */
  lemma StemReads(k: nat, year: nat, month: nat, a: nat, b: nat, c: nat, d: nat, x: nat, y: nat)
    requires a < 10 && b < 10 && c < 10 && d < 10 && x < 10 && y < 10
    requires year == 1000 * a + 100 * b + 10 * c + d && month == 10 * x + y
    requires 1 <= month <= 12 && k == 12 * year + month - 1
    ensures Stem(k) == [Digit(a), Digit(b), Digit(c), Digit(d)] + "-" + [Digit(x), Digit(y)]
  {
    YearReads(year, a, b, c, d);
    MonthReads(month, x, y);
    StemOf(year, month, k);
  }

  lemma StemOf(year: nat, month: nat, k: nat)
    requires 1 <= month <= 12 && k == 12 * year + month - 1
    ensures Stem(k) == Pad(year, 4) + "-" + Pad(month, 2)
  {
    assert k / 12 == year && k % 12 + 1 == month;
  }

  // ---- the months to read ------------------------------------------------------------------------

  function Months(first: nat, last: nat): set<string> {
    set k | first <= k <= last :: Stem(k)
  }

  /** The loop over (y, m) pairs, year ends included. */
  method MonthsBetween(since: Moment, now: Moment) returns (months: set<string>)
    requires IsMoment(since) && IsMoment(now)
    ensures months == Months(since.month, now.month)
  {
    months := {};
    var y, m := since.month / 12, since.month % 12 + 1;
    var nowY, nowM := now.month / 12, now.month % 12 + 1;
    while y < nowY || (y == nowY && m <= nowM)
      invariant 1 <= m <= 12 && since.month <= 12 * y + m - 1
      invariant 12 * y + m - 1 <= if since.month <= now.month then now.month + 1 else since.month
      invariant months == Months(since.month, 12 * y + m - 2)
      decreases now.month - (12 * y + m - 1)
    {
      ghost var k := 12 * y + m - 1;
      assert k / 12 == y && k % 12 + 1 == m;
      assert Months(since.month, k) == Months(since.month, k - 1) + {Stem(k)};
      months := months + {Pad(y, 4) + "-" + Pad(m, 2)};
      if m == 12 {
        y, m := y + 1, 1;
      } else {
        m := m + 1;
      }
    }
  }

  lemma MonthsMembers(first: nat, last: nat, k: nat)
    requires last <= LAST_MONTH && k <= LAST_MONTH
    ensures Stem(k) in Months(first, last) <==> first <= k <= last
  {
    if Stem(k) in Months(first, last) {
      var j :| first <= j <= last && Stem(j) == Stem(k);
      StemsDiffer(j, k);
    }
  }

  // ---- one shard ---------------------------------------------------------------------------------

  datatype Event = Event(eid: Option<string>, kind: string, ts: string)

  datatype Line = Unreadable | Readable(event: Event)

  /** The reader's filter: kinds wanted (none named means all) and earliest timestamp. */
  datatype Query = Query(since: Option<Moment>, kinds: set<string>)

  predicate Matches(q: Query, e: Event) {
    && (q.kinds == {} || e.kind in q.kinds)
    && (q.since.None? || AtMost(Iso(q.since.value), e.ts))
  }

  predicate SeenAmong(lines: seq<Line>, eid: Option<string>) {
    exists i :: 0 <= i < |lines| && lines[i].Readable? && lines[i].event.eid == eid
  }

  /** The events of one shard: the first of each eid, if it matches. */
  function ReadShard(q: Query, lines: seq<Line>): seq<Event> {
    if lines == [] then []
    else
      var init, last := lines[..|lines| - 1], lines[|lines| - 1];
      ReadShard(q, init)
      + if last.Readable? && !SeenAmong(init, last.event.eid) && Matches(q, last.event) then [last.event] else []
  }

  /** The set of eids seen stands for the lines read. */
  ghost predicate Remembers(seen: set<Option<string>>, lines: seq<Line>) {
    forall eid :: eid in seen <==> SeenAmong(lines, eid)
  }

  lemma RemembersNext(seen: set<Option<string>>, lines: seq<Line>, i: nat)
    requires i < |lines| && Remembers(seen, lines[..i])
    ensures lines[i].Unreadable? ==> Remembers(seen, lines[..i + 1])
    ensures lines[i].Readable? ==> Remembers(seen + {lines[i].event.eid}, lines[..i + 1])
  {
    var before, after := lines[..i], lines[..i + 1];
    forall eid ensures SeenAmong(after, eid) <==>
                         SeenAmong(before, eid) || (lines[i].Readable? && lines[i].event.eid == eid)
    {
      if SeenAmong(before, eid) {
        var j :| 0 <= j < |before| && before[j].Readable? && before[j].event.eid == eid;
        assert after[j] == before[j];
      }
      if lines[i].Readable? && lines[i].event.eid == eid {
        assert after[i] == lines[i];
      }
      if SeenAmong(after, eid) {
        var j :| 0 <= j < |after| && after[j].Readable? && after[j].event.eid == eid;
        assert j < i ==> before[j] == after[j];
      }
    }
  }

  method StreamShard(q: Query, lines: seq<Line>) returns (events: seq<Event>)
    ensures events == ReadShard(q, lines)
  {
    var seen: set<Option<string>> := {};
    events := [];
    for i := 0 to |lines|
      invariant events == ReadShard(q, lines[..i])
      invariant Remembers(seen, lines[..i])
    {
      RemembersNext(seen, lines, i);
      assert lines[..i + 1][..i] == lines[..i];
      if lines[i].Readable? {
        var event := lines[i].event;
        if event.eid !in seen {
          seen := seen + {event.eid};
          if Matches(q, event) {
            events := events + [event];
          }
        } else {
          assert seen + {event.eid} == seen;
        }
      }
    }
    assert lines[..|lines|] == lines;
  }

  /** The query that names no kind and no start. */
  const EVERYTHING := Query(None, {})

  function Matching(q: Query): Event -> bool {
    (e: Event) => Matches(q, e)
  }

  /** Dropping repeated ids and then filtering is filtering what a full read yields. */
  lemma {:induction false} ShardIsFiltered(q: Query, lines: seq<Line>)
    ensures ReadShard(q, lines) == Filter(ReadShard(EVERYTHING, lines), Matching(q))
  {
    if lines != [] {
      var init, last := lines[..|lines| - 1], lines[|lines| - 1];
      ShardIsFiltered(q, init);
      var more := if last.Readable? && !SeenAmong(init, last.event.eid) then [last.event] else [];
      FilterConcat(ReadShard(EVERYTHING, init), more, Matching(q));
    }
  }

  lemma SeenEarlier(lines: seq<Line>, i: nat, eid: Option<string>)
    requires i <= |lines|
    ensures SeenAmong(lines[..i], eid) <==> exists j :: 0 <= j < i && lines[j].Readable? && lines[j].event.eid == eid
  {
    var before := lines[..i];
    if j :| 0 <= j < i && lines[j].Readable? && lines[j].event.eid == eid {
      assert before[j] == lines[j];
    }
    if j :| 0 <= j < i && before[j].Readable? && before[j].event.eid == eid {
      assert lines[j] == before[j];
    }
  }

  /** Line i holds this event, no readable line before it has its id, and the filter
      lets it through. */
  ghost predicate Yields(q: Query, lines: seq<Line>, i: int, e: Event) {
    && 0 <= i < |lines| && lines[i] == Readable(e)
    && (forall j :: 0 <= j < i && lines[j].Readable? ==> lines[j].event.eid != e.eid)
    && (q.kinds == {} || e.kind in q.kinds)
    && (q.since.Some? ==> AtMost(Iso(q.since.value), e.ts))
  }

  lemma YieldsSnoc(q: Query, lines: seq<Line>, e: Event)
    requires lines != []
    ensures var init, last := lines[..|lines| - 1], |lines| - 1;
            (exists i :: Yields(q, lines, i, e)) <==> (exists i :: Yields(q, init, i, e)) || Yields(q, lines, last, e)
  {
    var init, last := lines[..|lines| - 1], |lines| - 1;
    if i :| Yields(q, init, i, e) {
      assert Yields(q, lines, i, e);
    }
    if i :| Yields(q, lines, i, e) {
      assert i < last ==> Yields(q, init, i, e);
    }
  }

  /** What a shard yields, and that reading on only adds at the end. */
  lemma {:induction false} ShardYields(q: Query, lines: seq<Line>, e: Event)
    ensures e in ReadShard(q, lines) <==> exists i :: Yields(q, lines, i, e)
    ensures lines != [] ==> ReadShard(q, lines[..|lines| - 1]) <= ReadShard(q, lines)
  {
    if lines != [] {
      var init, last := lines[..|lines| - 1], |lines| - 1;
      ShardYields(q, init, e);
      YieldsSnoc(q, lines, e);
      SeenEarlier(lines, last, e.eid);
      assert Yields(q, lines, last, e) <==>
             lines[last] == Readable(e) && !SeenAmong(init, e.eid) && Matches(q, e);
    }
  }

  /** The i-th line is readable and the first of its event id. */
  predicate FirstOfEid(lines: seq<Line>, i: int) {
    0 <= i < |lines| && lines[i].Readable? && !SeenAmong(lines[..i], lines[i].event.eid)
  }

  /** A shard has nothing for a query exactly when no first occurrence matches it. */
  lemma {:induction false} NothingForQuery(q: Query, lines: seq<Line>)
    ensures ReadShard(q, lines) == [] <==> forall i :: FirstOfEid(lines, i) ==> !Matches(q, lines[i].event)
  {
    if lines != [] {
      var init, last := lines[..|lines| - 1], |lines| - 1;
      NothingForQuery(q, init);
      forall i | 0 <= i < last ensures FirstOfEid(init, i) <==> FirstOfEid(lines, i) {
        assert init[..i] == lines[..i];
      }
      assert FirstOfEid(lines, last) <==> lines[last].Readable? && !SeenAmong(init, lines[last].event.eid);
      if ReadShard(q, lines) == [] {
        forall i | FirstOfEid(lines, i) ensures !Matches(q, lines[i].event) {
          assert i < last ==> FirstOfEid(init, i);
        }
      }
      if forall i :: FirstOfEid(lines, i) ==> !Matches(q, lines[i].event) {
        forall i | FirstOfEid(init, i) ensures !Matches(q, init[i].event) {
          assert FirstOfEid(lines, i);
        }
      }
    }
  }

  // ---- all shards ------------------------------------------------------------------------------------

  type Shards = map<string, seq<Line>>

  const SUFFIX := ".jsonl"

  /** Stems in the order of their file names. */
  function ByName(): (string, string) -> bool {
    (a: string, b: string) => Less(a + SUFFIX, b + SUFFIX)
  }

  /** Every named shard, in the order given. */
  function FullScan(q: Query, shards: Shards, names: seq<string>): seq<Event> {
    if names == [] then []
    else (if names[0] in shards then ReadShard(q, shards[names[0]]) else []) + FullScan(q, shards, names[1..])
  }

  predicate Wanted(q: Query, now: Moment, name: string) {
    q.since.None? || name in Months(q.since.value.month, now.month)
  }

  /** The same, leaving out shards of other months when a start is given. */
  function PrunedScan(q: Query, shards: Shards, names: seq<string>, now: Moment): seq<Event> {
    if names == [] then []
    else
      (if names[0] in shards && Wanted(q, now, names[0]) then ReadShard(q, shards[names[0]]) else [])
      + PrunedScan(q, shards, names[1..], now)
  }

  /** A full scan for a query is everything, filtered. */
  lemma {:induction false} FullScanIsFiltered(q: Query, shards: Shards, names: seq<string>)
    ensures FullScan(q, shards, names) == Filter(FullScan(EVERYTHING, shards, names), Matching(q))
  {
    if names != [] {
      FullScanIsFiltered(q, shards, names[1..]);
      var here := if names[0] in shards then ReadShard(EVERYTHING, shards[names[0]]) else [];
      if names[0] in shards {
        ShardIsFiltered(q, shards[names[0]]);
      }
      FilterConcat(here, FullScan(EVERYTHING, shards, names[1..]), Matching(q));
    }
  }

  /** A scan for a query has an event exactly when the scan for everything has it, its
      kind is asked for, and it is stamped no earlier than the start. */
  lemma FullScanMatches(q: Query, shards: Shards, names: seq<string>, e: Event)
    ensures e in FullScan(q, shards, names) <==>
              && e in FullScan(EVERYTHING, shards, names)
              && (q.kinds == {} || e.kind in q.kinds)
              && (q.since.Some? ==> AtMost(Iso(q.since.value), e.ts))
  {
    FullScanIsFiltered(q, shards, names);
  }

  ghost predicate YieldedIn(q: Query, shards: Shards, name: string, i: int, e: Event) {
    name in shards && Yields(q, shards[name], i, e)
  }

  /** A scan for everything has an event exactly when some named shard holds it and no
      earlier readable line of that shard has its id. */
  lemma {:induction false} FullScanYields(shards: Shards, names: seq<string>, e: Event)
    ensures e in FullScan(EVERYTHING, shards, names) <==>
              exists name, i :: name in names && YieldedIn(EVERYTHING, shards, name, i, e)
  {
    if names != [] {
      FullScanYields(shards, names[1..], e);
      assert names == [names[0]] + names[1..];
      if names[0] in shards {
        ShardYields(EVERYTHING, shards[names[0]], e);
        if i :| Yields(EVERYTHING, shards[names[0]], i, e) {
          assert YieldedIn(EVERYTHING, shards, names[0], i, e);
        }
      }
    }
  }

  lemma NextShard(q: Query, shards: Shards, names: seq<string>, now: Moment, i: nat, events: seq<Event>)
    requires i < |names| && names[i] in shards
    ensures var here := if Wanted(q, now, names[i]) then ReadShard(q, shards[names[i]]) else [];
            events + PrunedScan(q, shards, names[i..], now)
            == (events + here) + PrunedScan(q, shards, names[i + 1..], now)
  {
    assert names[i..][1..] == names[i + 1..];
  }

  method ScanShards(q: Query, shards: Shards, names: seq<string>, wanted: Option<set<string>>, ghost now: Moment)
    returns (events: seq<Event>)
    requires forall name :: name in names ==> name in shards
    requires wanted == if q.since.None? then None else Some(Months(q.since.value.month, now.month))
    ensures events == PrunedScan(q, shards, names, now)
  {
    events := [];
    for i := 0 to |names|
      invariant PrunedScan(q, shards, names, now) == events + PrunedScan(q, shards, names[i..], now)
    {
      assert names[i] in names;
      NextShard(q, shards, names, now, i, events);
      if wanted.None? || names[i] in wanted.value {
        var some := StreamShard(q, shards[names[i]]);
        events := events + some;
      } else {
        assert events + [] == events;
      }
    }
  }

  // ---- skipping months loses nothing -------------------------------------------------------------------

  /** The month part of a timestamp text. */
  function MonthOf(ts: string): string {
    if |ts| >= 7 then ts[..7] else ts
  }

  ghost predicate NoneLater(lines: seq<Line>, name: string) {
    forall i :: 0 <= i < |lines| && lines[i].Readable? ==> AtMost(MonthOf(lines[i].event.ts), name)
  }

  ghost predicate FiledInMonth(lines: seq<Line>, name: string, now: Moment) {
    exists k: nat :: k <= now.month && name == Stem(k) && NoneLater(lines, name)
  }

  /** A shard is named for the month it was written in: none later than now, and no
      event in it claims a later month than the shard's. */
  ghost predicate WellFiled(shards: Shards, now: Moment) {
    forall name :: name in shards ==> FiledInMonth(shards[name], name, now)
  }

  /** A timestamp whose month is before the start's is before the start. */
  lemma EarlierMonthIsEarlier(ts: string, since: Moment)
    requires Less(MonthOf(ts), Stem(since.month))
    ensures Less(ts, Iso(since))
  {
    if |ts| >= 7 {
      LessInFront(ts[..7], Stem(since.month), ts[7..], since.rest);
      assert ts == ts[..7] + ts[7..];
    } else {
      LessLonger(ts, Stem(since.month), since.rest);
    }
  }

  lemma OldEventIsEarly(ts: string, k: nat, since: Moment)
    requires IsMoment(since) && k < since.month && AtMost(MonthOf(ts), Stem(k))
    ensures Less(ts, Iso(since))
  {
    StemsAscend(k, since.month);
    Splits(Stem(k), MonthOf(ts), Stem(since.month));
    EarlierMonthIsEarlier(ts, since);
  }

  /** Skipping a shard is harmless exactly when it would have given nothing, and only
      then: the pruned read equals the full scan iff no skipped shard has a match. */
  lemma {:induction false} PruningLosesSkippedMatches(q: Query, shards: Shards, names: seq<string>, now: Moment)
    ensures |PrunedScan(q, shards, names, now)| <= |FullScan(q, shards, names)|
    ensures PrunedScan(q, shards, names, now) == FullScan(q, shards, names) <==>
              forall i :: 0 <= i < |names| && names[i] in shards && !Wanted(q, now, names[i]) ==>
                ReadShard(q, shards[names[i]]) == []
  {
    if names != [] {
      PruningLosesSkippedMatches(q, shards, names[1..], now);
      var here := if names[0] in shards then ReadShard(q, shards[names[0]]) else [];
      var kept := if names[0] in shards && Wanted(q, now, names[0]) then here else [];
      var fullRest, prunedRest := FullScan(q, shards, names[1..]), PrunedScan(q, shards, names[1..], now);
      if kept == here {
        assert (here + prunedRest)[|here|..] == prunedRest && (here + fullRest)[|here|..] == fullRest;
      }
      if forall i :: 0 <= i < |names| && names[i] in shards && !Wanted(q, now, names[i]) ==>
                ReadShard(q, shards[names[i]]) == []
      {
        forall i | 0 <= i < |names[1..]| && names[1..][i] in shards && !Wanted(q, now, names[1..][i])
          ensures ReadShard(q, shards[names[1..][i]]) == []
        {
          assert names[i + 1] == names[1..][i];
        }
      } else if kept == here {
        var i :| 0 <= i < |names| && names[i] in shards && !Wanted(q, now, names[i])
                 && ReadShard(q, shards[names[i]]) != [];
        assert i > 0 && names[1..][i - 1] == names[i];
      }
    }
  }

  // ---- when skipping months is safe, exactly ------------------------------------------------------------

  /** The first start month whose reads skip this shard: the month after its own, or the
      very first if the shard is not named for a month up to now. */
  ghost function FirstSkip(name: string, now: Moment): nat {
    if exists k :: 12 <= k <= now.month && Stem(k) == name then
      var k :| 12 <= k <= now.month && Stem(k) == name;
      k + 1
    else 12
  }

  lemma FirstSkipOfMonth(k: nat, now: Moment)
    requires IsMoment(now) && 12 <= k <= now.month
    ensures FirstSkip(Stem(k), now) == k + 1
  {
    var j :| 12 <= j <= now.month && Stem(j) == Stem(k) && FirstSkip(Stem(k), now) == j + 1;
    StemsDiffer(j, k);
  }

  lemma SkippedFrom(name: string, now: Moment, m: nat)
    requires IsMoment(now) && 12 <= m <= LAST_MONTH
    ensures name !in Months(m, now.month) <==> FirstSkip(name, now) <= m
  {
    if exists k :: 12 <= k <= now.month && Stem(k) == name {
      var k :| 12 <= k <= now.month && Stem(k) == name;
      FirstSkipOfMonth(k, now);
      MonthsMembers(m, now.month, k);
    }
  }

  /** A query a reader may make: no start, or a start whose text after the month is at
      least `least`. A clock's least is "-01T00:00:00.000000+00:00"; "" admits any text. */
  predicate Askable(q: Query, least: string) {
    q.since.Some? ==> IsMoment(q.since.value) && AtMost(least, q.since.value.rest)
  }

  /** Every event the shard can yield is stamped before month `skip` begins. */
  ghost predicate OnTime(lines: seq<Line>, skip: nat, least: string) {
    skip <= LAST_MONTH ==>
      forall i :: FirstOfEid(lines, i) ==> Less(lines[i].event.ts, Stem(skip) + least)
  }

  /** The start of an earlier month is no later than a start in a later one. */
  lemma StartsAscend(skip: nat, least: string, since: Moment)
    requires IsMoment(since) && skip <= since.month && AtMost(least, since.rest)
    ensures AtMost(Stem(skip) + least, Iso(since))
  {
    var first := Stem(skip) + least;
    if skip < since.month {
      StemsAscend(skip, since.month);
      LessInFront(Stem(skip), Stem(since.month), least, since.rest);
      Asymmetric(first, Iso(since));
    } else if least == since.rest {
      Irreflexive(first);
    } else {
      Total(least, since.rest);
      LessBehind(Stem(skip), least, since.rest);
      Asymmetric(first, Iso(since));
    }
  }

  lemma OnTimeGivesNothing(q: Query, lines: seq<Line>, skip: nat, least: string)
    requires Askable(q, least) && q.since.Some? && skip <= q.since.value.month && OnTime(lines, skip, least)
    ensures ReadShard(q, lines) == []
  {
    var start := Iso(q.since.value);
    StartsAscend(skip, least, q.since.value);
    forall i | FirstOfEid(lines, i) ensures !Matches(q, lines[i].event) {
      Splits(lines[i].event.ts, start, Stem(skip) + least);
    }
    NothingForQuery(q, lines);
  }

  lemma NothingMeansOnTime(lines: seq<Line>, skip: nat, least: string)
    requires ReadShard(Query(Some(Moment(skip, least)), {}), lines) == []
    ensures OnTime(lines, skip, least)
  {
    NothingForQuery(Query(Some(Moment(skip, least)), {}), lines);
  }

  /** Is every shard on time for the first month whose reads skip it? */
  ghost predicate FiledOnTime(shards: Shards, names: seq<string>, now: Moment, least: string) {
    forall i :: 0 <= i < |names| && names[i] in shards ==>
                  OnTime(shards[names[i]], FirstSkip(names[i], now), least)
  }

  lemma FiledOnTimeSuffices(q: Query, shards: Shards, names: seq<string>, now: Moment, least: string)
    requires IsMoment(now) && Askable(q, least) && FiledOnTime(shards, names, now, least)
    ensures PrunedScan(q, shards, names, now) == FullScan(q, shards, names)
  {
    forall i | 0 <= i < |names| && names[i] in shards && !Wanted(q, now, names[i])
      ensures ReadShard(q, shards[names[i]]) == []
    {
      SkippedFrom(names[i], now, q.since.value.month);
      OnTimeGivesNothing(q, shards[names[i]], FirstSkip(names[i], now), least);
    }
    PruningLosesSkippedMatches(q, shards, names, now);
  }

  lemma FiledOnTimeNeeded(shards: Shards, names: seq<string>, now: Moment, least: string, i: nat)
    requires IsMoment(now) && i < |names| && names[i] in shards
    requires forall q :: Askable(q, least) ==> PrunedScan(q, shards, names, now) == FullScan(q, shards, names)
    ensures OnTime(shards[names[i]], FirstSkip(names[i], now), least)
  {
    var skip := FirstSkip(names[i], now);
    if skip <= LAST_MONTH {
      var q := Query(Some(Moment(skip, least)), {});
      Irreflexive(least);
      assert Askable(q, least);
      SkippedFrom(names[i], now, skip);
      PruningLosesSkippedMatches(q, shards, names, now);
      NothingMeansOnTime(shards[names[i]], skip, least);
    }
  }

  /** Pruned reads lose nothing, whatever is asked, exactly when every event a shard can
      yield is stamped before the month after the shard's own begins; a shard not named
      for a month up to now may hold nothing that any start would accept. */
  lemma PruningIsSafeExactly(shards: Shards, names: seq<string>, now: Moment, least: string)
    requires IsMoment(now)
    ensures (forall q :: Askable(q, least) ==>
               PrunedScan(q, shards, names, now) == FullScan(q, shards, names))
            <==> FiledOnTime(shards, names, now, least)
  {
    if FiledOnTime(shards, names, now, least) {
      forall q | Askable(q, least) ensures PrunedScan(q, shards, names, now) == FullScan(q, shards, names) {
        FiledOnTimeSuffices(q, shards, names, now, least);
      }
    }
    if forall q :: Askable(q, least) ==> PrunedScan(q, shards, names, now) == FullScan(q, shards, names) {
      forall i | 0 <= i < |names| && names[i] in shards
        ensures OnTime(shards[names[i]], FirstSkip(names[i], now), least)
      {
        FiledOnTimeNeeded(shards, names, now, least, i);
      }
    }
  }

  lemma FiledInMonthIsOnTime(lines: seq<Line>, name: string, now: Moment, least: string)
    requires IsMoment(now) && FiledInMonth(lines, name, now)
    ensures OnTime(lines, FirstSkip(name, now), least)
  {
    var k: nat :| k <= now.month && name == Stem(k) && NoneLater(lines, name);
    var skip := FirstSkip(name, now);
    if k >= 12 {
      FirstSkipOfMonth(k, now);
    }
    if skip <= LAST_MONTH {
      forall i | FirstOfEid(lines, i) ensures Less(lines[i].event.ts, Stem(skip) + least) {
        OldEventIsEarly(lines[i].event.ts, k, Moment(skip, least));
      }
    }
  }

  /** On a ledger whose events are filed no earlier than their own month and no later
      than now, reading with months skipped is reading everything and filtering. */
  lemma PruningAgreesWithFullScan(q: Query, shards: Shards, names: seq<string>, now: Moment)
    requires IsMoment(now) && (q.since.Some? ==> IsMoment(q.since.value)) && WellFiled(shards, now)
    ensures PrunedScan(q, shards, names, now) == Filter(FullScan(EVERYTHING, shards, names), Matching(q))
  {
    forall i | 0 <= i < |names| && names[i] in shards
      ensures OnTime(shards[names[i]], FirstSkip(names[i], now), "")
    {
      FiledInMonthIsOnTime(shards[names[i]], names[i], now, "");
    }
    FiledOnTimeSuffices(q, shards, names, now, "");
    FullScanIsFiltered(q, shards, names);
  }

  /** Filing matters: an event stamped at or after the start but filed in an earlier
      month, as a caller's own timestamp allows, is lost to the pruned read. */
  lemma EarlyFiledEventIsLost(k: nat, since: Moment, now: Moment)
    requires IsMoment(since) && IsMoment(now) && k < since.month
    ensures var e := Event(Some("e1"), "tool", Iso(since));
            var shards := map[Stem(k) := [Readable(e)]];
            var q := Query(Some(since), {});
            PrunedScan(q, shards, [Stem(k)], now) == [] && FullScan(q, shards, [Stem(k)]) == [e]
  {
    var e := Event(Some("e1"), "tool", Iso(since));
    var lines := [Readable(e)];
    MonthsMembers(since.month, now.month, k);
    Irreflexive(Iso(since));
    assert lines[..0] == [];
    assert ReadShard(Query(Some(since), {}), lines) == [e];
  }

  // ---- reading --------------------------------------------------------------------------------------------

  function Anything(): (string, string) -> bool {
    (a: string, b: string) => true
  }

  lemma FileOrderRanks()
    ensures StableSort.Ranks(ByName())
  {
    var lt := ByName();
    forall x ensures !lt(x, x) {
      Irreflexive(x + SUFFIX);
    }
    forall x, y | lt(x, y) ensures !lt(y, x) {
      Asymmetric(x + SUFFIX, y + SUFFIX);
    }
    forall x, y, z | lt(x, z) ensures lt(x, y) || lt(y, z) {
      Splits(x + SUFFIX, y + SUFFIX, z + SUFFIX);
    }
  }

  /** The shards are read in the order of their file names. */
  lemma ShardsByFileName(files: seq<string>, i: nat, j: nat)
    requires i < j < |files|
    ensures AtMost(StableSort.Sort(files, ByName())[i] + ".jsonl", StableSort.Sort(files, ByName())[j] + ".jsonl")
  {
    var names := StableSort.Sort(files, ByName());
    FileOrderRanks();
    StableSort.SortOrders(files, ByName(), Anything());
    assert StableSort.Before(ByName(), Anything(), names[i], names[j]);
    if Less(names[i] + SUFFIX, names[j] + SUFFIX) {
      Asymmetric(names[i] + SUFFIX, names[j] + SUFFIX);
    }
  }

  /** On a well-filed ledger a read has an event exactly when some shard yields it and
      the query asks for it. */
  lemma ReadHas(q: Query, shards: Shards, files: seq<string>, now: Moment, e: Event)
    requires IsMoment(now) && (q.since.Some? ==> IsMoment(q.since.value)) && WellFiled(shards, now)
    ensures e in PrunedScan(q, shards, StableSort.Sort(files, ByName()), now) <==>
              && e in FullScan(EVERYTHING, shards, files)
              && (q.kinds == {} || e.kind in q.kinds)
              && (q.since.Some? ==> AtMost(Iso(q.since.value), e.ts))
  {
    var names := StableSort.Sort(files, ByName());
    StableSort.SortElems(files, ByName());
    PruningAgreesWithFullScan(q, shards, names, now);
    FullScanIsFiltered(q, shards, names);
    FullScanMatches(q, shards, names, e);
    FullScanYields(shards, names, e);
    FullScanYields(shards, files, e);
  }

  /** `files` are the stems of the shard files as the directory lists them; the files are
      read in the order of their names. */
  method ReadEvents(q: Query, shards: Shards, files: seq<string>, now: Moment) returns (events: seq<Event>)
    requires IsMoment(now) && (q.since.Some? ==> IsMoment(q.since.value))
    requires forall name :: name in files ==> name in shards
    ensures events == PrunedScan(q, shards, StableSort.Sort(files, ByName()), now)
    ensures WellFiled(shards, now) ==>
              forall e :: e in events <==>
                            && e in FullScan(EVERYTHING, shards, files)
                            && (q.kinds == {} || e.kind in q.kinds)
                            && (q.since.Some? ==> AtMost(Iso(q.since.value), e.ts))
  {
    var wanted: Option<set<string>> := None;
    if q.since.Some? {
      var months := MonthsBetween(q.since.value, now);
      wanted := Some(months);
    }
    StableSort.SortElems(files, ByName());
    events := ScanShards(q, shards, StableSort.Sort(files, ByName()), wanted, now);
    if WellFiled(shards, now) {
      forall e {
        ReadHas(q, shards, files, now, e);
      }
    }
  }

  // ---- writing --------------------------------------------------------------------------------------------

  class Ledger {
    var shards: Shards

    /** Records one event: stamped with the first clock reading unless the caller
        stamped it, filed by the second. `valid` is the verdict of the content rule. */
    method Emit(event: Event, first: Moment, second: Moment, valid: bool) returns (written: bool)
      requires IsMoment(first) && IsMoment(second) && first.month <= second.month
      modifies this
      ensures written == valid
      ensures !valid ==> shards == old(shards)
      ensures valid ==>
                var stamped := event.(ts := if event.ts == "" then Iso(first) else event.ts);
                shards == old(shards)[Stem(second.month) :=
                  (if Stem(second.month) in old(shards) then old(shards)[Stem(second.month)] else [])
                  + [Readable(stamped)]]
      ensures valid && WellFiled(old(shards), second) ==>
                (WellFiled(shards, second) <==> event.ts == "" || AtMost(MonthOf(event.ts), Stem(second.month)))
    {
      if !valid {
        return false;
      }
      var stamped := event.(ts := if event.ts == "" then Iso(first) else event.ts);
      var name := Stem(second.month);
      var lines := if name in shards then shards[name] else [];
      if WellFiled(shards, second) {
        FilingOneMore(shards, second, stamped);
      }
      if event.ts == "" {
        OwnMonth(first, second);
      }
      shards := shards[name := lines + [Readable(stamped)]];
      return true;
    }
  }

  lemma OwnMonth(first: Moment, second: Moment)
    requires first.month <= second.month <= LAST_MONTH
    ensures AtMost(MonthOf(Iso(first)), Stem(second.month))
  {
    assert Iso(first)[..7] == Stem(first.month);
    if first.month < second.month {
      StemsAscend(first.month, second.month);
      Asymmetric(Stem(first.month), Stem(second.month));
    } else {
      Irreflexive(Stem(first.month));
    }
  }

  lemma FilingOneMore(shards: Shards, now: Moment, e: Event)
    requires IsMoment(now) && WellFiled(shards, now)
    ensures var name := Stem(now.month);
            WellFiled(shards[name := (if name in shards then shards[name] else []) + [Readable(e)]], now)
            <==> AtMost(MonthOf(e.ts), name)
  {
    var name := Stem(now.month);
    var before := if name in shards then shards[name] else [];
    var after := shards[name := before + [Readable(e)]];
    assert name in shards ==> FiledInMonth(shards[name], name, now);
    if AtMost(MonthOf(e.ts), name) {
      assert NoneLater(after[name], name);
      assert FiledInMonth(after[name], name, now);
      forall other | other in after && other != name ensures FiledInMonth(after[other], other, now) {
        assert FiledInMonth(shards[other], other, now);
      }
    }
    if WellFiled(after, now) {
      assert FiledInMonth(after[name], name, now);
      assert after[name][|before|] == Readable(e);
    }
  }

  /** Time passing does not unfile anything. */
  lemma StaysFiled(shards: Shards, now: Moment, later: Moment)
    requires WellFiled(shards, now) && now.month <= later.month
    ensures WellFiled(shards, later)
  {
    forall name | name in shards ensures FiledInMonth(shards[name], name, later) {
      assert FiledInMonth(shards[name], name, now);
      var k: nat :| k <= now.month && name == Stem(k) && NoneLater(shards[name], name);
    }
  }
}
