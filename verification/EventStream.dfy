/** The forward event stream: pages that tile it. */
module EventStream {
  import opened StringOrder

  /** A row of the events table. `mine` marks the caller's own membership events. */
  datatype Row = Row(pos: int, id: string, room: string, accepted: bool, mine: bool)

  /** Who asks: the rooms, whether they are only peeking, and how many events a page may hold. */
  datatype Query = Query(rooms: set<string>, peeking: bool, limit: int)

  /** The table in stream order: every row its own position and identifier. */
  ghost predicate IsLog(log: seq<Row>) {
    && (forall i, j :: 0 <= i < j < |log| ==> log[i].pos < log[j].pos)
    && (forall i, j :: 0 <= i < j < |log| ==> log[i].id != log[j].id)
  }

  predicate Earlier(a: Row, b: Row) {
    a.pos < b.pos
  }

  /** What the stream is of: accepted events of the rooms, and the caller's own memberships
      wherever they landed. */
  predicate Streamed(q: Query, r: Row) {
    (r.room in q.rooms && r.accepted) || (r.mine && !q.peeking)
  }

  /** Everything there is to consider in a window. */
  function Merged(log: seq<Row>, q: Query, from: int, to: int): seq<Row> {
    if log == [] then [] else
      var r := log[|log| - 1];
      Merged(log[..|log| - 1], q, from, to) + if from < r.pos <= to && Streamed(q, r) then [r] else []
  }

  /** How many rows of a room a window holds, rejected ones included. */
  function RowNumber(log: seq<Row>, room: string, from: int): nat {
    if log == [] then 0 else
      var r := log[|log| - 1];
      RowNumber(log[..|log| - 1], room, from) + if r.pos > from && r.room == room then 1 else 0
  }

  /** The last row of the table is among its room's first in the window. */
  predicate WithinCap(log: seq<Row>, q: Query, from: int)
    requires log != []
  {
    var r := log[|log| - 1];
    r.room in q.rooms && r.accepted && RowNumber(log, r.room, from) <= q.limit
  }

  /** What the two queries load: each room capped, and the memberships. */
  function Loaded(log: seq<Row>, q: Query, from: int, to: int): seq<Row> {
    if log == [] then [] else
      var r := log[|log| - 1];
      Loaded(log[..|log| - 1], q, from, to)
      + if from < r.pos <= to && (WithinCap(log, q, from) || (r.mine && !q.peeking)) then [r] else []
  }

  /** The first of a sequence, when there is a limit. */
  function Cut(s: seq<Row>, limit: int): seq<Row> {
    if limit <= 0 || |s| <= limit then s else s[..limit]
  }

  // ---------------------------------------------------------------- the queries

  /** A row of the window among its room's first. */
  ghost predicate Capped(log: seq<Row>, q: Query, from: int, to: int, r: Row) {
    exists i :: 0 <= i < |log| && log[i] == r && from < r.pos <= to && WithinCap(log[..i + 1], q, from)
  }

  /** What one more row adds to the counts and to what is loaded. */
  lemma OneMore(log: seq<Row>, n: nat, q: Query, from: int, to: int)
    requires n < |log|
    ensures forall room :: RowNumber(log[..n + 1], room, from)
                        == RowNumber(log[..n], room, from) + (if log[n].pos > from && log[n].room == room then 1 else 0)
    ensures WithinCap(log[..n + 1], q, from) <==>
      log[n].room in q.rooms && log[n].accepted && RowNumber(log[..n + 1], log[n].room, from) <= q.limit
    ensures forall r :: Capped(log[..n + 1], q, from, to, r) <==>
      Capped(log[..n], q, from, to, r) || (r == log[n] && from < r.pos <= to && WithinCap(log[..n + 1], q, from))
  {
    var before, after := log[..n], log[..n + 1];
    assert after[..n] == before;
    hide RowNumber;
    forall r
      ensures Capped(after, q, from, to, r) <==>
        Capped(before, q, from, to, r) || (r == log[n] && from < r.pos <= to && WithinCap(after, q, from))
    {
      assert after[..n + 1] == after;
      forall i | 0 <= i < n
        ensures after[..i + 1] == before[..i + 1] && after[i] == before[i]
      {
      }
    }
  }

  /** Each room's rows in the window, oldest first, capped per room; rejected rows take a number and
      are dropped. */
  method RoomEventsForward(log: seq<Row>, q: Query, from: int, to: int) returns (out: seq<Row>)
    ensures forall r :: r in out <==> Capped(log, q, from, to, r)
  {
    out := [];
    if q.rooms == {} || q.limit <= 0 || from >= to {
      NothingCapped(log, q, from, to);
      return;
    }
    hide WithinCap, Capped;
    var numbers: map<string, nat> := map[];
    for i := 0 to |log|
      invariant forall room :: (if room in numbers then numbers[room] else 0) == RowNumber(log[..i], room, from)
      invariant forall r :: r in out <==> Capped(log[..i], q, from, to, r)
    {
      var r := log[i];
      OneMore(log, i, q, from, to);
      if r.pos > from {
        numbers := numbers[r.room := (if r.room in numbers then numbers[r.room] else 0) + 1];
        if r.pos <= to && r.room in q.rooms && numbers[r.room] <= q.limit && r.accepted {
          out := out + [r];
        }
      }
    }
    assert log[..|log|] == log;
  }

  lemma NothingCapped(log: seq<Row>, q: Query, from: int, to: int)
    requires q.rooms == {} || q.limit <= 0 || from >= to
    ensures forall r :: !Capped(log, q, from, to, r)
  {
    forall i | 0 <= i < |log| && from < log[i].pos <= to
      ensures !WithinCap(log[..i + 1], q, from)
    {
      OneMore(log, i, q, from, to);
    }
  }

  lemma CappedInLog(log: seq<Row>, q: Query, from: int, to: int)
    ensures forall r :: Capped(log, q, from, to, r) ==> r in log
  {
  }

  /** The caller's own membership events in the window. */
  method MembershipEvents(log: seq<Row>, from: int, to: int) returns (out: seq<Row>)
    ensures forall r :: r in out <==> r in log && r.mine && from < r.pos <= to
  {
    out := [];
    for i := 0 to |log|
      invariant forall r :: r in out <==> r in log[..i] && r.mine && from < r.pos <= to
    {
      if log[i].mine && from < log[i].pos <= to {
        out := out + [log[i]];
      }
      assert log[..i + 1] == log[..i] + [log[i]];
    }
    assert log[..|log|] == log;
  }

  ghost predicate InOrder(s: seq<Row>) {
    forall i, j :: 0 <= i < j < |s| ==> s[i].pos <= s[j].pos
  }

  /** A stable sort by stream position. */
  method SortByPosition(events: seq<Row>) returns (out: seq<Row>)
    ensures InOrder(out) && forall r :: r in out <==> r in events
  {
    out := [];
    for i := 0 to |events|
      invariant InOrder(out) && forall r :: r in out <==> r in events[..i]
    {
      var k := |out|;
      while k > 0 && out[k - 1].pos > events[i].pos
        invariant 0 <= k <= |out| && forall j :: k <= j < |out| ==> out[j].pos > events[i].pos
      {
        k := k - 1;
      }
      Inserted(out, k, events[i]);
      out := out[..k] + [events[i]] + out[k..];
      assert events[..i + 1] == events[..i] + [events[i]];
    }
    assert events[..|events|] == events;
  }

  lemma Inserted(s: seq<Row>, k: nat, e: Row)
    requires InOrder(s) && k <= |s|
    requires forall j :: k <= j < |s| ==> s[j].pos > e.pos
    requires k > 0 ==> s[k - 1].pos <= e.pos
    ensures InOrder(s[..k] + [e] + s[k..])
    ensures forall r :: r in s[..k] + [e] + s[k..] <==> r in s || r == e
  {
    assert s == s[..k] + s[k..];
  }

  /** Each event once. A membership event in a joined room comes back from both queries. */
  method Unique(events: seq<Row>, ghost log: seq<Row>) returns (out: seq<Row>)
    requires IsLog(log) && InOrder(events) && forall r :: r in events ==> r in log
    ensures Ascending(Earlier, out) && forall r :: r in out <==> r in events
  {
    hide IsLog, InOrder;
    out := [];
    var seen: set<string> := {};
    for i := 0 to |events|
      invariant Ascending(Earlier, out) && forall r :: r in out <==> r in events[..i]
      invariant forall id :: id in seen <==> exists r :: r in out && r.id == id
    {
      var e := events[i];
      if e.id in seen {
        var r :| r in out && r.id == e.id;
        OneRow(log, r, e);
      } else {
        LaterThanAll(out, events, i, log);
        seen, out := seen + {e.id}, out + [e];
      }
      assert events[..i + 1] == events[..i] + [e];
    }
    assert events[..|events|] == events;
  }

  lemma LaterThanAll(out: seq<Row>, events: seq<Row>, i: nat, log: seq<Row>)
    requires IsLog(log) && InOrder(events) && i < |events| && forall r :: r in events ==> r in log
    requires forall r :: r in out ==> r in events[..i] && r.id != events[i].id
    ensures forall k :: 0 <= k < |out| ==> out[k].pos < events[i].pos
  {
    forall k | 0 <= k < |out|
      ensures out[k].pos < events[i].pos
    {
      assert out[k] in events[..i];
      var j :| 0 <= j < i && events[..i][j] == out[k];
      OneRow(log, out[k], events[i]);
    }
  }

  /** Rows of one table with the same identifier, or the same position, are the same row. */
  lemma OneRow(log: seq<Row>, a: Row, b: Row)
    requires IsLog(log) && a in log && b in log
    ensures a.id == b.id <==> a == b
    ensures a.pos == b.pos <==> a == b
  {
    var i :| 0 <= i < |log| && log[i] == a;
    var j :| 0 <= j < |log| && log[j] == b;
    if i < j {
    } else if j < i {
    }
  }

  // ------------------------------------------------------------------- one page

  lemma {:induction false} LoadedFrom(log: seq<Row>, q: Query, from: int, to: int, r: Row)
    ensures r in Loaded(log, q, from, to) <==>
      exists i :: 0 <= i < |log| && log[i] == r && from < r.pos <= to && (WithinCap(log[..i + 1], q, from) || (r.mine && !q.peeking))
  {
    if log != [] {
      var n := |log| - 1;
      LoadedFrom(log[..n], q, from, to, r);
      assert log[..n + 1] == log;
      var init := log[..n];
      forall i | 0 <= i < n
        ensures init[..i + 1] == log[..i + 1] && init[i] == log[i]
      {
      }
    }
  }

  lemma LoadedRows(log: seq<Row>, q: Query, from: int, to: int)
    ensures forall r :: r in Loaded(log, q, from, to) ==>
      r in log && from < r.pos <= to && ((r.room in q.rooms && r.accepted) || (r.mine && !q.peeking))
  {
    forall r | r in Loaded(log, q, from, to)
      ensures r in log && from < r.pos <= to && ((r.room in q.rooms && r.accepted) || (r.mine && !q.peeking))
    {
      LoadedFrom(log, q, from, to, r);
    }
  }

  lemma PrefixIsLog(log: seq<Row>, n: nat)
    requires IsLog(log) && n <= |log|
    ensures IsLog(log[..n])
  {
  }

  lemma {:induction false} LoadedAscending(log: seq<Row>, q: Query, from: int, to: int)
    requires IsLog(log)
    ensures Ascending(Earlier, Loaded(log, q, from, to))
  {
    if log != [] {
      var n := |log| - 1;
      PrefixIsLog(log, n);
      LoadedAscending(log[..n], q, from, to);
      forall r | r in Loaded(log[..n], q, from, to)
        ensures r.pos < log[n].pos
      {
        LoadedFrom(log[..n], q, from, to, r);
      }
    }
  }

  lemma EarlierStrict()
    ensures StrictOrder(Earlier)
  {
  }

  /** The page: both queries merged in stream order, each event once, cut to the limit; and the
      token to resume from. */
  method EventStreamRoomEvents(log: seq<Row>, q: Query, from: int, now: int) returns (events: seq<Row>, key: int)
    requires IsLog(log) && from <= now
    ensures events == Cut(Loaded(log, q, from, now), q.limit)
    ensures key == if events == [] then now else events[|events| - 1].pos
    ensures q.limit > 0 ==> |events| <= q.limit
    ensures forall r :: r in events ==> r in log && from < r.pos <= now && ((r.room in q.rooms && r.accepted) || (r.mine && !q.peeking))
  {
    hide WithinCap, Loaded, Capped;
    LoadedRows(log, q, from, now);
    if from == now {
      forall r
        ensures r !in Loaded(log, q, from, now)
      {
        LoadedFrom(log, q, from, now, r);
      }
      EmptyIff(Loaded(log, q, from, now));
      return [], now;
    }
    events := RoomEventsForward(log, q, from, now);
    if !q.peeking {
      var changes := MembershipEvents(log, from, now);
      events := events + changes;
    }
    CappedInLog(log, q, from, now);
    events := SortByPosition(events);
    events := Unique(events, log);
    PageIsLoaded(log, q, from, now, events);
    if q.limit > 0 && |events| > q.limit {
      events := events[..q.limit];
    }
    key := if events == [] then now else events[|events| - 1].pos;
  }

  lemma PageIsLoaded(log: seq<Row>, q: Query, from: int, now: int, events: seq<Row>)
    requires IsLog(log) && Ascending(Earlier, events)
    requires forall r :: r in events <==>
      Capped(log, q, from, now, r) || (!q.peeking && r in log && r.mine && from < r.pos <= now)
    ensures events == Loaded(log, q, from, now)
  {
    hide WithinCap, Loaded;
    EarlierStrict();
    LoadedAscending(log, q, from, now);
    forall r
      ensures r in events <==> r in Loaded(log, q, from, now)
    {
      LoadedFrom(log, q, from, now, r);
    }
    AscendingUnique(Earlier, events, Loaded(log, q, from, now));
  }

  // -------------------------------------------------------- the page is the window's head

  /** No row of the rooms was rejected in the window. */
  ghost predicate NoneRejected(log: seq<Row>, q: Query, from: int) {
    forall r :: r in log && r.pos > from && r.room in q.rooms ==> r.accepted
  }

  /** Each event that belongs on the page escapes the cap: its room shows few enough rows before it,
      or it is the caller's own. */
  ghost predicate CapSpares(log: seq<Row>, q: Query, from: int, to: int) {
    forall i {:trigger log[..i + 1]} :: 0 <= i < |log| && from < log[i].pos <= to && Streamed(q, log[i])
      && |Merged(log[..i + 1], q, from, to)| <= q.limit
      ==> WithinCap(log[..i + 1], q, from) || (log[i].mine && !q.peeking)
  }

  lemma {:induction false} RowNumberBound(log: seq<Row>, q: Query, room: string, from: int, to: int)
    requires NoneRejected(log, q, from) && room in q.rooms && forall r :: r in log ==> r.pos <= to
    ensures RowNumber(log, room, from) <= |Merged(log, q, from, to)|
  {
    if log != [] {
      var n := |log| - 1;
      assert log[n] in log;
      RowNumberBound(log[..n], q, room, from, to);
    }
  }

  /** Without rejected rows the cap never reaches what belongs on the page. */
  lemma NoneRejectedSpares(log: seq<Row>, q: Query, from: int, to: int)
    requires IsLog(log) && NoneRejected(log, q, from)
    ensures CapSpares(log, q, from, to)
  {
    forall i | 0 <= i < |log| && from < log[i].pos <= to && Streamed(q, log[i]) && |Merged(log[..i + 1], q, from, to)| <= q.limit
      ensures WithinCap(log[..i + 1], q, from) || (log[i].mine && !q.peeking)
    {
      if log[i].room in q.rooms {
        var upTo := log[..i + 1];
        assert forall r :: r in upTo ==> r in log && r.pos <= to;
        RowNumberBound(upTo, q, log[i].room, from, to);
        assert log[i] in log;
      }
    }
  }

  /** What holds of the loaded and the merged events as rows arrive. */
  ghost predicate Heads(loaded: seq<Row>, merged: seq<Row>, limit: int) {
    && |loaded| <= |merged|
    && (|merged| <= limit ==> loaded == merged)
    && Cut(loaded, limit) == Cut(merged, limit)
  }

  lemma HeadsStep(loaded: seq<Row>, merged: seq<Row>, r: Row, loads: bool, merges: bool, limit: int)
    requires limit > 0 && Heads(loaded, merged, limit)
    requires (loads ==> merges) && (merges && |merged| < limit ==> loads)
    ensures Heads(loaded + (if loads then [r] else []), merged + (if merges then [r] else []), limit)
  {
  }

  /** Loaded events are merged events; and while the page is not full they are all of them. */
  lemma {:induction false} PageIsHead(log: seq<Row>, q: Query, from: int, to: int)
    requires q.limit > 0 && CapSpares(log, q, from, to)
    ensures Heads(Loaded(log, q, from, to), Merged(log, q, from, to), q.limit)
  {
    hide WithinCap, Heads;
    if log == [] {
      NoHeads(q.limit);
    } else {
      var n := |log| - 1;
      var init, r := log[..n], log[n];
      assert log[..n + 1] == log;
      forall i | 0 <= i < n
        ensures init[..i + 1] == log[..i + 1] && init[i] == log[i]
      {
      }
      PageIsHead(init, q, from, to);
      if WithinCap(log, q, from) {
        CapMerges(log, q, from);
      }
      HeadsStep(Loaded(init, q, from, to), Merged(init, q, from, to), r,
                from < r.pos <= to && (WithinCap(log, q, from) || (r.mine && !q.peeking)),
                from < r.pos <= to && Streamed(q, r), q.limit);
    }
  }

  lemma NoHeads(limit: int)
    ensures Heads([], [], limit)
  {
  }

  lemma CapMerges(log: seq<Row>, q: Query, from: int)
    requires log != [] && WithinCap(log, q, from)
    ensures Streamed(q, log[|log| - 1])
  {
  }

  lemma {:induction false} MergedFrom(log: seq<Row>, q: Query, from: int, to: int, r: Row)
    ensures r in Merged(log, q, from, to) <==> r in log && from < r.pos <= to && Streamed(q, r)
  {
    if log != [] {
      var n := |log| - 1;
      MergedFrom(log[..n], q, from, to, r);
      assert log == log[..n] + [log[n]];
    }
  }

  lemma {:induction false} MergedPrefix(log: seq<Row>, k: nat, q: Query, from: int, to: int)
    requires k <= |log|
    ensures Merged(log[..k], q, from, to) <= Merged(log, q, from, to)
  {
    if k == |log| {
      assert log[..k] == log;
    } else {
      var n := |log| - 1;
      assert log[..n][..k] == log[..k];
      MergedPrefix(log[..n], k, q, from, to);
    }
  }

  /** The page is the head of the window exactly when the cap spares what belongs on it. */
  lemma PageIsHeadIff(log: seq<Row>, q: Query, from: int, to: int)
    requires IsLog(log) && q.limit > 0
    ensures Cut(Loaded(log, q, from, to), q.limit) == Cut(Merged(log, q, from, to), q.limit) <==> CapSpares(log, q, from, to)
  {
    if CapSpares(log, q, from, to) {
      PageIsHead(log, q, from, to);
    } else {
      var i :| 0 <= i < |log| && from < log[i].pos <= to && Streamed(q, log[i]) && |Merged(log[..i + 1], q, from, to)| <= q.limit
        && !(WithinCap(log[..i + 1], q, from) || (log[i].mine && !q.peeking));
      hide CapSpares, WithinCap, Loaded, Merged;
      NotLoaded(log, q, from, to, i);
      OnThePage(log, q, from, to, i);
    }
  }

  lemma NotLoaded(log: seq<Row>, q: Query, from: int, to: int, i: nat)
    requires IsLog(log) && i < |log| && !(WithinCap(log[..i + 1], q, from) || (log[i].mine && !q.peeking))
    ensures log[i] !in Cut(Loaded(log, q, from, to), q.limit)
  {
    hide WithinCap, Loaded;
    LoadedFrom(log, q, from, to, log[i]);
    assert forall j :: 0 <= j < |log| && log[j] == log[i] ==> j == i;
  }

  lemma OnThePage(log: seq<Row>, q: Query, from: int, to: int, i: nat)
    requires i < |log| && from < log[i].pos <= to && Streamed(q, log[i]) && |Merged(log[..i + 1], q, from, to)| <= q.limit
    ensures log[i] in Cut(Merged(log, q, from, to), q.limit)
  {
    hide Merged;
    assert log[..i + 1][i] == log[i];
    MergedFrom(log[..i + 1], q, from, to, log[i]);
    MergedPrefix(log, i + 1, q, from, to);
    assert Merged(log[..i + 1], q, from, to) <= Cut(Merged(log, q, from, to), q.limit);
  }

  // -------------------------------------------------------------------- whole chains

  lemma {:induction false} MergedAscending(log: seq<Row>, q: Query, from: int, to: int)
    requires IsLog(log)
    ensures Ascending(Earlier, Merged(log, q, from, to))
  {
    if log != [] {
      var n := |log| - 1;
      PrefixIsLog(log, n);
      MergedAscending(log[..n], q, from, to);
      forall r | r in Merged(log[..n], q, from, to)
        ensures r.pos < log[n].pos
      {
        MergedFrom(log[..n], q, from, to, r);
      }
    }
  }

  lemma MergedWithin(log: seq<Row>, q: Query, from: int, to: int)
    ensures forall r :: r in Merged(log, q, from, to) ==> from < r.pos <= to
  {
    forall r | r in Merged(log, q, from, to)
      ensures from < r.pos <= to
    {
      MergedFrom(log, q, from, to, r);
    }
  }

  /** Adjoining windows hold what the whole does. */
  lemma {:induction false} MergedSplit(log: seq<Row>, q: Query, from: int, mid: int, to: int)
    requires IsLog(log) && from <= mid <= to
    ensures Merged(log, q, from, to) == Merged(log, q, from, mid) + Merged(log, q, mid, to)
  {
    if log != [] {
      var n := |log| - 1;
      PrefixIsLog(log, n);
      MergedSplit(log[..n], q, from, mid, to);
      if log[n].pos <= mid {
        forall r
          ensures r !in Merged(log[..n], q, mid, to)
        {
          MergedFrom(log[..n], q, mid, to, r);
        }
        EmptyIff(Merged(log[..n], q, mid, to));
      }
    }
  }

  /** A page that is the head of its window is everything up to the token it ends with. */
  lemma HeadIsWindow(log: seq<Row>, q: Query, from: int, now: int, page: seq<Row>, key: int)
    requires IsLog(log) && q.limit > 0 && from <= now && page == Cut(Merged(log, q, from, now), q.limit)
    requires key == if page == [] then now else page[|page| - 1].pos
    ensures from <= key <= now && page == Merged(log, q, from, key)
  {
    hide Merged;
    var all := Merged(log, q, from, now);
    MergedWithin(log, q, from, now);
    MergedAscending(log, q, from, now);
    assert page != [] ==> page[|page| - 1] in all;
    MergedSplit(log, q, from, key, now);
    MergedWithin(log, q, from, key);
    MergedWithin(log, q, key, now);
    var before, after := Merged(log, q, from, key), Merged(log, q, key, now);
    if page != [] {
      assert all[|page| - 1].pos == key;
      assert |before| < |all| ==> all[|before|] == after[0];
      assert |page| < |all| ==> all[|page|].pos > key;
      assert forall i :: 0 <= i < |before| ==> all[i] == before[i];
    }
  }

  function Concat(pages: seq<seq<Row>>): seq<Row> {
    if pages == [] then [] else Concat(pages[..|pages| - 1]) + pages[|pages| - 1]
  }

  /** A client following the stream: each request starts at the token the last one ended with.
      `log` is the table in the end: what a token covers was committed when it was handed out. */
  ghost predicate IsChain(log: seq<Row>, q: Query, tokens: seq<int>, nows: seq<int>, pages: seq<seq<Row>>) {
    && |tokens| == |pages| + 1 && |nows| == |pages|
    && (forall k :: 0 <= k < |pages| ==> tokens[k] <= nows[k] && pages[k] == Cut(Loaded(log, q, tokens[k], nows[k]), q.limit))
    && (forall k :: 0 <= k < |pages| ==>
         tokens[k + 1] == if tokens[k] == nows[k] then tokens[k] else if pages[k] == [] then nows[k] else pages[k][|pages[k]| - 1].pos)
  }

  lemma {:induction false} PagesAreWindow(log: seq<Row>, q: Query, tokens: seq<int>, nows: seq<int>, pages: seq<seq<Row>>)
    requires IsLog(log) && q.limit > 0 && IsChain(log, q, tokens, nows, pages)
    requires forall k :: 0 <= k < |pages| ==> CapSpares(log, q, tokens[k], nows[k])
    ensures tokens[0] <= tokens[|pages|]
    ensures Concat(pages) == Merged(log, q, tokens[0], tokens[|pages|])
  {
    hide Merged, Loaded, CapSpares, IsLog;
    if pages == [] {
      EmptyWindow(log, q, tokens[0]);
    } else {
      var n := |pages| - 1;
      PagesAreWindow(log, q, tokens[..n + 1], nows[..n], pages[..n]);
      PageIsHeadIff(log, q, tokens[n], nows[n]);
      var key := if pages[n] == [] then nows[n] else pages[n][|pages[n]| - 1].pos;
      HeadIsWindow(log, q, tokens[n], nows[n], pages[n], key);
      MergedSplit(log, q, tokens[0], tokens[n], tokens[n + 1]);
    }
  }

  /** Tiling: however the requests fall, if the cap spared each page, the pages laid end to end are
      every event of the stream between the first token and the last, once each, in order: the
      accepted events of the rooms, and the caller's own memberships unless only peeking. */
  lemma PagesTile(log: seq<Row>, q: Query, tokens: seq<int>, nows: seq<int>, pages: seq<seq<Row>>)
    requires IsLog(log) && q.limit > 0 && IsChain(log, q, tokens, nows, pages)
    requires forall k :: 0 <= k < |pages| ==> CapSpares(log, q, tokens[k], nows[k])
    ensures tokens[0] <= tokens[|pages|] && Ascending(Earlier, Concat(pages))
    ensures Concat(pages) == Merged(log, q, tokens[0], tokens[|pages|])
    ensures forall r :: r in Concat(pages) <==>
      r in log && tokens[0] < r.pos <= tokens[|pages|] && ((r.room in q.rooms && r.accepted) || (r.mine && !q.peeking))
  {
    var from, to := tokens[0], tokens[|pages|];
    PagesAreWindow(log, q, tokens, nows, pages);
    MergedAscending(log, q, from, to);
    hide Merged, Loaded, CapSpares, IsLog, IsChain, Concat;
    forall r
      ensures r in Merged(log, q, from, to) <==>
        r in log && from < r.pos <= to && ((r.room in q.rooms && r.accepted) || (r.mine && !q.peeking))
    {
      MergedFrom(log, q, from, to, r);
    }
  }

  lemma EmptyWindow(log: seq<Row>, q: Query, at: int)
    ensures Merged(log, q, at, at) == []
  {
    forall r
      ensures r !in Merged(log, q, at, at)
    {
      MergedFrom(log, q, at, at, r);
    }
    EmptyIff(Merged(log, q, at, at));
  }

  lemma {:induction false} TokensRise(log: seq<Row>, q: Query, tokens: seq<int>, nows: seq<int>, pages: seq<seq<Row>>, k: nat)
    requires IsChain(log, q, tokens, nows, pages) && k < |tokens|
    ensures tokens[0] <= tokens[k]
  {
    hide Loaded;
    if k > 0 {
      var page := pages[k - 1];
      TokensRise(log, q, tokens, nows, pages, k - 1);
      if page != [] {
        LoadedFrom(log, q, tokens[k - 1], nows[k - 1], page[|page| - 1]);
      }
    }
  }

  /** With no rejected row above the first token, every chain tiles. */
  lemma AcceptedRowsTile(log: seq<Row>, q: Query, tokens: seq<int>, nows: seq<int>, pages: seq<seq<Row>>)
    requires IsLog(log) && q.limit > 0 && IsChain(log, q, tokens, nows, pages)
    requires NoneRejected(log, q, tokens[0])
    ensures Concat(pages) == Merged(log, q, tokens[0], tokens[|pages|])
    ensures forall r :: r in Concat(pages) <==>
      r in log && tokens[0] < r.pos <= tokens[|pages|] && ((r.room in q.rooms && r.accepted) || (r.mine && !q.peeking))
  {
    hide Merged, Loaded, CapSpares;
    forall k | 0 <= k < |pages|
      ensures CapSpares(log, q, tokens[k], nows[k])
    {
      TokensRise(log, q, tokens, nows, pages, k);
      NoneRejectedSpares(log, q, tokens[k], nows[k]);
    }
    PagesTile(log, q, tokens, nows, pages);
  }

  /** A rejected row can cost the stream an event: it uses up its room's share of the page, a later
      event of another room is returned, and the token moves past the one left out. */
  lemma RejectedRowSkipsEvent()
    ensures var q := Query({"a", "b"}, true, 1);
            var log := [Row(1, "x", "a", false, false), Row(2, "y", "a", true, false), Row(3, "z", "b", true, false)];
            IsLog(log) && !CapSpares(log, q, 0, 3) && Loaded(log, q, 0, 3) == [log[2]] && log[1] in Merged(log, q, 0, 3)
  {
    var q := Query({"a", "b"}, true, 1);
    var x, y, z := Row(1, "x", "a", false, false), Row(2, "y", "a", true, false), Row(3, "z", "b", true, false);
    var one, two, log := [x], [x, y], [x, y, z];
    assert one[..0] == [] && two[..1] == one && log[..2] == two && log[..3] == log;
    Numbered(x, y, z);
    hide RowNumber;
    assert !WithinCap(one, q, 0) && !WithinCap(two, q, 0) && WithinCap(log, q, 0);
    hide WithinCap;
    assert Loaded(one, q, 0, 3) == [];
    assert Loaded(two, q, 0, 3) == [];
    assert Merged(one, q, 0, 3) == [];
    assert Merged(two, q, 0, 3) == [y];
    assert !WithinCap(log[..1 + 1], q, 0);
  }

  lemma Numbered(x: Row, y: Row, z: Row)
    requires x.room == y.room != z.room && x.pos > 0 && y.pos > 0 && z.pos > 0
    ensures RowNumber([x, y], y.room, 0) == 2 && RowNumber([x, y, z], z.room, 0) == 1
  {
    var one, two, log := [x], [x, y], [x, y, z];
    assert one[..0] == [] && two[..1] == one && log[..2] == two;
    assert RowNumber(one, x.room, 0) == 1 && RowNumber(one, z.room, 0) == 0;
    assert RowNumber(two, z.room, 0) == 0;
  }
}
