/** A joined room's timeline in an incremental sync. */
module Timeline {
  import opened Common

  const MAX_TIMELINE_REPEATS := 5

  /** A row of the events table: where it is, whether it was accepted, whether the client's filter
      wants it and history visibility shows it, and the reader's membership at it. */
  datatype Row = Row(pos: int, accepted: bool, wanted: bool, visible: bool, membership: string)

  ghost predicate InStreamOrder(rows: seq<Row>) {
    forall i, j :: 0 <= i < j < |rows| ==> rows[i].pos < rows[j].pos
  }

  // ---------------------------------------------------------------- thinning

  predicate Passes(r: Row) {
    r.accepted && r.wanted && r.visible
  }

  function Accepted(rows: seq<Row>): seq<Row> {
    if rows == [] then [] else
      var r := rows[|rows| - 1];
      Accepted(rows[..|rows| - 1]) + if r.accepted then [r] else []
  }

  function Passing(rows: seq<Row>): seq<Row> {
    if rows == [] then [] else
      var r := rows[|rows| - 1];
      Passing(rows[..|rows| - 1]) + if Passes(r) then [r] else []
  }

  function Memberships(rows: seq<Row>): seq<string> {
    seq(|rows|, i requires 0 <= i < |rows| => rows[i].membership)
  }

  lemma {:induction false} PassingConcat(a: seq<Row>, b: seq<Row>)
    ensures Passing(a + b) == Passing(a) + Passing(b)
  {
    if b == [] {
      assert a + b == a;
    } else {
      assert (a + b)[..|a + b| - 1] == a + b[..|b| - 1];
      PassingConcat(a, b[..|b| - 1]);
    }
  }

  lemma {:induction false} PassingAccepted(rows: seq<Row>)
    ensures Passing(Accepted(rows)) == Passing(rows)
  {
    if rows != [] {
      var n := |rows| - 1;
      PassingAccepted(rows[..n]);
      PassingConcat(Accepted(rows[..n]), if rows[n].accepted then [rows[n]] else []);
      assert [rows[n]][..0] == [];
    }
  }

  lemma {:induction false} PassingFrom(rows: seq<Row>, r: Row)
    ensures r in Passing(rows) <==> r in rows && Passes(r)
  {
    if rows != [] {
      var n := |rows| - 1;
      PassingFrom(rows[..n], r);
      assert rows == rows[..n] + [rows[n]];
    }
  }

  lemma {:induction false} AcceptedFrom(rows: seq<Row>, r: Row)
    ensures r in Accepted(rows) <==> r in rows && r.accepted
  {
    if rows != [] {
      var n := |rows| - 1;
      AcceptedFrom(rows[..n], r);
      assert rows == rows[..n] + [rows[n]];
    }
  }

  /** Fewer rows are accepted than there are exactly when one is rejected. */
  lemma {:induction false} AcceptedSize(rows: seq<Row>)
    ensures |Accepted(rows)| <= |rows|
    ensures |Accepted(rows)| == |rows| <==> forall r :: r in rows ==> r.accepted
  {
    if rows != [] {
      var n := |rows| - 1;
      AcceptedSize(rows[..n]);
      assert rows == rows[..n] + [rows[n]];
    }
  }

  /** Thinning keeps order. */
  lemma {:induction false} PassingAscending(rows: seq<Row>)
    requires InStreamOrder(rows)
    ensures InStreamOrder(Passing(rows))
  {
    if rows != [] {
      var n := |rows| - 1;
      PassingAscending(rows[..n]);
      forall r | r in Passing(rows[..n])
        ensures r.pos < rows[n].pos
      {
        PassingFrom(rows[..n], r);
      }
    }
  }

  /** The client's filter, then visibility; each surviving event with its membership. */
  method FilterAndVisible(events: seq<Row>) returns (messages: seq<Row>, memberships: seq<string>)
    requires forall e :: e in events ==> e.accepted
    ensures messages == Passing(events) && memberships == Memberships(messages)
    ensures forall e :: e in messages <==> e in events && e.wanted && e.visible
  {
    messages, memberships := [], [];
    for i := 0 to |events|
      invariant messages == Passing(events[..i]) && memberships == Memberships(messages)
    {
      if events[i].wanted {
        if events[i].visible {
          messages, memberships := messages + [events[i]], memberships + [events[i].membership];
        }
      }
      assert events[..i + 1][..i] == events[..i];
    }
    assert events[..|events|] == events;
    forall e
      ensures e in messages <==> e in events && e.wanted && e.visible
    {
      PassingFrom(events, e);
    }
  }

  // ---------------------------------------------------------------- the store

  /** How many rows lie at or below a position. */
  function Upto(rows: seq<Row>, pos: int): nat
    ensures Upto(rows, pos) <= |rows|
  {
    if rows == [] then 0
    else if rows[|rows| - 1].pos <= pos then |rows|
    else Upto(rows[..|rows| - 1], pos)
  }

  lemma {:induction false} UptoSplits(rows: seq<Row>, pos: int)
    requires InStreamOrder(rows)
    ensures forall i :: 0 <= i < |rows| ==> (rows[i].pos <= pos <==> i < Upto(rows, pos))
  {
    if rows != [] && rows[|rows| - 1].pos > pos {
      var n := |rows| - 1;
      UptoSplits(rows[..n], pos);
      assert forall i :: 0 <= i < n ==> rows[i] == rows[..n][i];
    }
  }

  lemma UptoMonotone(rows: seq<Row>, a: int, b: int)
    requires InStreamOrder(rows) && a <= b
    ensures Upto(rows, a) <= Upto(rows, b)
  {
    UptoSplits(rows, a);
    UptoSplits(rows, b);
    hide Upto;
    var u, v := Upto(rows, a), Upto(rows, b);
    assert v == |rows| || rows[v].pos > b;
  }

  /** Just below a row, everything before it remains. */
  lemma UptoBefore(rows: seq<Row>, i: nat)
    requires InStreamOrder(rows) && i < |rows|
    ensures Upto(rows, rows[i].pos - 1) == i
  {
    UptoSplits(rows, rows[i].pos - 1);
    hide Upto;
    assert i > 0 ==> rows[i - 1].pos <= rows[i].pos - 1;
  }

  /** The newest rows of a window, up to a limit. */
  function Page(rows: seq<Row>, above: int, upto: int, limit: int): (page: (nat, nat))
    requires limit >= 0 && Upto(rows, above) <= Upto(rows, upto)
    ensures page.0 <= page.1 <= |rows|
  {
    (Max(Upto(rows, above), Upto(rows, upto) - limit), Upto(rows, upto))
  }

  /** The window a room's timeline starts from. Rejected rows take their place and are dropped. */
  function RoomTimelineSince(rows: seq<Row>, since: int, now: int, limit: int): seq<Row>
    requires limit >= 0 && Upto(rows, since) <= Upto(rows, now)
  {
    var page := Page(rows, since, now, limit);
    Accepted(rows[page.0..page.1])
  }

  /** One page backwards: the newest rows above a bound, whether any were left, and where the next
      page starts. It reads up to twice the limit to learn whether there are more. */
  method PaginateBackwardsStream(rows: seq<Row>, limit: int, from: int, to: int)
    returns (loaded: seq<Row>, next: int, more: bool)
    requires InStreamOrder(rows) && limit > 0
    ensures var low, high := Upto(rows, to), Upto(rows, from);
            if high <= low then loaded == [] && next == to && !more
            else var c := Max(low, high - limit);
                 && loaded == Accepted(rows[c..high]) && Upto(rows, next) == c
                 && (more <==> c > low) && next >= to
  {
    hide Upto, Accepted;
    if from <= to {
      UptoMonotone(rows, from, to);
      return [], to, false;
    }
    UptoMonotone(rows, to, from);
    var low, high := Upto(rows, to), Upto(rows, from);
    var first := Max(low, high - 2 * limit);
    var fetched := rows[first..high];
    more := |fetched| >= 2 * limit;
    if |fetched| > limit {
      more := true;
      fetched := fetched[|fetched| - limit..];
    }
    if fetched == [] {
      return [], to, more;
    }
    var c := Max(low, high - limit);
    assert fetched == rows[c..high] && fetched[0] == rows[c];
    UptoBefore(rows, c);
    UptoSplits(rows, to);
    assert rows[c].pos > to;
    next := fetched[0].pos - 1;
    loaded := Accepted(fetched);
  }

  // ----------------------------------------------------------------- the timeline

  /** Everything of the window that a client may see. */
  ghost function Wanted(rows: seq<Row>, since: int, now: int): seq<Row>
    requires Upto(rows, since) <= Upto(rows, now)
  {
    Passing(rows[Upto(rows, since)..Upto(rows, now)])
  }

  /** The end of a sequence. */
  ghost predicate IsSuffix(part: seq<Row>, whole: seq<Row>) {
    |part| <= |whole| && part == whole[|whole| - |part|..]
  }

  ghost predicate AllAbove(messages: seq<Row>, wanted: seq<Row>, prev: int) {
    forall r :: r in wanted && r.pos > prev ==> r in messages
  }

  /** Where the loaded chunk begins, which is where an untrimmed timeline is paginated from. */
  function UptoToken(potential: seq<Row>, since: int): int {
    if potential == [] then since else potential[0].pos - 1
  }

  function LoadLimit(limit: int): int {
    if limit * 2 < 10 then 10 else limit * 2
  }

  /** Where pagination stands after `j` pages, if it gets that far: a page is a load limit of rows. */
  function Cursor(start: nat, low: nat, limit: int, j: nat): (c: nat)
    requires low <= start && limit > 0
    ensures low <= c <= start
  {
    Max(low, start - j * LoadLimit(limit))
  }

  /** What it has found by then. */
  ghost function Found(rows: seq<Row>, start: nat, low: nat, high: nat, limit: int, j: nat): seq<Row>
    requires low <= start <= high <= |rows| && limit > 0
  {
    Passing(rows[Cursor(start, low, limit, j)..high])
  }

  /** Still short of the limit, some page reaches the bottom. */
  ghost predicate Exhausts(rows: seq<Row>, start: nat, low: nat, high: nat, limit: int)
    requires low <= start <= high <= |rows| && limit > 0
  {
    exists j :: 0 <= j < MAX_TIMELINE_REPEATS && |Found(rows, start, low, high, limit, j)| < limit
                && Cursor(start, low, limit, j) - LoadLimit(limit) <= low
  }

  /** The page that reaches the limit passes it. */
  ghost predicate Overfills(rows: seq<Row>, start: nat, low: nat, high: nat, limit: int)
    requires low <= start <= high <= |rows| && limit > 0
  {
    exists j :: 0 <= j <= MAX_TIMELINE_REPEATS && |Found(rows, start, low, high, limit, j)| > limit
                && (j > 0 ==> |Found(rows, start, low, high, limit, j - 1)| < limit)
  }

  /** Where a timeline's window begins, and how far back it may reach. */
  function WindowStart(potential: seq<Row>, since: int, now: int, gap: Option<int>): int {
    if gap.Some? then now else UptoToken(potential, since)
  }

  function WindowFloor(since: int, gap: Option<int>): int {
    if gap.Some? then gap.value else since
  }

  /** A timeline is limited exactly across a gap, or when its window held more than may be returned and
      either pagination did not get to the bottom while short of the limit, or there was too much. */
  ghost predicate IsLimited(rows: seq<Row>, since: int, now: int, limit: int, gap: Option<int>)
    requires limit > 0 && Upto(rows, since) <= Upto(rows, now)
  {
    var potential := RoomTimelineSince(rows, since, now, limit + 1);
    var start, low, high := Upto(rows, UptoToken(potential, since)), Upto(rows, since), Upto(rows, now);
    gap.Some? || (|potential| > limit
                  && !(low <= start <= high && Exhausts(rows, start, low, high, limit) && |Wanted(rows, since, now)| <= limit))
  }

  /** The token to paginate from: just below the first event given if the window was not paged, or was
      and is trimmed; otherwise where the window began. */
  ghost predicate IsPrevBatch(messages: seq<Row>, prev: int, rows: seq<Row>, since: int, now: int, limit: int, gap: Option<int>)
    requires limit > 0 && Upto(rows, since) <= Upto(rows, now)
  {
    var potential := RoomTimelineSince(rows, since, now, limit + 1);
    var upto := WindowStart(potential, since, now, gap);
    var start, low, high := Upto(rows, upto), Upto(rows, WindowFloor(since, gap)), Upto(rows, now);
    var trims := (gap.None? && |potential| <= limit) || (low <= start <= high && Overfills(rows, start, low, high, limit));
    prev == if trims && messages != [] then messages[0].pos - 1 else upto
  }

  lemma CursorFalls(start: nat, low: nat, limit: int, j: nat, k: nat)
    requires low <= start && limit > 0 && j <= k
    ensures Cursor(start, low, limit, k) <= Cursor(start, low, limit, j)
  {
    assert j * LoadLimit(limit) <= k * LoadLimit(limit);
  }

  lemma FoundGrows(rows: seq<Row>, start: nat, low: nat, high: nat, limit: int, j: nat, k: nat)
    requires low <= start <= high <= |rows| && limit > 0 && j <= k
    ensures |Found(rows, start, low, high, limit, j)| <= |Found(rows, start, low, high, limit, k)|
  {
    CursorFalls(start, low, limit, j, k);
    hide Passing, Cursor;
    var c, d := Cursor(start, low, limit, j), Cursor(start, low, limit, k);
    PassingConcat(rows[d..c], rows[c..high]);
    assert rows[d..c] + rows[c..high] == rows[d..high];
  }

  /** Pages backwards until the timeline is full, the bound is reached, or five pages are read. */
  method Refill(rows: seq<Row>, limit: int, upto: int, to: int, already: seq<Row>, now: int)
    returns (messages: seq<Row>, memberships: seq<string>, more: bool, ghost c: nat)
    requires InStreamOrder(rows) && limit > 0 && to <= upto && Upto(rows, upto) <= Upto(rows, now)
    requires already == Passing(rows[Upto(rows, upto)..Upto(rows, now)])
    ensures Upto(rows, to) <= c <= Upto(rows, upto)
    ensures messages == Passing(rows[c..Upto(rows, now)]) && memberships == Memberships(messages)
    ensures !more ==> c == Upto(rows, to)
    ensures more && |messages| < limit ==> Upto(rows, upto) - Upto(rows, to) > MAX_TIMELINE_REPEATS * LoadLimit(limit)
    ensures Upto(rows, to) <= Upto(rows, upto)
    ensures !more <==> Exhausts(rows, Upto(rows, upto), Upto(rows, to), Upto(rows, now), limit)
    ensures |messages| > limit <==> Overfills(rows, Upto(rows, upto), Upto(rows, to), Upto(rows, now), limit)
  {
    hide Upto, Accepted, Passing, Memberships, Exhausts, Overfills;
    ghost var low, high, start := Upto(rows, to), Upto(rows, now), Upto(rows, upto);
    UptoMonotone(rows, to, upto);
    var loadLimit := LoadLimit(limit);
    messages, memberships, more := already, Memberships(already), true;
    var from, repeat := upto, 0;
    c := Upto(rows, upto);
    while repeat < MAX_TIMELINE_REPEATS && more && |messages| < limit
      invariant low <= c <= high && c == Upto(rows, from) && c <= Upto(rows, upto) && to <= from
      invariant messages == Passing(rows[c..high]) && memberships == Memberships(messages)
      invariant !more ==> c == low
      invariant 0 <= repeat <= MAX_TIMELINE_REPEATS && (more ==> start - c == repeat * loadLimit) && (more && repeat > 0 ==> c > low)
      invariant c == Cursor(start, low, limit, repeat)
      invariant repeat > 0 ==> |Found(rows, start, low, high, limit, repeat - 1)| < limit
      invariant !more ==> repeat > 0 && Cursor(start, low, limit, repeat - 1) - loadLimit <= low
    {
      assert start - (repeat + 1) * loadLimit == c - loadLimit;
      var loaded, next, left := PaginateBackwardsStream(rows, loadLimit, from, to);
      ghost var d := Upto(rows, next);
      forall e | e in loaded
        ensures e.accepted
      {
        assert c > low;
        AcceptedFrom(rows[d..c], e);
      }
      from, more := next, left;
      var visible, ms := FilterAndVisible(loaded);
      if c > low {
        OnePage(rows, d, c, high, loaded);
      } else {
        NoPage();
      }
      MembershipsConcat(visible, messages);
      messages, memberships := visible + messages, ms + memberships;
      c := d;
      repeat := repeat + 1;
    }
    PagesTaken(rows, start, low, high, limit, repeat, more);
  }

  /** What stopping after some pages says. */
  lemma PagesTaken(rows: seq<Row>, start: nat, low: nat, high: nat, limit: int, n: nat, more: bool)
    requires low <= start <= high <= |rows| && limit > 0 && n <= MAX_TIMELINE_REPEATS
    requires n == MAX_TIMELINE_REPEATS || !more || |Found(rows, start, low, high, limit, n)| >= limit
    requires n > 0 ==> |Found(rows, start, low, high, limit, n - 1)| < limit
    requires if more then n > 0 ==> start - n * LoadLimit(limit) > low
             else n > 0 && Cursor(start, low, limit, n - 1) - LoadLimit(limit) <= low
    ensures !more <==> Exhausts(rows, start, low, high, limit)
    ensures |Found(rows, start, low, high, limit, n)| > limit <==> Overfills(rows, start, low, high, limit)
  {
    hide Found;
    if more && Exhausts(rows, start, low, high, limit) {
      var j :| 0 <= j < MAX_TIMELINE_REPEATS && |Found(rows, start, low, high, limit, j)| < limit
               && Cursor(start, low, limit, j) - LoadLimit(limit) <= low;
      if j < n {
        PagesBefore(j, n, LoadLimit(limit));
      } else {
        FoundGrows(rows, start, low, high, limit, n, j);
      }
      assert false;
    }
    if Overfills(rows, start, low, high, limit) {
      var j :| 0 <= j <= MAX_TIMELINE_REPEATS && |Found(rows, start, low, high, limit, j)| > limit
               && (j > 0 ==> |Found(rows, start, low, high, limit, j - 1)| < limit);
      if j < n {
        FoundGrows(rows, start, low, high, limit, j, n - 1);
        assert false;
      } else if j > n {
        Bottomed(rows, start, low, high, limit, n, j, more);
      }
    }
  }

  lemma PagesBefore(j: nat, n: nat, size: nat)
    requires j < n
    ensures (j + 1) * size <= n * size
  {
  }

  /** Nothing is found below the bottom, nor past the page that filled the timeline. */
  lemma Bottomed(rows: seq<Row>, start: nat, low: nat, high: nat, limit: int, n: nat, j: nat, more: bool)
    requires low <= start <= high <= |rows| && limit > 0 && n < j <= MAX_TIMELINE_REPEATS
    requires !more || |Found(rows, start, low, high, limit, n)| >= limit
    requires !more ==> n > 0 && Cursor(start, low, limit, n - 1) - LoadLimit(limit) <= low
    requires |Found(rows, start, low, high, limit, j - 1)| < limit
    ensures |Found(rows, start, low, high, limit, j)| == |Found(rows, start, low, high, limit, n)|
  {
    FoundGrows(rows, start, low, high, limit, n, j - 1);
    if !more {
      assert Cursor(start, low, limit, n) == low;
      CursorFalls(start, low, limit, n, j);
    }
  }

  lemma OnePage(rows: seq<Row>, d: nat, c: nat, high: nat, loaded: seq<Row>)
    requires d <= c <= high <= |rows| && loaded == Accepted(rows[d..c])
    ensures Passing(loaded) + Passing(rows[c..high]) == Passing(rows[d..high])
  {
    PassingAccepted(rows[d..c]);
    assert rows[d..c] + rows[c..high] == rows[d..high];
    PassingConcat(rows[d..c], rows[c..high]);
  }

  lemma NoPage()
    ensures Passing([]) == [] && forall m: seq<Row> :: [] + m == m
  {
  }

  lemma MembershipsConcat(a: seq<Row>, b: seq<Row>)
    ensures Memberships(a + b) == Memberships(a) + Memberships(b)
  {
  }

  /** The newest part of a window, and what lies below it. */
  ghost function Newest(rows: seq<Row>, since: int, now: int, limit: int): seq<Row>
    requires limit > 0 && Upto(rows, since) <= Upto(rows, now)
  {
    rows[Page(rows, since, now, limit + 1).0..Upto(rows, now)]
  }

  ghost function Older(rows: seq<Row>, since: int, now: int, limit: int): seq<Row>
    requires limit > 0 && Upto(rows, since) <= Upto(rows, now)
  {
    rows[Upto(rows, since)..Page(rows, since, now, limit + 1).0]
  }

  /** Nothing the client may see was left behind unannounced: there is a gap, or none of the newest
      rows was rejected, or no older row passes. */
  ghost predicate NothingSkipped(rows: seq<Row>, since: int, now: int, limit: int, gap: Option<int>)
    requires limit > 0 && Upto(rows, since) <= Upto(rows, now)
  {
    gap.Some? || (forall r :: r in Newest(rows, since, now, limit) ==> r.accepted) || Passing(Older(rows, since, now, limit)) == []
  }

  /** Nothing was left out of reach: there is a gap, or one of the newest rows was accepted, or no
      older row passes. */
  ghost predicate NothingHidden(rows: seq<Row>, since: int, now: int, limit: int, gap: Option<int>)
    requires limit > 0 && Upto(rows, since) <= Upto(rows, now)
  {
    gap.Some? || (exists r :: r in Newest(rows, since, now, limit) && r.accepted) || Passing(Older(rows, since, now, limit)) == []
  }

  lemma SuffixAbove(messages: seq<Row>, wanted: seq<Row>)
    requires InStreamOrder(wanted) && IsSuffix(messages, wanted) && messages != []
    ensures AllAbove(messages, wanted, messages[0].pos - 1)
  {
    var k := |wanted| - |messages|;
    forall r | r in wanted && r.pos > messages[0].pos - 1
      ensures r in messages
    {
      var i :| 0 <= i < |wanted| && wanted[i] == r;
      assert i >= k;
      assert messages[i - k] == r;
    }
  }

  lemma SliceAscending(rows: seq<Row>, a: nat, b: nat)
    requires InStreamOrder(rows) && a <= b <= |rows|
    ensures InStreamOrder(rows[a..b])
  {
  }

  lemma WantedSplit(rows: seq<Row>, since: int, now: int, c: nat)
    requires Upto(rows, since) <= c <= Upto(rows, now)
    ensures Wanted(rows, since, now) == Passing(rows[Upto(rows, since)..c]) + Passing(rows[c..Upto(rows, now)])
  {
    PassingConcat(rows[Upto(rows, since)..c], rows[c..Upto(rows, now)]);
    assert rows[Upto(rows, since)..c] + rows[c..Upto(rows, now)] == rows[Upto(rows, since)..Upto(rows, now)];
  }

  lemma WantedAscending(rows: seq<Row>, since: int, now: int)
    requires InStreamOrder(rows) && Upto(rows, since) <= Upto(rows, now)
    ensures InStreamOrder(Wanted(rows, since, now))
    ensures forall r :: r in Wanted(rows, since, now) ==> since < r.pos <= now
  {
    var lo, hi := Upto(rows, since), Upto(rows, now);
    SliceAscending(rows, lo, hi);
    PassingAscending(rows[lo..hi]);
    UptoSplits(rows, since);
    UptoSplits(rows, now);
    forall r | r in Wanted(rows, since, now)
      ensures since < r.pos <= now
    {
      PassingFrom(rows[lo..hi], r);
    }
  }

  /** Which rows those are. */
  lemma WantedRow(rows: seq<Row>, since: int, now: int, r: Row)
    requires InStreamOrder(rows) && Upto(rows, since) <= Upto(rows, now)
    ensures r in Wanted(rows, since, now) <==>
      r in rows && since < r.pos <= now && r.accepted && r.wanted && r.visible
  {
    var lo, hi := Upto(rows, since), Upto(rows, now);
    PassingFrom(rows[lo..hi], r);
    UptoSplits(rows, since);
    UptoSplits(rows, now);
    hide Upto, Passing, InStreamOrder;
    if r in rows && since < r.pos <= now {
      var i :| 0 <= i < |rows| && rows[i] == r;
      assert rows[lo..hi][i - lo] == r;
    }
  }

  lemma WantedRows(rows: seq<Row>, since: int, now: int)
    requires InStreamOrder(rows) && Upto(rows, since) <= Upto(rows, now)
    ensures forall r :: r in Wanted(rows, since, now) <==>
      r in rows && since < r.pos <= now && r.accepted && r.wanted && r.visible
  {
    hide Wanted, InStreamOrder, Upto;
    forall r
      ensures r in Wanted(rows, since, now) <==> r in rows && since < r.pos <= now && r.accepted && r.wanted && r.visible
    {
      WantedRow(rows, since, now, r);
    }
  }

  /** What the window being untouched by the limit says. */
  lemma UnlimitedFacts(rows: seq<Row>, since: int, now: int, limit: int, messages: seq<Row>)
    requires InStreamOrder(rows) && limit > 0 && Upto(rows, since) <= Upto(rows, now)
    requires messages == Passing(Newest(rows, since, now, limit))
    requires |RoomTimelineSince(rows, since, now, limit + 1)| <= limit
    ensures var wanted := Wanted(rows, since, now);
            && IsSuffix(messages, wanted)
            && (messages == wanted <==> NothingSkipped(rows, since, now, limit, None))
  {
    var newest, older := Newest(rows, since, now, limit), Older(rows, since, now, limit);
    WantedSplit(rows, since, now, Page(rows, since, now, limit + 1).0);
    AcceptedSize(newest);
    var wanted := Wanted(rows, since, now);
    assert wanted == Passing(older) + messages;
    if forall r :: r in newest ==> r.accepted {
      assert older == [];
    }
  }

  /** And what its prev_batch says. */
  lemma UnlimitedAbove(rows: seq<Row>, since: int, now: int, limit: int, messages: seq<Row>, prev: int)
    requires InStreamOrder(rows) && limit > 0 && Upto(rows, since) <= Upto(rows, now)
    requires messages == Passing(Newest(rows, since, now, limit))
    requires prev == if messages != [] then messages[0].pos - 1 else UptoToken(RoomTimelineSince(rows, since, now, limit + 1), since)
    requires IsSuffix(messages, Wanted(rows, since, now))
    ensures AllAbove(messages, Wanted(rows, since, now), prev) <==> NothingHidden(rows, since, now, limit, None)
  {
    hide Upto, Passing, Accepted;
    var wanted, newest, older := Wanted(rows, since, now), Newest(rows, since, now, limit), Older(rows, since, now, limit);
    var potential := RoomTimelineSince(rows, since, now, limit + 1);
    WantedAscending(rows, since, now);
    WantedSplit(rows, since, now, Page(rows, since, now, limit + 1).0);
    assert wanted == Passing(older) + messages;
    if messages != [] {
      SuffixAbove(messages, wanted);
      PassingFrom(newest, messages[0]);
    } else if potential != [] {
      AcceptedFrom(newest, potential[0]);
      forall r | r in wanted
        ensures r.pos <= prev
      {
        PassingFrom(older, r);
        OlderBelow(rows, since, now, limit, r, potential[0]);
      }
    } else {
      forall r | r in newest
        ensures !r.accepted
      {
        AcceptedFrom(newest, r);
      }
      if Passing(older) != [] {
        assert Passing(older)[0] in wanted;
      }
    }
  }

  lemma OlderBelow(rows: seq<Row>, since: int, now: int, limit: int, r: Row, n: Row)
    requires InStreamOrder(rows) && limit > 0 && Upto(rows, since) <= Upto(rows, now)
    requires r in Older(rows, since, now, limit) && n in Newest(rows, since, now, limit)
    ensures r.pos < n.pos
  {
    hide Upto;
  }

  /** Timelines without holes, and exactly when. The timeline is always the end of what the client
      may see of the window, in order, no longer than the limit, each event with its membership.
      Unless it says it is limited it is all of it, and everything above its prev_batch is in it:
      each exactly when rejected rows did not use up the newest part of the window. */
  method IncrementalTimeline(rows: seq<Row>, since: int, now: int, limit: int, blocked: bool, gap: Option<int>)
    returns (messages: seq<Row>, memberships: seq<string>, prev: int, limited: bool)
    requires InStreamOrder(rows) && Upto(rows, since) <= Upto(rows, now) && since <= now
    requires gap.Some? ==> since <= gap.value <= now
    ensures blocked || limit <= 0 ==> messages == [] && memberships == [] && !limited && prev == if gap.Some? then now else since
    ensures !blocked && limit > 0 ==>
      var wanted := Wanted(rows, since, now);
      && IsSuffix(messages, wanted) && InStreamOrder(messages) && |messages| <= limit
      && memberships == Memberships(messages)
      && ((!limited ==> messages == wanted) <==> NothingSkipped(rows, since, now, limit, gap))
      && (AllAbove(messages, wanted, prev) <==> NothingHidden(rows, since, now, limit, gap))
      && IsPrevBatch(messages, prev, rows, since, now, limit, gap)
      && (limited <==> IsLimited(rows, since, now, limit, gap))
      && (limited && gap.None? ==> Upto(rows, now) - Upto(rows, since) > limit)
      && (limited && gap.None? && |messages| < limit ==>
           var potential := RoomTimelineSince(rows, since, now, limit + 1);
           Upto(rows, UptoToken(potential, since)) - Upto(rows, since) > 5 * Max(10, 2 * limit))
      && (forall r :: r in messages ==> r in rows && since < r.pos <= now && r.accepted && r.wanted && r.visible)
      && (!limited && NothingSkipped(rows, since, now, limit, gap) ==>
           forall r :: r in rows && since < r.pos <= now && r.accepted && r.wanted && r.visible ==> r in messages)
  {
    if blocked || limit <= 0 {
      return [], [], if gap.Some? then now else since, false;
    }
    hide Upto, Accepted, Passing, Memberships, AllAbove, NothingSkipped, NothingHidden, Wanted, IsPrevBatch, IsLimited, InStreamOrder;
    WantedAscending(rows, since, now);
    WantedRows(rows, since, now);
    LimitedHeldMore(rows, since, now, limit, gap);
    SuffixAscending(Wanted(rows, since, now));
    var potential := RoomTimelineSince(rows, since, now, limit + 1);
    var upto := UptoToken(potential, since);
    limited := limit < |potential| || gap.Some?;
    if !limited {
      messages, memberships, prev := Untrimmed(rows, since, now, limit, potential);
      return messages, memberships, prev, false;
    }
    messages, memberships, prev, limited := Trimmed(rows, since, now, limit, potential, gap);
  }

  /** Without a gap only a window that held more rows than may be returned is limited. */
  lemma LimitedHeldMore(rows: seq<Row>, since: int, now: int, limit: int, gap: Option<int>)
    requires limit > 0 && Upto(rows, since) <= Upto(rows, now)
    ensures var potential := RoomTimelineSince(rows, since, now, limit + 1);
            && (IsLimited(rows, since, now, limit, gap) ==> gap.Some? || |potential| > limit)
            && |potential| <= Upto(rows, now) - Upto(rows, since)
  {
    hide Upto, Accepted, Passing, Exhausts;
    var page := Page(rows, since, now, limit + 1);
    AcceptedSize(rows[page.0..page.1]);
  }

  lemma SuffixAscending(wanted: seq<Row>)
    requires InStreamOrder(wanted)
    ensures forall messages :: IsSuffix(messages, wanted) ==> InStreamOrder(messages)
  {
  }

  /** The window held no more than may be returned. */
  method Untrimmed(rows: seq<Row>, since: int, now: int, limit: int, potential: seq<Row>)
    returns (messages: seq<Row>, memberships: seq<string>, prev: int)
    requires InStreamOrder(rows) && Upto(rows, since) <= Upto(rows, now) && limit > 0
    requires potential == RoomTimelineSince(rows, since, now, limit + 1) && |potential| <= limit
    ensures var wanted := Wanted(rows, since, now);
      && IsSuffix(messages, wanted) && |messages| <= limit && memberships == Memberships(messages)
      && (messages == wanted <==> NothingSkipped(rows, since, now, limit, None))
      && (AllAbove(messages, wanted, prev) <==> NothingHidden(rows, since, now, limit, None))
      && IsPrevBatch(messages, prev, rows, since, now, limit, None) && !IsLimited(rows, since, now, limit, None)
  {
    hide Upto, Accepted, Passing, AllAbove, NothingSkipped, NothingHidden, IsSuffix;
    ghost var newest := Newest(rows, since, now, limit);
    forall e | e in potential
      ensures e.accepted
    {
      AcceptedFrom(newest, e);
    }
    messages, memberships := FilterAndVisible(potential);
    prev := if messages != [] then messages[0].pos - 1 else UptoToken(potential, since);
    PassingAccepted(newest);
    PassingSize(potential);
    UnlimitedFacts(rows, since, now, limit, messages);
    UnlimitedAbove(rows, since, now, limit, messages, prev);
  }

  lemma {:induction false} PassingSize(rows: seq<Row>)
    ensures |Passing(rows)| <= |rows|
  {
    if rows != [] {
      PassingSize(rows[..|rows| - 1]);
    }
  }

  /** A limited window begins at the first of its accepted rows: below it there is nothing to see. */
  lemma WindowBegins(rows: seq<Row>, since: int, now: int, limit: int, potential: seq<Row>)
    requires InStreamOrder(rows) && Upto(rows, since) <= Upto(rows, now) && limit > 0
    requires potential == RoomTimelineSince(rows, since, now, limit + 1) && potential != []
    ensures var u := Upto(rows, potential[0].pos - 1);
            && Upto(rows, since) <= u <= Upto(rows, now) && since <= potential[0].pos - 1
            && Passing(rows[u..Upto(rows, now)]) == Passing(potential)
  {
    hide Upto, Passing;
    var page, hi := Page(rows, since, now, limit + 1).0, Upto(rows, now);
    var newest := rows[page..hi];
    var k := FirstAccepted(newest);
    PassingAccepted(newest);
    UptoBefore(rows, page + k);
    UptoSplits(rows, since);
    assert rows[page + k..hi] == newest[k..];
  }

  lemma {:induction false} FirstAccepted(rows: seq<Row>) returns (k: nat)
    requires Accepted(rows) != []
    ensures k < |rows| && rows[k] == Accepted(rows)[0] && Passing(rows[k..]) == Passing(rows)
  {
    hide Passing;
    var n := |rows| - 1;
    var init, last := rows[..n], [rows[n]];
    assert rows == init + last;
    PassingConcat(init, last);
    if Accepted(init) == [] {
      k := n;
      PassingAccepted(init);
      NoPage();
      assert rows[k..] == last;
    } else {
      k := FirstAccepted(init);
      assert rows[k..] == init[k..] + last;
      PassingConcat(init[k..], last);
    }
  }

  /** Trimming keeps the newest. */
  lemma TrimFacts(wanted: seq<Row>, all: seq<Row>, messages: seq<Row>, limit: int)
    requires InStreamOrder(wanted) && IsSuffix(all, wanted) && 0 < limit < |all| && messages == all[|all| - limit..]
    ensures IsSuffix(messages, wanted) && AllAbove(messages, wanted, messages[0].pos - 1)
  {
    assert messages == wanted[|wanted| - limit..];
    SuffixAbove(messages, wanted);
  }

  /** An untrimmed timeline holds everything above where its window began. */
  lemma UntrimmedAbove(rows: seq<Row>, since: int, now: int, c: nat, upto: int, messages: seq<Row>)
    requires InStreamOrder(rows) && Upto(rows, since) <= c <= Upto(rows, upto) && c <= Upto(rows, now)
    requires messages == Passing(rows[c..Upto(rows, now)])
    ensures AllAbove(messages, Wanted(rows, since, now), upto)
  {
    hide Upto, Passing;
    WantedSplit(rows, since, now, c);
    var lo := Upto(rows, since);
    UptoSplits(rows, upto);
    forall r | r in Wanted(rows, since, now) && r.pos > upto
      ensures r in messages
    {
      PassingFrom(rows[lo..c], r);
    }
  }

  /** What pagination starts from: the window's passing rows and where it began; or, across a gap,
      nothing, from the end. */
  method Loaded(rows: seq<Row>, since: int, now: int, limit: int, potential: seq<Row>, gap: Option<int>)
    returns (upto: int, to: int, already: seq<Row>)
    requires InStreamOrder(rows) && Upto(rows, since) <= Upto(rows, now) && limit > 0
    requires potential == RoomTimelineSince(rows, since, now, limit + 1)
    requires gap.None? ==> potential != []
    requires gap.Some? ==> since <= gap.value <= now
    ensures since <= to <= upto && Upto(rows, upto) <= Upto(rows, now)
    ensures to == WindowFloor(since, gap) && upto == WindowStart(potential, since, now, gap)
    ensures already == Passing(rows[Upto(rows, upto)..Upto(rows, now)])
  {
    hide Upto, Accepted, Passing;
    if gap.Some? {
      NoPage();
      assert rows[Upto(rows, now)..Upto(rows, now)] == [];
      return now, gap.value, [];
    }
    upto, to := UptoToken(potential, since), since;
    forall e | e in potential
      ensures e.accepted
    {
      AcceptedFrom(rows[Page(rows, since, now, limit + 1).0..Upto(rows, now)], e);
    }
    var ms;
    already, ms := FilterAndVisible(potential);
    WindowBegins(rows, since, now, limit, potential);
  }

  /** The window held more than may be returned, or a gap voids it: page backwards and trim. */
  method Trimmed(rows: seq<Row>, since: int, now: int, limit: int, potential: seq<Row>, gap: Option<int>)
    returns (messages: seq<Row>, memberships: seq<string>, prev: int, limited: bool)
    requires InStreamOrder(rows) && Upto(rows, since) <= Upto(rows, now) && limit > 0
    requires potential == RoomTimelineSince(rows, since, now, limit + 1)
    requires gap.None? ==> |potential| > limit
    requires gap.Some? ==> since <= gap.value <= now
    ensures var wanted := Wanted(rows, since, now);
      && IsSuffix(messages, wanted) && |messages| <= limit && memberships == Memberships(messages)
      && (!limited ==> messages == wanted) && AllAbove(messages, wanted, prev)
      && NothingSkipped(rows, since, now, limit, gap) && NothingHidden(rows, since, now, limit, gap)
      && IsPrevBatch(messages, prev, rows, since, now, limit, gap)
      && (limited <==> IsLimited(rows, since, now, limit, gap))
      && (limited && gap.None? && |messages| < limit ==>
           Upto(rows, UptoToken(potential, since)) - Upto(rows, since) > MAX_TIMELINE_REPEATS * LoadLimit(limit))
  {
    hide Upto, Accepted, Passing, AllAbove, NothingSkipped, NothingHidden, Newest, Older, IsSuffix, Wanted, Memberships, InStreamOrder;
    var upto, to, already := Loaded(rows, since, now, limit, potential, gap);
    LimitedIsHonest(rows, since, now, limit, potential, gap);
    UptoMonotone(rows, since, to);
    ghost var c;
    messages, memberships, limited, c := Refill(rows, limit, upto, to, already, now);
    prev := upto;
    WantedAscending(rows, since, now);
    LoadedFacts(rows, since, now, c, upto, messages);
    if |messages| > limit {
      limited := true;
      messages, memberships, prev := Trim(Wanted(rows, since, now), messages, memberships, limit);
    }
    limited := limited || gap.Some?;
  }

  method Trim(ghost wanted: seq<Row>, all: seq<Row>, ms: seq<string>, limit: int)
    returns (messages: seq<Row>, memberships: seq<string>, prev: int)
    requires InStreamOrder(wanted) && IsSuffix(all, wanted) && 0 < limit < |all| && ms == Memberships(all)
    ensures |messages| == limit && memberships == Memberships(messages) && prev == messages[0].pos - 1
    ensures IsSuffix(messages, wanted) && AllAbove(messages, wanted, prev)
  {
    messages, memberships := all[|all| - limit..], ms[|ms| - limit..];
    prev := messages[0].pos - 1;
    TrimFacts(wanted, all, messages, limit);
    MembershipsTail(all, |all| - limit);
  }

  lemma LoadedFacts(rows: seq<Row>, since: int, now: int, c: nat, upto: int, messages: seq<Row>)
    requires InStreamOrder(rows) && Upto(rows, since) <= c <= Upto(rows, upto) && c <= Upto(rows, now)
    requires messages == Passing(rows[c..Upto(rows, now)])
    ensures IsSuffix(messages, Wanted(rows, since, now)) && AllAbove(messages, Wanted(rows, since, now), upto)
    ensures c == Upto(rows, since) ==> messages == Wanted(rows, since, now)
  {
    WantedSplit(rows, since, now, c);
    UntrimmedAbove(rows, since, now, c, upto, messages);
  }

  lemma MembershipsTail(messages: seq<Row>, k: nat)
    requires k <= |messages|
    ensures |Memberships(messages)| == |messages| && Memberships(messages)[k..] == Memberships(messages[k..])
  {
  }

  /** A window that is limited by its rows had none of its newest rejected. */
  lemma LimitedIsHonest(rows: seq<Row>, since: int, now: int, limit: int, potential: seq<Row>, gap: Option<int>)
    requires limit > 0 && Upto(rows, since) <= Upto(rows, now)
    requires potential == RoomTimelineSince(rows, since, now, limit + 1) && (gap.None? ==> |potential| > limit)
    ensures NothingSkipped(rows, since, now, limit, gap) && NothingHidden(rows, since, now, limit, gap)
  {
    var newest := Newest(rows, since, now, limit);
    AcceptedSize(newest);
    if gap.None? {
      assert newest[0] in newest;
    }
  }

  /** The failing family is not empty. Three rows, the oldest one visible, and a limit of one: the
      two newest are all that is read. If the middle one was rejected the timeline calls itself
      complete without the oldest; if both were, the oldest is above its prev_batch too. */
  lemma RejectedRowsLeaveHoles(a: Row, b: Row, c: Row)
    requires a.pos == 1 && b.pos == 2 && c.pos == 3 && Passes(a) && !b.accepted
    ensures InStreamOrder([a, b, c]) && Upto([a, b, c], 0) == 0 && Upto([a, b, c], 3) == 3
    ensures !NothingSkipped([a, b, c], 0, 3, 1, None)
    ensures !c.accepted ==> !NothingHidden([a, b, c], 0, 3, 1, None)
  {
    var rows := [a, b, c];
    UptoBefore(rows, 0);
    assert Upto(rows, 3) == 3;
    hide Upto;
    assert Newest(rows, 0, 3, 1) == [b, c] && Older(rows, 0, 3, 1) == [a];
    PassingFrom([a], a);
    assert b in [b, c];
  }
}
