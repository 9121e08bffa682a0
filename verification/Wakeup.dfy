/** Long polls against the replication thread: no lost wakeup.

    The replication thread works through the effects of one command at a time; pollers register,
    read their token one stream at a time, and park. Every step of either may fall between any two
    steps of the other. */
module Wakeup {
  import opened Common
  import opened Replication
  import opened Notifier

  /** The streams a token has a field for. */
  predicate Carried(s: Stream) {
    s == Events || s == Typing
    || s in {Named("presence"), Named("receipts"), Named("account_data"), Named("push_rules"),
             Named("to_device"), Named("device_lists"), Named("un_partial_stated_room"), Named("thread_subscriptions"),
             Named("sticky_events"), Named("quarantined_media"), Named("profile_updates")}
  }

  /** A poll under registration `id`. `unread` are the streams its token does not take from
      replication yet; `live` whether replication was live when it began its token; `base` what the
      token has from elsewhere: the client, and the database where replication announced nothing. */
  datatype Poller = Poller(id: nat, began: bool, live: bool, token: map<Stream, int>, unread: set<Stream>, parked: bool,
                           base: map<Stream, int>)

  /** A wake that has been delivered. */
  datatype Woke = Woke(stream: Stream, pos: int, rooms: seq<string>, users: seq<string>)

  datatype Sys = Sys(
    positions: map<Stream, int>,
    last: map<Writer, int>,
    live: bool,
    pending: map<Stream, seq<Row>>,
    todo: seq<Effect>,
    waiters: map<nat, Waiter>,
    nextID: nat,
    pollers: map<nat, Poller>,
    woke: set<Woke>)

  datatype Step =
    | Seed(stream: Stream, seed: int)
    | SetLive(up: bool)
    | Receive(command: Command)
    | Work
    | Register(poller: nat, rooms: set<string>, users: set<string>)
    | BeginToken(poller: nat, db: map<Stream, int>)
    | ReadStream(poller: nat, stream: Stream)
    | Park(poller: nat, since: map<Stream, int>)
    | Close(poller: nat)

  ghost predicate Init(s: Sys) {
    s.positions == map[] && s.last == map[] && s.pending == map[] && s.todo == [] && s.waiters == map[]
    && s.nextID == 0 && s.pollers == map[] && s.woke == {}
  }

  ghost predicate Enabled(s: Sys, step: Step) {
    match step
    case Seed(_, _) => s.todo == []
    case SetLive(_) => s.todo == []
    case Receive(_) => s.todo == []
    case Work => s.todo != []
    case Register(p, _, _) => p !in s.pollers
    case BeginToken(p, db) =>
      p in s.pollers && !s.pollers[p].began && forall x :: Carried(x) ==> x in db && db[x] >= 0
    case ReadStream(p, x) => p in s.pollers && s.pollers[p].began && !s.pollers[p].parked && x in s.pollers[p].unread
    case Park(p, since) => p in s.pollers && s.pollers[p].began && !s.pollers[p].parked && s.pollers[p].unread == {}
    case Close(p) => p in s.pollers
  }

  /** Waking on a row, or on an announcement that names nobody. */
  ghost function Wakes(e: Effect): Option<Woke> {
    match e
    case Tell(Wake, x, pos, row) => Some(Woke(x, pos, row.rooms, row.users))
    case Announce(Wake, x, pos) => Some(Woke(x, pos, [], []))
    case _ => None
  }

  /** One effect carried out. */
  ghost function Perform(s: Sys, e: Effect): Sys {
    if e.Advance? then
      s.(positions := AdvancedPositions(s.positions, s.last, e.writer, e.pos), last := AdvancedLast(s.last, e.writer, e.pos))
    else if Wakes(e).Some? then
      var w := Wakes(e).value;
      s.(waiters := AllNotified(s.waiters, w.rooms, w.users), woke := s.woke + {w})
    else s
  }

  /** A token raised to the one the client came with. */
  function AtLeast(token: map<Stream, int>, since: map<Stream, int>): map<Stream, int> {
    map x | x in token :: if x in since then Max(token[x], since[x]) else token[x]
  }

  ghost function Apply(s: Sys, step: Step): Sys
    requires Enabled(s, step)
  {
    match step
    case Seed(x, seed) => if seed > PositionOf(s.positions, x) then s.(positions := s.positions[x := seed]) else s
    case SetLive(up) => if up then s.(live := true) else s.(live := false, pending := map[])
    case Receive(c) =>
      s.(pending := PendingAfter(s.pending, c), todo := EffectsOf(s.pending, c), live := s.live && !Overflows(s.pending, c))
    case Work => Perform(s.(todo := s.todo[1..]), s.todo[0])
    case Register(p, rooms, users) =>
      s.(nextID := s.nextID + 1,
         waiters := s.waiters[s.nextID + 1 := Waiter(rooms, users, false)],
         pollers := s.pollers[p := Poller(s.nextID + 1, false, false, map[], {}, false, map[])])
    case BeginToken(p, db) =>
      var q := s.pollers[p];
      s.(pollers := s.pollers[p := q.(began := true, live := s.live, token := db, base := db,
                                      unread := if s.live then set x | x in db && Carried(x) else {})])
    case ReadStream(p, x) =>
      var q, pos := s.pollers[p], PositionOf(s.positions, x);
      s.(pollers := s.pollers[p := q.(token := if pos > 0 then q.token[x := pos] else q.token, unread := q.unread - {x},
                                      base := if pos > 0 then q.base[x := 0] else q.base)])
    case Park(p, since) =>
      s.(pollers := s.pollers[p := s.pollers[p].(token := AtLeast(s.pollers[p].token, since),
                                                 base := AtLeast(s.pollers[p].base, since), parked := true)])
    case Close(p) => s.(waiters := s.waiters - {s.pollers[p].id}, pollers := s.pollers - {p})
  }

  // ------------------------------------------------------------ the invariant

  /** A wake's position has been reached, or the replication thread reaches it first. */
  ghost predicate Reached(positions: map<Stream, int>, todo: seq<Effect>, w: Woke) {
    Resettable(w.stream) || w.pos <= PositionOf(positions, w.stream)
    || exists j :: 0 <= j < |todo| && todo[j].Advance? && todo[j].writer.stream == w.stream && w.pos <= todo[j].pos
  }

  /** Every wake still to come is reached by then. */
  ghost predicate Ordered(positions: map<Stream, int>, todo: seq<Effect>) {
    forall i :: 0 <= i < |todo| && Wakes(todo[i]).Some? ==> Reached(positions, todo[..i], Wakes(todo[i]).value)
  }

  ghost predicate PollerCovers(s: Sys, q: Poller)
  {
    && q.id in s.waiters && q.id <= s.nextID
    && (q.began ==> forall x :: Carried(x) ==> x in q.token && q.token[x] >= 0)
    && (q.parked ==> q.began && q.unread == {})
    && (q.began && q.live && !s.waiters[q.id].done ==>
         forall w :: w in s.woke && Covers(q, w) && Concerns(s.waiters[q.id], w.rooms, w.users) ==> w.pos <= q.token[w.stream])
  }

  /** The streams whose wakes a poll's token must cover already. */
  predicate Covers(q: Poller, w: Woke) {
    Carried(w.stream) && !Resettable(w.stream) && w.stream in q.token && w.stream !in q.unread
  }

  ghost predicate Inv(s: Sys) {
    && (forall x :: x in s.positions && !Resettable(x) ==> s.positions[x] >= 0)
    && Ordered(s.positions, s.todo)
    && (forall w :: w in s.woke ==> Reached(s.positions, [], w))
    && (forall p :: p in s.pollers ==> PollerCovers(s, s.pollers[p]))
    && (forall p, q :: p in s.pollers && q in s.pollers && s.pollers[p].id == s.pollers[q].id ==> p == q)
  }

  // ---------------------------------------------------------- the replication thread

  lemma Advancing(positions: map<Stream, int>, last: map<Writer, int>, w: Writer, pos: int, x: Stream)
    requires !Resettable(x)
    ensures var after := AdvancedPositions(positions, last, w, pos);
            PositionOf(after, x) >= PositionOf(positions, x) && (w.stream == x ==> PositionOf(after, x) >= pos)
  {
  }

  /** A batch moves the position before it wakes anyone. */
  lemma BatchOrdered(positions: map<Stream, int>, w: Writer, pos: int, batch: seq<Row>)
    requires Resettable(w.stream) || PositionOf(positions, w.stream) >= 0
    ensures Ordered(positions, BatchEffects(w, pos, batch))
  {
    var first := if w.stream == Typing then [Advance(w, pos)] else [];
    var mid := if pos > 0 && w.stream != Typing then [Advance(w, pos)] else [];
    var told := first + Telling(Type, w.stream, pos, batch) + Telling(Invalidate, w.stream, pos, batch)
                + Telling(Record, w.stream, pos, batch);
    var wakes := Telling(Wake, w.stream, pos, batch);
    var es := BatchEffects(w, pos, batch);
    assert es == told + mid + wakes;
    forall i | 0 <= i < |es| && Wakes(es[i]).Some?
      ensures Reached(positions, es[..i], Wakes(es[i]).value)
    {
      assert i >= |told + mid| && es[i] == wakes[i - |told + mid|];
      if mid != [] {
        assert es[..i][|told|] == mid[0];
      }
    }
  }

  lemma AnnounceOrdered(positions: map<Stream, int>, w: Writer, pos: int)
    ensures Ordered(positions, AnnounceEffects(w, pos))
  {
    var es := AnnounceEffects(w, pos);
    assert es[..2][1] == Advance(w, pos);
  }

  lemma CommandOrdered(positions: map<Stream, int>, pending: map<Stream, seq<Row>>, c: Command)
    requires forall x :: x in positions && !Resettable(x) ==> positions[x] >= 0
    ensures Ordered(positions, EffectsOf(pending, c))
  {
    hide Ordered, BatchEffects, AnnounceEffects;
    match c
    case Rdata(w, Numeric(pos), row) =>
      BatchOrdered(positions, w, pos, Held(pending, w.stream) + [row]);
    case Position(w, Some(pos)) =>
      AnnounceOrdered(positions, w, pos);
    case _ =>
      NothingOrdered(positions);
  }

  lemma NothingOrdered(positions: map<Stream, int>)
    ensures Ordered(positions, [])
  {
  }

  /** Raising positions keeps what was reached. */
  lemma ReachedStill(before: map<Stream, int>, after: map<Stream, int>, todo: seq<Effect>, w: Woke)
    requires Reached(before, todo, w)
    requires !Resettable(w.stream) ==> PositionOf(after, w.stream) >= PositionOf(before, w.stream)
    ensures Reached(after, todo, w)
  {
  }

  /** Carrying out the first effect leaves the rest in order. */
  lemma OrderedRest(positions: map<Stream, int>, last: map<Writer, int>, todo: seq<Effect>)
    requires todo != [] && Ordered(positions, todo)
    ensures var e := todo[0];
            Ordered(if e.Advance? then AdvancedPositions(positions, last, e.writer, e.pos) else positions, todo[1..])
  {
    var e, rest := todo[0], todo[1..];
    var after := if e.Advance? then AdvancedPositions(positions, last, e.writer, e.pos) else positions;
    forall i | 0 <= i < |rest| && Wakes(rest[i]).Some?
      ensures Reached(after, rest[..i], Wakes(rest[i]).value)
    {
      assert rest[i] == todo[i + 1];
      assert rest[..i] == todo[..i + 1][1..];
      ReachedRest(positions, last, todo[..i + 1], Wakes(rest[i]).value);
    }
  }

  lemma ReachedRest(positions: map<Stream, int>, last: map<Writer, int>, todo: seq<Effect>, w: Woke)
    requires todo != [] && Reached(positions, todo, w)
    ensures var e := todo[0];
            Reached(if e.Advance? then AdvancedPositions(positions, last, e.writer, e.pos) else positions, todo[1..], w)
  {
    var e := todo[0];
    if !Resettable(w.stream) && w.pos > PositionOf(positions, w.stream) {
      var j :| 0 <= j < |todo| && todo[j].Advance? && todo[j].writer.stream == w.stream && w.pos <= todo[j].pos;
      if j == 0 {
        Advancing(positions, last, e.writer, e.pos, w.stream);
      } else {
        assert todo[1..][j - 1] == todo[j];
      }
    } else if e.Advance? && !Resettable(w.stream) {
      Advancing(positions, last, e.writer, e.pos, w.stream);
    }
  }

  // ------------------------------------------------------------------ each step

  ghost predicate PositionsFine(positions: map<Stream, int>) {
    forall x :: x in positions && !Resettable(x) ==> positions[x] >= 0
  }

  /** Moving positions up changes nothing for pollers. */
  lemma AdvanceKeeps(s: Sys)
    requires Inv(s) && s.todo != [] && s.todo[0].Advance?
    ensures Inv(Apply(s, Work))
  {
    hide Ordered, Carried;
    var t, e := Apply(s, Work), s.todo[0];
    OrderedRest(s.positions, s.last, s.todo);
    forall x | x in t.positions && !Resettable(x)
      ensures t.positions[x] >= 0
    {
      Advancing(s.positions, s.last, e.writer, e.pos, x);
    }
    forall w | w in t.woke
      ensures Reached(t.positions, [], w)
    {
      if !Resettable(w.stream) {
        Advancing(s.positions, s.last, e.writer, e.pos, w.stream);
      }
    }
    forall p | p in t.pollers
      ensures PollerCovers(t, t.pollers[p])
    {
      assert PollerCovers(s, s.pollers[p]);
    }
  }

  /** A wake reaches every waiter it concerns, so it adds nothing to what an unwoken one must cover. */
  lemma WakeKeeps(s: Sys)
    requires Inv(s) && s.todo != [] && Wakes(s.todo[0]).Some?
    ensures Inv(Apply(s, Work))
  {
    var t, w := Apply(s, Work), Wakes(s.todo[0]).value;
    OrderedRest(s.positions, s.last, s.todo);
    assert s.todo[..0] == [];
    assert Reached(s.positions, [], w);
    hide Ordered, Carried, Wakes, Reached;
    forall p | p in t.pollers
      ensures PollerCovers(t, t.pollers[p])
    {
      assert PollerCovers(s, s.pollers[p]);
      WakeCovers(s, t, s.pollers[p], w);
    }
  }

  lemma WakeCovers(s: Sys, t: Sys, q: Poller, w: Woke)
    requires PollerCovers(s, q)
    requires t.waiters == AllNotified(s.waiters, w.rooms, w.users) && t.woke == s.woke + {w} && t.nextID == s.nextID
    ensures PollerCovers(t, q)
  {
    hide Concerns, Carried;
    var before, after := s.waiters[q.id], t.waiters[q.id];
    if q.began && q.live && !after.done {
      forall v | v in t.woke && Covers(q, v) && Concerns(after, v.rooms, v.users)
        ensures v.pos <= q.token[v.stream]
      {
        SameConcern(before, after, v.rooms, v.users);
        SameConcern(before, after, w.rooms, w.users);
      }
    }
  }

  lemma SameConcern(a: Waiter, b: Waiter, rooms: seq<string>, users: seq<string>)
    requires a.rooms == b.rooms && a.users == b.users
    ensures Concerns(a, rooms, users) == Concerns(b, rooms, users)
  {
  }

  /** The other effects reach neither positions nor waiters. */
  lemma OtherKeeps(s: Sys)
    requires Inv(s) && s.todo != [] && !s.todo[0].Advance? && Wakes(s.todo[0]).None?
    ensures Inv(Apply(s, Work))
  {
    OrderedRest(s.positions, s.last, s.todo);
    hide Ordered, Carried, Wakes, Reached;
    var t := Apply(s, Work);
    forall p | p in t.pollers
      ensures PollerCovers(t, t.pollers[p])
    {
      assert PollerCovers(s, s.pollers[p]);
    }
  }

  /** Replication positions raised, or liveness changed, between commands. */
  lemma QuietKeeps(s: Sys, t: Sys)
    requires Inv(s)
    requires PositionsFine(t.positions) && Ordered(t.positions, t.todo)
    requires forall x :: !Resettable(x) ==> PositionOf(t.positions, x) >= PositionOf(s.positions, x)
    requires t.waiters == s.waiters && t.nextID == s.nextID && t.pollers == s.pollers && t.woke == s.woke
    ensures Inv(t)
  {
    hide Ordered, Carried;
    forall w | w in t.woke
      ensures Reached(t.positions, [], w)
    {
      ReachedStill(s.positions, t.positions, [], w);
    }
    forall p | p in t.pollers
      ensures PollerCovers(t, t.pollers[p])
    {
      assert PollerCovers(s, s.pollers[p]);
    }
  }

  lemma RegisterKeeps(s: Sys, p: nat, rooms: set<string>, users: set<string>)
    requires Inv(s) && Enabled(s, Register(p, rooms, users))
    ensures Inv(Apply(s, Register(p, rooms, users)))
  {
    hide Ordered, Carried, Reached, Concerns;
    var t := Apply(s, Register(p, rooms, users));
    forall o | o in t.pollers
      ensures PollerCovers(t, t.pollers[o])
    {
      if o != p {
        assert PollerCovers(s, s.pollers[o]);
      }
    }
  }

  /** A token being read: what replication has reached is what the field takes. */
  lemma PollerKeeps(s: Sys, t: Sys, p: nat)
    requires Inv(s) && p in s.pollers && p in t.pollers
    requires t == s.(pollers := s.pollers[p := t.pollers[p]]) && t.pollers[p].id == s.pollers[p].id
    requires PollerCovers(t, t.pollers[p])
    ensures Inv(t)
  {
    hide Ordered, Carried, Reached, Concerns;
    forall o | o in t.pollers
      ensures PollerCovers(t, t.pollers[o])
    {
      if o != p {
        assert PollerCovers(s, s.pollers[o]);
      }
    }
  }

  lemma BeginKeeps(s: Sys, p: nat, db: map<Stream, int>)
    requires Inv(s) && Enabled(s, BeginToken(p, db))
    ensures Inv(Apply(s, BeginToken(p, db)))
  {
    hide Ordered, Carried, Reached, Concerns;
    var t := Apply(s, BeginToken(p, db));
    assert PollerCovers(s, s.pollers[p]);
    assert PollerCovers(t, t.pollers[p]);
    PollerKeeps(s, t, p);
  }

  lemma ReadKeeps(s: Sys, p: nat, x: Stream)
    requires Inv(s) && Enabled(s, ReadStream(p, x))
    ensures Inv(Apply(s, ReadStream(p, x)))
  {
    hide Ordered, Carried, Concerns;
    var t, q := Apply(s, ReadStream(p, x)), s.pollers[p];
    assert PollerCovers(s, q);
    forall w | w in s.woke && w.stream == x && !Resettable(x) && x in q.token && q.token[x] >= 0
      ensures w.pos <= t.pollers[p].token[x]
    {
      assert Reached(s.positions, [], w);
    }
    assert PollerCovers(t, t.pollers[p]);
    PollerKeeps(s, t, p);
  }

  lemma ParkKeeps(s: Sys, p: nat, since: map<Stream, int>)
    requires Inv(s) && Enabled(s, Park(p, since))
    ensures Inv(Apply(s, Park(p, since)))
  {
    hide Ordered, Carried, Concerns, Reached;
    var t := Apply(s, Park(p, since));
    assert PollerCovers(s, s.pollers[p]);
    assert PollerCovers(t, t.pollers[p]);
    PollerKeeps(s, t, p);
  }

  lemma CloseKeeps(s: Sys, p: nat)
    requires Inv(s) && Enabled(s, Close(p))
    ensures Inv(Apply(s, Close(p)))
  {
    hide Ordered, Carried, Reached, Concerns;
    var t := Apply(s, Close(p));
    forall o | o in t.pollers
      ensures PollerCovers(t, t.pollers[o])
    {
      assert PollerCovers(s, s.pollers[o]);
    }
  }

  lemma SeedKeeps(s: Sys, x: Stream, seed: int)
    requires Inv(s) && Enabled(s, Seed(x, seed))
    ensures Inv(Apply(s, Seed(x, seed)))
  {
    hide Ordered, Carried, Reached, PollerCovers;
    var t := Apply(s, Seed(x, seed));
    NothingOrdered(t.positions);
    assert PositionsFine(t.positions);
    hide Inv;
    QuietKeeps(s, t);
  }

  lemma LiveKeeps(s: Sys, up: bool)
    requires Inv(s) && Enabled(s, SetLive(up))
    ensures Inv(Apply(s, SetLive(up)))
  {
    hide Ordered, Carried, Reached, PollerCovers;
    QuietKeeps(s, Apply(s, SetLive(up)));
  }

  lemma ReceiveKeeps(s: Sys, c: Command)
    requires Inv(s) && Enabled(s, Receive(c))
    ensures Inv(Apply(s, Receive(c)))
  {
    hide Ordered, Carried, Reached, PollerCovers, EffectsOf, PendingAfter, Overflows;
    CommandOrdered(s.positions, s.pending, c);
    QuietKeeps(s, Apply(s, Receive(c)));
  }

  lemma WorkKeeps(s: Sys)
    requires Inv(s) && s.todo != []
    ensures Inv(Apply(s, Work))
  {
    hide Inv, Wakes, Apply;
    if s.todo[0].Advance? {
      AdvanceKeeps(s);
    } else if Wakes(s.todo[0]).Some? {
      WakeKeeps(s);
    } else {
      OtherKeeps(s);
    }
  }

  lemma StepKeeps(s: Sys, step: Step)
    requires Inv(s) && Enabled(s, step)
    ensures Inv(Apply(s, step))
  {
    hide Inv, Apply, Carried;
    match step
    case Seed(x, seed) => SeedKeeps(s, x, seed);
    case SetLive(up) => LiveKeeps(s, up);
    case Receive(c) => ReceiveKeeps(s, c);
    case Work => WorkKeeps(s);
    case Register(p, rooms, users) => RegisterKeeps(s, p, rooms, users);
    case BeginToken(p, db) => BeginKeeps(s, p, db);
    case ReadStream(p, x) => ReadKeeps(s, p, x);
    case Park(p, since) => ParkKeeps(s, p, since);
    case Close(p) => CloseKeeps(s, p);
  }

  // ----------------------------------------------------------------- whole runs

  ghost predicate IsRun(states: seq<Sys>, steps: seq<Step>) {
    && |states| == |steps| + 1 && Init(states[0])
    && forall i :: 0 <= i < |steps| ==> Enabled(states[i], steps[i]) && states[i + 1] == Apply(states[i], steps[i])
  }

  lemma {:induction false} RunKeeps(states: seq<Sys>, steps: seq<Step>, i: nat)
    requires IsRun(states, steps) && i < |states|
    ensures Inv(states[i])
  {
    hide Inv, Apply, Enabled;
    if i == 0 {
      InitInv(states[0]);
    } else {
      RunKeeps(states, steps, i - 1);
      StepKeeps(states[i - 1], steps[i - 1]);
    }
  }

  lemma InitInv(s: Sys)
    requires Init(s)
    ensures Inv(s)
  {
  }

  /** No lost wakeup: in every interleaving, the token of a poll that is parked and unwoken, read
      while replication was live, covers every wake delivered so far that concerns the rooms and
      users it registered. */
  lemma NoLostWakeup(states: seq<Sys>, steps: seq<Step>, i: nat, p: nat, w: Woke)
    requires IsRun(states, steps) && i < |states|
    requires p in states[i].pollers && states[i].pollers[p].parked && states[i].pollers[p].live
    requires states[i].pollers[p].id in states[i].waiters && !states[i].waiters[states[i].pollers[p].id].done
    requires w in states[i].woke && Carried(w.stream) && w.stream != Typing
    requires var waiter := states[i].waiters[states[i].pollers[p].id];
             || (w.rooms == [] && w.users == []) || (waiter.rooms == {} && waiter.users == {})
             || (exists r :: r in w.rooms && r in waiter.rooms) || (exists u :: u in w.users && u in waiter.users)
    ensures w.stream in states[i].pollers[p].token && w.pos <= states[i].pollers[p].token[w.stream]
  {
    RunKeeps(states, steps, i);
    assert Concerns(states[i].waiters[states[i].pollers[p].id], w.rooms, w.users);
    hide Ordered, Reached, Concerns;
    assert PollerCovers(states[i], states[i].pollers[p]);
  }

  /** And a wake is never early: whatever it announces, the positions every later token is built
      from have reached. */
  lemma WokenTokenCovers(states: seq<Sys>, steps: seq<Step>, i: nat, j: nat, w: Woke)
    requires IsRun(states, steps) && i <= j < |states| && w in states[i].woke && !Resettable(w.stream)
    ensures w in states[j].woke && w.pos <= PositionOf(states[j].positions, w.stream)
    decreases j
  {
    RunKeeps(states, steps, j);
    WokeStays(states, steps, i, j, w);
    assert Reached(states[j].positions, [], w);
  }

  lemma {:induction false} WokeStays(states: seq<Sys>, steps: seq<Step>, i: nat, j: nat, w: Woke)
    requires IsRun(states, steps) && i <= j < |states| && w in states[i].woke
    ensures w in states[j].woke
    decreases j
  {
    hide Enabled, Apply;
    if i < j {
      WokeStays(states, steps, i, j - 1, w);
      WokeGrows(states[j - 1], steps[j - 1]);
    }
  }

  lemma WokeGrows(s: Sys, step: Step)
    requires Enabled(s, step)
    ensures s.woke <= Apply(s, step).woke
  {
    hide EffectsOf, AllNotified, AdvancedPositions, AdvancedLast, PendingAfter, Carried, AtLeast, Wakes, Overflows;
  }

  /** A token has nothing but what its base or the positions have reached. */
  ghost predicate Within(positions: map<Stream, int>, q: Poller) {
    q.token.Keys == q.base.Keys
    && forall x :: x in q.token && !Resettable(x) ==> q.token[x] <= Max(q.base[x], PositionOf(positions, x))
  }

  ghost predicate AllWithin(s: Sys) {
    forall p :: p in s.pollers ==> Within(s.positions, s.pollers[p])
  }

  lemma ReadWithin(s: Sys, p: nat, x: Stream)
    requires AllWithin(s) && Enabled(s, ReadStream(p, x)) && x in s.pollers[p].token
    ensures AllWithin(Apply(s, ReadStream(p, x)))
  {
    assert Within(s.positions, s.pollers[p]);
  }

  lemma StepRises(s: Sys, step: Step, x: Stream)
    requires Enabled(s, step) && !Resettable(x)
    ensures PositionOf(Apply(s, step).positions, x) >= PositionOf(s.positions, x)
  {
    hide EffectsOf, AllNotified, PendingAfter, Overflows, Carried, AdvancedPositions, AdvancedLast;
    if step.Work? && s.todo[0].Advance? {
      Advancing(s.positions, s.last, s.todo[0].writer, s.todo[0].pos, x);
    }
  }

  lemma ParkWithin(s: Sys, p: nat, since: map<Stream, int>)
    requires AllWithin(s) && Enabled(s, Park(p, since))
    ensures AllWithin(Apply(s, Park(p, since)))
  {
    assert Within(s.positions, s.pollers[p]);
  }

  /** Pollers that keep their tokens, while positions rise. */
  lemma OthersWithin(s: Sys, t: Sys)
    requires AllWithin(s) && forall x :: !Resettable(x) ==> PositionOf(t.positions, x) >= PositionOf(s.positions, x)
    requires forall p :: p in t.pollers ==>
      t.pollers[p].token == t.pollers[p].base || (p in s.pollers && t.pollers[p] == s.pollers[p])
    ensures AllWithin(t)
  {
    hide PositionOf;
    forall p | p in t.pollers
      ensures Within(t.positions, t.pollers[p])
    {
      assert p in s.pollers ==> Within(s.positions, s.pollers[p]);
    }
  }

  lemma StepWithin(s: Sys, step: Step)
    requires AllWithin(s) && Enabled(s, step)
    requires step.ReadStream? ==> step.stream in s.pollers[step.poller].token
    ensures AllWithin(Apply(s, step))
  {
    hide AllWithin, EffectsOf, AllNotified, PendingAfter, Wakes, Overflows, Carried, AdvancedPositions, AdvancedLast;
    if step.ReadStream? {
      hide Apply;
      ReadWithin(s, step.poller, step.stream);
    } else if step.Park? {
      hide Apply;
      ParkWithin(s, step.poller, step.since);
    } else {
      forall x | !Resettable(x)
        ensures PositionOf(Apply(s, step).positions, x) >= PositionOf(s.positions, x)
      {
        StepRises(s, step, x);
      }
      hide PositionOf;
      OthersWithin(s, Apply(s, step));
    }
  }

  /** What is still to be read of a token is in it. */
  ghost predicate UnreadIn(s: Sys) {
    forall p, x :: p in s.pollers && x in s.pollers[p].unread ==> x in s.pollers[p].token
  }

  lemma StepUnread(s: Sys, step: Step)
    requires UnreadIn(s) && Enabled(s, step)
    ensures UnreadIn(Apply(s, step))
  {
    hide EffectsOf, AllNotified, PendingAfter, Wakes, Overflows, AdvancedPositions, AdvancedLast;
  }

  lemma {:induction false} RunWithin(states: seq<Sys>, steps: seq<Step>, i: nat)
    requires IsRun(states, steps) && i < |states|
    ensures AllWithin(states[i]) && UnreadIn(states[i])
  {
    hide Apply;
    if i > 0 {
      RunWithin(states, steps, i - 1);
      StepWithin(states[i - 1], steps[i - 1]);
      StepUnread(states[i - 1], steps[i - 1]);
    }
  }

  /** Nor does it fall behind the client: a poll parks with each field at the higher of what it read and
      what the client came with. */
  lemma TokenNotBehind(s: Sys, p: nat, since: map<Stream, int>, x: Stream)
    requires Enabled(s, Park(p, since)) && x in s.pollers[p].token
    ensures x in Apply(s, Park(p, since)).pollers[p].token
    ensures Apply(s, Park(p, since)).pollers[p].token[x] ==
      if x in since && since[x] > s.pollers[p].token[x] then since[x] else s.pollers[p].token[x]
  {
    hide Carried;
  }

  /** And no token runs ahead: in every interleaving it has, on a stream that never goes down, nothing
      above what the positions have reached and the client had; what the database has counts only where
      replication announced nothing, since it may be past an event still being written. */
  lemma TokenNotAhead(states: seq<Sys>, steps: seq<Step>, i: nat, p: nat, x: Stream)
    requires IsRun(states, steps) && i < |states| && p in states[i].pollers && x in states[i].pollers[p].token && !Resettable(x)
    ensures x in states[i].pollers[p].base
    ensures states[i].pollers[p].token[x] <= Max(states[i].pollers[p].base[x], PositionOf(states[i].positions, x))
  {
    RunWithin(states, steps, i);
    assert Within(states[i].positions, states[i].pollers[p]);
  }
}
