/** The guarded room-keyed caches against the database.

    The replication thread drops a batch's rooms one by one, raising the applied position after
    each row, and moves the subscriber's position only after the whole batch. Readers check the
    guard, look up, query and store between any two of those. */
module DerivedCache {
  import opened Common
  import opened Replication

  datatype Change = Change(room: string, pos: int)

  /** What a cached answer was computed from. `clean` says nothing dropped the room between the
      query and the store. */
  datatype Entry = Entry(seen: set<Change>, clean: bool)

  /** A reader that has queried and not stored yet. */
  datatype Fill = Fill(room: string, entry: Entry)

  /** The invalidator's own steps, and the subscriber's. */
  datatype Micro = Drop(room: string) | Raise(pos: int) | Move(pos: int)

  /** Connected; the guard disarmed; the caches emptied; the guard armed again. */
  datatype Phase = Up | GuardDown | Down | GuardUp

  datatype Sys = Sys(
    changes: set<Change>,
    floor: int,
    position: int,
    applied: int,
    phase: Phase,
    todo: seq<Micro>,
    cache: map<string, Entry>,
    fills: map<nat, Fill>,
    outstanding: set<Change>)

  datatype Step =
    | Commit(change: Change)
    | Receive(writer: Writer, pos: int, batch: seq<Row>)
    | Announced(pos: int)
    | Work
    | Query(reader: nat, room: string)
    | Store(reader: nat)
    | Evict(room: string)
    | DisarmGuard
    | EmptyCaches
    | ArmGuard
    | ArmCaches

  /** The guard is armed. */
  predicate Armed(s: Sys) {
    s.phase.Up? || s.phase.GuardUp?
  }

  // -------------------------------------------------------------- invalidation

  function Drops(rooms: seq<string>): seq<Micro> {
    seq(|rooms|, i requires 0 <= i < |rooms| => Drop(rooms[i]))
  }

  /** What one effect of the replication thread does here. */
  function MicroOf(e: Effect): seq<Micro> {
    match e
    case Tell(Invalidate, stream, pos, row) => if stream == Events then Drops(row.rooms) + [Raise(pos)] else []
    case Advance(w, pos) => if w.stream == Events then [Move(pos)] else []
    case _ => []
  }

  function MicrosOf(es: seq<Effect>): seq<Micro> {
    if es == [] then [] else MicrosOf(es[..|es| - 1]) + MicroOf(es[|es| - 1])
  }

  /** Rows invalidated one after the other. */
  function RowMicros(pos: int, batch: seq<Row>): seq<Micro> {
    if batch == [] then [] else RowMicros(pos, batch[..|batch| - 1]) + Drops(batch[|batch| - 1].rooms) + [Raise(pos)]
  }

  lemma {:induction false} MicrosConcat(a: seq<Effect>, b: seq<Effect>)
    ensures MicrosOf(a + b) == MicrosOf(a) + MicrosOf(b)
  {
    hide MicroOf;
    if b == [] {
      assert a + b == a;
    } else {
      assert (a + b)[..|a + b| - 1] == a + b[..|b| - 1];
      MicrosConcat(a, b[..|b| - 1]);
    }
  }

  lemma MicroTell(duty: Duty, pos: int, row: Row)
    ensures MicroOf(Tell(duty, Events, pos, row)) == if duty == Invalidate then Drops(row.rooms) + [Raise(pos)] else []
  {
    hide Drops;
  }

  lemma {:induction false} MicrosTelling(duty: Duty, pos: int, batch: seq<Row>)
    ensures MicrosOf(Telling(duty, Events, pos, batch)) == if duty == Invalidate then RowMicros(pos, batch) else []
  {
    hide MicroOf, Drops;
    if batch != [] && Duteous(duty, Events) {
      var n := |batch| - 1;
      var es, init := Telling(duty, Events, pos, batch), batch[..n];
      assert es[..n] == Telling(duty, Events, pos, init) && es[n] == Tell(duty, Events, pos, batch[n]);
      MicrosTelling(duty, pos, init);
      MicroTell(duty, pos, batch[n]);
      assert RowMicros(pos, init) + Drops(batch[n].rooms) + [Raise(pos)]
          == RowMicros(pos, init) + (Drops(batch[n].rooms) + [Raise(pos)]);
    }
  }

  /** An events batch here: every row invalidated, and only then the position moved. */
  lemma BatchMicros(w: Writer, pos: int, batch: seq<Row>)
    requires w.stream == Events
    ensures MicrosOf(BatchEffects(w, pos, batch)) == RowMicros(pos, batch) + if pos > 0 then [Move(pos)] else []
  {
    hide MicrosOf, Telling, RowMicros;
    var mid := if pos > 0 then [Advance(w, pos)] else [];
    var t, i, r, k := Telling(Type, Events, pos, batch), Telling(Invalidate, Events, pos, batch),
                      Telling(Record, Events, pos, batch), Telling(Wake, Events, pos, batch);
    assert BatchEffects(w, pos, batch) == t + i + r + mid + k;
    MicrosConcat(t, i);
    MicrosConcat(t + i, r);
    MicrosConcat(t + i + r, mid);
    MicrosConcat(t + i + r + mid, k);
    MicrosTelling(Type, pos, batch);
    MicrosTelling(Invalidate, pos, batch);
    MicrosTelling(Record, pos, batch);
    MicrosTelling(Wake, pos, batch);
    MicrosOne(w, pos);
  }

  lemma MicrosOne(w: Writer, pos: int)
    requires w.stream == Events
    ensures MicrosOf([Advance(w, pos)]) == [Move(pos)] && MicrosOf([]) == []
  {
    assert [Advance(w, pos)][..0] == [];
  }

  // ------------------------------------------------------------------- the steps

  ghost function Seen(s: Sys, room: string): set<Change> {
    set c | c in s.changes && c.room == room
  }

  ghost predicate Init(s: Sys) {
    s.phase == Down && s.todo == [] && s.cache == map[] && s.fills == map[] && s.outstanding == {}
    && s.position <= s.floor && s.applied == 0 && s.changes == {}
  }

  /** Changes commit above everything announced; a batch names the room of every change that is
      outstanding at or below its position, and an announcement passes none. */
  ghost predicate Enabled(s: Sys, step: Step) {
    match step
    case Commit(c) => c.room != "" && c.pos > 0 && c.pos > s.floor
    case Receive(w, pos, batch) =>
      s.phase == Up && s.todo == [] && w.stream == Events
      && forall c :: c in s.outstanding && c.pos <= pos ==> Drop(c.room) in RowMicros(pos, batch)
    case Announced(pos) => s.phase == Up && s.todo == [] && forall c :: c in s.outstanding ==> c.pos > pos
    case Work => s.todo != []
    case Query(reader, room) => reader !in s.fills
    case Store(reader) => reader in s.fills
    case Evict(room) => true
    case DisarmGuard => s.phase == Up && s.todo == []
    case EmptyCaches => s.phase == GuardDown
    case ArmGuard => s.phase == Down
    case ArmCaches => s.phase == GuardUp
  }

  /** Fills under way when a room, or everything, is dropped are no longer clean. */
  function Soiled(fills: map<nat, Fill>, all: bool, room: string): map<nat, Fill> {
    map r | r in fills :: if all || fills[r].room == room then Fill(fills[r].room, fills[r].entry.(clean := false)) else fills[r]
  }

  ghost function Perform(s: Sys, m: Micro): Sys {
    match m
    case Drop(room) => if room == "" then s else s.(cache := s.cache - {room}, fills := Soiled(s.fills, false, room))
    case Raise(pos) => if pos > 0 then s.(applied := Max(s.applied, pos)) else s
    case Move(pos) => s.(position := Max(s.position, pos))
  }

  ghost function Apply(s: Sys, step: Step): Sys
    requires Enabled(s, step)
  {
    match step
    case Commit(c) => s.(changes := s.changes + {c}, outstanding := s.outstanding + {c})
    case Receive(w, pos, batch) =>
      s.(todo := MicrosOf(BatchEffects(w, pos, batch)), floor := Max(s.floor, pos),
         outstanding := set c | c in s.outstanding && c.pos > pos)
    case Announced(pos) => s.(todo := [Move(pos)], floor := Max(s.floor, pos))
    case Work => Perform(s.(todo := s.todo[1..]), s.todo[0])
    case Query(reader, room) => s.(fills := s.fills[reader := Fill(room, Entry(Seen(s, room), true))])
    case Store(reader) =>
      var f := s.fills[reader];
      s.(fills := s.fills - {reader}, cache := if s.phase == Up || s.phase == GuardDown then s.cache[f.room := f.entry] else s.cache)
    case Evict(room) => s.(cache := s.cache - {room})
    case DisarmGuard => s.(phase := GuardDown, applied := 0)
    case EmptyCaches => s.(phase := Down, cache := map[], fills := Soiled(s.fills, true, ""))
    case ArmGuard => s.(phase := GuardUp, applied := s.position)
    case ArmCaches => s.(phase := Up, fills := Soiled(s.fills, true, ""), outstanding := {})
  }

  // --------------------------------------------------------------- the invariant

  /** A clean answer misses only changes above the position, and each of those is outstanding or
      about to drop the room. */
  ghost predicate Sound(s: Sys, room: string, e: Entry) {
    e.clean ==> forall c :: c in s.changes && c.room == room && c !in e.seen ==>
      c.pos > s.position && (c in s.outstanding || Drop(room) in s.todo)
  }

  /** Nothing is dropped once the position moves. */
  ghost predicate DropsFirst(todo: seq<Micro>) {
    forall i, j :: 0 <= i < |todo| && 0 <= j < |todo| && todo[i].Move? && todo[j].Drop? ==> j < i
  }

  /** No raise claims more than the batch's own position, and the batch moves there. */
  ghost predicate Bounded(todo: seq<Micro>, top: int) {
    forall i :: 0 <= i < |todo| ==> (todo[i].Raise? || todo[i].Move? ==> todo[i].pos <= top)
  }

  /** `top` is how far the batch in hand reaches; outside one, the position. */
  ghost predicate InvAt(s: Sys, top: int) {
    && s.position <= top <= s.floor && DropsFirst(s.todo) && Bounded(s.todo, top)
    && (forall c :: c in s.outstanding ==> c in s.changes && c.pos > top)
    && (forall c :: c in s.changes ==> c.room != "" && c.pos > 0)
    && (Armed(s) ==> s.applied <= Max(top, 0))
    && (forall r :: r in s.cache ==> Sound(s, r, s.cache[r]))
    && (forall f :: f in s.fills ==> Sound(s, s.fills[f].room, s.fills[f].entry))
    && (s.phase == Down || s.phase == GuardUp ==> s.cache == map[])
    && (s.phase != Up ==> s.todo == [])
  }

  ghost predicate Inv(s: Sys) {
    exists top :: InvAt(s, top)
  }

  // -------------------------------------------------------------------- each step

  lemma {:induction false} RowMicrosBounded(pos: int, batch: seq<Row>)
    ensures forall i :: 0 <= i < |RowMicros(pos, batch)| ==>
      var m := RowMicros(pos, batch)[i]; !m.Move? && (m.Raise? ==> m.pos == pos)
  {
    if batch != [] {
      RowMicrosBounded(pos, batch[..|batch| - 1]);
    }
  }

  /** A batch under way: its rooms are dropped before its position moves. */
  lemma BatchTodo(w: Writer, pos: int, batch: seq<Row>)
    requires w.stream == Events
    ensures var todo := MicrosOf(BatchEffects(w, pos, batch));
            DropsFirst(todo) && Bounded(todo, pos) && forall m :: m in RowMicros(pos, batch) ==> m in todo
  {
    hide MicrosOf, BatchEffects, RowMicros;
    BatchMicros(w, pos, batch);
    RowMicrosBounded(pos, batch);
  }

  lemma BoundedHigher(todo: seq<Micro>, a: int, b: int)
    requires Bounded(todo, a) && a <= b
    ensures Bounded(todo, b)
  {
  }

  lemma ReceiveKeeps(s: Sys, top: int, w: Writer, pos: int, batch: seq<Row>)
    requires InvAt(s, top) && Enabled(s, Receive(w, pos, batch))
    ensures InvAt(Apply(s, Receive(w, pos, batch)), Max(top, pos))
  {
    hide MicrosOf, BatchEffects, RowMicros;
    var t := Apply(s, Receive(w, pos, batch));
    BatchTodo(w, pos, batch);
    BoundedHigher(t.todo, pos, Max(top, pos));
    forall room, e | Sound(s, room, e)
      ensures Sound(t, room, e)
    {
      if e.clean {
        forall c | c in t.changes && c.room == room && c !in e.seen
          ensures c.pos > t.position && (c in t.outstanding || Drop(room) in t.todo)
        {
        }
      }
    }
  }

  lemma AnnouncedKeeps(s: Sys, top: int, pos: int)
    requires InvAt(s, top) && Enabled(s, Announced(pos))
    ensures InvAt(Apply(s, Announced(pos)), Max(top, pos))
  {
    var t := Apply(s, Announced(pos));
    forall room, e | Sound(s, room, e)
      ensures Sound(t, room, e)
    {
    }
  }

  lemma TailIn(todo: seq<Micro>, m: Micro)
    requires todo != [] && m in todo && m != todo[0]
    ensures m in todo[1..]
  {
    var i :| 0 <= i < |todo| && todo[i] == m;
    assert todo[1..][i - 1] == m;
  }

  lemma TailFine(todo: seq<Micro>, top: int)
    requires todo != [] && DropsFirst(todo) && Bounded(todo, top)
    ensures DropsFirst(todo[1..]) && Bounded(todo[1..], top)
  {
    var rest := todo[1..];
    forall i, j | 0 <= i < |rest| && 0 <= j < |rest| && rest[i].Move? && rest[j].Drop?
      ensures j < i
    {
      assert todo[i + 1] == rest[i] && todo[j + 1] == rest[j];
    }
    forall i | 0 <= i < |rest|
      ensures rest[i].Raise? || rest[i].Move? ==> rest[i].pos <= top
    {
      assert todo[i + 1] == rest[i];
    }
  }

  lemma WorkSound(s: Sys, top: int, room: string, e: Entry)
    requires InvAt(s, top) && s.todo != [] && Sound(s, room, e)
    requires s.todo[0].Drop? && s.todo[0].room != "" ==> s.todo[0].room != room
    ensures Sound(Apply(s, Work), room, e)
  {
    var t, m := Apply(s, Work), s.todo[0];
    if e.clean {
      forall c | c in t.changes && c.room == room && c !in e.seen
        ensures c.pos > t.position && (c in t.outstanding || Drop(room) in t.todo)
      {
        if c !in s.outstanding {
          var j :| 0 <= j < |s.todo| && s.todo[j] == Drop(room);
          TailIn(s.todo, Drop(room));
        } else if m.Move? {
          assert m.pos <= top;
        }
      }
    }
  }

  lemma WorkKeeps(s: Sys, top: int)
    requires InvAt(s, top) && s.todo != []
    ensures InvAt(Apply(s, Work), top)
  {
    var t, m := Apply(s, Work), s.todo[0];
    TailFine(s.todo, top);
    assert m.Raise? || m.Move? ==> m.pos <= top;
    hide DropsFirst, Bounded;
    forall r | r in t.cache
      ensures Sound(t, r, t.cache[r])
    {
      WorkSound(s, top, r, s.cache[r]);
    }
    forall f | f in t.fills
      ensures Sound(t, t.fills[f].room, t.fills[f].entry)
    {
      if t.fills[f].entry.clean {
        WorkSound(s, top, s.fills[f].room, s.fills[f].entry);
      }
    }
  }

  lemma CommitKeeps(s: Sys, top: int, c: Change)
    requires InvAt(s, top) && Enabled(s, Commit(c))
    ensures InvAt(Apply(s, Commit(c)), top)
  {
    hide DropsFirst, Bounded;
    var t := Apply(s, Commit(c));
    forall room, e | Sound(s, room, e)
      ensures Sound(t, room, e)
    {
    }
  }

  /** The reader's steps, and arming and disarming. */
  lemma ReaderKeeps(s: Sys, top: int, step: Step)
    requires InvAt(s, top) && Enabled(s, step)
    requires step.Query? || step.Store? || step.Evict? || step.DisarmGuard? || step.EmptyCaches? || step.ArmGuard? || step.ArmCaches?
    ensures InvAt(Apply(s, step), top)
  {
    hide DropsFirst, Bounded;
    var t := Apply(s, step);
    forall room, e | Sound(s, room, e) && !step.ArmCaches?
      ensures Sound(t, room, e)
    {
    }
  }

  lemma StepKeeps(s: Sys, step: Step)
    requires Inv(s) && Enabled(s, step)
    ensures Inv(Apply(s, step))
  {
    hide InvAt, Apply;
    var top :| InvAt(s, top);
    match step
    case Commit(c) => CommitKeeps(s, top, c);
    case Receive(w, pos, batch) => ReceiveKeeps(s, top, w, pos, batch);
    case Announced(pos) => AnnouncedKeeps(s, top, pos);
    case Work => WorkKeeps(s, top);
    case _ => ReaderKeeps(s, top, step);
  }

  // ------------------------------------------------------------------ whole runs

  ghost predicate IsRun(states: seq<Sys>, steps: seq<Step>) {
    && |states| == |steps| + 1 && Init(states[0])
    && forall i :: 0 <= i < |steps| ==> Enabled(states[i], steps[i]) && states[i + 1] == Apply(states[i], steps[i])
  }

  lemma {:induction false} RunKeeps(states: seq<Sys>, steps: seq<Step>, i: nat)
    requires IsRun(states, steps) && i < |states|
    ensures Inv(states[i])
  {
    if i == 0 {
      assert InvAt(states[0], states[0].position);
    } else {
      hide Inv, Apply, Enabled;
      RunKeeps(states, steps, i - 1);
      StepKeeps(states[i - 1], steps[i - 1]);
    }
  }

  /** The caches agree with the database: in every run, a clean entry found at a horizon no higher
      than the subscriber's position reflects every change at or below the horizon. */
  lemma ServedIsCurrent(states: seq<Sys>, steps: seq<Step>, i: nat, room: string, horizon: int, c: Change)
    requires IsRun(states, steps) && i < |states|
    requires room in states[i].cache && states[i].cache[room].clean && horizon <= states[i].position
    requires c in states[i].changes && c.room == room && c.pos <= horizon
    ensures c in states[i].cache[room].seen
  {
    RunKeeps(states, steps, i);
    var top :| InvAt(states[i], top);
    assert Sound(states[i], room, states[i].cache[room]);
  }

  /** At any horizon the guard lets through, the same holds once the batch in hand has no row left
      for the room. */
  lemma GuardedIsCurrent(states: seq<Sys>, steps: seq<Step>, i: nat, room: string, horizon: int, c: Change)
    requires IsRun(states, steps) && i < |states|
    requires room in states[i].cache && states[i].cache[room].clean
    requires Armed(states[i]) && horizon <= states[i].applied && Drop(room) !in states[i].todo
    requires c in states[i].changes && c.room == room && c.pos <= horizon
    ensures c in states[i].cache[room].seen
  {
    RunKeeps(states, steps, i);
    var top :| InvAt(states[i], top);
    assert Sound(states[i], room, states[i].cache[room]);
  }

  // ------------------------------------------------------------------ the limits

  /** Some run holds a clean entry the guard would serve at a horizon, yet misses a change at or
      below it. */
  ghost predicate StaleUnderGuard(s: Sys, room: string, horizon: int, c: Change) {
    && room in s.cache && Armed(s) && horizon <= s.applied
    && c in s.changes && c.room == room && c.pos <= horizon && c !in s.cache[room].seen
  }

  function RoomRow(room: string): Row {
    Row("", [room], [], None)
  }

  lemma OneRowMicros(a: string, pos: int)
    ensures RowMicros(pos, [RoomRow(a)]) == [Drop(a), Raise(pos)]
  {
    assert [RoomRow(a)][..0] == [] && Drops([a]) == [Drop(a)];
  }

  lemma TwoRowMicros(a: string, b: string, pos: int)
    ensures RowMicros(pos, [RoomRow(a), RoomRow(b)]) == [Drop(a), Raise(pos), Drop(b), Raise(pos)]
  {
    var two := [RoomRow(a), RoomRow(b)];
    assert two[..1] == [RoomRow(a)] && Drops([b]) == [Drop(b)];
    OneRowMicros(a, pos);
  }

  /** A run, one step longer. */
  lemma Then(states: seq<Sys>, steps: seq<Step>, step: Step) returns (states': seq<Sys>, steps': seq<Step>)
    requires IsRun(states, steps) && Enabled(states[|steps|], step)
    ensures IsRun(states', steps') && |states'| == |steps'| + 1 && states'[|steps'|] == Apply(states[|steps|], step)
  {
    hide Apply, Enabled;
    states', steps' := states + [Apply(states[|steps|], step)], steps + [step];
  }

  lemma Start(position: int) returns (states: seq<Sys>, steps: seq<Step>)
    ensures IsRun(states, steps) && steps == [] && states == [Sys({}, position, position, 0, Down, [], map[], map[], {})]
  {
    states, steps := [Sys({}, position, position, 0, Down, [], map[], map[], {})], [];
  }

  /** Connected at a position, with room "a" queried before any change. */
  lemma Primed(position: int) returns (states: seq<Sys>, steps: seq<Step>)
    ensures IsRun(states, steps) && |states| == |steps| + 1
    ensures states[|steps|] == Sys({}, position, position, position, Up, [], map[], map[0 := Fill("a", Entry({}, true))], {})
  {
    states, steps := Start(position);
    hide IsRun;
    states, steps := Then(states, steps, ArmGuard);
    states, steps := Then(states, steps, ArmCaches);
    assert states[|steps|].fills == map[];
    states, steps := Then(states, steps, Query(0, "a"));
    assert states[|steps|].fills[0].entry.seen == {};
  }

  /** Room "a" cached, then changes to it and to another room, announced in one batch. */
  lemma BatchInHand(position: int, pos: int) returns (states: seq<Sys>, steps: seq<Step>)
    requires 0 <= position < pos
    ensures IsRun(states, steps) && |states| == |steps| + 1
    ensures states[|steps|] == Sys({Change("b", pos), Change("a", pos)}, pos, position, position, Up,
                                   [Drop("b"), Raise(pos), Drop("a"), Raise(pos), Move(pos)], map["a" := Entry({}, true)], map[], {})
  {
    hide MicrosOf, BatchEffects, RowMicros, IsRun;
    var w, batch := Writer(Events, ""), [RoomRow("b"), RoomRow("a")];
    BatchMicros(w, pos, batch);
    TwoRowMicros("b", "a", pos);
    states, steps := Primed(position);
    states, steps := Then(states, steps, Store(0));
    assert states[|steps|].fills == map[];
    states, steps := Then(states, steps, Commit(Change("b", pos)));
    states, steps := Then(states, steps, Commit(Change("a", pos)));
    assert Drop("b") == RowMicros(pos, batch)[0] && Drop("a") == RowMicros(pos, batch)[2];
    states, steps := Then(states, steps, Receive(w, pos, batch));
  }

  /** No higher horizon will do. The applied position is raised after the first row of a batch, so
      for every position and every horizon above it some run serves, through the guard, a clean
      entry from before a change at the horizon: the room of a later row of the batch. */
  lemma GuardOpensMidBatch(position: int, horizon: int) returns (states: seq<Sys>, steps: seq<Step>)
    requires 0 <= position < horizon
    ensures IsRun(states, steps)
    ensures StaleUnderGuard(states[|steps|], "a", horizon, Change("a", horizon)) && states[|steps|].cache["a"].clean
    ensures states[|steps|].position == position
  {
    hide MicrosOf, BatchEffects, RowMicros, IsRun;
    states, steps := BatchInHand(position, horizon);
    states, steps := Then(states, steps, Work);
    states, steps := Then(states, steps, Work);
  }

  /** A query overtaken by the invalidation it should have heard is stored stale, and stays so once
      the batch is done: storing must be atomic with the query. */
  lemma OvertakenFillIsStale() returns (states: seq<Sys>, steps: seq<Step>)
    ensures IsRun(states, steps)
    ensures StaleUnderGuard(states[|steps|], "a", 1, Change("a", 1)) && !states[|steps|].cache["a"].clean
    ensures states[|steps|].todo == [] && states[|steps|].position == 1
  {
    hide MicrosOf, BatchEffects, RowMicros, IsRun;
    var w, batch := Writer(Events, ""), [RoomRow("a")];
    BatchMicros(w, 1, batch);
    OneRowMicros("a", 1);
    states, steps := Primed(0);
    states, steps := Then(states, steps, Commit(Change("a", 1)));
    assert Drop("a") == RowMicros(1, batch)[0];
    states, steps := Then(states, steps, Receive(w, 1, batch));
    assert states[|steps|].todo == [Drop("a"), Raise(1), Move(1)];
    states, steps := Then(states, steps, Work);
    states, steps := Then(states, steps, Work);
    states, steps := Then(states, steps, Work);
    states, steps := Then(states, steps, Store(0));
  }
}
