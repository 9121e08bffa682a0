/** The stream-change caches against the replication thread: a token never covers a change that a cache
    has not heard of.

    A cache holds, above a horizon, where each entity last changed. It is fed row by row before the
    position moves; an announcement, or a row that names nobody, empties it and moves its horizon up.
    Commits, evictions and questions fall between any two steps. */
module StreamGate {
  import opened Common
  import opened Replication

  /** An entity, a room or a user, changed at a position. */
  datatype Change = Change(entity: string, pos: int)

  /** What a cache goes by when asked. */
  datatype Gate = Gate(armed: bool, earliest: int, last: map<string, int>)

  // -------------------------------------------------------------------- the gate

  ghost function Noted(g: Gate, entity: string, pos: int): Gate {
    if !g.armed || pos <= g.earliest || (entity in g.last && g.last[entity] >= pos) then g
    else g.(last := g.last[entity := pos])
  }

  /** Something changed at a position and nobody knows what. */
  ghost function Forgot(g: Gate, pos: int): Gate {
    g.(last := map[], earliest := Max(g.earliest, pos))
  }

  /** The entries up to a position dropped, and the horizon moved there. */
  ghost function Evicted(g: Gate, pos: int): Gate {
    Gate(g.armed, Max(g.earliest, pos), map e | e in g.last && g.last[e] > pos :: g.last[e])
  }

  ghost function Armed(g: Gate, horizon: int, entries: map<string, int>): Gate {
    var earliest := Max(g.earliest, horizon);
    Gate(true, earliest, map e | e in entries && entries[e] > earliest :: entries[e])
  }

  /** Whether an entity may have changed after a position. Yes costs a query; no is a claim. */
  predicate Says(g: Gate, entity: string, from: int) {
    !g.armed || from < g.earliest || (entity in g.last && from < g.last[entity])
  }

  ghost predicate Known(g: Gate, c: Change) {
    c.pos <= g.earliest || (c.entity in g.last && c.pos <= g.last[c.entity])
  }

  /** What each operation does to the answers, exactly: noting a change changes the answer for its own
      entity, to whoever asks from below it; dropping entries, for everyone who asks from below where. */
  lemma NotedSays(g: Gate, entity: string, pos: int, e: string, from: int)
    ensures Says(Noted(g, entity, pos), e, from) <==> Says(g, e, from) || (e == entity && from < pos)
  {
  }

  lemma EvictedSays(g: Gate, pos: int, e: string, from: int)
    ensures Says(Evicted(g, pos), e, from) <==> Says(g, e, from) || from < pos
  {
  }

  /** Forgetting answers by position alone, whatever was known before; arming by the entries too. */
  lemma ForgotSays(g: Gate, pos: int, e: string, from: int)
    ensures Says(Forgot(g, pos), e, from) <==> !g.armed || from < g.earliest || from < pos
  {
  }

  lemma ArmedSays(g: Gate, horizon: int, entries: map<string, int>, e: string, from: int)
    ensures Says(Armed(g, horizon, entries), e, from) <==>
      from < g.earliest || from < horizon || (e in entries && from < entries[e])
  {
  }

  // ---------------------------------------------------------------- the effects

  datatype Micro = Note(entity: string, pos: int) | Forget(pos: int) | Move(pos: int)

  /** Which stream a cache follows, and whether it is keyed by room or by user. */
  datatype Feed = Feed(stream: Stream, byRoom: bool)

  predicate Fit(f: Feed) {
    !Silent(f.stream) && !Resettable(f.stream)
  }

  function Subjects(f: Feed, row: Row): seq<string> {
    if f.byRoom then row.rooms else row.users
  }

  function Fed(pos: int, subjects: seq<string>): seq<Micro> {
    if subjects == [] then [Forget(pos)] else seq(|subjects|, i requires 0 <= i < |subjects| => Note(subjects[i], pos))
  }

  function MicroOf(f: Feed, e: Effect): seq<Micro> {
    match e
    case Tell(Record, stream, pos, row) => if stream == f.stream then Fed(pos, Subjects(f, row)) else []
    case Announce(Record, stream, pos) => if stream == f.stream then [Forget(pos)] else []
    case Advance(w, pos) => if w.stream == f.stream then [Move(pos)] else []
    case _ => []
  }

  function MicrosOf(f: Feed, es: seq<Effect>): seq<Micro> {
    if es == [] then [] else MicrosOf(f, es[..|es| - 1]) + MicroOf(f, es[|es| - 1])
  }

  /** A batch fed row by row. */
  function RowFeeds(f: Feed, pos: int, batch: seq<Row>): seq<Micro> {
    if batch == [] then [] else RowFeeds(f, pos, batch[..|batch| - 1]) + Fed(pos, Subjects(f, batch[|batch| - 1]))
  }

  lemma {:induction false} MicrosConcat(f: Feed, a: seq<Effect>, b: seq<Effect>)
    ensures MicrosOf(f, a + b) == MicrosOf(f, a) + MicrosOf(f, b)
  {
    hide MicroOf;
    if b == [] {
      assert a + b == a;
    } else {
      assert (a + b)[..|a + b| - 1] == a + b[..|b| - 1];
      MicrosConcat(f, a, b[..|b| - 1]);
    }
  }

  lemma MicroTell(f: Feed, duty: Duty, pos: int, row: Row)
    ensures MicroOf(f, Tell(duty, f.stream, pos, row)) == if duty == Record then Fed(pos, Subjects(f, row)) else []
  {
    hide Fed;
  }

  lemma {:induction false} MicrosTelling(f: Feed, duty: Duty, pos: int, batch: seq<Row>)
    requires Fit(f)
    ensures MicrosOf(f, Telling(duty, f.stream, pos, batch)) == if duty == Record then RowFeeds(f, pos, batch) else []
  {
    hide MicroOf, Fed;
    if batch != [] && Duteous(duty, f.stream) {
      var n := |batch| - 1;
      var es, init := Telling(duty, f.stream, pos, batch), batch[..n];
      assert es[..n] == Telling(duty, f.stream, pos, init) && es[n] == Tell(duty, f.stream, pos, batch[n]);
      MicrosTelling(f, duty, pos, init);
      MicroTell(f, duty, pos, batch[n]);
    }
  }

  /** What a batch does here: every row is fed, and only then does the position move. */
  lemma BatchMicros(f: Feed, w: Writer, pos: int, batch: seq<Row>)
    requires Fit(f) && w.stream == f.stream
    ensures MicrosOf(f, BatchEffects(w, pos, batch)) == RowFeeds(f, pos, batch) + if pos > 0 then [Move(pos)] else []
  {
    hide MicrosOf, Telling, RowFeeds;
    var mid := if pos > 0 then [Advance(w, pos)] else [];
    var t, i, r, k := Telling(Type, f.stream, pos, batch), Telling(Invalidate, f.stream, pos, batch),
                      Telling(Record, f.stream, pos, batch), Telling(Wake, f.stream, pos, batch);
    assert BatchEffects(w, pos, batch) == t + i + r + mid + k;
    MicrosConcat(f, t, i);
    MicrosConcat(f, t + i, r);
    MicrosConcat(f, t + i + r, mid);
    MicrosConcat(f, t + i + r + mid, k);
    MicrosTelling(f, Type, pos, batch);
    MicrosTelling(f, Invalidate, pos, batch);
    MicrosTelling(f, Record, pos, batch);
    MicrosTelling(f, Wake, pos, batch);
    MicrosOne(f, w, pos);
  }

  lemma MicrosOne(f: Feed, w: Writer, pos: int)
    requires w.stream == f.stream
    ensures MicrosOf(f, [Advance(w, pos)]) == [Move(pos)] && MicrosOf(f, []) == []
  {
    assert [Advance(w, pos)][..0] == [];
  }

  /** And an announcement: the horizon first, then the position. */
  lemma AnnounceMicros(f: Feed, w: Writer, pos: int)
    requires w.stream == f.stream
    ensures MicrosOf(f, AnnounceEffects(w, pos)) == [Forget(pos), Move(pos)]
  {
    var es := AnnounceEffects(w, pos);
    assert es[..2][..1] == es[..1] && es[..1][..0] == [];
    assert MicrosOf(f, es[..1]) == [Forget(pos)];
    assert MicrosOf(f, es[..2]) == [Forget(pos), Move(pos)];
  }

  // ------------------------------------------------------------------- the steps

  /** `outstanding` are the changes committed since the cache was armed and not announced yet. `kept` says
      that every step since then met its condition, `whole` that the cache was complete after each. */
  datatype Sys = Sys(
    feed: Feed,
    changes: set<Change>,
    floor: int,
    position: int,
    gate: Gate,
    todo: seq<Micro>,
    outstanding: set<Change>,
    kept: bool,
    whole: bool)

  datatype Step =
    | Commit(change: Change)
    | Receive(writer: Writer, pos: int, batch: seq<Row>)
    | Announced(writer: Writer, pos: int)
    | Work
    | Evict(upTo: int)
    | Arm(horizon: int, entries: map<string, int>)
    | Disarm

  ghost predicate Init(s: Sys) {
    Fit(s.feed) && s.todo == [] && !s.gate.armed && s.gate.last == map[] && s.outstanding == {} && s.position <= s.floor
    && (forall c :: c in s.changes ==> c.pos <= s.floor) && s.kept && s.whole
  }

  /** Changes commit above everything announced. A batch names, or has a row that names nobody for, every
      outstanding change it passes; an announcement may pass any, of rows that were missed. */
  ghost predicate Enabled(s: Sys, step: Step) {
    match step
    case Commit(c) => c.pos > s.floor
    case Receive(w, pos, batch) =>
      && s.gate.armed && s.todo == [] && w.stream == s.feed.stream
      && forall c :: c in s.outstanding && c.pos <= pos ==> Covered(RowFeeds(s.feed, pos, batch), c)
    case Announced(w, pos) => s.gate.armed && s.todo == [] && w.stream == s.feed.stream
    case Work => s.todo != []
    case Evict(_) => true
    case Arm(_, _) => !s.gate.armed
    case Disarm => s.gate.armed && s.todo == []
  }

  /** Steps to come tell the cache of a change. */
  ghost predicate Covered(todo: seq<Micro>, c: Change) {
    exists i :: 0 <= i < |todo| && Covers(todo[i], c)
  }

  predicate Covers(m: Micro, c: Change) {
    c.pos <= m.pos && (m.Forget? || (m.Note? && m.entity == c.entity))
  }

  ghost predicate Pending(s: Sys, c: Change) {
    c.pos > s.position && (c in s.outstanding || Covered(s.todo, c))
  }

  /** An armed cache has heard of every change, or is about to before the position covers it. */
  ghost predicate Complete(s: Sys) {
    s.gate.armed ==> forall c :: c in s.changes ==> Known(s.gate, c) || Pending(s, c)
  }

  ghost function Perform(s: Sys, m: Micro): Sys {
    match m
    case Note(e, pos) => s.(gate := Noted(s.gate, e, pos))
    case Forget(pos) => s.(gate := Forgot(s.gate, pos))
    case Move(pos) => s.(position := Max(s.position, pos))
  }

  /** What a step does to everything but the two flags. */
  ghost function Acted(s: Sys, step: Step): Sys
    requires Enabled(s, step)
  {
    match step
    case Commit(c) => s.(changes := s.changes + {c}, outstanding := if s.gate.armed then s.outstanding + {c} else s.outstanding)
    case Receive(w, pos, batch) =>
      s.(todo := MicrosOf(s.feed, BatchEffects(w, pos, batch)), floor := Max(s.floor, pos),
         outstanding := set c | c in s.outstanding && c.pos > pos)
    case Announced(w, pos) =>
      s.(todo := MicrosOf(s.feed, AnnounceEffects(w, pos)), floor := Max(s.floor, pos),
         outstanding := set c | c in s.outstanding && c.pos > pos)
    case Work => Perform(s.(todo := s.todo[1..]), s.todo[0])
    case Evict(k) => s.(gate := Evicted(s.gate, k))
    case Arm(horizon, entries) => s.(gate := Armed(s.gate, horizon, entries), outstanding := {})
    case Disarm => s.(gate := Gate(false, s.gate.earliest, map[]), outstanding := {})
  }

  /** When a step keeps a cache complete: arming needs every change above the horizon among the entries;
      forgetting up to a position needs every change above it, and above the horizon, still to come. */
  ghost predicate Fine(s: Sys, step: Step)
    requires Enabled(s, step)
  {
    match step
    case Arm(horizon, entries) =>
      forall c :: c in s.changes && c.pos > Max(s.gate.earliest, horizon) ==> c.entity in entries && c.pos <= entries[c.entity]
    case Work =>
      s.todo[0].Forget? && s.gate.armed ==>
        forall c :: c in s.changes && c.pos > Max(s.gate.earliest, s.todo[0].pos) ==> Pending(Acted(s, step), c)
    case _ => true
  }

  ghost function Apply(s: Sys, step: Step): Sys
    requires Enabled(s, step)
  {
    var t := Acted(s, step);
    t.(kept := (step.Arm? || s.kept) && Fine(s, step), whole := (step.Arm? || s.whole) && Complete(t))
  }

  // --------------------------------------------------------------- the invariant

  /** The cache is fed before the position moves. */
  ghost predicate FedFirst(todo: seq<Micro>) {
    forall i, j :: 0 <= i < |todo| && 0 <= j < |todo| && todo[i].Move? && !todo[j].Move? ==> j < i
  }

  ghost predicate Bounded(todo: seq<Micro>, top: int) {
    forall i :: 0 <= i < |todo| ==> todo[i].pos <= top
  }

  /** `top` is how far the command in hand reaches; outside one, the position. */
  ghost predicate InvAt(s: Sys, top: int) {
    && Fit(s.feed) && s.position <= top <= s.floor && FedFirst(s.todo) && Bounded(s.todo, top)
    && (forall c :: c in s.outstanding ==> c.pos > top)
    && (!s.gate.armed ==> s.todo == [] && s.outstanding == {})
  }

  ghost predicate Inv(s: Sys) {
    && (exists top :: InvAt(s, top))
    && (s.kept <==> s.whole) && (s.whole ==> Complete(s))
  }

  // -------------------------------------------------------------------- each step

  lemma {:induction false} RowFeedsAt(f: Feed, pos: int, batch: seq<Row>)
    ensures forall i :: 0 <= i < |RowFeeds(f, pos, batch)| ==> RowFeeds(f, pos, batch)[i].pos == pos && !RowFeeds(f, pos, batch)[i].Move?
  {
    if batch != [] {
      RowFeedsAt(f, pos, batch[..|batch| - 1]);
    }
  }

  /** Rows fed and then a move. */
  lemma FedThenMoved(rows: seq<Micro>, pos: int, mid: seq<Micro>)
    requires forall i :: 0 <= i < |rows| ==> rows[i].pos == pos && !rows[i].Move?
    requires mid == [] || mid == [Move(pos)]
    ensures FedFirst(rows + mid) && Bounded(rows + mid, pos)
    ensures forall c :: Covered(rows, c) ==> Covered(rows + mid, c)
  {
    hide Covers;
    forall c | Covered(rows, c)
      ensures Covered(rows + mid, c)
    {
      var i :| 0 <= i < |rows| && Covers(rows[i], c);
      assert (rows + mid)[i] == rows[i];
    }
  }

  lemma BatchTodo(f: Feed, w: Writer, pos: int, batch: seq<Row>)
    requires Fit(f) && w.stream == f.stream
    ensures var todo := MicrosOf(f, BatchEffects(w, pos, batch));
            && FedFirst(todo) && Bounded(todo, pos)
            && forall c :: Covered(RowFeeds(f, pos, batch), c) ==> Covered(todo, c)
  {
    hide MicrosOf, BatchEffects, RowFeeds, Covered, FedFirst, Bounded;
    BatchMicros(f, w, pos, batch);
    RowFeedsAt(f, pos, batch);
    FedThenMoved(RowFeeds(f, pos, batch), pos, if pos > 0 then [Move(pos)] else []);
  }

  lemma AnnounceTodo(f: Feed, w: Writer, pos: int)
    requires w.stream == f.stream
    ensures var todo := MicrosOf(f, AnnounceEffects(w, pos));
            todo == [Forget(pos), Move(pos)] && FedFirst(todo) && Bounded(todo, pos)
            && forall c: Change :: c.pos <= pos ==> Covered(todo, c)
  {
    AnnounceMicros(f, w, pos);
    hide MicrosOf, AnnounceEffects;
    forall c: Change | c.pos <= pos
      ensures Covered([Forget(pos), Move(pos)], c)
    {
      assert Covers([Forget(pos), Move(pos)][0], c);
    }
  }

  lemma TailFine(todo: seq<Micro>, top: int)
    requires todo != [] && FedFirst(todo) && Bounded(todo, top)
    ensures FedFirst(todo[1..]) && Bounded(todo[1..], top)
    ensures todo[0].Move? ==> forall i :: 0 <= i < |todo[1..]| ==> todo[1..][i].Move?
  {
    var rest := todo[1..];
    forall i, j | 0 <= i < |rest| && 0 <= j < |rest| && rest[i].Move? && !rest[j].Move?
      ensures j < i
    {
      assert todo[i + 1] == rest[i] && todo[j + 1] == rest[j];
    }
    forall i | 0 <= i < |rest|
      ensures rest[i].pos <= top && (todo[0].Move? ==> rest[i].Move?)
    {
      assert todo[i + 1] == rest[i];
    }
  }

  lemma ActedInv(s: Sys, step: Step, top: int) returns (top': int)
    requires InvAt(s, top) && Enabled(s, step)
    ensures InvAt(Acted(s, step), top')
  {
    hide MicrosOf, BatchEffects, AnnounceEffects, Covered, RowFeeds;
    top' := top;
    match step
    case Receive(w, pos, batch) =>
      BatchTodo(s.feed, w, pos, batch);
      top' := Max(top, pos);
    case Announced(w, pos) =>
      AnnounceTodo(s.feed, w, pos);
      top' := Max(top, pos);
    case Work =>
      TailFine(s.todo, top);
      assert s.todo[0].pos <= top;
      hide FedFirst, Bounded;
    case _ =>
      hide FedFirst, Bounded;
  }

  lemma CoveredTail(todo: seq<Micro>, c: Change)
    requires todo != [] && Covered(todo, c)
    ensures Covers(todo[0], c) || Covered(todo[1..], c)
  {
    var i :| 0 <= i < |todo| && Covers(todo[i], c);
    if i > 0 {
      assert todo[1..][i - 1] == todo[i];
    }
  }

  /** A row fed: its change is known, and nothing known is lost. */
  lemma NoteComplete(s: Sys, top: int)
    requires InvAt(s, top) && s.todo != [] && s.todo[0].Note? && Complete(s)
    ensures Complete(Acted(s, Work))
  {
    hide FedFirst, Bounded;
    var t := Acted(s, Work);
    forall c | c in t.changes && s.gate.armed
      ensures Known(t.gate, c) || Pending(t, c)
    {
      if !Known(s.gate, c) && c !in s.outstanding {
        CoveredTail(s.todo, c);
      }
    }
  }

  /** The position moved: everything it now covers has been fed. */
  lemma MoveComplete(s: Sys, top: int)
    requires InvAt(s, top) && s.todo != [] && s.todo[0].Move? && Complete(s)
    ensures Complete(Acted(s, Work))
  {
    var t := Acted(s, Work);
    TailFine(s.todo, top);
    forall c | c in t.changes && s.gate.armed
      ensures Known(t.gate, c) || Pending(t, c)
    {
      if !Known(s.gate, c) {
        if c in s.outstanding {
          assert s.todo[0].pos <= top;
        } else {
          CoveredTail(s.todo, c);
        }
      }
    }
  }

  lemma CommandComplete(s: Sys, step: Step, top: int)
    requires InvAt(s, top) && Enabled(s, step) && (step.Receive? || step.Announced?) && Complete(s)
    ensures Complete(Acted(s, step))
  {
    var t := Acted(s, step);
    if step.Receive? {
      BatchTodo(s.feed, step.writer, step.pos, step.batch);
    } else {
      AnnounceTodo(s.feed, step.writer, step.pos);
    }
    hide MicrosOf, BatchEffects, AnnounceEffects, RowFeeds, FedFirst, Bounded;
    forall c | c in t.changes
      ensures Known(t.gate, c) || Pending(t, c)
    {
      if !Known(s.gate, c) {
        assert !Covered(s.todo, c);
      }
    }
  }

  /** One step of any kind leaves a cache complete exactly when it meets its condition. */
  lemma StepCompleteIff(s: Sys, step: Step, top: int)
    requires InvAt(s, top) && Enabled(s, step) && (step.Arm? || Complete(s))
    ensures Complete(Acted(s, step)) <==> Fine(s, step)
  {
    match step
    case Receive(_, _, _) =>
      hide *;
      CommandComplete(s, step, top);
      CommandsFine(s, step);
    case Announced(_, _) =>
      hide *;
      CommandComplete(s, step, top);
      CommandsFine(s, step);
    case Work =>
      if s.todo[0].Note? {
        hide Complete, InvAt;
        NoteComplete(s, top);
      } else if s.todo[0].Move? {
        hide Complete, InvAt;
        MoveComplete(s, top);
      } else {
        hide InvAt, Pending;
      }
    case Arm(_, _) =>
      hide FedFirst, Bounded;
    case _ =>
      hide FedFirst, Bounded, Covered;
  }

  lemma CommandsFine(s: Sys, step: Step)
    requires Enabled(s, step) && (step.Receive? || step.Announced?)
    ensures Fine(s, step)
  {
  }

  lemma StepKeeps(s: Sys, step: Step)
    requires Inv(s) && Enabled(s, step)
    ensures Inv(Apply(s, step))
  {
    var top :| InvAt(s, top);
    hide InvAt, Complete, Fine, Acted, Enabled;
    if step.Arm? || s.whole {
      StepCompleteIff(s, step, top);
    }
    var top' := ActedInv(s, step, top);
    FlagsOnly(Acted(s, step), Apply(s, step), top');
  }

  /** The flags are no part of what is invariant about the rest. */
  lemma FlagsOnly(s: Sys, t: Sys, top: int)
    requires InvAt(s, top) && t == s.(kept := t.kept, whole := t.whole)
    ensures InvAt(t, top) && (Complete(t) <==> Complete(s))
  {
    hide FedFirst, Bounded, Covered;
    assert forall c :: Pending(t, c) <==> Pending(s, c);
  }

  // ------------------------------------------------------------------ whole runs

  ghost predicate IsRun(states: seq<Sys>, steps: seq<Step>) {
    && |states| == |steps| + 1 && Init(states[0])
    && forall i :: 0 <= i < |steps| ==> Enabled(states[i], steps[i]) && states[i + 1] == Apply(states[i], steps[i])
  }

  lemma {:induction false} RunKeeps(states: seq<Sys>, steps: seq<Step>, i: nat)
    requires IsRun(states, steps) && i < |states|
    ensures Inv(states[i])
  {
    if i == 0 {
      assert InvAt(states[0], states[0].position);
    } else {
      hide Inv, Apply, Enabled;
      RunKeeps(states, steps, i - 1);
      StepKeeps(states[i - 1], steps[i - 1]);
    }
  }

  /** In every run, a cache has been complete throughout since it was armed exactly when every step since
      then met its condition. */
  lemma CompleteThroughoutIff(states: seq<Sys>, steps: seq<Step>, i: nat)
    requires IsRun(states, steps) && i < |states|
    ensures states[i].kept <==> states[i].whole
    ensures states[i].whole ==> Complete(states[i])
  {
    RunKeeps(states, steps, i);
  }

  /** No false negative: then "unchanged" means unchanged, up to every token read from the position. */
  lemma NoFalseNegative(states: seq<Sys>, steps: seq<Step>, i: nat, entity: string, from: int, now: int, c: Change)
    requires IsRun(states, steps) && i < |states| && states[i].kept
    requires !Says(states[i].gate, entity, from) && now <= states[i].position
    requires c in states[i].changes && c.entity == entity
    ensures !(from < c.pos <= now)
  {
    RunKeeps(states, steps, i);
  }

  /** And one that is not complete denies a change to whoever asks from below it, from the horizon on and
      above what is noted of the entity; from just below it, at least. */
  lemma IncompleteDenies(s: Sys, c: Change, from: int)
    requires s.gate.armed && c in s.changes && !Known(s.gate, c)
    ensures !Says(s.gate, c.entity, c.pos - 1)
    ensures s.gate.earliest <= from < c.pos && (c.entity in s.gate.last ==> s.gate.last[c.entity] <= from) ==>
      !Says(s.gate, c.entity, from)
  {
  }

  /** The condition on an announcement, before it is acted on: it loses nothing exactly when every change
      above both it and the horizon is one whose own row is still to come. */
  lemma AnnouncedFineIff(s: Sys, top: int, w: Writer, pos: int)
    requires InvAt(s, top) && Enabled(s, Announced(w, pos))
    ensures var t := Acted(s, Announced(w, pos));
            && Enabled(t, Work) && t.todo == [Forget(pos), Move(pos)]
            && (Fine(t, Work) <==> forall c :: c in s.changes && c.pos > Max(s.gate.earliest, pos) ==> c in s.outstanding)
  {
    AnnounceTodo(s.feed, w, pos);
    hide MicrosOf, AnnounceEffects, FedFirst, Bounded;
    var t := Acted(s, Announced(w, pos));
    var after := Acted(t, Work);
    assert after.todo == [Move(pos)];
    forall c | c in s.changes && c.pos > Max(s.gate.earliest, pos)
      ensures Pending(after, c) <==> c in s.outstanding
    {
      assert !Covered([Move(pos)], c);
    }
  }

  /** So a cache armed at a position, with nothing in it, is complete exactly when nothing was committed
      above that position while it was not listening. */
  lemma BareArmFineIff(s: Sys, horizon: int)
    requires Enabled(s, Arm(horizon, map[]))
    ensures Fine(s, Arm(horizon, map[])) <==> forall c :: c in s.changes ==> c.pos <= Max(s.gate.earliest, horizon)
  {
  }

  // ------------------------------------------------------------- a late announcement

  /** A run, one step longer. */
  lemma Then(states: seq<Sys>, steps: seq<Step>, step: Step) returns (states': seq<Sys>, steps': seq<Step>)
    requires IsRun(states, steps) && Enabled(states[|steps|], step)
    ensures IsRun(states', steps') && |states'| == |steps'| + 1 && steps' == steps + [step]
    ensures states'[|steps'|] == Acted(states[|steps|], step).(kept := states'[|steps'|].kept, whole := states'[|steps'|].whole)
  {
    hide Enabled, Acted, Complete, Fine;
    states', steps' := states + [Apply(states[|steps|], step)], steps + [step];
  }

  const ROOMS := Feed(Events, true)

  lemma Start() returns (states: seq<Sys>, steps: seq<Step>)
    ensures IsRun(states, steps) && steps == []
    ensures states == [Sys(ROOMS, {}, 0, 0, Gate(false, 0, map[]), [], {}, true, true)]
  {
    states, steps := [Sys(ROOMS, {}, 0, 0, Gate(false, 0, map[]), [], {}, true, true)], [];
  }

  lemma RoomBatch(w: Writer, room: string, pos: int)
    requires w.stream == Events && pos > 0
    ensures var batch := [Row("", [room], [], None)];
            && RowFeeds(ROOMS, pos, batch) == [Note(room, pos)] && Covered(RowFeeds(ROOMS, pos, batch), Change(room, pos))
            && MicrosOf(ROOMS, BatchEffects(w, pos, batch)) == [Note(room, pos), Move(pos)]
  {
    var batch := [Row("", [room], [], None)];
    assert batch[..0] == [] && Fed(pos, [room]) == [Note(room, pos)];
    assert Covers(RowFeeds(ROOMS, pos, batch)[0], Change(room, pos));
    BatchMicros(ROOMS, w, pos, batch);
  }

  /** A room changes at `pos`, and the cache is told. */
  lemma ToldOnce(pos: int) returns (states: seq<Sys>, steps: seq<Step>)
    requires pos > 0
    ensures IsRun(states, steps) && |states| == |steps| + 1 && states[|steps|].feed == ROOMS && states[|steps|].todo == []
    ensures states[|steps|].changes == {Change("a", pos)} && states[|steps|].position == pos
    ensures states[|steps|].gate == Gate(true, 0, map["a" := pos])
  {
    hide MicrosOf, BatchEffects, RowFeeds, Complete, Fine, IsRun;
    var w, batch := Writer(Events, "one"), [Row("", ["a"], [], None)];
    RoomBatch(w, "a", pos);
    states, steps := Start();
    states, steps := Then(states, steps, Arm(0, map[]));
    assert states[|steps|].gate == Gate(true, 0, map[]);
    states, steps := Then(states, steps, Commit(Change("a", pos)));
    states, steps := Then(states, steps, Receive(w, pos, batch));
    states, steps := Then(states, steps, Work);
    states, steps := Then(states, steps, Work);
  }

  /** Another writer announces a lower position, as writers do, and the cache forgets the change: from
      that announcement on, whoever asks from anywhere between the two is told nothing changed. */
  lemma LowerAnnouncementForgets(lower: int, pos: int, from: int) returns (states: seq<Sys>, steps: seq<Step>)
    requires 0 <= lower <= from < pos
    ensures IsRun(states, steps)
    ensures var s := states[|steps|];
            Change("a", pos) in s.changes && s.position == pos && s.gate.armed && !Says(s.gate, "a", from) && !s.kept
  {
    hide MicrosOf, AnnounceEffects, Complete, Fine;
    states, steps := ToldOnce(pos);
    AnnounceMicros(ROOMS, Writer(Events, "two"), lower);
    states, steps := Then(states, steps, Announced(Writer(Events, "two"), lower));
    states, steps := Then(states, steps, Work);
    states, steps := Then(states, steps, Work);
    var s := states[|steps|];
    if s.kept {
      NoFalseNegative(states, steps, |steps|, "a", from, pos, Change("a", pos));
    }
  }
}
