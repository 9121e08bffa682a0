/** The replication channel: rows buffered into batches, and what each command makes the
    subscriber do, in order. */
module Replication {
  import opened Common

  const MAX_PENDING_BATCH := 10000

  /** The streams treated specially, and all the others. */
  datatype Stream = Events | Typing | Federation | PresenceFederation | Caches | Named(name: string)

  /** The typists a typing row names: the whole set for its room. */
  datatype Typists = Typists(room: string, users: seq<string>)

  /** A row with the rooms and users it concerns. `typists` is absent when the row does not parse
      as a typing row. */
  datatype Row = Row(body: string, rooms: seq<string>, users: seq<string>, typists: Option<Typists>)

  datatype Token = Batch | Numeric(pos: int) | Malformed

  datatype Writer = Writer(stream: Stream, instance: string)

  datatype Command =
    | Rdata(writer: Writer, token: Token, row: Row)
    | Position(writer: Writer, pos: Option<int>)
    | Ignored

  /** Streams that wake nobody. */
  predicate Silent(stream: Stream) {
    stream == Caches || stream == PresenceFederation
  }

  /** Streams whose serial lives in a writer's memory, and may go down when it restarts. */
  predicate Resettable(stream: Stream) {
    stream == Typing || stream == Federation || stream == PresenceFederation
  }

  /** What a row is handed to. */
  datatype Duty = Type | Invalidate | Record | Wake

  datatype Effect =
    | Tell(duty: Duty, stream: Stream, pos: int, row: Row)
    | Announce(duty: Duty, stream: Stream, pos: int)
    | Advance(writer: Writer, pos: int)

  // ------------------------------------------------------------------ positions

  function PositionOf(positions: map<Stream, int>, stream: Stream): int {
    if stream in positions then positions[stream] else 0
  }

  /** A position below the writer's last one, on a stream whose writer may restart. */
  predicate Restarts(last: map<Writer, int>, w: Writer, pos: int) {
    Resettable(w.stream) && w in last && pos < last[w]
  }

  function AdvancedPositions(positions: map<Stream, int>, last: map<Writer, int>, w: Writer, pos: int): map<Stream, int> {
    if Restarts(last, w, pos) || pos > PositionOf(positions, w.stream) then positions[w.stream := pos] else positions
  }

  function AdvancedLast(last: map<Writer, int>, w: Writer, pos: int): map<Writer, int> {
    if Restarts(last, w, pos) || w !in last || pos > last[w] then last[w := pos] else last
  }

  // ------------------------------------------------------------------ one batch

  /** Whether a stream's rows are handed to a duty at all. */
  predicate Duteous(duty: Duty, stream: Stream) {
    match duty
    case Type => stream == Typing
    case Invalidate => true
    case Record | Wake => !Silent(stream)
  }

  /** A batch handed to one duty, row by row in arrival order. */
  function Telling(duty: Duty, stream: Stream, pos: int, batch: seq<Row>): seq<Effect> {
    if Duteous(duty, stream) then seq(|batch|, i requires 0 <= i < |batch| => Tell(duty, stream, pos, batch[i])) else []
  }

  /** What a completed batch does, in order. Typing moves its position before its rows are
      applied; every other stream invalidates and records first, then moves, then wakes. */
  function BatchEffects(w: Writer, pos: int, batch: seq<Row>): seq<Effect> {
    (if w.stream == Typing then [Advance(w, pos)] else [])
    + Telling(Type, w.stream, pos, batch)
    + Telling(Invalidate, w.stream, pos, batch)
    + Telling(Record, w.stream, pos, batch)
    + (if pos > 0 && w.stream != Typing then [Advance(w, pos)] else [])
    + Telling(Wake, w.stream, pos, batch)
  }

  function AnnounceEffects(w: Writer, pos: int): seq<Effect> {
    [Announce(Record, w.stream, pos), Advance(w, pos), Announce(Wake, w.stream, pos)]
  }

  // --------------------------------------------------------------- one command

  function Held(pending: map<Stream, seq<Row>>, stream: Stream): seq<Row> {
    if stream in pending then pending[stream] else []
  }

  predicate Overflows(pending: map<Stream, seq<Row>>, c: Command) {
    c.Rdata? && c.token.Batch? && |Held(pending, c.writer.stream)| >= MAX_PENDING_BATCH
  }

  /** The buffers after a command. A batch that never ends drops the session, and every buffer. */
  function PendingAfter(pending: map<Stream, seq<Row>>, c: Command): map<Stream, seq<Row>> {
    if Overflows(pending, c) then map[]
    else if !c.Rdata? then pending
    else match c.token
      case Batch => pending[c.writer.stream := Held(pending, c.writer.stream) + [c.row]]
      case Numeric(_) => pending - {c.writer.stream}
      case Malformed => pending
  }

  function EffectsOf(pending: map<Stream, seq<Row>>, c: Command): seq<Effect> {
    match c
    case Rdata(w, Numeric(pos), row) => BatchEffects(w, pos, Held(pending, w.stream) + [row])
    case Position(w, Some(pos)) => AnnounceEffects(w, pos)
    case _ => []
  }

  // -------------------------------------------------------------- whole sessions

  /** The buffers after a session's commands so far. */
  function PendingIn(cs: seq<Command>): map<Stream, seq<Row>> {
    if cs == [] then map[] else PendingAfter(PendingIn(cs[..|cs| - 1]), cs[|cs| - 1])
  }

  /** Everything a session's commands did, in order. */
  function TraceOf(cs: seq<Command>): seq<Effect> {
    if cs == [] then [] else
      var before := cs[..|cs| - 1];
      TraceOf(before) + EffectsOf(PendingIn(before), cs[|cs| - 1])
  }

  ghost predicate NoOverflow(cs: seq<Command>) {
    forall i {:trigger cs[..i]} :: 0 <= i < |cs| ==> !Overflows(PendingIn(cs[..i]), cs[i])
  }

  /** A row, and the position it was applied under once that is known. */
  datatype Placed = Placed(row: Row, pos: Option<int>)

  /** The rows of a stream a trace handed to a duty. */
  function Told(trace: seq<Effect>, duty: Duty, stream: Stream): seq<Placed> {
    if trace == [] then [] else
      var e := trace[|trace| - 1];
      Told(trace[..|trace| - 1], duty, stream)
      + if e.Tell? && e.duty == duty && e.stream == stream then [Placed(e.row, Some(e.pos))] else []
  }

  function Waiting(rows: seq<Row>): seq<Placed> {
    seq(|rows|, i requires 0 <= i < |rows| => Placed(rows[i], None))
  }

  /** The first numeric position a stream is given. */
  function FirstNumeric(cs: seq<Command>, stream: Stream): Option<int> {
    if cs == [] then None
    else if cs[0].Rdata? && cs[0].writer.stream == stream && cs[0].token.Numeric? then Some(cs[0].token.pos)
    else FirstNumeric(cs[1..], stream)
  }

  /** What ought to happen to a stream's rows: each once, in arrival order, under the first numeric
      position that follows it; those after the last numeric position wait. */
  function Due(cs: seq<Command>, stream: Stream): seq<Placed> {
    if cs == [] then [] else Arrival(cs[0], FirstNumeric(cs, stream), stream) + Due(cs[1..], stream)
  }

  function Arrival(c: Command, pos: Option<int>, stream: Stream): seq<Placed> {
    if c.Rdata? && c.writer.stream == stream && !c.token.Malformed? then [Placed(c.row, pos)] else []
  }

  // ------------------------------------------------------------- conservation

  lemma {:induction false} ToldConcat(a: seq<Effect>, b: seq<Effect>, duty: Duty, stream: Stream)
    ensures Told(a + b, duty, stream) == Told(a, duty, stream) + Told(b, duty, stream)
  {
    if b == [] {
      assert a + b == a;
    } else {
      var n := |b| - 1;
      assert (a + b)[..|a + b| - 1] == a + b[..n];
      ToldConcat(a, b[..n], duty, stream);
    }
  }

  /** A batch under its position. */
  function Applied(batch: seq<Row>, pos: int): seq<Placed> {
    seq(|batch|, i requires 0 <= i < |batch| => Placed(batch[i], Some(pos)))
  }

  lemma {:induction false} ToldTelling(d: Duty, s: Stream, pos: int, batch: seq<Row>, duty: Duty, stream: Stream)
    ensures Told(Telling(d, s, pos, batch), duty, stream)
         == if Duteous(d, s) && d == duty && s == stream then Applied(batch, pos) else []
  {
    if batch != [] && Duteous(d, s) {
      var n := |batch| - 1;
      assert Telling(d, s, pos, batch)[..n] == Telling(d, s, pos, batch[..n]);
      ToldTelling(d, s, pos, batch[..n], duty, stream);
    }
  }

  lemma ToldSix(a: seq<Effect>, b: seq<Effect>, c: seq<Effect>, d: seq<Effect>, e: seq<Effect>, f: seq<Effect>, duty: Duty, stream: Stream)
    ensures Told(a + b + c + d + e + f, duty, stream)
         == Told(a, duty, stream) + Told(b, duty, stream) + Told(c, duty, stream)
            + Told(d, duty, stream) + Told(e, duty, stream) + Told(f, duty, stream)
  {
    hide Told;
    ToldConcat(a, b, duty, stream);
    ToldConcat(a + b, c, duty, stream);
    ToldConcat(a + b + c, d, duty, stream);
    ToldConcat(a + b + c + d, e, duty, stream);
    ToldConcat(a + b + c + d + e, f, duty, stream);
  }

  /** Advancing hands no row to anyone. */
  lemma ToldAdvance(w: Writer, pos: int, duty: Duty, stream: Stream)
    ensures Told([Advance(w, pos)], duty, stream) == [] && Told([], duty, stream) == []
  {
    assert [Advance(w, pos)][..0] == [];
  }

  /** A completed batch reaches each duty once, in order. */
  lemma ToldBatch(w: Writer, pos: int, batch: seq<Row>, duty: Duty, stream: Stream)
    requires Duteous(duty, stream)
    ensures Told(BatchEffects(w, pos, batch), duty, stream) == if w.stream == stream then Applied(batch, pos) else []
  {
    hide Telling, Told, Applied;
    var first := if w.stream == Typing then [Advance(w, pos)] else [];
    var mid := if pos > 0 && w.stream != Typing then [Advance(w, pos)] else [];
    ToldSix(first, Telling(Type, w.stream, pos, batch), Telling(Invalidate, w.stream, pos, batch),
            Telling(Record, w.stream, pos, batch), mid, Telling(Wake, w.stream, pos, batch), duty, stream);
    ToldTelling(Type, w.stream, pos, batch, duty, stream);
    ToldTelling(Invalidate, w.stream, pos, batch, duty, stream);
    ToldTelling(Record, w.stream, pos, batch, duty, stream);
    ToldTelling(Wake, w.stream, pos, batch, duty, stream);
    ToldAdvance(w, pos, duty, stream);
    SoleOf(Applied(batch, pos));
  }

  lemma SoleOf(x: seq<Placed>)
    ensures var none: seq<Placed> := []; none + none + none + none + none + none == none
    ensures [] + x + [] + [] + [] + [] == x && [] + [] + x + [] + [] + [] == x
    ensures [] + [] + [] + x + [] + [] == x && [] + [] + [] + [] + [] + x == x
  {
  }

  /** Rows still waiting take the position; rows already placed keep theirs. */
  function Settle(due: seq<Placed>, pos: int): seq<Placed> {
    seq(|due|, i requires 0 <= i < |due| => if due[i].pos.None? then Placed(due[i].row, Some(pos)) else due[i])
  }

  lemma {:induction false} FirstNumericAppend(cs: seq<Command>, c: Command, stream: Stream)
    ensures FirstNumeric(cs + [c], stream)
         == if FirstNumeric(cs, stream).Some? then FirstNumeric(cs, stream) else FirstNumeric([c], stream)
  {
    if cs == [] {
      assert cs + [c] == [c];
    } else {
      assert (cs + [c])[1..] == cs[1..] + [c];
      FirstNumericAppend(cs[1..], c, stream);
    }
  }

  /** What is due once one more command is known. */
  function Resettled(due: seq<Placed>, pos: Option<int>): seq<Placed> {
    if pos.Some? then Settle(due, pos.value) else due
  }

  lemma ResettledConcat(a: seq<Placed>, b: seq<Placed>, pos: Option<int>)
    ensures Resettled(a + b, pos) == Resettled(a, pos) + Resettled(b, pos)
  {
  }

  lemma ResettledArrival(c: Command, p: Option<int>, pos: Option<int>, stream: Stream)
    ensures Resettled(Arrival(c, p, stream), pos) == Arrival(c, if p.Some? then p else pos, stream)
  {
  }

  /** How one more command changes what is due. */
  lemma {:induction false} DueAppend(cs: seq<Command>, c: Command, stream: Stream)
    ensures Due(cs + [c], stream) == Resettled(Due(cs, stream), FirstNumeric([c], stream)) + Due([c], stream)
  {
    hide Resettled, Arrival, FirstNumeric;
    var pos := FirstNumeric([c], stream);
    if cs == [] {
      assert cs + [c] == [c];
      assert Resettled([], pos) == [] by {
        ResettledEmpty(pos);
      }
    } else {
      var tail, head := cs[1..], Arrival(cs[0], FirstNumeric(cs, stream), stream);
      assert (cs + [c])[1..] == tail + [c] && (cs + [c])[0] == cs[0];
      FirstNumericAppend(cs, c, stream);
      DueAppend(tail, c, stream);
      ResettledArrival(cs[0], FirstNumeric(cs, stream), pos, stream);
      ResettledConcat(head, Due(tail, stream), pos);
      assert Due(cs + [c], stream) == Resettled(head, pos) + (Resettled(Due(tail, stream), pos) + Due([c], stream));
    }
  }

  lemma ResettledEmpty(pos: Option<int>)
    ensures Resettled([], pos) == []
  {
  }

  lemma SettleSplit(done: seq<Placed>, rows: seq<Row>, row: Row, pos: int)
    requires forall i :: 0 <= i < |done| ==> done[i].pos.Some?
    ensures Settle(done + Waiting(rows), pos) + [Placed(row, Some(pos))] == done + Applied(rows + [row], pos) + Waiting([])
  {
  }

  /** Batch conservation: in a session without overflow, every duty a stream has is handed each of
      its rows exactly once, in arrival order, under the first numeric position that follows it;
      and the buffer is exactly the rows after the last numeric position. */
  lemma {:induction false} BatchesConserved(cs: seq<Command>, duty: Duty, stream: Stream)
    requires NoOverflow(cs) && Duteous(duty, stream)
    ensures Told(TraceOf(cs), duty, stream) + Waiting(Held(PendingIn(cs), stream)) == Due(cs, stream)
    ensures forall i :: 0 <= i < |Told(TraceOf(cs), duty, stream)| ==> Told(TraceOf(cs), duty, stream)[i].pos.Some?
  {
    if cs != [] {
      var n := |cs| - 1;
      var before, c := cs[..n], cs[n];
      assert cs == before + [c];
      forall i | 0 <= i < n
        ensures !Overflows(PendingIn(before[..i]), before[i])
      {
        assert cs[..i] == before[..i];
      }
      assert !Overflows(PendingIn(cs[..n]), cs[n]);
      BatchesConserved(before, duty, stream);
      DueAppend(before, c, stream);
      ToldConcat(TraceOf(before), EffectsOf(PendingIn(before), c), duty, stream);
      CommandConserved(PendingIn(before), Told(TraceOf(before), duty, stream), Due(before, stream), c, duty, stream);
    }
  }

  /** One command's share of it. */
  lemma CommandConserved(pending: map<Stream, seq<Row>>, done: seq<Placed>, due: seq<Placed>, c: Command, duty: Duty, stream: Stream)
    requires !Overflows(pending, c) && Duteous(duty, stream)
    requires done + Waiting(Held(pending, stream)) == due
    requires forall i :: 0 <= i < |done| ==> done[i].pos.Some?
    ensures var told := Told(EffectsOf(pending, c), duty, stream);
            && done + told + Waiting(Held(PendingAfter(pending, c), stream))
               == Resettled(due, FirstNumeric([c], stream)) + Due([c], stream)
            && forall i :: 0 <= i < |told| ==> told[i].pos.Some?
  {
    hide Told, BatchEffects, Applied, Waiting, Settle;
    DueOne(c, stream);
    match c
    case Rdata(w, Numeric(pos), row) =>
      NumericConserved(Held(pending, w.stream), done, row, w, pos, duty, stream);
    case Rdata(w, Batch, row) =>
      BatchConserved(pending, done, w, row, duty, stream);
    case Rdata(w, Malformed, row) =>
      ToldNothing(duty, stream);
    case Position(w, pos) =>
      ToldAnnounce(w, pos, duty, stream);
    case Ignored =>
      ToldNothing(duty, stream);
  }

  lemma BatchConserved(pending: map<Stream, seq<Row>>, done: seq<Placed>, w: Writer, row: Row, duty: Duty, stream: Stream)
    requires !Overflows(pending, Rdata(w, Batch, row))
    ensures Told([], duty, stream) == []
    ensures done + [] + Waiting(Held(PendingAfter(pending, Rdata(w, Batch, row)), stream))
         == done + Waiting(Held(pending, stream)) + (if w.stream == stream then [Placed(row, None)] else [])
  {
    hide Waiting;
    WaitingOne(Held(pending, stream), row);
  }

  lemma NumericConserved(held: seq<Row>, done: seq<Placed>, row: Row, w: Writer, pos: int, duty: Duty, stream: Stream)
    requires Duteous(duty, stream)
    requires forall i :: 0 <= i < |done| ==> done[i].pos.Some?
    ensures var told := Told(BatchEffects(w, pos, held + [row]), duty, stream);
            && (forall i :: 0 <= i < |told| ==> told[i].pos.Some?)
            && (if w.stream == stream
                then done + told + Waiting([]) == Settle(done + Waiting(held), pos) + [Placed(row, Some(pos))]
                else told == [])
  {
    hide Told, BatchEffects, Applied, Waiting, Settle;
    ToldBatch(w, pos, held + [row], duty, stream);
    if w.stream == stream {
      AllApplied(held + [row], pos);
      SettleSplit(done, held, row, pos);
    }
  }

  lemma ToldNothing(duty: Duty, stream: Stream)
    ensures Told([], duty, stream) == []
  {
  }

  lemma WaitingOne(rows: seq<Row>, row: Row)
    ensures Waiting(rows + [row]) == Waiting(rows) + [Placed(row, None)]
  {
  }

  lemma AllApplied(batch: seq<Row>, pos: int)
    ensures forall i :: 0 <= i < |Applied(batch, pos)| ==> Applied(batch, pos)[i].pos.Some?
  {
  }

  lemma DueOne(c: Command, stream: Stream)
    ensures FirstNumeric([c], stream)
         == if c.Rdata? && c.writer.stream == stream && c.token.Numeric? then Some(c.token.pos) else None
    ensures Due([c], stream) == Arrival(c, FirstNumeric([c], stream), stream)
  {
    assert [c][1..] == [];
  }

  lemma ToldAnnounce(w: Writer, pos: Option<int>, duty: Duty, stream: Stream)
    ensures Told(EffectsOf(map[], Position(w, pos)), duty, stream) == []
  {
    if pos.Some? {
      var es := AnnounceEffects(w, pos.value);
      assert es[..2][..1] == es[..1] && es[..1][..0] == [];
      assert Told(es[..1], duty, stream) == [] && Told(es[..2], duty, stream) == [];
    }
  }

  // ------------------------------------------------------------------ the order

  /** Around the advance at index `k` of a command's effects: every row of the batch, or the
      announcement, has been recorded before it unless the stream is silent, every row invalidated, and
      nobody has been woken. */
  ghost predicate Between(pending: map<Stream, seq<Row>>, c: Command, k: nat)
    requires k < |EffectsOf(pending, c)| && EffectsOf(pending, c)[k].Advance?
  {
    var es, w, pos := EffectsOf(pending, c), EffectsOf(pending, c)[k].writer, EffectsOf(pending, c)[k].pos;
    && (forall e :: e in es[..k] ==> !((e.Tell? || e.Announce?) && e.duty == Wake))
    && match c
       case Rdata(w', Numeric(pos'), row) =>
         && w == w' && pos == pos'
         && forall r :: r in Held(pending, w.stream) + [row] ==>
              Tell(Invalidate, w.stream, pos, r) in es[..k] && (Silent(w.stream) || Tell(Record, w.stream, pos, r) in es[..k])
       case Position(w', Some(pos')) => w == w' && pos == pos' && Announce(Record, w.stream, pos) in es[..k]
       case _ => false
  }

  lemma BatchBetween(w: Writer, pos: int, batch: seq<Row>, k: nat)
    requires w.stream != Typing && k < |BatchEffects(w, pos, batch)| && BatchEffects(w, pos, batch)[k].Advance?
    ensures BatchEffects(w, pos, batch)[k] == Advance(w, pos)
    ensures var before := BatchEffects(w, pos, batch)[..k];
            && (forall r :: r in batch ==> Tell(Invalidate, w.stream, pos, r) in before
                                           && (Silent(w.stream) || Tell(Record, w.stream, pos, r) in before))
            && forall e :: e in before ==> !((e.Tell? || e.Announce?) && e.duty == Wake)
  {
    var inv, rec := Telling(Invalidate, w.stream, pos, batch), Telling(Record, w.stream, pos, batch);
    var es := BatchEffects(w, pos, batch);
    assert pos > 0 && k == |inv + rec|;
    assert es[..k] == inv + rec;
    forall r | r in batch
      ensures Tell(Invalidate, w.stream, pos, r) in inv && (Silent(w.stream) || Tell(Record, w.stream, pos, r) in rec)
    {
      var i :| 0 <= i < |batch| && batch[i] == r;
      assert inv[i] == Tell(Invalidate, w.stream, pos, r);
      assert !Silent(w.stream) ==> rec[i] == Tell(Record, w.stream, pos, r);
    }
  }

  /** Typing is the other way round: the position moves before its rows are applied, so that a restart
      it announces does not discard them; and everyone is woken after both. */
  lemma TypingMovesFirst(w: Writer, pos: int, batch: seq<Row>, k: nat)
    requires w.stream == Typing && k < |BatchEffects(w, pos, batch)|
    ensures var es := BatchEffects(w, pos, batch);
            && es[0] == Advance(w, pos) && (es[k].Advance? ==> k == 0)
            && (es[k].Tell? && es[k].duty == Wake ==> forall r :: r in batch ==> Tell(Type, Typing, pos, r) in es[..k])
  {
    var es, typed := BatchEffects(w, pos, batch), Telling(Type, Typing, pos, batch);
    if es[k].Tell? && es[k].duty == Wake {
      assert k > |typed| && es[..k][1..1 + |typed|] == typed;
      forall r | r in batch
        ensures Tell(Type, Typing, pos, r) in es[..k]
      {
        var i :| 0 <= i < |batch| && batch[i] == r;
        assert typed[i] == Tell(Type, Typing, pos, r) && es[..k][1 + i] == typed[i];
      }
    }
  }

  lemma CommandBetween(pending: map<Stream, seq<Row>>, c: Command, k: nat)
    requires k < |EffectsOf(pending, c)| && EffectsOf(pending, c)[k].Advance? && EffectsOf(pending, c)[k].writer.stream != Typing
    ensures Between(pending, c, k)
  {
    hide BatchEffects;
    match c
    case Rdata(w, Numeric(pos), row) =>
      BatchAdvances(w, pos, Held(pending, w.stream) + [row], k);
      BatchBetween(w, pos, Held(pending, w.stream) + [row], k);
    case Position(w, Some(pos)) =>
      assert EffectsOf(pending, c)[..1][0] == Announce(Record, w.stream, pos);
    case _ =>
  }

  lemma BatchAdvances(w: Writer, pos: int, batch: seq<Row>, k: nat)
    requires k < |BatchEffects(w, pos, batch)| && BatchEffects(w, pos, batch)[k].Advance?
    ensures BatchEffects(w, pos, batch)[k] == Advance(w, pos)
  {
  }

  /** In every session, wherever the trace moves a position other than typing's, the command that moves
      it has by then invalidated and recorded all it brings, and woken nobody: a token read from the
      positions never runs ahead of what the stream-change caches were told. */
  lemma {:induction false} RecordedBeforeMoved(cs: seq<Command>, i: nat) returns (n: nat)
    requires i < |TraceOf(cs)| && TraceOf(cs)[i].Advance? && TraceOf(cs)[i].writer.stream != Typing
    ensures n < |cs| && |TraceOf(cs[..n])| <= i && TraceOf(cs)[..|TraceOf(cs[..n])|] == TraceOf(cs[..n])
    ensures var k, es := i - |TraceOf(cs[..n])|, EffectsOf(PendingIn(cs[..n]), cs[n]);
            k < |es| && es[k] == TraceOf(cs)[i] && es[..k] == TraceOf(cs)[|TraceOf(cs[..n])|..i]
            && Between(PendingIn(cs[..n]), cs[n], k)
  {
    hide EffectsOf, Between;
    var before, trace := cs[..|cs| - 1], TraceOf(cs[..|cs| - 1]);
    if i < |trace| {
      n := RecordedBeforeMoved(before, i);
      assert before[..n] == cs[..n];
      assert TraceOf(cs)[..|trace|] == trace;
      assert TraceOf(cs)[..|TraceOf(cs[..n])|] == trace[..|TraceOf(cs[..n])|];
      assert TraceOf(cs)[|TraceOf(cs[..n])|..i] == trace[|TraceOf(cs[..n])|..i];
    } else {
      n := |cs| - 1;
      CommandBetween(PendingIn(before), cs[n], i - |trace|);
    }
  }
}
