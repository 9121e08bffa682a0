/** The subscriber: positions, buffers and typing, updated command by command. */
module Subscriber {
  import opened Common
  import opened StringOrder
  import opened Replication

  /** A typing row that was applied: its room, the serial it was filed under, the whole set. */
  datatype Typed = Typed(room: string, serial: int, users: seq<string>)

  datatype Change = Change(room: string, serial: int)

  predicate ChangeLess(a: Change, b: Change) {
    a.serial < b.serial || (a.serial == b.serial && Less(a.room, b.room))
  }

  lemma ChangeLessStrict()
    ensures StrictOrder(ChangeLess) && Total(ChangeLess)
  {
    LessStrict();
  }

  function SerialOf(serials: map<string, int>, room: string): int {
    if room in serials then serials[room] else 0
  }

  /** Who is typing in a room: whoever its latest row names. */
  ghost function TypistsOf(log: seq<Typed>, room: string): seq<string> {
    if log == [] then []
    else if log[|log| - 1].room == room then log[|log| - 1].users
    else TypistsOf(log[..|log| - 1], room)
  }

  /** The typing rows of a batch, filed under a serial. */
  function Filed(batch: seq<Row>, serial: int): seq<Typed> {
    if batch == [] then [] else
      var n := |batch| - 1;
      Filed(batch[..n], serial)
      + match batch[n].typists
        case None => []
        case Some(t) => [Typed(t.room, serial, t.users)]
  }

  /** Of a batch of typing rows the last for a room counts: whoever it names is typing there afterwards,
      nobody if it names nobody. */
  lemma {:induction false} LastRowCounts(log: seq<Typed>, batch: seq<Row>, serial: int, room: string, i: nat)
    requires i < |batch| && RowFor(batch[i], room) && forall k :: i < k < |batch| ==> !RowFor(batch[k], room)
    ensures TypistsOf(log + Filed(batch, serial), room) == batch[i].typists.value.users
  {
    var n := |batch| - 1;
    FiledLast(log, batch, serial, room);
    if i < n {
      LastRowCounts(log, batch[..n], serial, room, i);
    }
  }

  /** And a room without a row is left as it was. */
  lemma {:induction false} NoRowNoChange(log: seq<Typed>, batch: seq<Row>, serial: int, room: string)
    requires forall k :: 0 <= k < |batch| ==> !RowFor(batch[k], room)
    ensures TypistsOf(log + Filed(batch, serial), room) == TypistsOf(log, room)
  {
    if batch == [] {
      assert log + [] == log;
    } else {
      FiledLast(log, batch, serial, room);
      NoRowNoChange(log, batch[..|batch| - 1], serial, room);
    }
  }

  lemma FiledLast(log: seq<Typed>, batch: seq<Row>, serial: int, room: string)
    requires batch != []
    ensures var n := |batch| - 1;
            TypistsOf(log + Filed(batch, serial), room) ==
              if RowFor(batch[n], room) then batch[n].typists.value.users else TypistsOf(log + Filed(batch[..n], serial), room)
  {
    var n := |batch| - 1;
    var before := log + Filed(batch[..n], serial);
    if batch[n].typists.None? {
      assert log + Filed(batch, serial) == before;
    } else {
      var t := Typed(batch[n].typists.value.room, serial, batch[n].typists.value.users);
      assert log + Filed(batch, serial) == before + [t];
      assert (before + [t])[..|before|] == before;
    }
  }

  lemma OneRowCounts(log: seq<Typed>, row: Row, serial: int)
    ensures forall r :: TypistsOf(log + Filed([row], serial), r) == if RowFor(row, r) then row.typists.value.users else TypistsOf(log, r)
  {
    forall r
      ensures TypistsOf(log + Filed([row], serial), r) == if RowFor(row, r) then row.typists.value.users else TypistsOf(log, r)
    {
      FiledLast(log, [row], serial, r);
      assert [row][..0] == [] && log + [] == log;
    }
  }

  predicate RowFor(row: Row, room: string) {
    row.typists.Some? && row.typists.value.room == room
  }

  /** A typing log's rows above a position. Serials at or below zero are never filed. */
  ghost predicate ChangedAbove(log: seq<Typed>, room: string, pos: int) {
    exists k :: 0 <= k < |log| && log[k].room == room && log[k].serial > pos && log[k].serial > 0
  }

  ghost predicate LogBounded(log: seq<Typed>, position: int) {
    forall k :: 0 <= k < |log| ==> log[k].serial <= position
  }

  /** Each room's serial is the highest its rows were filed under. */
  ghost predicate SerialsFollow(log: seq<Typed>, serials: map<string, int>) {
    && (forall k :: 0 <= k < |log| && log[k].serial > 0 ==> log[k].room in serials && log[k].serial <= serials[log[k].room])
    && (forall r :: r in serials ==> exists k :: 0 <= k < |log| && log[k] == Typed(r, serials[r], log[k].users) && log[k].serial > 0)
  }

  ghost predicate TypistsFollow(log: seq<Typed>, typing: map<string, seq<string>>) {
    forall r :: TypistsOf(log, r) == if r in typing then typing[r] else []
  }

  lemma SerialsExtend(log: seq<Typed>, serials: map<string, int>, t: Typed)
    requires SerialsFollow(log, serials)
    ensures SerialsFollow(log + [t], if t.serial > SerialOf(serials, t.room) then serials[t.room := t.serial] else serials)
  {
    var log', serials' := log + [t], if t.serial > SerialOf(serials, t.room) then serials[t.room := t.serial] else serials;
    forall r | r in serials'
      ensures exists k :: 0 <= k < |log'| && log'[k] == Typed(r, serials'[r], log'[k].users) && log'[k].serial > 0
    {
      if r == t.room && t.serial > SerialOf(serials, t.room) {
        assert log'[|log|] == t && (r in serials ==> serials[r] > 0);
      } else {
        var k :| 0 <= k < |log| && log[k] == Typed(r, serials[r], log[k].users) && log[k].serial > 0;
        assert log'[k] == log[k];
      }
    }
  }

  lemma TypistsExtend(log: seq<Typed>, typing: map<string, seq<string>>, t: Typed)
    requires TypistsFollow(log, typing)
    ensures TypistsFollow(log + [t], if t.users == [] then typing - {t.room} else typing[t.room := t.users])
  {
    var typing' := if t.users == [] then typing - {t.room} else typing[t.room := t.users];
    forall r
      ensures TypistsOf(log + [t], r) == if r in typing' then typing'[r] else []
    {
      assert (log + [t])[..|log|] == log;
      assert TypistsOf(log, r) == if r in typing then typing[r] else [];
    }
  }

  /** A position raised to a seed, if there is one and it is higher. */
  function Raised(positions: map<Stream, int>, seeded: bool, seed: int, s: Stream): int {
    if seeded && seed > PositionOf(positions, s) then seed else PositionOf(positions, s)
  }

  lemma EmptyLog(position: int)
    ensures LogBounded([], position) && SerialsFollow([], map[]) && TypistsFollow([], map[])
  {
  }

  lemma BoundedExtend(log: seq<Typed>, position: int, higher: int, more: seq<Typed>)
    requires LogBounded(log, position) && position <= higher && LogBounded(more, higher)
    ensures LogBounded(log + more, higher)
  {
  }

  lemma BoundedOne(t: Typed, position: int)
    requires t.serial <= position
    ensures LogBounded([t], position)
  {
  }

  class Subscriber {
    var positions: map<Stream, int>
    var lastByInstance: map<Writer, int>
    var pending: map<Stream, seq<Row>>
    var typing: map<string, seq<string>>
    var typingSerial: map<string, int>
    var live: bool
    /** What listeners and invalidators have been told, in order. */
    ghost var trace: seq<Effect>
    /** The typing rows applied since typing was last reset or the subscription last dropped. */
    ghost var typed: seq<Typed>

    ghost predicate Valid()
      reads this
    {
      && LogBounded(typed, PositionOf(positions, Typing))
      && SerialsFollow(typed, typingSerial)
      && TypistsFollow(typed, typing)
    }

    constructor ()
      ensures Valid() && !live && pending == map[] && positions == map[] && trace == [] && typed == []
    {
      EmptyLog(0);
      positions, lastByInstance, pending, typing, typingSerial, live := map[], map[], map[], map[], map[], false;
      trace, typed := [], [];
    }

    /** Raises positions to what the database holds. It never lowers one. */
    method Seed(seeds: map<Stream, int>)
      requires Valid()
      modifies this`positions
      ensures Valid()
      ensures forall s :: PositionOf(positions, s) == Raised(old(positions), s in seeds, if s in seeds then seeds[s] else 0, s)
    {
      hide LogBounded, SerialsFollow, TypistsFollow;
      var rest := seeds.Keys;
      while rest != {}
        invariant rest <= seeds.Keys
        invariant forall s :: PositionOf(positions, s)
                           == Raised(old(positions), s in seeds && s !in rest, if s in seeds then seeds[s] else 0, s)
      {
        var s :| s in rest;
        if seeds[s] > PositionOf(positions, s) {
          positions := positions[s := seeds[s]];
        }
        rest := rest - {s};
      }
      BoundedExtend(typed, PositionOf(old(positions), Typing), PositionOf(positions, Typing), []);
      assert typed + [] == typed;
    }

    /** Losing the connection forgets typing and every half batch. */
    method SetLive(up: bool)
      requires Valid()
      modifies this`live, this`pending, this`typing, this`typingSerial, this`typed
      ensures Valid() && live == up
      ensures up ==> pending == old(pending) && typing == old(typing) && typingSerial == old(typingSerial) && typed == old(typed)
      ensures !up ==> pending == map[] && typing == map[] && typingSerial == map[] && typed == []
    {
      hide LogBounded, SerialsFollow, TypistsFollow;
      EmptyLog(PositionOf(positions, Typing));
      if !up {
        typing, typingSerial, pending := map[], map[], map[];
        typed := [];
      }
      live := up;
    }

    /** Records a writer's position. Only a stream whose writer may restart ever goes down, and
        then what its old serials described goes too. */
    method AdvanceTo(w: Writer, pos: int)
      requires Valid()
      modifies this`positions, this`lastByInstance, this`typing, this`typingSerial, this`typed, this`trace
      ensures Valid() && trace == old(trace) + [Advance(w, pos)]
      ensures positions == AdvancedPositions(old(positions), old(lastByInstance), w, pos)
      ensures lastByInstance == AdvancedLast(old(lastByInstance), w, pos)
      ensures PositionOf(positions, w.stream) ==
        if Resettable(w.stream) && w in old(lastByInstance) && pos < old(lastByInstance)[w] then pos
        else Max(PositionOf(old(positions), w.stream), pos)
      ensures forall s :: s != w.stream ==> PositionOf(positions, s) == PositionOf(old(positions), s)
      ensures w in lastByInstance && lastByInstance[w] ==
        if w in old(lastByInstance) && pos < old(lastByInstance)[w] && !Resettable(w.stream) then old(lastByInstance)[w] else pos
      ensures PositionOf(positions, w.stream) >= pos
      ensures forall s :: !Resettable(s) ==> PositionOf(positions, s) >= PositionOf(old(positions), s)
      ensures var reset := w.stream == Typing && Restarts(old(lastByInstance), w, pos);
              && typed == (if reset then [] else old(typed))
              && typing == (if reset then map[] else old(typing))
              && typingSerial == (if reset then map[] else old(typingSerial))
    {
      hide LogBounded, SerialsFollow, TypistsFollow;
      EmptyLog(pos);
      if pos >= PositionOf(positions, Typing) {
        BoundedExtend(typed, PositionOf(positions, Typing), pos, []);
        assert typed + [] == typed;
      }
      trace := trace + [Advance(w, pos)];
      var seen := w in lastByInstance;
      var last := if seen then lastByInstance[w] else 0;
      var backwards := seen && pos < last;
      if pos > last || !seen {
        lastByInstance := lastByInstance[w := pos];
      }
      if !backwards || !Resettable(w.stream) {
        if pos > PositionOf(positions, w.stream) {
          positions := positions[w.stream := pos];
        }
        return;
      }
      lastByInstance := lastByInstance[w := pos];
      if w.stream == Typing {
        typing, typingSerial := map[], map[];
        typed := [];
      }
      positions := positions[w.stream := pos];
    }

    /** Applies one typing row. A row that does not parse is dropped. */
    method UpdateTyping(row: Row, pos: int)
      requires Valid() && pos <= PositionOf(positions, Typing)
      modifies this`typing, this`typingSerial, this`typed, this`trace
      ensures Valid() && trace == old(trace) + [Tell(Type, Typing, pos, row)]
      ensures typed == old(typed) + Filed([row], if pos <= 0 then PositionOf(positions, Typing) else pos)
      ensures forall r :: TypistsOf(typed, r) == if RowFor(row, r) then row.typists.value.users else TypistsOf(old(typed), r)
    {
      OneRowCounts(typed, row, if pos <= 0 then PositionOf(positions, Typing) else pos);
      hide LogBounded, SerialsFollow, TypistsFollow, TypistsOf, RowFor;
      trace := trace + [Tell(Type, Typing, pos, row)];
      assert [row][..0] == [];
      if row.typists.None? {
        assert typed == old(typed) + [];
        return;
      }
      var t := row.typists.value;
      var serial := if pos <= 0 then PositionOf(positions, Typing) else pos;
      SerialsExtend(typed, typingSerial, Typed(t.room, serial, t.users));
      TypistsExtend(typed, typing, Typed(t.room, serial, t.users));
      BoundedOne(Typed(t.room, serial, t.users), PositionOf(positions, Typing));
      BoundedExtend(typed, PositionOf(positions, Typing), PositionOf(positions, Typing), [Typed(t.room, serial, t.users)]);
      if serial > SerialOf(typingSerial, t.room) {
        typingSerial := typingSerial[t.room := serial];
      }
      if t.users == [] {
        typing := typing - {t.room};
      } else {
        typing := typing[t.room := t.users];
      }
      typed := typed + [Typed(t.room, serial, t.users)];
    }

    /** A typing batch, after its position has moved. */
    method UpdateTypingAll(batch: seq<Row>, pos: int)
      requires Valid() && pos <= PositionOf(positions, Typing)
      modifies this`typing, this`typingSerial, this`typed, this`trace
      ensures Valid() && trace == old(trace) + Telling(Type, Typing, pos, batch)
      ensures typed == old(typed) + Filed(batch, if pos <= 0 then PositionOf(positions, Typing) else pos)
    {
      hide LogBounded, SerialsFollow, TypistsFollow;
      ghost var serial := if pos <= 0 then PositionOf(positions, Typing) else pos;
      for i := 0 to |batch|
        invariant Valid() && trace == old(trace) + Telling(Type, Typing, pos, batch[..i])
        invariant typed == old(typed) + Filed(batch[..i], serial)
      {
        UpdateTyping(batch[i], pos);
        FiledOne(batch, i, serial);
        TellingOne(Type, Typing, pos, batch, i);
      }
      assert batch[..|batch|] == batch;
    }

    /** Hands a batch to a duty, row by row. */
    method TellAll(duty: Duty, stream: Stream, pos: int, batch: seq<Row>)
      modifies this`trace
      ensures trace == old(trace) + Telling(duty, stream, pos, batch)
    {
      if Duteous(duty, stream) {
        for i := 0 to |batch|
          invariant trace == old(trace) + Telling(duty, stream, pos, batch[..i])
        {
          trace := trace + [Tell(duty, stream, pos, batch[i])];
          TellingOne(duty, stream, pos, batch, i);
        }
        assert batch[..|batch|] == batch;
      }
    }

    /** One row off the wire. A numeric token completes the stream's batch; the rows of a typing
        batch are filed after any reset the position brings, and so survive it. */
    method HandleRdata(w: Writer, token: Token, row: Row)
      requires Valid()
      modifies this
      ensures Valid()
      ensures pending == PendingAfter(old(pending), Rdata(w, token, row))
      ensures trace == old(trace) + EffectsOf(old(pending), Rdata(w, token, row))
      ensures live == (old(live) && !Overflows(old(pending), Rdata(w, token, row)))
      ensures forall s :: !Resettable(s) ==> PositionOf(positions, s) >= PositionOf(old(positions), s)
      ensures token.Numeric? && (w.stream == Typing || token.pos > 0) ==>
        && positions == AdvancedPositions(old(positions), old(lastByInstance), w, token.pos)
        && lastByInstance == AdvancedLast(old(lastByInstance), w, token.pos)
      ensures !(token.Numeric? && (w.stream == Typing || token.pos > 0)) ==>
        positions == old(positions) && lastByInstance == old(lastByInstance)
      ensures !token.Numeric? || w.stream != Typing ==> typed == if Overflows(old(pending), Rdata(w, token, row)) then [] else old(typed)
      ensures token.Numeric? && w.stream == Typing ==>
        typed == (if Restarts(old(lastByInstance), w, token.pos) then [] else old(typed))
                 + Filed(Held(old(pending), Typing) + [row], if token.pos <= 0 then PositionOf(positions, Typing) else token.pos)
    {
      hide LogBounded, SerialsFollow, TypistsFollow, BatchEffects, Filed;
      if token.Batch? {
        var rows := Held(pending, w.stream) + [row];
        pending := pending[w.stream := rows];
        if |rows| > MAX_PENDING_BATCH {
          pending := pending - {w.stream};
          SetLive(false);
        }
        assert trace == old(trace) + [];
        return;
      }
      if token.Malformed? {
        assert trace == old(trace) + [];
        return;
      }
      var batch := Held(pending, w.stream) + [row];
      pending := pending - {w.stream};
      Complete(w, token.pos, batch);
    }

    /** A batch whose position is known. */
    method Complete(w: Writer, pos: int, batch: seq<Row>)
      requires Valid()
      modifies this`positions, this`lastByInstance, this`typing, this`typingSerial, this`typed, this`trace
      ensures Valid() && trace == old(trace) + BatchEffects(w, pos, batch)
      ensures w.stream == Typing || pos > 0 ==>
        && positions == AdvancedPositions(old(positions), old(lastByInstance), w, pos)
        && lastByInstance == AdvancedLast(old(lastByInstance), w, pos)
      ensures !(w.stream == Typing || pos > 0) ==> positions == old(positions) && lastByInstance == old(lastByInstance)
      ensures w.stream == Typing ==>
        typed == (if Restarts(old(lastByInstance), w, pos) then [] else old(typed))
                 + Filed(batch, if pos <= 0 then PositionOf(positions, Typing) else pos)
      ensures w.stream != Typing ==> typed == old(typed)
    {
      hide LogBounded, SerialsFollow, TypistsFollow, Telling, BatchEffects, Filed;
      if w.stream == Typing {
        AdvanceTo(w, pos);
        UpdateTypingAll(batch, pos);
      }
      TellAll(Invalidate, w.stream, pos, batch);
      TellAll(Record, w.stream, pos, batch);
      if pos > 0 && w.stream != Typing {
        AdvanceTo(w, pos);
      }
      TellAll(Wake, w.stream, pos, batch);
      BatchInOrder(old(trace), w, pos, batch);
    }

    /** A writer's announcement, naming nobody. */
    method HandlePosition(w: Writer, pos: Option<int>)
      requires Valid()
      modifies this
      ensures Valid() && pending == old(pending) && live == old(live)
      ensures trace == old(trace) + EffectsOf(old(pending), Position(w, pos))
      ensures forall s :: !Resettable(s) ==> PositionOf(positions, s) >= PositionOf(old(positions), s)
      ensures pos.None? ==> positions == old(positions) && lastByInstance == old(lastByInstance) && typed == old(typed)
      ensures pos.Some? ==>
        && positions == AdvancedPositions(old(positions), old(lastByInstance), w, pos.value)
        && lastByInstance == AdvancedLast(old(lastByInstance), w, pos.value)
      ensures pos.Some? ==> typed == if w.stream == Typing && Restarts(old(lastByInstance), w, pos.value) then [] else old(typed)
    {
      hide LogBounded, SerialsFollow, TypistsFollow;
      if pos.None? {
        assert trace == old(trace) + [];
        return;
      }
      trace := trace + [Announce(Record, w.stream, pos.value)];
      AdvanceTo(w, pos.value);
      trace := trace + [Announce(Wake, w.stream, pos.value)];
    }

    /** A whole session, from subscribing to losing the connection: it follows the commands until
        they end or a batch overflows, and leaves no buffer behind. */
    method Session(cs: seq<Command>) returns (n: nat)
      requires Valid() && pending == map[]
      modifies this
      ensures Valid() && !live && pending == map[] && typed == []
      ensures n <= |cs| && NoOverflow(cs[..n]) && (n < |cs| ==> Overflows(PendingIn(cs[..n]), cs[n]))
      ensures trace == old(trace) + TraceOf(cs[..n])
      ensures forall s :: !Resettable(s) ==> PositionOf(positions, s) >= PositionOf(old(positions), s)
    {
      hide LogBounded, SerialsFollow, TypistsFollow, BatchEffects, PendingAfter, EffectsOf, Filed;
      SetLive(true);
      n := 0;
      while n < |cs|
        invariant n <= |cs| && Valid() && NoOverflow(cs[..n])
        invariant pending == PendingIn(cs[..n]) && trace == old(trace) + TraceOf(cs[..n])
        invariant forall s :: !Resettable(s) ==> PositionOf(positions, s) >= PositionOf(old(positions), s)
      {
        if Overflows(pending, cs[n]) {
          break;
        }
        OneMore(cs, n);
        match cs[n] {
          case Rdata(w, token, row) => HandleRdata(w, token, row);
          case Position(w, pos) => HandlePosition(w, pos);
          case Ignored =>
        }
        n := n + 1;
      }
      SetLive(false);
    }

    /** Who is typing: the latest row's whole set. */
    method TypingIn(room: string) returns (users: seq<string>)
      requires Valid()
      ensures users == TypistsOf(typed, room)
    {
      users := if room in typing then typing[room] else [];
    }

    /** The rooms whose typists changed after a position, oldest change first. */
    method TypingChangedSince(pos: int) returns (rooms: seq<string>)
      requires Valid()
      ensures !live ==> rooms == []
      ensures live ==> forall r :: r in rooms <==> ChangedAbove(typed, r, pos)
      ensures forall i :: 0 <= i < |rooms| ==> rooms[i] in typingSerial
      ensures forall i, j :: 0 <= i < j < |rooms| ==>
        ChangeLess(Change(rooms[i], typingSerial[rooms[i]]), Change(rooms[j], typingSerial[rooms[j]]))
      ensures pos >= PositionOf(positions, Typing) ==> rooms == []
    {
      if !live {
        return [];
      }
      var changed := set r | r in typingSerial && typingSerial[r] > pos :: Change(r, typingSerial[r]);
      ChangeLessStrict();
      var sorted := SortSet(ChangeLess, changed);
      rooms := [];
      for i := 0 to |sorted|
        invariant |rooms| == i && forall k :: 0 <= k < i ==> rooms[k] == sorted[k].room
      {
        rooms := rooms + [sorted[i].room];
      }
      forall i | 0 <= i < |rooms|
        ensures rooms[i] in typingSerial && sorted[i] == Change(rooms[i], typingSerial[rooms[i]]) && typingSerial[rooms[i]] > pos
      {
        assert sorted[i] in changed;
      }
      forall r | r in typingSerial && typingSerial[r] > pos
        ensures r in rooms
      {
        var c := Change(r, typingSerial[r]);
        assert c in changed;
        var i :| 0 <= i < |sorted| && sorted[i] == c;
        assert rooms[i] == r;
      }
      forall r
        ensures r in typingSerial && typingSerial[r] > pos <==> ChangedAbove(typed, r, pos)
      {
        ChangedIff(typed, typingSerial, r, pos);
      }
      forall r | pos >= PositionOf(positions, Typing)
        ensures !ChangedAbove(typed, r, pos)
      {
      }
      EmptyIff(rooms);
    }
  }

  /** What one more command adds to a session. */
  lemma OneMore(cs: seq<Command>, n: nat)
    requires n < |cs| && NoOverflow(cs[..n]) && !Overflows(PendingIn(cs[..n]), cs[n])
    ensures NoOverflow(cs[..n + 1])
    ensures PendingIn(cs[..n + 1]) == PendingAfter(PendingIn(cs[..n]), cs[n])
    ensures TraceOf(cs[..n + 1]) == TraceOf(cs[..n]) + EffectsOf(PendingIn(cs[..n]), cs[n])
    ensures !cs[n].Rdata? ==> PendingIn(cs[..n + 1]) == PendingIn(cs[..n])
    ensures cs[n].Ignored? ==> TraceOf(cs[..n + 1]) == TraceOf(cs[..n])
  {
    hide BatchEffects;
    var before, after := cs[..n], cs[..n + 1];
    assert after[..n] == before;
    forall i | 0 <= i < n + 1
      ensures !Overflows(PendingIn(after[..i]), after[i])
    {
      assert i < n ==> after[..i] == before[..i] && after[i] == before[i];
    }
  }

  lemma ChangedIff(log: seq<Typed>, serials: map<string, int>, r: string, pos: int)
    requires SerialsFollow(log, serials)
    ensures r in serials && serials[r] > pos <==> ChangedAbove(log, r, pos)
  {
  }

  lemma FiledOne(batch: seq<Row>, i: nat, serial: int)
    requires i < |batch|
    ensures Filed(batch[..i + 1], serial) == Filed(batch[..i], serial) + Filed([batch[i]], serial)
  {
    assert batch[..i + 1][..i] == batch[..i];
    assert [batch[i]][..0] == [];
  }

  lemma TellingOne(duty: Duty, stream: Stream, pos: int, batch: seq<Row>, i: nat)
    requires Duteous(duty, stream) && i < |batch|
    ensures Telling(duty, stream, pos, batch[..i + 1]) == Telling(duty, stream, pos, batch[..i]) + [Tell(duty, stream, pos, batch[i])]
  {
  }

  lemma BatchInOrder(before: seq<Effect>, w: Writer, pos: int, batch: seq<Row>)
    ensures (if w.stream == Typing then before + [Advance(w, pos)] + Telling(Type, w.stream, pos, batch) else before)
            + Telling(Invalidate, w.stream, pos, batch) + Telling(Record, w.stream, pos, batch)
            + (if pos > 0 && w.stream != Typing then [Advance(w, pos)] else [])
            + Telling(Wake, w.stream, pos, batch)
         == before + BatchEffects(w, pos, batch)
  {
  }
}
