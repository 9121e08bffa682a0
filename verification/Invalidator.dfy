/** The guard and the invalidator, as the replication thread calls them. */
module Invalidator {
  import opened Common
  import opened Replication
  import opened DerivedCache

  /** What dropping a row's rooms leaves. A row that names no room drops none. */
  function LeftAfter(cache: map<string, Entry>, rooms: seq<string>): map<string, Entry> {
    map r | r in cache && (r == "" || r !in rooms) :: cache[r]
  }

  class RoomCaches {
    var armed: bool
    var applied: int
    var items: map<string, Entry>

    constructor ()
      ensures !armed && applied == 0 && items == map[]
    {
      armed, applied, items := false, 0, map[];
    }

    /** Whether a cached answer may be given at a horizon. */
    function Fresh(horizon: Option<int>): bool
      reads this
    {
      horizon.Some? && armed && applied >= horizon.value
    }

    /** The caches stand where a run of them does. */
    ghost predicate StandsAt(s: Sys)
      reads this
    {
      armed == Armed(s) && applied == s.applied && items == s.cache
    }

    /** A guarded lookup, at any point of any run. It answers exactly when an armed guard has reached the
        horizon and the room is held; and then the answer, if no invalidation overtook it on its way in,
        reflects every change of the room up to the horizon, unless the batch in hand has yet to drop the
        room and the horizon is past the subscriber's position. */
    method Lookup(room: string, horizon: Option<int>, ghost states: seq<Sys>, ghost steps: seq<Step>, ghost i: nat)
      returns (r: Option<Entry>)
      requires IsRun(states, steps) && i < |states| && StandsAt(states[i])
      ensures r.Some? <==> armed && horizon.Some? && horizon.value <= applied && room in items
      ensures r.Some? ==> r.value == items[room]
      ensures r.Some? && r.value.clean && (Drop(room) !in states[i].todo || horizon.value <= states[i].position) ==>
        forall c :: c in states[i].changes && c.room == room && c.pos <= horizon.value ==> c in r.value.seen
    {
      r := if Fresh(horizon) && room in items then Some(items[room]) else None;
      if r.Some? && r.value.clean && (Drop(room) !in states[i].todo || horizon.value <= states[i].position) {
        forall c | c in states[i].changes && c.room == room && c.pos <= horizon.value
          ensures c in r.value.seen
        {
          if horizon.value <= states[i].position {
            ServedIsCurrent(states, steps, i, room, horizon.value, c);
          } else {
            GuardedIsCurrent(states, steps, i, room, horizon.value, c);
          }
        }
      }
    }

    method Arm(position: int, ghost s: Sys)
      modifies this`armed, this`applied
      ensures armed && applied == position
      ensures old(StandsAt(s)) && s.phase == Down && position == s.position ==> StandsAt(Apply(s, ArmGuard))
    {
      armed, applied := true, position;
    }

    method Disarm(ghost s: Sys)
      modifies this
      ensures !armed && applied == 0 && items == map[] && forall h :: !Fresh(h)
      ensures s.phase == Up && s.todo == [] ==> StandsAt(Apply(Apply(s, DisarmGuard), EmptyCaches))
    {
      armed, applied, items := false, 0, map[];
    }

    method Raise(pos: int)
      modifies this`applied
      ensures applied == if pos > 0 then Max(old(applied), pos) else old(applied)
    {
      if pos > 0 && pos > applied {
        applied := pos;
      }
    }

    method InvalidateRoom(room: string)
      modifies this`items
      ensures items == if room == "" then old(items) else old(items) - {room}
    {
      if room != "" {
        items := items - {room};
      }
    }

    /** Drops what a row makes stale, and only then records its position. Other streams feed
        nothing here. */
    method OnRow(stream: Stream, pos: int, row: Row)
      modifies this`items, this`applied
      ensures stream != Events ==> items == old(items) && applied == old(applied)
      ensures stream == Events ==> items == LeftAfter(old(items), row.rooms)
      ensures stream == Events ==> forall r :: r in items <==> r in old(items) && (r == "" || r !in row.rooms)
      ensures stream == Events ==> applied == if pos > 0 then Max(old(applied), pos) else old(applied)
    {
      if stream != Events {
        return;
      }
      for i := 0 to |row.rooms|
        invariant items == LeftAfter(old(items), row.rooms[..i]) && applied == old(applied)
      {
        InvalidateRoom(row.rooms[i]);
        assert row.rooms[..i + 1] == row.rooms[..i] + [row.rooms[i]];
      }
      assert row.rooms[..|row.rooms|] == row.rooms;
      Raise(pos);
    }
  }

  /** The invalidator's steps carried out one after the other. */
  ghost function PerformAll(s: Sys, ms: seq<Micro>): Sys {
    if ms == [] then s else Perform(PerformAll(s, ms[..|ms| - 1]), ms[|ms| - 1])
  }

  lemma {:induction false} DropsPerformed(s: Sys, rooms: seq<string>)
    ensures PerformAll(s, Drops(rooms)).cache == LeftAfter(s.cache, rooms)
    ensures PerformAll(s, Drops(rooms)).applied == s.applied
  {
    if rooms == [] {
      assert LeftAfter(s.cache, []) == s.cache;
    } else {
      var n := |rooms| - 1;
      assert Drops(rooms)[..n] == Drops(rooms[..n]);
      DropsPerformed(s, rooms[..n]);
      assert rooms == rooms[..n] + [rooms[n]];
    }
  }

  /** The steps a row stands for in a run amount to the call: the rooms it names are gone, and the
      applied position covers it. */
  lemma RowPerformed(s: Sys, pos: int, row: Row)
    ensures var t := PerformAll(s, MicroOf(Tell(Invalidate, Events, pos, row)));
            t.cache == LeftAfter(s.cache, row.rooms) && t.applied == if pos > 0 then Max(s.applied, pos) else s.applied
  {
    hide LeftAfter;
    DropsPerformed(s, row.rooms);
    var ms := Drops(row.rooms) + [DerivedCache.Raise(pos)];
    assert ms[..|ms| - 1] == Drops(row.rooms);
  }
}
