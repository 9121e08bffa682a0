/** What a sliding sync connection has been told about each room. */
module RoomStatus {

  /** `Previously(t)`: sent, but there are updates since token `t` that were not. */
  datatype HaveSent = Never | Previously(lastToken: int) | Live

  type Statuses = map<string, HaveSent>

  function StatusOf(m: Statuses, room: string): HaveSent {
    if room in m then m[room] else Never
  }

  ghost function Sent(m: Statuses, rooms: set<string>): Statuses {
    map r | r in m.Keys + rooms :: if r in rooms then Live else m[r]
  }

  /** Only a live room moves: one already behind keeps the token to resume from. */
  ghost function Unsent(m: Statuses, rooms: set<string>, from: int): Statuses {
    map r | r in m :: if r in rooms && m[r] == Live then Previously(from) else m[r]
  }

  lemma StatusesEqual(m: Statuses, n: Statuses)
    requires m.Keys == n.Keys && forall r :: StatusOf(m, r) == StatusOf(n, r)
    ensures m == n
  {
    forall r | r in m
      ensures m[r] == n[r]
    {
      assert StatusOf(m, r) == StatusOf(n, r);
    }
  }

  /** The status map of one request: the stored map, never written to, and this request's
      changes laid over it. */
  class RoomStatusMap {
    const base: Statuses
    var updates: Statuses

    constructor (stored: Statuses)
      ensures base == stored && updates == map[]
    {
      base := stored;
      updates := map[];
    }

    function All(): Statuses
      reads this
    {
      base + updates
    }

    function HaveSentRoom(room: string): (status: HaveSent)
      reads this
      ensures status == StatusOf(All(), room)
    {
      if room in updates then updates[room] else if room in base then base[room] else Never
    }

    method Set(room: string, status: HaveSent)
      modifies this`updates
      ensures updates == old(updates)[room := status]
      ensures All() == old(All())[room := status]
    {
      updates := updates[room := status];
    }

    /** Marks rooms as fully sent. A room already live registers no update. */
    method RecordSentRooms(rooms: set<string>)
      modifies this`updates
      ensures forall r :: StatusOf(All(), r) == if r in rooms then Live else StatusOf(old(All()), r)
      ensures All().Keys == old(All().Keys) + rooms
      ensures (updates == old(updates)) || exists r :: r in rooms && StatusOf(old(All()), r) != Live
      ensures forall r :: r in rooms && StatusOf(old(All()), r) != Live ==> r in updates
    {
      var rest := rooms;
      while rest != {}
        invariant rest <= rooms
        invariant forall r :: StatusOf(All(), r) == if r in rooms && r !in rest then Live else StatusOf(old(All()), r)
        invariant All().Keys == old(All().Keys) + (rooms - rest)
        invariant updates == old(updates) || exists r :: r in rooms && StatusOf(old(All()), r) != Live
        invariant forall r :: r in rooms && r !in rest && StatusOf(old(All()), r) != Live ==> r in updates
        decreases rest
      {
        var r :| r in rest;
        if HaveSentRoom(r) != Live {
          Set(r, Live);
        }
        rest := rest - {r};
      }
    }

    /** Marks rooms whose updates this response withheld. */
    method RecordUnsentRooms(rooms: set<string>, from: int)
      modifies this`updates
      ensures forall r :: StatusOf(All(), r) ==
                (if r in rooms && StatusOf(old(All()), r) == Live then Previously(from) else StatusOf(old(All()), r))
      ensures All().Keys == old(All().Keys)
      ensures updates == old(updates) || exists r :: r in rooms && StatusOf(old(All()), r) == Live
      ensures forall r :: r in rooms && StatusOf(old(All()), r) == Live ==> r in updates
    {
      var rest := rooms;
      while rest != {}
        invariant rest <= rooms
        invariant forall r ::
          StatusOf(All(), r) ==
          (if r in rooms && r !in rest && StatusOf(old(All()), r) == Live then Previously(from) else StatusOf(old(All()), r))
        invariant All().Keys == old(All().Keys)
        invariant updates == old(updates) || exists r :: r in rooms && StatusOf(old(All()), r) == Live
        invariant forall r :: r in rooms && r !in rest && StatusOf(old(All()), r) == Live ==> r in updates
        decreases rest
      {
        var r :| r in rest;
        if HaveSentRoom(r) == Live {
          Set(r, Previously(from));
        }
        rest := rest - {r};
      }
    }
  }
}
