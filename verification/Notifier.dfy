/** The notifier: who is waiting for what, and who has been woken. */
module Notifier {

  datatype Waiter = Waiter(rooms: set<string>, users: set<string>, done: bool)

  ghost predicate Names(ids: seq<string>, of: set<string>) {
    exists i :: 0 <= i < |ids| && ids[i] in of
  }

  /** Whether a row concerns a waiter. One that names nobody concerns everyone, and a waiter that
      declared nothing is concerned by everything. */
  ghost predicate Concerns(w: Waiter, roomIDs: seq<string>, userIDs: seq<string>) {
    || (roomIDs == [] && userIDs == [])
    || (w.rooms == {} && w.users == {})
    || Names(roomIDs, w.rooms) || Names(userIDs, w.users)
  }

  /** A waiter after a row. Once woken it stays woken. */
  ghost function Notified(w: Waiter, roomIDs: seq<string>, userIDs: seq<string>): Waiter {
    w.(done := w.done || Concerns(w, roomIDs, userIDs))
  }

  ghost function AllNotified(waiters: map<nat, Waiter>, roomIDs: seq<string>, userIDs: seq<string>): map<nat, Waiter> {
    map id | id in waiters :: Notified(waiters[id], roomIDs, userIDs)
  }

  method Interested(w: Waiter, roomIDs: seq<string>, userIDs: seq<string>) returns (yes: bool)
    requires !(roomIDs == [] && userIDs == [])
    ensures yes <==> Concerns(w, roomIDs, userIDs)
    ensures yes <==> (w.rooms == {} && w.users == {}) || (exists r :: r in roomIDs && r in w.rooms) || (exists u :: u in userIDs && u in w.users)
  {
    if w.rooms == {} && w.users == {} {
      return true;
    }
    for i := 0 to |roomIDs|
      invariant forall k :: 0 <= k < i ==> roomIDs[k] !in w.rooms
    {
      if roomIDs[i] in w.rooms {
        return true;
      }
    }
    for i := 0 to |userIDs|
      invariant forall k :: 0 <= k < i ==> userIDs[k] !in w.users
    {
      if userIDs[i] in w.users {
        return true;
      }
    }
    return false;
  }

  class Notifier {
    var nextID: nat
    var waiters: map<nat, Waiter>

    ghost predicate Valid()
      reads this
    {
      forall id :: id in waiters ==> id <= nextID
    }

    constructor ()
      ensures Valid() && waiters == map[]
    {
      nextID, waiters := 0, map[];
    }

    /** Declares interest under an identifier nobody else holds. */
    method Register(rooms: seq<string>, users: seq<string>) returns (id: nat)
      requires Valid()
      modifies this
      ensures Valid() && id !in old(waiters) && nextID == id
      ensures waiters == old(waiters)[id := Waiter((set i | 0 <= i < |rooms| :: rooms[i]), (set i | 0 <= i < |users| :: users[i]), false)]
    {
      nextID := nextID + 1;
      id := nextID;
      waiters := waiters[id := Waiter((set i | 0 <= i < |rooms| :: rooms[i]), (set i | 0 <= i < |users| :: users[i]), false)];
    }

    method Close(id: nat)
      requires Valid()
      modifies this`waiters
      ensures Valid() && waiters == old(waiters) - {id}
    {
      waiters := waiters - {id};
    }

    /** Wakes exactly the waiters the row concerns. */
    method OnStreamAdvance(roomIDs: seq<string>, userIDs: seq<string>)
      requires Valid()
      modifies this`waiters
      ensures Valid() && waiters == AllNotified(old(waiters), roomIDs, userIDs)
      ensures forall id :: id in old(waiters) && old(waiters)[id].done ==> id in waiters && waiters[id].done
      ensures forall id :: id in old(waiters) && !old(waiters)[id].done ==>
        id in waiters && waiters[id] == old(waiters)[id].(done := Concerns(old(waiters)[id], roomIDs, userIDs))
    {
      hide Concerns;
      var everyone := roomIDs == [] && userIDs == [];
      ghost var before := waiters;
      var rest := waiters.Keys;
      while rest != {}
        invariant rest <= before.Keys && waiters.Keys == before.Keys
        invariant forall id :: id in before ==>
          waiters[id] == if id in rest then before[id] else Notified(before[id], roomIDs, userIDs)
      {
        var id :| id in rest;
        rest := rest - {id};
        if !waiters[id].done {
          var yes := everyone;
          if !everyone {
            yes := Interested(waiters[id], roomIDs, userIDs);
          } else {
            ForEveryone(waiters[id]);
          }
          if yes {
            waiters := waiters[id := waiters[id].(done := true)];
          }
        }
      }
    }
  }

  lemma ForEveryone(w: Waiter)
    ensures Concerns(w, [], [])
  {
  }
}
