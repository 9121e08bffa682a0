/** One sliding sync connection over whole runs: what every response described, what the
    connection state claims, and that the claim never runs ahead of the client.

    Stream tokens are integers. A response is two steps, reading a position (which prunes its
    siblings) and answering, so requests on one connection may interleave, be abandoned, or be
    retried from an older position. */
module Connection {
  import opened Common
  import opened RoomConfig
  import opened RoomStatus

  const NUM_ROOMS_THRESHOLD: nat := 100
  const MINIMUM_NOT_USED_AGE := 60 * 60 * 1000

  /** A snapshot of what a connection has been told. */
  datatype Conn = Conn(rooms: Statuses, configs: map<string, RoomSyncConfig>)

  const EMPTY := Conn(map[], map[])

  // ---------------------------------------------------- choosing what to send

  /** Rooms that may have had an event since `from`: the stream cache's answer when it narrowed
      the list, the per-room position otherwise. Neither source misses an event, so neither does
      the answer. */
  method RoomsWithUpdates(roomIDs: set<string>, narrowed: set<string>, meta: map<string, int>, from: int,
                          ghost events: set<Event>)
    returns (out: set<string>)
    requires forall e :: e in events && e.room in roomIDs && e.pos > from ==> e.room in narrowed
    requires forall e :: e in events && e.room in meta ==> e.pos <= meta[e.room]
    ensures forall e :: e in events && e.room in roomIDs && e.pos > from ==> e.room in out
    ensures out == if |narrowed| < |roomIDs| then narrowed else set r | r in roomIDs && (r !in meta || meta[r] > from)
  {
    if |narrowed| < |roomIDs| {
      return narrowed;
    }
    out := {};
    var rest := roomIDs;
    while rest != {}
      invariant rest <= roomIDs
      invariant out == set r | r in roomIDs - rest && (r !in meta || meta[r] > from)
      decreases rest
    {
      var r :| r in rest;
      if r !in meta || meta[r] > from {
        out := out + {r};
      }
      rest := rest - {r};
    }
  }

  ghost predicate MustSend(prev: Conn, room: string, cfg: RoomSyncConfig) {
    || (room in prev.configs && Grown(prev.configs[room], cfg))
    || StatusOf(prev.rooms, room) != Live
  }

  ghost function ToSend(relevant: map<string, RoomSyncConfig>, prev: Conn, from: Option<int>, updated: set<string>)
    : map<string, RoomSyncConfig>
  {
    if from.None? then relevant
    else map r | r in relevant && (r in updated || MustSend(prev, r, relevant[r])) :: relevant[r]
  }

  /** Narrows the rooms of a response to those the client needs; `None` tells a long idle
      connection with much to catch up on to start over. */
  method FilterRoomsToSend(relevant: map<string, RoomSyncConfig>, prev: Conn, from: Option<int>,
                           updated: set<string>, idleFor: Option<int>)
    returns (out: Option<map<string, RoomSyncConfig>>)
    ensures out.Some? ==> out.value == ToSend(relevant, prev, from, updated)
    ensures out.Some? ==> forall r :: r in out.value ==> r in relevant && out.value[r] == relevant[r]
    ensures out.None? <==> from.Some? && relevant != map[] && |updated| > NUM_ROOMS_THRESHOLD
                           && idleFor.Some? && idleFor.value > MINIMUM_NOT_USED_AGE
  {
    if from.None? || relevant == map[] {
      return Some(relevant);
    }
    var should := {};
    var rest := relevant.Keys;
    while rest != {}
      invariant rest <= relevant.Keys
      invariant should == set r | r in relevant.Keys - rest && MustSend(prev, r, relevant[r])
      decreases rest
    {
      var r :| r in rest;
      var grown := false;
      if r in prev.configs {
        grown := HasGrown(prev.configs[r], relevant[r]);
      }
      if grown || StatusOf(prev.rooms, r) != Live {
        should := should + {r};
      }
      rest := rest - {r};
    }
    if |updated| > NUM_ROOMS_THRESHOLD && idleFor.Some? && idleFor.value > MINIMUM_NOT_USED_AGE {
      return None;
    }
    should := should + updated;
    out := Some(map r | r in should && r in relevant :: relevant[r]);
  }

  /** Where one room's answer starts; none means from scratch. */
  function LowerBound(status: HaveSent, from: Option<int>, scratch: bool): Option<int> {
    if from.None? || scratch then None
    else match status
      case Live => from
      case Previously(t) => Some(t)
      case Never => None
  }

  ghost function NextConn(prev: Conn, served: map<string, RoomSyncConfig>, unsent: set<string>, from: Option<int>): Conn {
    var rooms := Sent(prev.rooms, served.Keys);
    Conn(if from.Some? then Unsent(rooms, unsent, from.value) else rooms, prev.configs + served)
  }

  ghost predicate Changes(prev: Conn, served: map<string, RoomSyncConfig>, unsent: set<string>, from: Option<int>) {
    served != map[] || (from.Some? && exists r :: r in unsent && StatusOf(prev.rooms, r) == Live)
  }

  /** The bookkeeping of a response: every described room is live and has its config, every
      withheld room is behind from the request's own token. */
  method RecordResponse(prev: Conn, served: map<string, RoomSyncConfig>,
                        unsent: set<string>, from: Option<int>) returns (next: Conn, hasUpdates: bool)
    requires forall r :: r in unsent ==> r !in served
    ensures next == NextConn(prev, served, unsent, from)
    ensures hasUpdates <==> Changes(prev, served, unsent, from)
    ensures forall r :: r in next.configs <==> r in prev.configs || r in served
    ensures forall r :: r in next.configs ==> next.configs[r] == if r in served then served[r] else prev.configs[r]
    ensures forall r :: r in served ==> StatusOf(next.rooms, r) == Live
    ensures forall r :: r in unsent && from.Some? && StatusOf(prev.rooms, r) == Live ==> StatusOf(next.rooms, r) == Previously(from.value)
    ensures forall r :: r !in served && !(r in unsent && from.Some? && StatusOf(prev.rooms, r) == Live) ==>
      StatusOf(next.rooms, r) == StatusOf(prev.rooms, r)
  {
    forall r
      ensures r in served ==> StatusOf(NextConn(prev, served, unsent, from).rooms, r) == Live
      ensures r in unsent && from.Some? && StatusOf(prev.rooms, r) == Live ==>
        StatusOf(NextConn(prev, served, unsent, from).rooms, r) == Previously(from.value)
      ensures r !in served && !(r in unsent && from.Some? && StatusOf(prev.rooms, r) == Live) ==>
        StatusOf(NextConn(prev, served, unsent, from).rooms, r) == StatusOf(prev.rooms, r)
    {
      NextStatus(prev, served, unsent, from, r);
    }
    hide StatusOf, Sent, Unsent;
    var rooms, moved := RecordStatuses(prev.rooms, served.Keys, unsent, from);
    next := Conn(rooms, prev.configs + served);
    hasUpdates := moved || served != map[];
  }

  /** The statuses of a response: rooms sent, then rooms withheld; and whether any moved. */
  method RecordStatuses(prev: Statuses, sent: set<string>, unsent: set<string>, from: Option<int>)
    returns (rooms: Statuses, moved: bool)
    requires sent !! unsent
    ensures rooms == if from.Some? then Unsent(Sent(prev, sent), unsent, from.value) else Sent(prev, sent)
    ensures moved ==> sent != {} || (from.Some? && exists r :: r in unsent && StatusOf(prev, r) == Live)
    ensures from.Some? && (exists r :: r in unsent && StatusOf(prev, r) == Live) ==> moved
  {
    var m := new RoomStatusMap(prev);
    m.RecordSentRooms(sent);
    ghost var after := m.All();
    StatusesEqual(after, Sent(prev, sent));
    assert m.updates != map[] ==> sent != {};
    if from.Some? {
      m.RecordUnsentRooms(unsent, from.value);
      StatusesEqual(m.All(), Unsent(after, unsent, from.value));
    }
    rooms, moved := m.All(), m.updates != map[];
  }

  // ------------------------------------------------------------ the system

  datatype Event = Event(room: string, pos: int)

  /** A range of a room's stream that a response described. */
  datatype Range = Range(room: string, above: Option<int>, upTo: int)

  predicate InRange(g: Range, e: Event) {
    g.room == e.room && (g.above.Some? ==> g.above.value < e.pos) && e.pos <= g.upTo
  }

  ghost predicate Described(told: set<Range>, e: Event) {
    exists g :: g in told && InRange(g, e)
  }

  /** The `pos` a client holds: a connection position and the stream token it was answered at. */
  datatype Pos = Pos(conn: nat, token: int)

  /** A request between reading its position and answering. Position 0 is no connection. */
  datatype Request = Request(conn: nat, from: Option<int>)

  /** `told[c]` is what the responses on the branch leading to position `c` described. */
  datatype Sys = Sys(
    events: set<Event>,
    horizon: int,
    minted: map<nat, Conn>,
    told: map<nat, set<Range>>,
    live: set<nat>,
    issued: set<Pos>,
    open: set<Request>)

  /** What one response works from. `updated` and `withheld` are the rooms that may have had
      events since the request's token, inside and outside the window; `scratch` the rooms newly
      joined or reset; `asks` whether the request has any list or subscription. */
  datatype Turn = Turn(
    now: int,
    relevant: map<string, RoomSyncConfig>,
    allRooms: set<string>,
    scratch: set<string>,
    updated: set<string>,
    withheld: set<string>,
    served: map<string, RoomSyncConfig>,
    otherUpdates: bool,
    asks: bool)

  datatype Step =
    | Commit(event: Event)
    | Begin(req: Request)
    | Respond(req: Request, turn: Turn, mint: nat)
    | Abandon(req: Request)
    | Reap

  ghost predicate Init(s: Sys) {
    s.minted == map[0 := EMPTY] && s.told == map[0 := {}] && s.live == {} && s.issued == {} && s.open == {}
    && forall e :: e in s.events ==> e.pos <= s.horizon
  }

  /** No false negatives: a room with an event in (from, now] is reported. */
  ghost predicate Reported(events: set<Event>, from: int, now: int, rooms: set<string>, reported: set<string>) {
    forall e :: e in events && from < e.pos <= now && e.room in rooms ==> e.room in reported
  }

  ghost predicate Enabled(s: Sys, step: Step) {
    match step
    case Commit(e) => e.pos > s.horizon
    case Begin(req) =>
      if req.from.None? then req.conn == 0
      else Pos(req.conn, req.from.value) in s.issued && (req.conn == 0 || req.conn in s.live)
    case Respond(req, turn, mint) =>
      && req in s.open && req.conn in s.minted
      && mint != 0 && mint !in s.minted
      && (!turn.asks ==> turn.relevant == map[] && turn.allRooms == {})
      && turn.served.Keys == ToSend(turn.relevant, s.minted[req.conn], req.from, turn.updated).Keys
      && (req.from.Some? ==>
           && req.from.value <= turn.now
           && Reported(s.events, req.from.value, turn.now, turn.relevant.Keys, turn.updated)
           && Reported(s.events, req.from.value, turn.now, turn.allRooms - turn.relevant.Keys, turn.withheld))
    case Abandon(req) => true
    case Reap => true
  }

  ghost function Missing(turn: Turn): set<string> {
    turn.withheld * (turn.allRooms - turn.relevant.Keys)
  }

  ghost function Told(s: Sys, req: Request, turn: Turn): set<Range>
    requires req.conn in s.minted && req.conn in s.told
  {
    s.told[req.conn] + set r | r in turn.served ::
      Range(r, LowerBound(StatusOf(s.minted[req.conn].rooms, r), req.from, r in turn.scratch), turn.now)
  }

  /** The answer: persist when there is something to record, and hand out the position. */
  ghost function Answer(s: Sys, req: Request, turn: Turn, mint: nat): Sys
    requires req.conn in s.minted && req.conn in s.told
  {
    var prev := s.minted[req.conn];
    var t := s.(open := s.open - {req}, horizon := if turn.now > s.horizon then turn.now else s.horizon);
    if !turn.asks || !(Changes(prev, turn.served, Missing(turn), req.from) || turn.otherUpdates) then
      t.(issued := s.issued + {Pos(req.conn, turn.now)})
    else if req.conn != 0 && req.conn !in s.live then
      t
    else
      t.(minted := s.minted[mint := NextConn(prev, turn.served, Missing(turn), req.from)],
         told := s.told[mint := Told(s, req, turn)],
         live := (if req.conn == 0 then {} else s.live) + {mint},
         issued := s.issued + {Pos(mint, turn.now)})
  }

  ghost function Apply(s: Sys, step: Step): Sys
    requires Enabled(s, step) && s.told.Keys == s.minted.Keys
  {
    match step
    case Commit(e) => s.(events := s.events + {e})
    case Begin(req) => s.(live := if req.conn == 0 then s.live else {req.conn}, open := s.open + {req})
    case Respond(req, turn, mint) => Answer(s, req, turn, mint)
    case Abandon(req) => s.(open := s.open - {req})
    case Reap => s.(live := {})
  }

  // ------------------------------------------------------------ the invariant

  /** Every event of the room up to a token lies in a range the branch described. */
  ghost predicate CoveredTo(s: Sys, conn: nat, token: int, room: string)
    requires conn in s.told
  {
    forall e :: e in s.events && e.room == room && e.pos <= token ==> Described(s.told[conn], e)
  }

  /** What the status of a room at a position, paired with a token, claims. */
  ghost predicate Honest(s: Sys, conn: nat, token: int, room: string)
    requires conn in s.told && conn in s.minted
  {
    match StatusOf(s.minted[conn].rooms, room)
    case Live => CoveredTo(s, conn, token, room)
    case Previously(t) => t <= s.horizon && CoveredTo(s, conn, t, room)
    case Never => true
  }

  ghost predicate WellFormed(s: Sys) {
    && s.told.Keys == s.minted.Keys
    && 0 in s.minted && s.minted[0] == EMPTY && s.told[0] == {}
    && s.live <= s.minted.Keys - {0}
    && (forall p :: p in s.issued ==> p.conn in s.minted && p.token <= s.horizon)
    && (forall q :: q in s.open ==> q.conn in s.minted)
    && (forall q :: q in s.open && q.from.None? ==> q.conn == 0)
    && (forall q :: q in s.open && q.from.Some? ==> Pos(q.conn, q.from.value) in s.issued)
    && (forall p, g :: p in s.issued && g in s.told[p.conn] ==> g.upTo <= p.token)
    && (forall c, r :: c in s.minted && StatusOf(s.minted[c].rooms, r) != Never ==> r in s.minted[c].configs)
  }

  ghost predicate Inv(s: Sys, room: string) {
    WellFormed(s) && forall p :: p in s.issued ==> Honest(s, p.conn, p.token, room)
  }

  /** The room stays among the rooms the request's lists and subscriptions concern. */
  ghost predicate Stays(step: Step, room: string) {
    step.Respond? && step.req.from.Some? ==> room in step.turn.allRooms || room in step.turn.relevant
  }

  lemma InitInv(s: Sys, room: string)
    requires Init(s)
    ensures Inv(s, room)
  {
  }

  lemma CommitKeeps(s: Sys, e: Event, room: string)
    requires Inv(s, room) && Enabled(s, Commit(e))
    ensures Inv(Apply(s, Commit(e)), room)
  {
    var t := Apply(s, Commit(e));
    forall p | p in t.issued
      ensures Honest(t, p.conn, p.token, room)
    {
      assert Honest(s, p.conn, p.token, room);
    }
  }

  /** What the mint step claims: the new position is honest about the room at the new token. */
  lemma MintHonest(s: Sys, req: Request, turn: Turn, mint: nat, room: string)
    requires Inv(s, room) && Enabled(s, Respond(req, turn, mint)) && Stays(Respond(req, turn, mint), room)
    ensures var n, told := NextConn(s.minted[req.conn], turn.served, Missing(turn), req.from), Told(s, req, turn);
            match StatusOf(n.rooms, room)
            case Live => forall e :: e in s.events && e.room == room && e.pos <= turn.now ==> Described(told, e)
            case Previously(t) => t <= s.horizon && forall e :: e in s.events && e.room == room && e.pos <= t ==> Described(told, e)
            case Never => true
  {
    var prev, told := s.minted[req.conn], Told(s, req, turn);
    if req.from.Some? {
      assert Honest(s, req.conn, req.from.value, room);
    }
    if room in turn.served {
      var bound := LowerBound(StatusOf(prev.rooms, room), req.from, room in turn.scratch);
      var g := Range(room, bound, turn.now);
      assert g in told;
      forall e | e in s.events && e.room == room && e.pos <= turn.now
        ensures Described(told, e)
      {
        if !InRange(g, e) {
          assert Described(s.told[req.conn], e);
        }
      }
    } else if req.from.Some? && StatusOf(prev.rooms, room) == Live {
      forall e | e in s.events && e.room == room && e.pos <= req.from.value
        ensures Described(told, e)
      {
        assert Described(s.told[req.conn], e);
      }
    }
  }

  /** There is something to record exactly when a room was served or a status moved. */
  lemma ChangesIff(prev: Conn, served: map<string, RoomSyncConfig>, unsent: set<string>, from: Option<int>)
    ensures Changes(prev, served, unsent, from) <==> served != map[] || NextConn(prev, served, unsent, from) != prev
  {
    if served == map[] {
      assert served.Keys == {};
      StatusesEqual(Sent(prev.rooms, served.Keys), prev.rooms);
      if from.Some? {
        var next := Unsent(prev.rooms, unsent, from.value);
        if r :| r in unsent && StatusOf(prev.rooms, r) == Live {
          assert StatusOf(next, r) == Previously(from.value);
        } else {
          StatusesEqual(next, prev.rooms);
        }
      }
    }
  }

  /** A response that records nothing leaves its position honest at the newer token. */
  lemma QuietHonest(s: Sys, req: Request, turn: Turn, mint: nat, room: string)
    requires Inv(s, room) && Enabled(s, Respond(req, turn, mint)) && Stays(Respond(req, turn, mint), room)
    requires !Changes(s.minted[req.conn], turn.served, Missing(turn), req.from)
    ensures Honest(s, req.conn, turn.now, room)
  {
    var prev := s.minted[req.conn];
    MintHonest(s, req, turn, mint, room);
    ChangesIff(prev, turn.served, Missing(turn), req.from);
    assert turn.served.Keys == {};
    assert Told(s, req, turn) == s.told[req.conn];
  }

  lemma HonestElsewhere(s: Sys, t: Sys, p: Pos, room: string)
    requires Inv(s, room) && p in s.issued && t.events == s.events && t.horizon >= s.horizon
    requires p.conn in t.minted && t.minted[p.conn] == s.minted[p.conn]
    requires p.conn in t.told && t.told[p.conn] == s.told[p.conn]
    ensures Honest(t, p.conn, p.token, room)
  {
    assert Honest(s, p.conn, p.token, room);
  }

  /** Rooms with a status have a config, also after a response. */
  lemma ConfigsFollow(prev: Conn, served: map<string, RoomSyncConfig>, unsent: set<string>, from: Option<int>)
    requires forall r :: StatusOf(prev.rooms, r) != Never ==> r in prev.configs
    ensures var n := NextConn(prev, served, unsent, from);
            forall r :: StatusOf(n.rooms, r) != Never ==> r in n.configs
  {
  }

  lemma AnswerWellFormed(s: Sys, req: Request, turn: Turn, mint: nat)
    requires WellFormed(s) && Enabled(s, Respond(req, turn, mint))
    ensures WellFormed(Answer(s, req, turn, mint))
  {
    ConfigsFollow(s.minted[req.conn], turn.served, Missing(turn), req.from);
    forall g | g in s.told[req.conn]
      ensures g.upTo <= turn.now
    {
      if req.from.Some? {
        assert Pos(req.conn, req.from.value) in s.issued;
      }
    }
  }

  lemma AnswerKeeps(s: Sys, req: Request, turn: Turn, mint: nat, room: string)
    requires Inv(s, room) && Enabled(s, Respond(req, turn, mint)) && Stays(Respond(req, turn, mint), room)
    ensures Inv(Answer(s, req, turn, mint), room)
  {
    var t := Answer(s, req, turn, mint);
    var prev := s.minted[req.conn];
    AnswerWellFormed(s, req, turn, mint);
    forall p | p in t.issued
      ensures Honest(t, p.conn, p.token, room)
    {
      if p in s.issued {
        HonestElsewhere(s, t, p, room);
      } else if !turn.asks || !(Changes(prev, turn.served, Missing(turn), req.from) || turn.otherUpdates) {
        if !turn.asks {
          assert turn.served.Keys == {};
          assert Missing(turn) == {};
        }
        QuietHonest(s, req, turn, mint, room);
      } else {
        MintHonest(s, req, turn, mint, room);
      }
    }
  }

  lemma StepKeeps(s: Sys, step: Step, room: string)
    requires Inv(s, room) && Enabled(s, step) && Stays(step, room)
    ensures Inv(Apply(s, step), room)
  {
    match step
    case Commit(e) => CommitKeeps(s, e, room);
    case Respond(req, turn, mint) => AnswerKeeps(s, req, turn, mint, room);
    case Begin(req) =>
      forall p | p in s.issued
        ensures Honest(Apply(s, step), p.conn, p.token, room)
      {
        HonestElsewhere(s, Apply(s, step), p, room);
      }
    case Abandon(req) =>
      forall p | p in s.issued
        ensures Honest(Apply(s, step), p.conn, p.token, room)
      {
        HonestElsewhere(s, Apply(s, step), p, room);
      }
    case Reap =>
      forall p | p in s.issued
        ensures Honest(Apply(s, step), p.conn, p.token, room)
      {
        HonestElsewhere(s, Apply(s, step), p, room);
      }
  }

  // -------------------------------------------------------------- whole runs

  ghost predicate IsRun(states: seq<Sys>, steps: seq<Step>) {
    && |states| == |steps| + 1
    && Init(states[0])
    && (forall i :: 0 <= i < |states| ==> states[i].told.Keys == states[i].minted.Keys)
    && (forall i :: 0 <= i < |steps| ==> Enabled(states[i], steps[i]) && states[i + 1] == Apply(states[i], steps[i]))
  }

  lemma {:induction false} RunKeeps(states: seq<Sys>, steps: seq<Step>, room: string, i: nat)
    requires IsRun(states, steps) && i < |states|
    requires forall j :: 0 <= j < i ==> Stays(steps[j], room)
    ensures Inv(states[i], room)
  {
    if i == 0 {
      InitInv(states[0], room);
    } else {
      RunKeeps(states, steps, room, i - 1);
      StepKeeps(states[i - 1], steps[i - 1], room);
    }
  }

  lemma {:induction false} RunWellFormed(states: seq<Sys>, steps: seq<Step>, i: nat)
    requires IsRun(states, steps) && i < |states|
    ensures WellFormed(states[i])
  {
    if i > 0 {
      RunWellFormed(states, steps, i - 1);
      StepWellFormed(states[i - 1], steps[i - 1]);
    }
  }

  lemma StepWellFormed(s: Sys, step: Step)
    requires WellFormed(s) && Enabled(s, step)
    ensures WellFormed(Apply(s, step))
  {
    if step.Respond? {
      AnswerWellFormed(s, step.req, step.turn, step.mint);
    }
  }

  /** In every run, whatever is requested, every room a position says was sent has its config. */
  lemma SentRoomsHaveConfigs(states: seq<Sys>, steps: seq<Step>, i: nat, conn: nat, room: string)
    requires IsRun(states, steps) && i < |states| && conn in states[i].minted
    requires StatusOf(states[i].minted[conn].rooms, room) != Never
    ensures room in states[i].minted[conn].configs
  {
    RunWellFormed(states, steps, i);
  }

  /** In every run, a room of the window is served exactly when something may have happened in it, the
      client is not up to date with it, or the request asks for a longer timeline or for state that the
      stored config does not cover; a first request is served all its rooms. */
  lemma ServedIff(states: seq<Sys>, steps: seq<Step>, i: nat, room: string)
    requires IsRun(states, steps) && i < |steps| && steps[i].Respond? && room in steps[i].turn.relevant
    ensures var req, turn := steps[i].req, steps[i].turn;
            var conn, cfg := states[i].minted[req.conn], turn.relevant[room];
            && (StatusOf(conn.rooms, room) == Live ==> room in conn.configs)
            && (req.from.None? ==> room in turn.served)
            && (req.from.Some? ==> (room in turn.served <==>
                 || room in turn.updated
                 || StatusOf(conn.rooms, room) != Live
                 || cfg.timelineLimit > conn.configs[room].timelineLimit
                 || exists t, k :: t != WILDCARD && k != WILDCARD
                      && Covers(cfg.requiredState, t, k) && !Covers(conn.configs[room].requiredState, t, k)))
  {
    RunWellFormed(states, steps, i);
    hide Covers;
  }

  /** In every run in which the room stays in the requests' rooms: each answer about the room
      starts at or below every event its branch has not described, and once it is answered the
      branch has described everything up to the answer's token. */
  lemma NoEventSkipped(states: seq<Sys>, steps: seq<Step>, room: string, i: nat, e: Event)
    requires IsRun(states, steps) && i < |steps| && steps[i].Respond?
    requires forall j :: 0 <= j <= i ==> Stays(steps[j], room)
    requires room in steps[i].turn.served && e in states[i].events && e.room == room
    ensures var req, turn := steps[i].req, steps[i].turn;
            var bound := LowerBound(StatusOf(states[i].minted[req.conn].rooms, room), req.from, room in turn.scratch);
            && (bound.Some? && !Described(states[i].told[req.conn], e) ==> bound.value < e.pos)
            && (e.pos <= turn.now ==> Described(Told(states[i], req, turn), e))
  {
    RunKeeps(states, steps, room, i);
    var s, req, turn := states[i], steps[i].req, steps[i].turn;
    if req.from.Some? {
      assert Honest(s, req.conn, req.from.value, room);
    }
    MintHonest(s, req, turn, steps[i].mint, room);
    assert StatusOf(NextConn(s.minted[req.conn], turn.served, Missing(turn), req.from).rooms, room) == Live;
  }

  /** The ranges of a room end where its status says the branch was left, and exactly a room never sent
      has none. */
  ghost predicate Ends(conn: Conn, told: set<Range>, room: string) {
    match StatusOf(conn.rooms, room)
    case Never => forall g :: g in told ==> g.room != room
    case Previously(t) => (exists g :: g in told && g.room == room) && forall g :: g in told && g.room == room ==> g.upTo <= t
    case Live => exists g :: g in told && g.room == room
  }

  ghost predicate RangesEnd(s: Sys, room: string) {
    forall c :: c in s.minted && c in s.told ==> Ends(s.minted[c], s.told[c], room)
  }

  /** What a response makes of one room's status. */
  lemma NextStatus(prev: Conn, served: map<string, RoomSyncConfig>, unsent: set<string>, from: Option<int>, room: string)
    ensures StatusOf(NextConn(prev, served, unsent, from).rooms, room)
         == var before := if room in served then Live else StatusOf(prev.rooms, room);
            if from.Some? && room in unsent && before == Live then Previously(from.value) else before
  {
  }

  lemma ToldOf(s: Sys, req: Request, turn: Turn, room: string, g: Range)
    requires req.conn in s.minted && req.conn in s.told && g.room == room
    ensures g in Told(s, req, turn) <==>
      g in s.told[req.conn] || (room in turn.served
        && g == Range(room, LowerBound(StatusOf(s.minted[req.conn].rooms, room), req.from, room in turn.scratch), turn.now))
  {
  }

  /** A request's branch described nothing above its token, and withholds no room it serves. */
  lemma RequestFacts(s: Sys, req: Request, turn: Turn, mint: nat)
    requires WellFormed(s) && Enabled(s, Respond(req, turn, mint))
    ensures req.from.Some? ==> forall g :: g in s.told[req.conn] ==> g.upTo <= req.from.value
    ensures Missing(turn) !! turn.served.Keys
  {
    hide MustSend;
    assert req.from.Some? ==> Pos(req.conn, req.from.value) in s.issued;
  }

  lemma MintEnds(s: Sys, req: Request, turn: Turn, mint: nat, room: string)
    requires WellFormed(s) && Enabled(s, Respond(req, turn, mint)) && RangesEnd(s, room)
    ensures Ends(NextConn(s.minted[req.conn], turn.served, Missing(turn), req.from), Told(s, req, turn), room)
  {
    assert req.conn in s.minted && req.conn in s.told;
    RequestFacts(s, req, turn, mint);
    hide WellFormed, Enabled, NextConn, Told, Missing, LowerBound;
    var before, told := s.told[req.conn], Told(s, req, turn);
    var bound := LowerBound(StatusOf(s.minted[req.conn].rooms, room), req.from, room in turn.scratch);
    assert Ends(s.minted[req.conn], before, room);
    NextStatus(s.minted[req.conn], turn.served, Missing(turn), req.from, room);
    forall g: Range | g.room == room
      ensures g in told <==> g in before || (room in turn.served && g == Range(room, bound, turn.now))
    {
      ToldOf(s, req, turn, room, g);
    }
    assert room in turn.served ==> Range(room, bound, turn.now) in told;
  }

  lemma AnswerRanges(s: Sys, req: Request, turn: Turn, mint: nat, room: string)
    requires WellFormed(s) && Enabled(s, Respond(req, turn, mint)) && RangesEnd(s, room)
    ensures RangesEnd(Answer(s, req, turn, mint), room)
  {
    MintEnds(s, req, turn, mint, room);
    hide Ends, NextConn, Told, Changes, Missing;
  }

  lemma {:induction false} RunRanges(states: seq<Sys>, steps: seq<Step>, room: string, i: nat)
    requires IsRun(states, steps) && i < |states|
    ensures RangesEnd(states[i], room)
  {
    hide Enabled, Apply, WellFormed;
    if i > 0 {
      RunRanges(states, steps, room, i - 1);
      RunWellFormed(states, steps, i - 1);
      hide RangesEnd;
      StepRanges(states[i - 1], steps[i - 1], room);
    }
  }

  lemma StepRanges(s: Sys, step: Step, room: string)
    requires WellFormed(s) && Enabled(s, step) && RangesEnd(s, room)
    ensures RangesEnd(Apply(s, step), room)
  {
    hide Ends;
    if step.Respond? {
      hide Enabled, WellFormed, RangesEnd, Answer;
      AnswerRanges(s, step.req, step.turn, step.mint, room);
    }
  }

  /** Exactly once: in the same runs, an answer that does not start from scratch describes exactly the
      events up to its token that its branch has not described; and it starts from scratch exactly for
      a first request, a room newly joined or reset, or one its branch never described. */
  lemma AnswersExactlyUndescribed(states: seq<Sys>, steps: seq<Step>, room: string, i: nat, e: Event)
    requires IsRun(states, steps) && i < |steps| && steps[i].Respond?
    requires forall j :: 0 <= j <= i ==> Stays(steps[j], room)
    requires room in steps[i].turn.served && e in states[i].events && e.room == room
    ensures var req, turn := steps[i].req, steps[i].turn;
            var told := states[i].told[req.conn];
            var bound := LowerBound(StatusOf(states[i].minted[req.conn].rooms, room), req.from, room in turn.scratch);
            && Range(room, bound, turn.now) in Told(states[i], req, turn)
            && (bound.Some? ==> (InRange(Range(room, bound, turn.now), e) <==> e.pos <= turn.now && !Described(told, e)))
            && (bound.None? <==> req.from.None? || room in turn.scratch || forall g :: g in told ==> g.room != room)
  {
    RunWellFormed(states, steps, i);
    NoEventSkipped(states, steps, room, i, e);
    RunRanges(states, steps, room, i);
    var s, req, turn := states[i], steps[i].req, steps[i].turn;
    hide IsRun, Apply, Inv;
    var bound := LowerBound(StatusOf(s.minted[req.conn].rooms, room), req.from, room in turn.scratch);
    if req.from.Some? {
      assert Pos(req.conn, req.from.value) in s.issued;
    }
    assert Ends(s.minted[req.conn], s.told[req.conn], room);
    if bound.Some? && Described(s.told[req.conn], e) {
      var g :| g in s.told[req.conn] && InRange(g, e);
      assert g.upTo <= bound.value;
    }
  }

  /** The qualifier is needed exactly here: a live room outside the request's rooms is handed on
      as live at the newer token, and that is honest only if nothing happened in it. */
  lemma LeavingLosesExactlyEvents(s: Sys, req: Request, turn: Turn, mint: nat, room: string)
    requires Inv(s, room) && Enabled(s, Respond(req, turn, mint)) && req.from.Some?
    requires room !in turn.allRooms && room !in turn.relevant
    requires StatusOf(s.minted[req.conn].rooms, room) == Live
    requires req.conn == 0 || req.conn in s.live
    ensures Inv(Answer(s, req, turn, mint), room) <==>
            !exists e :: e in s.events && e.room == room && req.from.value < e.pos <= turn.now
  {
    var t := Answer(s, req, turn, mint);
    var from := req.from.value;
    AnswerWellFormed(s, req, turn, mint);
    var n := NextConn(s.minted[req.conn], turn.served, Missing(turn), req.from);
    assert StatusOf(n.rooms, room) == Live;
    var c := if Pos(mint, turn.now) in t.issued && mint in t.minted then mint else req.conn;
    assert Pos(c, turn.now) in t.issued && StatusOf(t.minted[c].rooms, room) == Live;
    forall e: Event | e.room == room
      ensures Described(t.told[c], e) <==> Described(s.told[req.conn], e)
    {
      if g :| g in t.told[c] && InRange(g, e) {
        assert g in s.told[req.conn];
      }
      if g :| g in s.told[req.conn] && InRange(g, e) {
        assert g in t.told[c];
      }
    }
    if e :| e in s.events && e.room == room && from < e.pos <= turn.now {
      assert Pos(req.conn, from) in s.issued;
      assert !Described(s.told[req.conn], e);
      assert !Honest(t, c, turn.now, room);
    } else {
      assert Honest(s, req.conn, from, room);
      forall p | p in t.issued
        ensures Honest(t, p.conn, p.token, room)
      {
        if p in s.issued {
          HonestElsewhere(s, t, p, room);
        } else {
          assert p == Pos(c, turn.now);
          assert CoveredTo(t, c, turn.now, room);
        }
      }
    }
  }

  // ---------------------------------------------------------- a room that leaves

  /** A run, one step longer. */
  lemma Then(states: seq<Sys>, steps: seq<Step>, step: Step) returns (states': seq<Sys>, steps': seq<Step>)
    requires IsRun(states, steps) && Enabled(states[|steps|], step)
    ensures IsRun(states', steps') && |states'| == |steps'| + 1
    ensures states[|steps|].told.Keys == states[|steps|].minted.Keys && states'[|steps'|] == Apply(states[|steps|], step)
  {
    RunWellFormed(states, steps, |steps|);
    StepWellFormed(states[|steps|], step);
    hide Enabled, Apply;
    states', steps' := states + [Apply(states[|steps|], step)], steps + [step];
  }

  lemma Start() returns (states: seq<Sys>, steps: seq<Step>)
    ensures IsRun(states, steps) && steps == []
    ensures states == [Sys({}, 0, map[0 := EMPTY], map[0 := {}], {}, {}, {})]
  {
    states, steps := [Sys({}, 0, map[0 := EMPTY], map[0 := {}], {}, {}, {})], [];
  }

  const ANY_CONFIG := RoomSyncConfig(1, map[])

  /** A response that describes exactly one room. */
  function Describing(room: string, now: int): Turn {
    Turn(now, map[room := ANY_CONFIG], {room}, {}, {}, {}, map[room := ANY_CONFIG], false, true)
  }

  /** Room "r" described up to position 1, then an event in it. */
  lemma DescribedThenChanged() returns (states: seq<Sys>, steps: seq<Step>)
    ensures IsRun(states, steps) && |states| == |steps| + 1
    ensures var conn := Conn(map["r" := Live], map["r" := ANY_CONFIG]);
            states[|steps|] == Sys({Event("r", 2)}, 1, map[0 := EMPTY, 1 := conn], map[0 := {}, 1 := {Range("r", None, 1)}],
                                   {1}, {Pos(1, 1)}, {})
  {
    hide IsRun;
    states, steps := Start();
    states, steps := Then(states, steps, Begin(Request(0, None)));
    var req, turn := Request(0, None), Describing("r", 1);
    assert "r" in turn.served && Changes(EMPTY, turn.served, Missing(turn), None);
    assert states[|steps|].minted[0] == EMPTY;
    states, steps := Then(states, steps, Respond(req, turn, 1));
    var conn := NextConn(EMPTY, turn.served, Missing(turn), None);
    assert conn == Conn(map["r" := Live], map["r" := ANY_CONFIG]) by {
      assert turn.served.Keys == {"r"};
      StatusesEqual(conn.rooms, map["r" := Live]);
    }
    assert states[|steps|].told[1] == {Range("r", None, 1)};
    states, steps := Then(states, steps, Commit(Event("r", 2)));
  }

  /** A run that gets there: the room is described, something happens in it, and a request that no
      longer concerns it is answered. The position handed out claims the room is live at a token
      above an event its branch never described. */
  lemma LeavingExample() returns (states: seq<Sys>, steps: seq<Step>)
    ensures IsRun(states, steps)
    ensures var s := states[|steps|];
            && Pos(2, 2) in s.issued && 2 in s.minted && 2 in s.told && StatusOf(s.minted[2].rooms, "r") == Live
            && Event("r", 2) in s.events && !Described(s.told[2], Event("r", 2)) && !Inv(s, "r")
  {
    hide IsRun;
    states, steps := DescribedThenChanged();
    var req, turn := Request(1, Some(1)), Describing("q", 2);
    states, steps := Then(states, steps, Begin(req));
    ghost var prev := states[|steps|].minted[1];
    assert MustSend(prev, "q", ANY_CONFIG);
    assert ToSend(turn.relevant, prev, req.from, turn.updated).Keys == {"q"};
    states, steps := Then(states, steps, Respond(req, turn, 2));
    var s := states[|steps|];
    assert !Honest(s, 2, 2, "r");
  }
}
