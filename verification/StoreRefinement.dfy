/** The connection protocol over the store's tables: each step of a connection is the store's own
    transaction, and what the tables say is what the protocol proves. */
module StoreRefinement {
  import opened Common
  import opened RoomConfig
  import opened RoomStatus
  import S = ConnStore
  import C = Connection

  // ---------------------------------------------------------------- abstraction

  /** The positions an owner may present. */
  ghost function Live(db: S.Db, owner: S.Owner): set<nat> {
    set p | p in db.positions && S.Owns(db, owner, p)
  }

  /** A loaded snapshot is what the protocol knows of a position. */
  ghost predicate Reads(snap: S.Snapshot, conn: C.Conn) {
    S.StatusesOf(snap.streams, S.Rooms) == conn.rooms && snap.configs == S.StoredConfigs(conn.configs)
  }

  ghost predicate AllRead(db: S.Db, s: C.Sys)
    requires S.Integrity(db)
  {
    forall p :: p in s.live ==> p in s.minted && p in db.positions && Reads(S.Snap(db, p), s.minted[p])
  }

  /** The tables hold, of one owner, exactly the protocol's live positions. */
  ghost predicate Represents(db: S.Db, owner: S.Owner, s: C.Sys) {
    && S.Integrity(db) && s.live == Live(db, owner) && AllRead(db, s)
    && (forall p :: p in s.minted ==> p < db.nextPos)
  }

  // ------------------------------------------------------------------ the steps

  /** One owner's positions are all on one connection, so acknowledging one prunes the others. */
  lemma AckedLive(db: S.Db, owner: S.Owner, p: nat, now: int)
    requires S.Integrity(db) && p in Live(db, owner)
    ensures p in db.positions && Live(S.Acked(db, p, now), owner) == {p}
  {
    hide S.RequiredIntegrity, S.Used;
    var db' := S.Acked(db, p, now);
    forall q
      ensures q in Live(db', owner) <==> q == p
    {
    }
  }

  lemma BeginRefines(db: S.Db, owner: S.Owner, s: C.Sys, req: C.Request, now: int)
    requires Represents(db, owner, s) && req.conn in s.live
    ensures req.conn in db.positions && Represents(S.Acked(db, req.conn, now), owner, s.(live := {req.conn}, open := s.open + {req}))
  {
    AckedLive(db, owner, req.conn, now);
    S.AckIntegrity(db, req.conn, now);
    hide S.Snap, S.RequiredIntegrity, Reads, Live, S.Used, S.Kept;
    S.AckSnapshot(db, req.conn, now, req.conn);
  }

  lemma StatusesOverlay(a: map<S.StreamRoom, HaveSent>, rooms: Statuses, receipts: Statuses, accountData: Statuses)
    ensures S.StatusesOf(a + S.Streams(rooms, receipts, accountData), S.Rooms) == S.StatusesOf(a, S.Rooms) + rooms
  {
    hide S.StreamKeys, S.RoomsIn;
    var over := S.Streams(rooms, receipts, accountData);
    forall r
      ensures S.StreamRoom(S.Rooms, r) in over <==> r in rooms
      ensures r in rooms ==> over[S.StreamRoom(S.Rooms, r)] == rooms[r]
    {
    }
  }

  lemma StoredOverlay(a: map<string, RoomSyncConfig>, b: map<string, RoomSyncConfig>)
    ensures S.StoredConfigs(a + b) == S.StoredConfigs(a) + S.StoredConfigs(b)
  {
    hide S.StoredConfig;
  }

  /** The state a response writes: the loaded one, with the statuses it moved and the configs of the
      rooms it described. */
  ghost predicate Writes(before: S.Snapshot, ch: S.Changes, prev: C.Conn, turn: C.Turn, from: Option<int>) {
    && prev.rooms + ch.rooms == C.NextConn(prev, turn.served, C.Missing(turn), from).rooms
    && ch.configs == turn.served
  }

  lemma WrittenReads(before: S.Snapshot, ch: S.Changes, prev: C.Conn, turn: C.Turn, from: Option<int>)
    requires Reads(before, prev) && S.NoneEmpty(before.configs) && Writes(before, ch, prev, turn, from)
    ensures Reads(S.Overlay(before, S.Flattened(before, ch)), C.NextConn(prev, turn.served, C.Missing(turn), from))
  {
    hide S.Streams, S.StatusesOf, S.StoredConfigs, S.StoredConfig, Sent, Unsent, C.Missing;
    var flat, changes := S.Flattened(before, ch), S.ChangesOnly(ch);
    S.FlattenedIs(before, ch);
    S.OverlaidOnce(before, changes, flat);
    StatusesOverlay(before.streams, ch.rooms, ch.receipts, ch.accountData);
    StoredOverlay(prev.configs, turn.served);
  }

  /** No position is no state. */
  ghost predicate Rooted(s: C.Sys) {
    0 in s.minted && s.minted[0] == C.EMPTY && 0 !in s.live
  }

  /** What a connection's own persist needs of its request. */
  ghost predicate MayWrite(s: C.Sys, conn: nat) {
    conn in s.minted && (conn == 0 || conn in s.live)
  }

  lemma MintedLive(db: S.Db, db': S.Db, owner: S.Owner, prev: nat, state: S.State, now: int,
                   required: map<nat, seq<Entry>>, rows: map<string, S.ConfigRow>)
    requires S.Integrity(db) && S.MayMint(db, owner, prev) && S.Integrity(db')
    requires S.Minted(db, db', owner, prev, state, now, required, rows)
    ensures Live(db', owner) == (if prev == 0 then {} else Live(db, owner)) + {db.nextPos}
  {
    hide S.RequiredIntegrity, S.RowsFor, S.Grows;
    if prev == 0 {
      FreshLive(db, db', owner, state, now, required, rows);
    } else {
      assert db.conns[S.MintConn(db, prev)].owner == owner;
      forall p
        ensures p in Live(db', owner) <==> p == db.nextPos || p in Live(db, owner)
      {
      }
    }
  }

  /** A fresh connection leaves its owner one position. */
  lemma FreshLive(db: S.Db, db': S.Db, owner: S.Owner, state: S.State, now: int,
                  required: map<nat, seq<Entry>>, rows: map<string, S.ConfigRow>)
    requires S.Integrity(db) && S.Integrity(db') && S.Minted(db, db', owner, 0, state, now, required, rows)
    ensures Live(db', owner) == {db.nextPos}
  {
    hide S.RequiredIntegrity, S.RowsFor, S.Grows;
    var base := S.MintBase(db, owner, 0, now);
    assert 0 !in db.positions;
    forall p | p in base.positions
      ensures !S.Owns(db', owner, p) || p == db.nextPos
    {
    }
    assert S.Owns(db', owner, db.nextPos);
  }

  lemma LoadedReads(db: S.Db, owner: S.Owner, s: C.Sys, conn: nat)
    requires Represents(db, owner, s) && Rooted(s) && MayWrite(s, conn)
    ensures S.MayMint(db, owner, conn)
    ensures Reads(S.BeforeMint(db, conn), s.minted[conn]) && S.NoneEmpty(S.BeforeMint(db, conn).configs)
  {
    hide S.RequiredIntegrity, S.StatusesOf, S.StoredConfigs;
    if conn == 0 {
      NothingReads();
    } else {
      assert conn in Live(db, owner);
      S.LoadedNoneEmpty(db, conn);
    }
  }

  lemma NothingReads()
    ensures Reads(S.NO_STATE, C.EMPTY) && S.NoneEmpty(S.NO_STATE.configs)
  {
    assert S.StatusesOf(map[], S.Rooms) == map[];
    assert S.StoredConfigs(map[]) == map[];
  }

  /** The store's persist of what a response recorded is the protocol's mint. */
  lemma MintRefines(db: S.Db, db': S.Db, owner: S.Owner, s: C.Sys, t: C.Sys, req: C.Request, turn: C.Turn, now: int,
                    ch: S.Changes, required: map<nat, seq<Entry>>, rows: map<string, S.ConfigRow>)
    requires Represents(db, owner, s) && Rooted(s) && MayWrite(s, req.conn)
    requires Writes(S.BeforeMint(db, req.conn), ch, s.minted[req.conn], turn, req.from)
    requires S.Minted(db, db', owner, req.conn, S.Flattened(S.BeforeMint(db, req.conn), ch), now, required, rows)
    requires t.minted == s.minted[db.nextPos := C.NextConn(s.minted[req.conn], turn.served, C.Missing(turn), req.from)]
    requires t.live == (if req.conn == 0 then {} else s.live) + {db.nextPos}
    ensures Represents(db', owner, t)
  {
    hide S.Minted, S.Snap, S.RequiredIntegrity, Reads, S.Flattened, S.BeforeMint, Writes, C.NextConn, Live, C.Missing;
    NewReads(db, db', owner, s, req, turn, now, ch, required, rows);
    MintKeepsTables(db, db', owner, req.conn, S.Flattened(S.BeforeMint(db, req.conn), ch), now, required, rows);
    forall p | p in t.live
      ensures p in t.minted && p in db'.positions && Reads(S.Snap(db', p), t.minted[p])
    {
    }
  }

  /** The new position reads as what the protocol mints. */
  lemma NewReads(db: S.Db, db': S.Db, owner: S.Owner, s: C.Sys, req: C.Request, turn: C.Turn, now: int,
                 ch: S.Changes, required: map<nat, seq<Entry>>, rows: map<string, S.ConfigRow>)
    requires Represents(db, owner, s) && Rooted(s) && MayWrite(s, req.conn)
    requires Writes(S.BeforeMint(db, req.conn), ch, s.minted[req.conn], turn, req.from)
    requires S.Minted(db, db', owner, req.conn, S.Flattened(S.BeforeMint(db, req.conn), ch), now, required, rows)
    ensures S.MayMint(db, owner, req.conn)
    ensures db.nextPos in db'.positions && db'.positions[db.nextPos].conn in db'.conns
    ensures Reads(S.Snap(db', db.nextPos), C.NextConn(s.minted[req.conn], turn.served, C.Missing(turn), req.from))
  {
    hide S.Minted, S.Snap, S.RequiredIntegrity, Reads, S.Flattened, S.Overlay, Writes, C.NextConn, AllRead, S.NoneEmpty;
    var before := S.BeforeMint(db, req.conn);
    LoadedReads(db, owner, s, req.conn);
    WrittenReads(before, ch, s.minted[req.conn], turn, req.from);
    S.MintSnapshot(db, db', owner, req.conn, S.Flattened(before, ch), now, required, rows);
  }

  /** And the tables otherwise change as the protocol's positions do. */
  lemma MintKeepsTables(db: S.Db, db': S.Db, owner: S.Owner, prev: nat, state: S.State, now: int,
                        required: map<nat, seq<Entry>>, rows: map<string, S.ConfigRow>)
    requires S.Integrity(db) && S.MayMint(db, owner, prev)
    requires S.Minted(db, db', owner, prev, state, now, required, rows)
    ensures S.Integrity(db') && db'.nextPos == db.nextPos + 1
    ensures Live(db', owner) == (if prev == 0 then {} else Live(db, owner)) + {db.nextPos}
    ensures forall p :: prev != 0 && p in db.positions ==> p in db'.positions && S.Snap(db', p) == S.Snap(db, p)
  {
    S.MintIntegrity(db, db', owner, prev, state, now, required, rows);
    MintedLive(db, db', owner, prev, state, now, required, rows);
    assert db'.nextPos == db.nextPos + 1;
    hide S.Minted, S.Snap, S.RequiredIntegrity, Live;
    forall p | prev != 0 && p in db.positions
      ensures p in db'.positions && S.Snap(db', p) == S.Snap(db, p)
    {
      MintedStill(db, db', owner, prev, state, now, required, rows, p);
    }
  }

  lemma MintedStill(db: S.Db, db': S.Db, owner: S.Owner, prev: nat, state: S.State, now: int,
                    required: map<nat, seq<Entry>>, rows: map<string, S.ConfigRow>, p: nat)
    requires S.Integrity(db) && S.Integrity(db') && S.MayMint(db, owner, prev) && prev != 0 && p in db.positions
    requires S.Minted(db, db', owner, prev, state, now, required, rows)
    ensures p in db'.positions && S.Snap(db', p) == S.Snap(db, p)
  {
    assert p in db'.positions;
    S.MintOthers(db, db', owner, prev, state, now, required, rows, p);
  }

  /** Reaping takes an owner's positions all together or not at all. */
  lemma ReapedLive(db: S.Db, owner: S.Owner, gone: set<nat>)
    requires S.Integrity(db)
    ensures Live(S.Without(db, gone), owner) == {} || Live(S.Without(db, gone), owner) == Live(db, owner)
  {
    hide S.RequiredIntegrity;
    var db' := S.Without(db, gone);
    if p :| p in Live(db', owner) {
      forall q | q in Live(db, owner)
        ensures q in Live(db', owner)
      {
        assert db.positions[q].conn == db.positions[p].conn;
      }
    }
  }

  lemma ReapRefines(db: S.Db, owner: S.Owner, s: C.Sys, now: int)
    requires Represents(db, owner, s)
    ensures var db' := S.Without(db, S.Expired(db, now));
            Represents(db', owner, if Live(db', owner) == {} then s.(live := {}) else s)
  {
    var db' := S.Without(db, S.Expired(db, now));
    ReapedLive(db, owner, S.Expired(db, now));
    S.StepIntegrity(db, S.DeleteOld(now), db');
    hide S.Snap, S.RequiredIntegrity, Reads, S.Expired;
    forall p | p in Live(db', owner)
      ensures p in db'.positions && S.Snap(db', p) == S.Snap(db, p)
    {
      S.WithoutSnapshot(db, S.Expired(db, now), p);
    }
  }

  /** Somebody else's transaction. */
  predicate ByOther(op: S.Op, owner: S.Owner) {
    !op.DeleteOld? && op.owner != owner
  }

  lemma OthersLive(db: S.Db, op: S.Op, db': S.Db, owner: S.Owner)
    requires S.Integrity(db) && S.Next(db, op, db') && ByOther(op, owner) && S.Integrity(db')
    ensures Live(db', owner) == Live(db, owner) && db.nextPos <= db'.nextPos
  {
    match op
    case Ack(other, pos, now) =>
      hide S.RequiredIntegrity;
      if S.Owns(db, other, pos) {
        AckedOthersLive(db, owner, pos, now);
      }
    case Mint(other, prev, state, now) =>
      if state.hasUpdates && S.MayMint(db, other, prev) {
        hide S.Minted;
        var required, rows :| S.Minted(db, db', other, prev, state, now, required, rows);
        MintedOthersLive(db, db', owner, other, prev, state, now, required, rows);
      }
  }

  lemma AckedOthersLive(db: S.Db, owner: S.Owner, pos: nat, now: int)
    requires S.Integrity(db) && pos in db.positions && !S.Owns(db, owner, pos)
    ensures Live(S.Acked(db, pos, now), owner) == Live(db, owner)
  {
    hide S.RequiredIntegrity, S.Used;
    var db' := S.Acked(db, pos, now);
    forall p
      ensures p in Live(db', owner) <==> p in Live(db, owner)
    {
    }
  }

  lemma MintedOthersLive(db: S.Db, db': S.Db, owner: S.Owner, other: S.Owner, prev: nat, state: S.State, now: int,
                         required: map<nat, seq<Entry>>, rows: map<string, S.ConfigRow>)
    requires S.Integrity(db) && S.MayMint(db, other, prev) && other != owner
    requires S.Minted(db, db', other, prev, state, now, required, rows)
    ensures Live(db', owner) == Live(db, owner) && db'.nextPos == db.nextPos + 1
  {
    hide S.RequiredIntegrity, S.RowsFor, S.Grows;
    var base, key := S.MintBase(db, other, prev, now), S.MintConn(db, prev);
    BaseOthersLive(db, owner, other, prev, now);
    assert base.conns[key].owner == other && db.nextPos !in db.positions;
    hide S.MintBase, S.MintConn;
    forall p
      ensures p in Live(db', owner) <==> p in Live(base, owner)
    {
    }
  }

  lemma BaseOthersLive(db: S.Db, owner: S.Owner, other: S.Owner, prev: nat, now: int)
    requires S.Integrity(db) && other != owner
    ensures Live(S.MintBase(db, other, prev, now), owner) == Live(db, owner)
  {
    hide S.RequiredIntegrity;
    var base := S.MintBase(db, other, prev, now);
    forall p
      ensures p in Live(base, owner) <==> p in Live(db, owner)
    {
    }
  }

  lemma OthersRefine(db: S.Db, op: S.Op, db': S.Db, owner: S.Owner, s: C.Sys)
    requires Represents(db, owner, s) && S.Next(db, op, db') && ByOther(op, owner)
    ensures Represents(db', owner, s)
  {
    hide S.Snap, S.RequiredIntegrity, Reads, S.Next, Live, ByOther;
    S.StepIntegrity(db, op, db');
    OthersLive(db, op, db', owner);
    forall p | p in s.live
      ensures p in db'.positions && S.Snap(db', p) == S.Snap(db, p)
    {
      LiveIsThere(db', owner, p);
      S.StepSnapshot(db, op, db', p);
    }
  }

  lemma LiveIsThere(db: S.Db, owner: S.Owner, p: nat)
    requires p in Live(db, owner)
    ensures p in db.positions
  {
  }

  // ---------------------------------------------------------------- joint runs

  /** One owner's protocol step with its transaction, somebody else's transaction, or the reaper. */
  datatype Event = Own(step: C.Step, now: int, changes: S.Changes) | Other(op: S.Op) | Reaped(now: int)

  /** The response has something to record, and its position is still there. */
  ghost predicate Mints(s: C.Sys, req: C.Request, turn: C.Turn) {
    && MayWrite(s, req.conn) && turn.asks
    && (C.Changes(s.minted[req.conn], turn.served, C.Missing(turn), req.from) || turn.otherUpdates)
  }

  ghost predicate Persists(db: S.Db, db': S.Db, owner: S.Owner, s: C.Sys, req: C.Request, turn: C.Turn, now: int, ch: S.Changes) {
    && S.Integrity(db) && MayWrite(s, req.conn)
    && Writes(S.BeforeMint(db, req.conn), ch, s.minted[req.conn], turn, req.from)
    && exists required, rows ::
         S.Minted(db, db', owner, req.conn, S.Flattened(S.BeforeMint(db, req.conn), ch), now, required, rows)
  }

  /** What a protocol step does to the tables. */
  ghost predicate Transacts(db: S.Db, db': S.Db, owner: S.Owner, s: C.Sys, step: C.Step, now: int, ch: S.Changes) {
    match step
    case Begin(req) => if req.conn == 0 then db' == db else S.Owns(db, owner, req.conn) && db' == S.Acked(db, req.conn, now)
    case Respond(req, turn, mint) =>
      if Mints(s, req, turn) then mint == db.nextPos && Persists(db, db', owner, s, req, turn, now, ch) else db' == db
    case Commit(_) => db' == db
    case Abandon(_) => db' == db
    case Reap => false
  }

  ghost predicate Joint(db: S.Db, s: C.Sys, owner: S.Owner, e: Event, db': S.Db, s': C.Sys) {
    match e
    case Own(step, now, ch) =>
      && C.Enabled(s, step) && s.told.Keys == s.minted.Keys && s' == C.Apply(s, step)
      && Transacts(db, db', owner, s, step, now, ch)
    case Other(op) => ByOther(op, owner) && S.Next(db, op, db') && s' == s
    case Reaped(now) =>
      db' == S.Without(db, S.Expired(db, now)) && s' == if Live(db', owner) == {} then s.(live := {}) else s
  }

  lemma RespondRefines(db: S.Db, db': S.Db, owner: S.Owner, s: C.Sys, req: C.Request, turn: C.Turn, mint: nat, now: int, ch: S.Changes)
    requires Represents(db, owner, s) && C.WellFormed(s) && C.Enabled(s, C.Respond(req, turn, mint))
    requires Transacts(db, db', owner, s, C.Respond(req, turn, mint), now, ch)
    ensures Represents(db', owner, C.Answer(s, req, turn, mint))
  {
    hide S.Minted, S.Flattened, S.BeforeMint, Writes, Represents, C.NextConn, C.Missing, C.Told, C.Answer, Mints, S.Integrity;
    var t := C.Answer(s, req, turn, mint);
    assert Rooted(s);
    if Mints(s, req, turn) {
      var required, rows :|
        S.Minted(db, db', owner, req.conn, S.Flattened(S.BeforeMint(db, req.conn), ch), now, required, rows);
      AnswerMints(s, req, turn, mint);
      MintRefines(db, db', owner, s, t, req, turn, now, ch, required, rows);
    } else {
      AnswerIsQuiet(s, req, turn, mint);
      SameTables(db, owner, s, t);
    }
  }

  lemma AnswerMints(s: C.Sys, req: C.Request, turn: C.Turn, mint: nat)
    requires req.conn in s.minted && req.conn in s.told && Mints(s, req, turn)
    ensures var t := C.Answer(s, req, turn, mint);
            && t.minted == s.minted[mint := C.NextConn(s.minted[req.conn], turn.served, C.Missing(turn), req.from)]
            && t.live == (if req.conn == 0 then {} else s.live) + {mint}
  {
    hide C.NextConn, C.Told, C.Missing, C.Changes;
  }

  lemma AnswerIsQuiet(s: C.Sys, req: C.Request, turn: C.Turn, mint: nat)
    requires req.conn in s.minted && req.conn in s.told && !Mints(s, req, turn)
    ensures C.Answer(s, req, turn, mint).minted == s.minted && C.Answer(s, req, turn, mint).live == s.live
  {
    hide C.NextConn, C.Told, C.Missing, C.Changes;
  }

  lemma SameTables(db: S.Db, owner: S.Owner, s: C.Sys, t: C.Sys)
    requires Represents(db, owner, s) && t.minted == s.minted && t.live == s.live
    ensures Represents(db, owner, t)
  {
    hide S.Snap, Reads, Live, S.Integrity;
  }

  lemma JointRefines(db: S.Db, s: C.Sys, owner: S.Owner, e: Event, db': S.Db, s': C.Sys)
    requires Represents(db, owner, s) && C.WellFormed(s) && Joint(db, s, owner, e, db', s')
    ensures Represents(db', owner, s')
  {
    match e
    case Own(step, now, ch) =>
      match step {
        case Begin(req) =>
          if req.conn != 0 {
            assert req.conn in Live(db, owner);
            BeginRefines(db, owner, s, req, now);
          }
        case Respond(req, turn, mint) =>
          hide Represents, Transacts, C.WellFormed;
          RespondRefines(db, db', owner, s, req, turn, mint, now, ch);
        case Commit(_) =>
        case Abandon(_) =>
        case Reap =>
      }
    case Other(op) => OthersRefine(db, op, db', owner, s);
    case Reaped(now) => ReapRefines(db, owner, s, now);
  }

  /** The tables and one owner's protocol, side by side: from empty tables of that owner, whatever
      anybody else does. */
  ghost predicate IsRun(dbs: seq<S.Db>, states: seq<C.Sys>, events: seq<Event>, owner: S.Owner) {
    && |dbs| == |states| == |events| + 1
    && S.Integrity(dbs[0]) && Live(dbs[0], owner) == {} && C.Init(states[0])
    && forall i :: 0 <= i < |events| ==> Joint(dbs[i], states[i], owner, events[i], dbs[i + 1], states[i + 1])
  }

  /** The room stays among the rooms of the owner's requests. */
  ghost predicate Stays(e: Event, room: string) {
    e.Own? ==> C.Stays(e.step, room)
  }

  lemma JointKeeps(db: S.Db, s: C.Sys, owner: S.Owner, e: Event, db': S.Db, s': C.Sys, room: string)
    requires C.Inv(s, room) && Joint(db, s, owner, e, db', s') && Stays(e, room)
    ensures C.Inv(s', room)
  {
    hide C.Inv, Transacts, S.Next, Live;
    match e
    case Own(step, now, ch) => C.StepKeeps(s, step, room);
    case Other(op) =>
    case Reaped(now) =>
      assert s.told.Keys == s.minted.Keys by {
        InvKeys(s, room);
      }
      C.StepKeeps(s, C.Reap, room);
  }

  lemma InvKeys(s: C.Sys, room: string)
    requires C.Inv(s, room)
    ensures s.told.Keys == s.minted.Keys && C.WellFormed(s)
  {
  }

  lemma StartRefines(db: S.Db, s: C.Sys, owner: S.Owner)
    requires S.Integrity(db) && Live(db, owner) == {} && C.Init(s)
    ensures Represents(db, owner, s)
  {
    hide S.RequiredIntegrity, S.Snap;
  }

  lemma {:induction false} RunRefines(dbs: seq<S.Db>, states: seq<C.Sys>, events: seq<Event>, owner: S.Owner, room: string, i: nat)
    requires IsRun(dbs, states, events, owner) && i < |dbs| && forall j :: 0 <= j < i ==> Stays(events[j], room)
    ensures Represents(dbs[i], owner, states[i]) && C.Inv(states[i], room)
  {
    hide Joint, Represents, C.Inv, C.Init, Live, S.Integrity, Stays;
    if i == 0 {
      StartRefines(dbs[0], states[0], owner);
      C.InitInv(states[0], room);
    } else {
      RunRefines(dbs, states, events, owner, room, i - 1);
      InvKeys(states[i - 1], room);
      JointRefines(dbs[i - 1], states[i - 1], owner, events[i - 1], dbs[i], states[i]);
      JointKeeps(dbs[i - 1], states[i - 1], owner, events[i - 1], dbs[i], states[i], room);
    }
  }

  /** The status the tables hold for a room at a position. */
  ghost function TableStatus(db: S.Db, p: nat, room: string): HaveSent
    requires p in db.positions && db.positions[p].conn in db.conns
  {
    StatusOf(S.StatusesOf(S.Snap(db, p).streams, S.Rooms), room)
  }

  /** The tables are honest: in every run of one owner among all the others, for a room that stays
      requested, if the row at a position says live, everything up to the token it was issued with
      was described on its branch; if it says previously, everything up to its own token. */
  lemma TablesAreHonest(dbs: seq<S.Db>, states: seq<C.Sys>, events: seq<Event>, owner: S.Owner, room: string, i: nat, p: nat, token: int)
    requires IsRun(dbs, states, events, owner) && i < |dbs| && forall j :: 0 <= j < i ==> Stays(events[j], room)
    requires S.Owns(dbs[i], owner, p) && C.Pos(p, token) in states[i].issued
    ensures p in states[i].told
    ensures match TableStatus(dbs[i], p, room)
            case Live => C.CoveredTo(states[i], p, token, room)
            case Previously(t) => C.CoveredTo(states[i], p, t, room)
            case Never => true
  {
    RunRefines(dbs, states, events, owner, room, i);
    hide IsRun, S.Integrity, S.StatusesOf, C.CoveredTo, S.Snap;
    assert p in states[i].live;
    assert C.Honest(states[i], p, token, room);
  }

  /** And no answer starts above an event its branch has not described, with the lower bound taken
      from the tables. */
  lemma NoEventSkipped(dbs: seq<S.Db>, states: seq<C.Sys>, events: seq<Event>, owner: S.Owner, room: string, i: nat, e: C.Event)
    requires IsRun(dbs, states, events, owner) && i < |events| && forall j :: 0 <= j < i ==> Stays(events[j], room)
    requires events[i].Own? && events[i].step.Respond? && S.Owns(dbs[i], owner, events[i].step.req.conn)
    requires e in states[i].events && e.room == room
    ensures var req, turn := events[i].step.req, events[i].step.turn;
            var bound := C.LowerBound(TableStatus(dbs[i], req.conn, room), req.from, room in turn.scratch);
            req.conn in states[i].told && (bound.Some? && !C.Described(states[i].told[req.conn], e) ==> bound.value < e.pos)
  {
    RunRefines(dbs, states, events, owner, room, i);
    OpenNow(dbs[i], states[i], owner, events[i], dbs[i + 1], states[i + 1]);
    hide IsRun, S.Integrity, S.StatusesOf, S.Snap, Stays, C.Inv, C.LowerBound, C.Described;
    var s, req := states[i], events[i].step.req;
    assert req.conn in s.live && Reads(S.Snap(dbs[i], req.conn), s.minted[req.conn]);
    BoundHonest(s, req, room, room in events[i].step.turn.scratch, e);
  }

  lemma OpenNow(db: S.Db, s: C.Sys, owner: S.Owner, e: Event, db': S.Db, s': C.Sys)
    requires Joint(db, s, owner, e, db', s') && e.Own? && e.step.Respond?
    ensures e.step.req in s.open && e.step.req.conn in s.minted
  {
  }

  lemma BoundHonest(s: C.Sys, req: C.Request, room: string, scratch: bool, e: C.Event)
    requires C.Inv(s, room) && req in s.open && req.conn in s.minted && e in s.events && e.room == room
    ensures var bound := C.LowerBound(StatusOf(s.minted[req.conn].rooms, room), req.from, scratch);
            req.conn in s.told && (bound.Some? && !C.Described(s.told[req.conn], e) ==> bound.value < e.pos)
  {
    hide C.Described;
    if req.from.Some? {
      assert C.Honest(s, req.conn, req.from.value, room);
    }
  }
}
