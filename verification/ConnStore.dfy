/** The connection store: forkable, prunable positions, each a complete snapshot of what a
    sliding sync connection has been told.

    Each transaction is one step. Rows that hang off a position or a connection are grouped under
    it, so deleting it deletes them. */
module ConnStore {
  import opened Common
  import opened StringOrder
  import opened RoomConfig
  import opened RoomStatus

  datatype Result<+T> = Ok(value: T) | UnknownPosition

  /** Who a connection belongs to. */
  datatype Owner = Owner(user: string, device: string, connId: string)

  datatype Stream = Rooms | Receipts | AccountData

  datatype StreamRoom = StreamRoom(stream: Stream, room: string)

  datatype ConfigRow = ConfigRow(timelineLimit: int, requiredId: nat)

  datatype PosRow = PosRow(conn: nat, streams: map<StreamRoom, HaveSent>, configs: map<string, ConfigRow>)

  datatype ConnRow = ConnRow(owner: Owner, lastUsed: Option<int>, required: map<nat, seq<Entry>>)

  /** The tables and their sequences. */
  datatype Db = Db(conns: map<nat, ConnRow>, positions: map<nat, PosRow>, nextConn: nat, nextPos: nat, nextRequired: nat)

  const UPDATE_LAST_USED_INTERVAL := 5 * 60 * 1000
  const CONNECTION_EXPIRY := 7 * 24 * 60 * 60 * 1000

  /** What a position stands for once loaded. */
  datatype Snapshot = Snapshot(streams: map<StreamRoom, HaveSent>, configs: map<string, RoomSyncConfig>)

  const NO_STATE := Snapshot(map[], map[])

  /** What a request asks to be recorded, flattened. */
  datatype State = State(streams: map<StreamRoom, HaveSent>, configs: map<string, RoomSyncConfig>, hasUpdates: bool)

  // ------------------------------------------------------------- reading rows

  ghost function TypesIn(encoded: seq<Entry>): set<string> {
    set e | e in encoded :: e.typ
  }

  ghost function KeysIn(encoded: seq<Entry>, t: string): set<string> {
    set e | e in encoded && e.typ == t :: e.key
  }

  ghost function Decoded(encoded: seq<Entry>): StateMap {
    map t | t in TypesIn(encoded) :: KeysIn(encoded, t)
  }

  lemma DecodedEntries(encoded: seq<Entry>)
    ensures NoEmpty(Decoded(encoded))
    ensures forall e :: HasEntry(Decoded(encoded), e) <==> e in encoded
  {
    forall t | t in Decoded(encoded)
      ensures Decoded(encoded)[t] != {}
    {
      var e :| e in encoded && e.typ == t;
      assert e.key in Decoded(encoded)[t];
    }
    forall e
      ensures HasEntry(Decoded(encoded), e) <==> e in encoded
    {
      if HasEntry(Decoded(encoded), e) {
        var x :| x in encoded && x.typ == e.typ && x.key == e.key;
        assert x == e;
      }
    }
  }

  method Decode(encoded: seq<Entry>) returns (m: StateMap)
    ensures m == Decoded(encoded)
  {
    m := DecodeRequiredState(encoded);
    DecodedEntries(encoded);
    SameEntries(m, Decoded(encoded));
  }

  ghost function ConfigOf(c: ConnRow, row: ConfigRow): RoomSyncConfig {
    RoomSyncConfig(row.timelineLimit, if row.requiredId in c.required then Decoded(c.required[row.requiredId]) else map[])
  }

  ghost function Snap(db: Db, p: nat): Snapshot
    requires p in db.positions && db.positions[p].conn in db.conns
  {
    var row := db.positions[p];
    Snapshot(row.streams, map r | r in row.configs :: ConfigOf(db.conns[row.conn], row.configs[r]))
  }

  predicate Owns(db: Db, owner: Owner, p: nat) {
    p in db.positions && db.positions[p].conn in db.conns && db.conns[db.positions[p].conn].owner == owner
  }

  // ---------------------------------------------------------------- integrity

  ghost predicate RequiredIntegrity(c: ConnRow, bound: nat) {
    && (forall i :: i in c.required ==> i < bound)
    && (forall i, j :: i in c.required && j in c.required && c.required[i] == c.required[j] ==> i == j)
  }

  /** What every reachable database satisfies. */
  ghost predicate Integrity(db: Db) {
    && 0 < db.nextPos
    && (forall c :: c in db.conns ==> c < db.nextConn && RequiredIntegrity(db.conns[c], db.nextRequired))
    && (forall c, d :: c in db.conns && d in db.conns && db.conns[c].owner == db.conns[d].owner ==> c == d)
    && (forall p :: p in db.positions ==> 0 < p < db.nextPos && db.positions[p].conn in db.conns)
    && (forall p, r :: p in db.positions && r in db.positions[p].configs ==>
         db.positions[p].configs[r].requiredId in db.conns[db.positions[p].conn].required)
  }

  // -------------------------------------------------------------- acknowledging

  function Touched(c: ConnRow, now: int): ConnRow {
    if c.lastUsed.None? || now - c.lastUsed.value > UPDATE_LAST_USED_INTERVAL then c.(lastUsed := Some(now)) else c
  }

  ghost function Used(row: PosRow): set<nat> {
    set r | r in row.configs :: row.configs[r].requiredId
  }

  /** The required-state rows of a connection that are still pointed at. */
  ghost function Kept(c: ConnRow, used: set<nat>): ConnRow {
    c.(required := map i | i in c.required && i in used :: c.required[i])
  }

  /** A position alone on its connection, which has been used. */
  ghost function Pruned(db: Db, p: nat, now: int): Db
    requires p in db.positions && db.positions[p].conn in db.conns
  {
    var key := db.positions[p].conn;
    db.(positions := map q | q in db.positions && (q == p || db.positions[q].conn != key) :: db.positions[q],
        conns := db.conns[key := Touched(db.conns[key], now)])
  }

  ghost function DropUnused(db: Db, p: nat): Db
    requires p in db.positions && db.positions[p].conn in db.conns
  {
    var key := db.positions[p].conn;
    db.(conns := db.conns[key := Kept(db.conns[key], Used(db.positions[p]))])
  }

  /** Acknowledging a position: its siblings go, and so do the required-state rows only they used. */
  ghost function Acked(db: Db, p: nat, now: int): Db
    requires p in db.positions && db.positions[p].conn in db.conns
  {
    DropUnused(Pruned(db, p, now), p)
  }

  /** Acknowledging leaves every surviving position reading the same. */
  lemma AckSnapshot(db: Db, p: nat, now: int, q: nat)
    requires Integrity(db) && p in db.positions && q in Acked(db, p, now).positions
    ensures Acked(db, p, now).positions[q] == db.positions[q]
    ensures db.positions[q].conn in Acked(db, p, now).conns
    ensures Snap(Acked(db, p, now), q) == Snap(db, q)
  {
    hide ConfigOf, RequiredIntegrity;
    var db', row := Acked(db, p, now), db.positions[q];
    forall r | r in row.configs && q == p
      ensures row.configs[r].requiredId in Used(row)
    {
    }
    RowsUnmoved(db.conns[row.conn], db'.conns[row.conn], row.configs);
  }

  /** It keeps integrity, and leaves exactly the referenced required-state rows. */
  lemma AckIntegrity(db: Db, p: nat, now: int)
    requires Integrity(db) && p in db.positions
    ensures Integrity(Acked(db, p, now))
    ensures Acked(db, p, now).conns[db.positions[p].conn].required.Keys == Used(db.positions[p])
  {
    var db', key, row := Acked(db, p, now), db.positions[p].conn, db.positions[p];
    forall i
      ensures i in db'.conns[key].required <==> i in Used(row)
    {
    }
    forall r | r in row.configs
      ensures row.configs[r].requiredId in db'.conns[key].required
    {
      assert row.configs[r].requiredId in Used(row);
    }
  }

  // ------------------------------------------------------------------- minting

  /** Deleting a connection deletes its positions with it. */
  ghost function Without(db: Db, gone: set<nat>): Db {
    db.(conns := db.conns - gone,
        positions := map p | p in db.positions && db.positions[p].conn !in gone :: db.positions[p])
  }

  ghost function ConnsOf(db: Db, owner: Owner): set<nat> {
    set c | c in db.conns && db.conns[c].owner == owner
  }

  /** The tables a mint starts from: a fresh connection replaces any old one of its owner. */
  ghost function MintBase(db: Db, owner: Owner, prev: nat, now: int): Db {
    if prev != 0 then db
    else var d := Without(db, ConnsOf(db, owner));
         d.(conns := d.conns[db.nextConn := ConnRow(owner, Some(now), map[])], nextConn := db.nextConn + 1)
  }

  ghost function MintConn(db: Db, prev: nat): nat {
    if prev in db.positions then db.positions[prev].conn else db.nextConn
  }

  ghost function PrevRow(db: Db, prev: nat): PosRow {
    if prev in db.positions then db.positions[prev] else PosRow(db.nextConn, map[], map[])
  }

  /** New required-state rows are added, none is changed, and no encoding appears twice. */
  ghost predicate Grows(a: map<nat, seq<Entry>>, b: map<nat, seq<Entry>>, lo: nat, hi: nat) {
    && (forall i :: i in a ==> i in b && b[i] == a[i])
    && (forall i :: i in b && i !in a ==> lo <= i < hi)
    && (forall i, j :: i in b && j in b && b[i] == b[j] ==> i == j)
  }

  /** One room's config row stands for the config it was written from. */
  ghost predicate RowFor(required: map<nat, seq<Entry>>, row: ConfigRow, cfg: RoomSyncConfig) {
    && row.timelineLimit == cfg.timelineLimit
    && row.requiredId in required && IsEncoding(cfg.requiredState, required[row.requiredId])
  }

  ghost predicate RowsFor(required: map<nat, seq<Entry>>, rows: map<string, ConfigRow>, configs: map<string, RoomSyncConfig>) {
    rows.Keys == configs.Keys && forall r :: r in configs ==> RowFor(required, rows[r], configs[r])
  }

  /** A persist that lays a state's rows over `copied` and writes that as the new position. */
  ghost predicate MintedOver(db: Db, db': Db, owner: Owner, prev: nat, copied: PosRow, state: State, now: int,
                             required: map<nat, seq<Entry>>, rows: map<string, ConfigRow>) {
    var base, key := MintBase(db, owner, prev, now), MintConn(db, prev);
    && key in base.conns && base.nextRequired <= db'.nextRequired
    && Grows(base.conns[key].required, required, base.nextRequired, db'.nextRequired)
    && RowsFor(required, rows, state.configs)
    && db'.conns == base.conns[key := base.conns[key].(required := required)]
    && db'.positions == base.positions[db.nextPos := PosRow(key, copied.streams + state.streams, copied.configs + rows)]
    && db'.nextPos == db.nextPos + 1 && db'.nextConn == base.nextConn
  }

  /** A successful persist: copy the previous position forward, lay the new rows on top. */
  ghost predicate Minted(db: Db, db': Db, owner: Owner, prev: nat, state: State, now: int, required: map<nat, seq<Entry>>, rows: map<string, ConfigRow>) {
    MintedOver(db, db', owner, prev, PrevRow(db, prev), state, now, required, rows)
  }

  /** The config as it reads back: types without keys are not stored. */
  ghost function StoredConfig(cfg: RoomSyncConfig): RoomSyncConfig {
    RoomSyncConfig(cfg.timelineLimit, map t | t in cfg.requiredState && cfg.requiredState[t] != {} :: cfg.requiredState[t])
  }

  ghost function StoredConfigs(configs: map<string, RoomSyncConfig>): map<string, RoomSyncConfig> {
    map r | r in configs :: StoredConfig(configs[r])
  }

  /** The previous snapshot overlaid with the state a position was minted with. */
  ghost function Overlay(before: Snapshot, state: State): Snapshot {
    Snapshot(before.streams + state.streams, before.configs + StoredConfigs(state.configs))
  }

  lemma ReadsBack(cfg: RoomSyncConfig, encoded: seq<Entry>)
    requires IsEncoding(cfg.requiredState, encoded)
    ensures Decoded(encoded) == StoredConfig(cfg).requiredState
  {
    DecodedEntries(encoded);
    SameEntries(Decoded(encoded), StoredConfig(cfg).requiredState);
  }

  ghost function BeforeMint(db: Db, prev: nat): Snapshot
    requires Integrity(db)
  {
    if prev in db.positions then Snap(db, prev) else NO_STATE
  }

  /** A persist may proceed: from nothing, or from a position of the owner's own. */
  predicate MayMint(db: Db, owner: Owner, prev: nat) {
    prev == 0 || Owns(db, owner, prev)
  }

  lemma BaseIntegrity(db: Db, owner: Owner, prev: nat, now: int)
    requires Integrity(db) && MayMint(db, owner, prev)
    ensures Integrity(MintBase(db, owner, prev, now))
    ensures MintConn(db, prev) in MintBase(db, owner, prev, now).conns
  {
  }

  /** Adding required-state rows to one connection and one position on top keeps integrity. */
  lemma LaidIntegrity(base: Db, db': Db, key: nat, required: map<nat, seq<Entry>>, row: PosRow)
    requires Integrity(base) && key in base.conns && row.conn == key && base.nextRequired <= db'.nextRequired
    requires Grows(base.conns[key].required, required, base.nextRequired, db'.nextRequired)
    requires db'.conns == base.conns[key := base.conns[key].(required := required)]
    requires db'.positions == base.positions[base.nextPos := row]
    requires db'.nextPos == base.nextPos + 1 && db'.nextConn == base.nextConn
    requires forall r :: r in row.configs ==> row.configs[r].requiredId in required
    ensures Integrity(db')
  {
    forall c | c in db'.conns
      ensures c < db'.nextConn && RequiredIntegrity(db'.conns[c], db'.nextRequired)
    {
      assert RequiredIntegrity(base.conns[c], base.nextRequired);
    }
  }

  lemma RowsIn(required: map<nat, seq<Entry>>, before: PosRow, rows: map<string, ConfigRow>, configs: map<string, RoomSyncConfig>)
    requires RowsFor(required, rows, configs)
    requires forall r :: r in before.configs ==> before.configs[r].requiredId in required
    ensures forall r :: r in before.configs + rows ==> (before.configs + rows)[r].requiredId in required
  {
    forall r | r in rows
      ensures rows[r].requiredId in required
    {
      assert RowFor(required, rows[r], configs[r]);
    }
  }

  lemma MintIntegrity(db: Db, db': Db, owner: Owner, prev: nat, state: State, now: int,
                      required: map<nat, seq<Entry>>, rows: map<string, ConfigRow>)
    requires Integrity(db) && MayMint(db, owner, prev)
    requires Minted(db, db', owner, prev, state, now, required, rows)
    ensures Integrity(db')
  {
    hide RowsFor, RequiredIntegrity;
    BaseIntegrity(db, owner, prev, now);
    RowsIn(required, PrevRow(db, prev), rows, state.configs);
    var base, key, row := MintBase(db, owner, prev, now), MintConn(db, prev), PrevRow(db, prev);
    LaidIntegrity(base, db', key, required, PosRow(key, row.streams + state.streams, row.configs + rows));
  }

  /** Config rows laid over the previous ones read as the recorded configs laid over the previous
      configs. */
  lemma RowsReadBack(c: ConnRow, before: map<string, ConfigRow>, rows: map<string, ConfigRow>, configs: map<string, RoomSyncConfig>)
    requires RowsFor(c.required, rows, configs)
    ensures (map r | r in before + rows :: ConfigOf(c, (before + rows)[r]))
         == (map r | r in before :: ConfigOf(c, before[r])) + StoredConfigs(configs)
  {
    hide StoredConfig, Decoded;
    forall r | r in configs
      ensures ConfigOf(c, rows[r]) == StoredConfig(configs[r])
    {
      assert RowFor(c.required, rows[r], configs[r]);
      RowReadsBack(c, rows[r], configs[r]);
    }
  }

  lemma RowReadsBack(c: ConnRow, row: ConfigRow, cfg: RoomSyncConfig)
    requires RowFor(c.required, row, cfg)
    ensures ConfigOf(c, row) == StoredConfig(cfg)
  {
    ReadsBack(cfg, c.required[row.requiredId]);
  }

  /** Config rows keep reading the same while their required-state rows stay. */
  lemma RowsUnmoved(c: ConnRow, d: ConnRow, rows: map<string, ConfigRow>)
    requires forall r :: r in rows ==> rows[r].requiredId in c.required && rows[r].requiredId in d.required
    requires forall r :: r in rows ==> d.required[rows[r].requiredId] == c.required[rows[r].requiredId]
    ensures (map r | r in rows :: ConfigOf(d, rows[r])) == (map r | r in rows :: ConfigOf(c, rows[r]))
  {
    hide Decoded;
  }

  /** The minted position reads as the previous snapshot overlaid with what was recorded. */
  lemma MintSnapshot(db: Db, db': Db, owner: Owner, prev: nat, state: State, now: int,
                     required: map<nat, seq<Entry>>, rows: map<string, ConfigRow>)
    requires Integrity(db) && MayMint(db, owner, prev)
    requires Minted(db, db', owner, prev, state, now, required, rows)
    ensures db.nextPos in db'.positions && db'.positions[db.nextPos].conn in db'.conns
    ensures Snap(db', db.nextPos) == Overlay(BeforeMint(db, prev), state)
    ensures db'.conns[db'.positions[db.nextPos].conn].owner == owner
  {
    hide RowsFor, ConfigOf, StoredConfig, RequiredIntegrity;
    var key, row := MintConn(db, prev), PrevRow(db, prev);
    RowsReadBack(db'.conns[key], row.configs, rows, state.configs);
    if prev in db.positions {
      RowsUnmoved(db.conns[key], db'.conns[key], row.configs);
    }
  }

  /** Minting leaves every other surviving position reading the same. */
  lemma MintOthers(db: Db, db': Db, owner: Owner, prev: nat, state: State, now: int,
                   required: map<nat, seq<Entry>>, rows: map<string, ConfigRow>, q: nat)
    requires Integrity(db) && MayMint(db, owner, prev)
    requires Minted(db, db', owner, prev, state, now, required, rows)
    requires q in db'.positions && q != db.nextPos
    ensures q in db.positions && db'.positions[q] == db.positions[q] && db.positions[q].conn in db'.conns
    ensures db'.conns[db.positions[q].conn].owner == db.conns[db.positions[q].conn].owner
    ensures Snap(db', q) == Snap(db, q)
  {
    hide RowsFor, ConfigOf, RequiredIntegrity;
    var row := db.positions[q];
    RowsUnmoved(db.conns[row.conn], db'.conns[row.conn], row.configs);
  }

  // ------------------------------------------------------------------- reaping

  ghost function Expired(db: Db, now: int): set<nat> {
    set c | c in db.conns && db.conns[c].lastUsed.Some? && db.conns[c].lastUsed.value < now - CONNECTION_EXPIRY
  }

  // ---------------------------------------------------------------- whole runs

  datatype Op =
    | Ack(owner: Owner, pos: nat, now: int)
    | Mint(owner: Owner, prev: nat, state: State, now: int)
    | DeleteOld(now: int)

  ghost predicate MintStep(db: Db, db': Db, owner: Owner, prev: nat, state: State, now: int) {
    exists required, rows :: Minted(db, db', owner, prev, state, now, required, rows)
  }

  ghost predicate Next(db: Db, op: Op, db': Db) {
    match op
    case Ack(owner, pos, now) => db' == if Owns(db, owner, pos) then Acked(db, pos, now) else db
    case Mint(owner, prev, state, now) =>
      if state.hasUpdates && MayMint(db, owner, prev) then MintStep(db, db', owner, prev, state, now) else db' == db
    case DeleteOld(now) => db' == Without(db, Expired(db, now))
  }

  /** The owner of a position. */
  ghost function OwnerOf(db: Db, p: nat): Owner
    requires p in db.positions && db.positions[p].conn in db.conns
  {
    db.conns[db.positions[p].conn].owner
  }

  lemma StepIntegrity(db: Db, op: Op, db': Db)
    requires Integrity(db) && Next(db, op, db')
    ensures Integrity(db') && db.nextPos <= db'.nextPos
  {
    match op
    case Ack(owner, pos, now) =>
      if Owns(db, owner, pos) {
        AckIntegrity(db, pos, now);
      }
    case Mint(owner, prev, state, now) =>
      if state.hasUpdates && MayMint(db, owner, prev) {
        var required, rows :| Minted(db, db', owner, prev, state, now, required, rows);
        MintIntegrity(db, db', owner, prev, state, now, required, rows);
      }
    case DeleteOld(now) =>
  }

  /** One step: a position that was there and still is reads the same, for the same owner; one
      that was not there is either new or gone for good. */
  lemma StepSnapshot(db: Db, op: Op, db': Db, q: nat)
    requires Integrity(db) && Next(db, op, db') && Integrity(db')
    requires q in db'.positions && q < db.nextPos
    ensures q in db.positions && Snap(db', q) == Snap(db, q) && OwnerOf(db', q) == OwnerOf(db, q)
  {
    hide Snap, Minted, RequiredIntegrity;
    match op
    case Ack(owner, pos, now) =>
      if Owns(db, owner, pos) {
        AckSnapshot(db, pos, now, q);
      }
    case Mint(owner, prev, state, now) =>
      if state.hasUpdates && MayMint(db, owner, prev) {
        var required, rows :| Minted(db, db', owner, prev, state, now, required, rows);
        MintOthers(db, db', owner, prev, state, now, required, rows, q);
      }
    case DeleteOld(now) =>
      WithoutSnapshot(db, Expired(db, now), q);
  }

  /** Deleting connections leaves the positions of the others reading the same. */
  lemma WithoutSnapshot(db: Db, gone: set<nat>, q: nat)
    requires Integrity(db) && q in Without(db, gone).positions
    ensures q in db.positions && db.positions[q].conn in Without(db, gone).conns
    ensures Snap(Without(db, gone), q) == Snap(db, q) && OwnerOf(Without(db, gone), q) == OwnerOf(db, q)
  {
    hide RequiredIntegrity, ConfigOf;
  }

  ghost predicate IsRun(dbs: seq<Db>, ops: seq<Op>) {
    && |dbs| == |ops| + 1 && Integrity(dbs[0])
    && forall i :: 0 <= i < |ops| ==> Next(dbs[i], ops[i], dbs[i + 1])
  }

  lemma {:induction false} RunIntegrity(dbs: seq<Db>, ops: seq<Op>, i: nat, j: nat)
    requires IsRun(dbs, ops) && i <= j < |dbs|
    ensures Integrity(dbs[i]) && Integrity(dbs[j]) && dbs[i].nextPos <= dbs[j].nextPos
    decreases j
  {
    if j > 0 {
      if i == j {
        RunIntegrity(dbs, ops, j - 1, j - 1);
      } else {
        RunIntegrity(dbs, ops, i, j - 1);
      }
      StepIntegrity(dbs[j - 1], ops[j - 1], dbs[j]);
    }
  }

  /** Positions are immutable snapshots: in every interleaving, a position live at two moments
      reads the same at both, for the same owner; and one that is gone never comes back. */
  lemma {:induction false} SnapshotsImmutable(dbs: seq<Db>, ops: seq<Op>, i: nat, j: nat, p: nat)
    requires IsRun(dbs, ops) && i <= j < |dbs|
    requires p in dbs[j].positions && p < dbs[i].nextPos
    ensures Integrity(dbs[i]) && Integrity(dbs[j])
    ensures p in dbs[i].positions
    ensures Snap(dbs[j], p) == Snap(dbs[i], p) && OwnerOf(dbs[j], p) == OwnerOf(dbs[i], p)
    decreases j
  {
    hide Snap, Next, RequiredIntegrity;
    RunIntegrity(dbs, ops, i, j);
    if i < j {
      RunIntegrity(dbs, ops, i, j - 1);
      StepSnapshot(dbs[j - 1], ops[j - 1], dbs[j], p);
      SnapshotsImmutable(dbs, ops, i, j - 1, p);
    }
  }

  /** Loading a position, at any later moment, gives the snapshot it was minted from overlaid
      with the state it was minted with, and only to the owner it was minted for. */
  lemma LoadedIsMinted(dbs: seq<Db>, ops: seq<Op>, i: nat, j: nat)
    requires IsRun(dbs, ops) && i < j < |dbs|
    requires ops[i].Mint? && ops[i].state.hasUpdates && MayMint(dbs[i], ops[i].owner, ops[i].prev)
    requires dbs[i].nextPos in dbs[j].positions
    ensures Integrity(dbs[i]) && Integrity(dbs[j])
    ensures Snap(dbs[j], dbs[i].nextPos) == Overlay(BeforeMint(dbs[i], ops[i].prev), ops[i].state)
    ensures forall owner :: Owns(dbs[j], owner, dbs[i].nextPos) <==> owner == ops[i].owner
  {
    hide Snap, Minted, RequiredIntegrity;
    RunIntegrity(dbs, ops, i, j);
    RunIntegrity(dbs, ops, i + 1, j);
    var op := ops[i];
    var required, rows :| Minted(dbs[i], dbs[i + 1], op.owner, op.prev, op.state, op.now, required, rows);
    MintSnapshot(dbs[i], dbs[i + 1], op.owner, op.prev, op.state, op.now, required, rows);
    SnapshotsImmutable(dbs, ops, i + 1, j, dbs[i].nextPos);
  }

  /** Once a position is acknowledged, every sibling is unknown for ever. */
  lemma SiblingsGone(dbs: seq<Db>, ops: seq<Op>, i: nat, j: nat, q: nat)
    requires IsRun(dbs, ops) && i < j < |dbs|
    requires ops[i].Ack? && Owns(dbs[i], ops[i].owner, ops[i].pos)
    requires q in dbs[i].positions && q != ops[i].pos && dbs[i].positions[q].conn == dbs[i].positions[ops[i].pos].conn
    ensures q !in dbs[j].positions
  {
    RunIntegrity(dbs, ops, i, j);
    RunIntegrity(dbs, ops, i, i + 1);
    if q in dbs[j].positions {
      SnapshotsImmutable(dbs, ops, i + 1, j, q);
    }
  }

  // -------------------------------------------------------- what is not reaped

  /** A step that does not end a position: no sibling is acknowledged, its owner does not start over,
      and reaping comes within the expiry of a use at `t`, less how stale the record of uses may be. */
  ghost predicate Spares(db: Db, op: Op, p: nat, t: int)
    requires p in db.positions && db.positions[p].conn in db.conns
  {
    match op
    case Ack(_, q, _) => q in db.positions && db.positions[q].conn == db.positions[p].conn ==> q == p
    case Mint(owner, prev, state, _) => state.hasUpdates && prev == 0 ==> owner != OwnerOf(db, p)
    case DeleteOld(now) => now <= t + CONNECTION_EXPIRY - UPDATE_LAST_USED_INTERVAL
  }

  /** The position is there, and its connection was used no longer ago than the record may be stale. */
  ghost predicate InUse(db: Db, owner: Owner, p: nat, t: int) {
    && Owns(db, owner, p)
    && var used := db.conns[db.positions[p].conn].lastUsed;
       used.Some? && used.value >= t - UPDATE_LAST_USED_INTERVAL
  }

  lemma MintSpares(db: Db, db': Db, minter: Owner, prev: nat, state: State, now: int, owner: Owner, p: nat, t: int)
    requires Integrity(db) && MintStep(db, db', minter, prev, state, now) && InUse(db, owner, p, t)
    requires prev == 0 ==> minter != owner
    ensures InUse(db', owner, p, t)
  {
    assert p < db.nextPos && forall c :: c in db.conns ==> c < db.nextConn;
    hide Integrity, Grows, RowsFor;
    var required, rows :| Minted(db, db', minter, prev, state, now, required, rows);
    var c := db.positions[p].conn;
    assert db'.positions[p] == db.positions[p];
    assert db'.conns[c].owner == db.conns[c].owner && db'.conns[c].lastUsed == db.conns[c].lastUsed;
  }

  lemma SparedStays(db: Db, op: Op, db': Db, owner: Owner, p: nat, t: int)
    requires Integrity(db) && Next(db, op, db') && InUse(db, owner, p, t) && Spares(db, op, p, t)
    ensures InUse(db', owner, p, t)
  {
    match op
    case Mint(minter, prev, state, now) =>
      hide Integrity, MintStep;
      if state.hasUpdates && MayMint(db, minter, prev) {
        MintSpares(db, db', minter, prev, state, now, owner, p, t);
      }
    case _ =>
      hide Integrity, MintStep, Kept;
  }

  lemma AckedInUse(db: Db, owner: Owner, p: nat, now: int)
    requires Owns(db, owner, p)
    ensures InUse(Acked(db, p, now), owner, p, now)
  {
  }

  /** A connection's first position counts as a use of it. */
  lemma FirstInUse(db: Db, db': Db, owner: Owner, state: State, now: int)
    requires Integrity(db) && Next(db, Mint(owner, 0, state, now), db') && state.hasUpdates
    ensures InUse(db', owner, db.nextPos, now)
  {
    assert 0 !in db.positions;
    hide Integrity, Grows, RowsFor, Without;
    var required, rows :| Minted(db, db', owner, 0, state, now, required, rows);
    assert db'.positions[db.nextPos].conn == db.nextConn;
  }

  /** A position in use outlives every run of steps that spares it: what it stands for can be loaded for
      a week after its connection was last used, less the staleness the record allows. */
  lemma {:induction false} UsedSurvives(dbs: seq<Db>, ops: seq<Op>, i: nat, j: nat, owner: Owner, p: nat, t: int)
    requires IsRun(dbs, ops) && i <= j < |dbs| && InUse(dbs[i], owner, p, t)
    requires forall k :: i <= k < j && Owns(dbs[k], owner, p) ==> Spares(dbs[k], ops[k], p, t)
    ensures InUse(dbs[j], owner, p, t)
    decreases j
  {
    hide Spares, InUse, Integrity, Next, Owns;
    if i < j {
      UsedSurvives(dbs, ops, i, j - 1, owner, p, t);
      UsedIsOwned(dbs[j - 1], owner, p, t);
      RunIntegrity(dbs, ops, i, j - 1);
      SparedStays(dbs[j - 1], ops[j - 1], dbs[j], owner, p, t);
    }
  }

  /** An acknowledged one, therefore. */
  lemma AcknowledgedSurvives(dbs: seq<Db>, ops: seq<Op>, i: nat, j: nat, owner: Owner, p: nat, t: int)
    requires IsRun(dbs, ops) && i < j < |dbs| && ops[i] == Ack(owner, p, t) && Owns(dbs[i], owner, p)
    requires forall k :: i < k < j && Owns(dbs[k], owner, p) ==> Spares(dbs[k], ops[k], p, t)
    ensures Owns(dbs[j], owner, p)
  {
    AckedInUse(dbs[i], owner, p, t);
    assert Next(dbs[i], ops[i], dbs[i + 1]);
    hide InUse, Spares, Next;
    UsedSurvives(dbs, ops, i + 1, j, owner, p, t);
    UsedIsOwned(dbs[j], owner, p, t);
  }

  lemma UsedIsOwned(db: Db, owner: Owner, p: nat, t: int)
    requires InUse(db, owner, p, t)
    ensures Owns(db, owner, p)
  {
  }

  /** A connection is gone, or was last used at or before `t`. */
  ghost predicate UnusedSince(db: Db, c: nat, t: int) {
    c < db.nextConn && (c in db.conns ==> db.conns[c].lastUsed.Some? && db.conns[c].lastUsed.value <= t)
  }

  /** A step that is no use of a connection after `t`. */
  ghost predicate NoUse(db: Db, op: Op, c: nat, t: int) {
    op.Ack? && Owns(db, op.owner, op.pos) && db.positions[op.pos].conn == c ==> op.now <= t
  }

  lemma UnusedStays(db: Db, op: Op, db': Db, c: nat, t: int)
    requires Integrity(db) && Next(db, op, db') && UnusedSince(db, c, t) && NoUse(db, op, c, t)
    ensures UnusedSince(db', c, t)
  {
    hide RequiredIntegrity;
    match op
    case Mint(minter, prev, state, now) =>
      if state.hasUpdates && MayMint(db, minter, prev) {
        var required, rows :| Minted(db, db', minter, prev, state, now, required, rows);
        hide Grows, RowsFor;
      }
    case _ =>
  }

  lemma {:induction false} UnusedThroughout(dbs: seq<Db>, ops: seq<Op>, i: nat, j: nat, c: nat, t: int)
    requires IsRun(dbs, ops) && i <= j < |dbs| && UnusedSince(dbs[i], c, t)
    requires forall k :: i <= k < j ==> NoUse(dbs[k], ops[k], c, t)
    ensures UnusedSince(dbs[j], c, t)
    decreases j
  {
    hide NoUse, Integrity, UnusedSince, Next;
    if i < j {
      UnusedThroughout(dbs, ops, i, j - 1, c, t);
      RunIntegrity(dbs, ops, i, j - 1);
      UnusedStays(dbs[j - 1], ops[j - 1], dbs[j], c, t);
    }
  }

  /** And a connection nobody has used for longer than the expiry does not outlive a reaping. */
  lemma UnusedIsReaped(dbs: seq<Db>, ops: seq<Op>, i: nat, j: nat, c: nat, t: int)
    requires IsRun(dbs, ops) && i <= j < |ops| && UnusedSince(dbs[i], c, t)
    requires forall k :: i <= k < j ==> NoUse(dbs[k], ops[k], c, t)
    requires ops[j].DeleteOld? && ops[j].now > t + CONNECTION_EXPIRY
    ensures c !in dbs[j + 1].conns
  {
    UnusedThroughout(dbs, ops, i, j, c, t);
    hide Integrity, NoUse;
    assert Next(dbs[j], ops[j], dbs[j + 1]);
  }

  // ------------------------------------------------------- complete either way

  /** The stream rows of the three status maps of a state. */
  ghost function Streams(rooms: Statuses, receipts: Statuses, accountData: Statuses): map<StreamRoom, HaveSent> {
    map k | k in StreamKeys(rooms, receipts, accountData) :: Held(rooms, receipts, accountData, k.stream)[k.room]
  }

  ghost function Held(rooms: Statuses, receipts: Statuses, accountData: Statuses, stream: Stream): Statuses {
    match stream
    case Rooms => rooms
    case Receipts => receipts
    case AccountData => accountData
  }

  ghost function StreamKeys(rooms: Statuses, receipts: Statuses, accountData: Statuses): (keys: set<StreamRoom>)
    ensures forall k :: k in keys <==> k.room in Held(rooms, receipts, accountData, k.stream)
  {
    (set r | r in rooms :: StreamRoom(Rooms, r)) + (set r | r in receipts :: StreamRoom(Receipts, r))
    + (set r | r in accountData :: StreamRoom(AccountData, r))
  }

  /** One stream's rows, as the status map they are loaded into. */
  ghost function StatusesOf(streams: map<StreamRoom, HaveSent>, stream: Stream): Statuses {
    map r | r in RoomsIn(streams, stream) :: streams[StreamRoom(stream, r)]
  }

  ghost function RoomsIn(streams: map<StreamRoom, HaveSent>, stream: Stream): (rooms: set<string>)
    ensures forall r :: r in rooms <==> StreamRoom(stream, r) in streams
  {
    var rooms := set k | k in streams && k.stream == stream :: k.room;
    assert forall r :: r in rooms ==> StreamRoom(stream, r) in streams;
    assert forall r :: StreamRoom(stream, r) in streams ==> StreamRoom(stream, r).room in rooms;
    rooms
  }

  /** Loading splits the rows by stream, and nothing is lost. */
  lemma StreamsSplit(streams: map<StreamRoom, HaveSent>)
    ensures Streams(StatusesOf(streams, Rooms), StatusesOf(streams, Receipts), StatusesOf(streams, AccountData)) == streams
  {
    hide StreamKeys, RoomsIn;
    var a, b, c := StatusesOf(streams, Rooms), StatusesOf(streams, Receipts), StatusesOf(streams, AccountData);
    forall k: StreamRoom
      ensures k in streams <==> k.room in Held(a, b, c, k.stream)
      ensures k in streams ==> Held(a, b, c, k.stream)[k.room] == streams[k]
    {
      match k.stream
      case Rooms =>
      case Receipts =>
      case AccountData =>
    }
  }

  /** Flattening each status map is flattening the rows. */
  lemma StreamsOverlay(a: Statuses, b: Statuses, c: Statuses, x: Statuses, y: Statuses, z: Statuses)
    ensures Streams(a + x, b + y, c + z) == Streams(a, b, c) + Streams(x, y, z)
  {
    hide StreamKeys;
    var both, base, over := Streams(a + x, b + y, c + z), Streams(a, b, c), Streams(x, y, z);
    forall k: StreamRoom
      ensures k in both <==> k in base || k in over
      ensures k in over ==> both[k] == over[k]
      ensures k in base && k !in over ==> both[k] == base[k]
    {
      HeldOverlay(a, b, c, x, y, z, k);
    }
    hide *;
  }

  lemma HeldOverlay(a: Statuses, b: Statuses, c: Statuses, x: Statuses, y: Statuses, z: Statuses, k: StreamRoom)
    ensures var both, base, over := Held(a + x, b + y, c + z, k.stream), Held(a, b, c, k.stream), Held(x, y, z, k.stream);
            && (k.room in both <==> k.room in base || k.room in over)
            && (k.room in over ==> both[k.room] == over[k.room])
            && (k.room in base && k.room !in over ==> both[k.room] == base[k.room])
  {
    match k.stream
    case Rooms =>
    case Receipts =>
    case AccountData =>
  }

  /** What one response changed in a connection's state. */
  datatype Changes = Changes(rooms: Statuses, receipts: Statuses, accountData: Statuses, configs: map<string, RoomSyncConfig>)

  /** The changes alone, as rows to write. */
  ghost function ChangesOnly(ch: Changes): State {
    State(Streams(ch.rooms, ch.receipts, ch.accountData), ch.configs, true)
  }

  /** The state a response hands over, flattened: each loaded map with its changes laid over it. */
  ghost function Flattened(before: Snapshot, ch: Changes): State {
    State(Streams(StatusesOf(before.streams, Rooms) + ch.rooms, StatusesOf(before.streams, Receipts) + ch.receipts,
                  StatusesOf(before.streams, AccountData) + ch.accountData),
          before.configs + ch.configs, true)
  }

  lemma FlattenedIs(before: Snapshot, ch: Changes)
    ensures Flattened(before, ch).streams == before.streams + ChangesOnly(ch).streams
  {
    hide Streams, StatusesOf;
    StreamsSplit(before.streams);
    StreamsOverlay(StatusesOf(before.streams, Rooms), StatusesOf(before.streams, Receipts),
                   StatusesOf(before.streams, AccountData), ch.rooms, ch.receipts, ch.accountData);
  }

  ghost predicate NoneEmpty(configs: map<string, RoomSyncConfig>) {
    forall r :: r in configs ==> NoEmpty(configs[r].requiredState)
  }

  /** Whatever is loaded has no type without keys. */
  lemma LoadedNoneEmpty(db: Db, p: nat)
    requires p in db.positions && db.positions[p].conn in db.conns
    ensures NoneEmpty(Snap(db, p).configs)
  {
    hide Decoded;
    var row := db.positions[p];
    forall r | r in row.configs
      ensures NoEmpty(ConfigOf(db.conns[row.conn], row.configs[r]).requiredState)
    {
      var c, id := db.conns[row.conn], row.configs[r].requiredId;
      if id in c.required {
        DecodedEntries(c.required[id]);
      }
    }
  }

  /** How a position written over nothing reads: as the state alone. */
  lemma BareSnapshot(db: Db, db': Db, owner: Owner, prev: nat, state: State, now: int,
                     required: map<nat, seq<Entry>>, rows: map<string, ConfigRow>)
    requires MintedOver(db, db', owner, prev, PosRow(MintConn(db, prev), map[], map[]), state, now, required, rows)
    ensures db.nextPos in db'.positions && db'.positions[db.nextPos].conn in db'.conns
    ensures Snap(db', db.nextPos) == Overlay(NO_STATE, state)
  {
    hide RowsFor, ConfigOf, StoredConfig, Grows, StoredConfigs;
    RowsReadBack(db'.conns[MintConn(db, prev)], map[], rows, state.configs);
  }

  /** Three ways to make a new position complete: copy the previous rows forward and write the
      flattened state over them, copy them forward and write only the changes, or write the
      flattened state alone. All three tables read the same at the new position. */
  lemma CompleteEitherWay(db: Db, both: Db, copied: Db, flat: Db, owner: Owner, prev: nat, now: int,
                          ch: Changes,
                          rq: map<nat, seq<Entry>>, rw: map<string, ConfigRow>,
                          cq: map<nat, seq<Entry>>, cw: map<string, ConfigRow>,
                          fq: map<nat, seq<Entry>>, fw: map<string, ConfigRow>)
    requires Integrity(db) && MayMint(db, owner, prev)
    requires var state := Flattened(BeforeMint(db, prev), ch);
             && MintedOver(db, both, owner, prev, PrevRow(db, prev), state, now, rq, rw)
             && MintedOver(db, copied, owner, prev, PrevRow(db, prev), ChangesOnly(ch), now, cq, cw)
             && MintedOver(db, flat, owner, prev, PosRow(MintConn(db, prev), map[], map[]), state, now, fq, fw)
    ensures db.nextPos in both.positions && both.positions[db.nextPos].conn in both.conns
    ensures db.nextPos in copied.positions && copied.positions[db.nextPos].conn in copied.conns
    ensures db.nextPos in flat.positions && flat.positions[db.nextPos].conn in flat.conns
    ensures Snap(both, db.nextPos) == Snap(copied, db.nextPos) == Snap(flat, db.nextPos)
  {
    var before := BeforeMint(db, prev);
    var state := Flattened(before, ch);
    if prev in db.positions {
      LoadedNoneEmpty(db, prev);
    }
    FlattenedIs(before, ch);
    hide MintedOver, Streams, StatusesOf, Snap, Overlay;
    assert Minted(db, both, owner, prev, state, now, rq, rw);
    assert Minted(db, copied, owner, prev, ChangesOnly(ch), now, cq, cw);
    MintSnapshot(db, both, owner, prev, state, now, rq, rw);
    MintSnapshot(db, copied, owner, prev, ChangesOnly(ch), now, cq, cw);
    BareSnapshot(db, flat, owner, prev, state, now, fq, fw);
    OverlaidOnce(before, ChangesOnly(ch), state);
  }

  lemma OverlaidOnce(before: Snapshot, changes: State, flat: State)
    requires flat.streams == before.streams + changes.streams
    requires flat.configs == before.configs + changes.configs
    requires NoneEmpty(before.configs)
    ensures Overlay(before, flat) == Overlay(before, changes) == Overlay(NO_STATE, flat)
  {
    hide StoredConfig, StoredConfigs;
    StoredOnce(before.configs, changes.configs);
    assert before.streams + flat.streams == flat.streams == NO_STATE.streams + flat.streams;
    assert NO_STATE.configs + StoredConfigs(flat.configs) == StoredConfigs(flat.configs);
  }

  lemma StoredOnce(a: map<string, RoomSyncConfig>, b: map<string, RoomSyncConfig>)
    requires NoneEmpty(a)
    ensures a + StoredConfigs(a + b) == a + StoredConfigs(b) == StoredConfigs(a + b)
  {
    hide StoredConfig;
    forall r | r in a
      ensures StoredConfig(a[r]) == a[r]
    {
      StoredAsIs(a[r]);
    }
  }

  lemma StoredAsIs(cfg: RoomSyncConfig)
    requires NoEmpty(cfg.requiredState)
    ensures StoredConfig(cfg) == cfg
  {
    assert StoredConfig(cfg).requiredState == cfg.requiredState;
  }
}
