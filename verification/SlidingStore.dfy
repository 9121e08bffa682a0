/** The store's transactions, statement by statement, against what they must amount to. */
module SlidingStore {
  import opened Common
  import opened StringOrder
  import opened RoomConfig
  import opened RoomStatus
  import opened ConnStore

  /** Every required-state row of a connection, decoded. */
  method DecodeRows(rows: map<nat, seq<Entry>>) returns (decoded: map<nat, StateMap>)
    ensures decoded.Keys == rows.Keys && forall i :: i in rows ==> decoded[i] == Decoded(rows[i])
  {
    hide Decoded;
    decoded := map[];
    var rest := rows.Keys;
    while rest != {}
      invariant rest <= rows.Keys && decoded.Keys == rows.Keys - rest
      invariant forall i :: i in decoded ==> decoded[i] == Decoded(rows[i])
    {
      var i :| i in rest;
      var m := Decode(rows[i]);
      decoded, rest := decoded[i := m], rest - {i};
    }
  }

  /** A config as a row and the decoded required-state rows give it. */
  predicate Loaded(cfg: RoomSyncConfig, row: ConfigRow, required: map<nat, StateMap>) {
    && cfg.timelineLimit == row.timelineLimit
    && cfg.requiredState == if row.requiredId in required then required[row.requiredId] else map[]
  }

  /** The room configs of a position, and which required-state rows they point at. */
  method LoadConfigs(rows: map<string, ConfigRow>, required: map<nat, StateMap>)
    returns (configs: map<string, RoomSyncConfig>, used: set<nat>)
    ensures configs.Keys == rows.Keys
    ensures forall r :: r in rows ==> Loaded(configs[r], rows[r], required)
    ensures forall i :: i in used <==> exists r :: r in rows && rows[r].requiredId == i
  {
    configs, used := map[], {};
    var rest := rows.Keys;
    while rest != {}
      invariant rest <= rows.Keys && configs.Keys == rows.Keys - rest
      invariant forall r :: r in configs ==> Loaded(configs[r], rows[r], required)
      invariant forall r :: r in configs ==> rows[r].requiredId in used
      invariant forall i :: i in used ==> exists r :: r in rows && rows[r].requiredId == i
    {
      var r :| r in rest;
      var id := rows[r].requiredId;
      used := used + {id};
      configs := configs[r := RoomSyncConfig(rows[r].timelineLimit, if id in required then required[id] else map[])];
      rest := rest - {r};
    }
  }

  /** The required-state rows nothing points at. */
  method Unused(required: map<nat, StateMap>, used: set<nat>) returns (unused: set<nat>)
    ensures unused == required.Keys - used
  {
    unused := {};
    var rest := required.Keys;
    while rest != {}
      invariant rest <= required.Keys && unused == required.Keys - rest - used
    {
      var id :| id in rest;
      if id !in used {
        unused := unused + {id};
      }
      rest := rest - {id};
    }
  }

  /** Which row holds an encoding already. */
  method Existing(required: map<nat, seq<Entry>>) returns (existing: map<seq<Entry>, nat>)
    ensures forall e :: e in existing ==> existing[e] in required && required[existing[e]] == e
    ensures forall i :: i in required ==> required[i] in existing
  {
    existing := map[];
    var rest := required.Keys;
    while rest != {}
      invariant rest <= required.Keys
      invariant forall e :: e in existing ==> existing[e] in required && required[existing[e]] == e
      invariant forall i :: i in required && i !in rest ==> required[i] in existing
    {
      var i :| i in rest;
      existing, rest := existing[required[i] := i], rest - {i};
    }
  }

  /** Rooms whose encoding has a row take it; the others wait for their encoding to be inserted. */
  method Assign(configs: map<string, RoomSyncConfig>, existing: map<seq<Entry>, nat>)
    returns (ids: map<string, nat>, waiting: map<string, seq<Entry>>, ghost encoded: map<string, seq<Entry>>)
    ensures encoded.Keys == configs.Keys
    ensures forall r :: r in configs ==> IsEncoding(configs[r].requiredState, encoded[r])
    ensures ids.Keys + waiting.Keys == configs.Keys && ids.Keys !! waiting.Keys
    ensures forall r :: r in ids ==> encoded[r] in existing && ids[r] == existing[encoded[r]]
    ensures forall r :: r in waiting ==> encoded[r] !in existing && waiting[r] == encoded[r]
  {
    hide IsEncoding;
    ids, waiting, encoded := map[], map[], map[];
    var rest := configs.Keys;
    while rest != {}
      invariant rest <= configs.Keys && encoded.Keys == configs.Keys - rest
      invariant forall r :: r in encoded ==> IsEncoding(configs[r].requiredState, encoded[r])
      invariant ids.Keys + waiting.Keys == encoded.Keys && ids.Keys !! waiting.Keys
      invariant forall r :: r in ids ==> encoded[r] in existing && ids[r] == existing[encoded[r]]
      invariant forall r :: r in waiting ==> encoded[r] !in existing && waiting[r] == encoded[r]
    {
      var r :| r in rest;
      var e := EncodeRequiredState(configs[r].requiredState);
      encoded := encoded[r := e];
      if e in existing {
        ids := ids[r := existing[e]];
      } else {
        waiting := waiting[r := e];
      }
      rest := rest - {r};
    }
  }

  /** One row inserted per encoding that had none. */
  method InsertMissing(before: map<nat, seq<Entry>>, next: nat, encodings: set<seq<Entry>>)
    returns (required: map<nat, seq<Entry>>, next': nat, ids: map<seq<Entry>, nat>)
    requires forall i :: i in before ==> i < next && before[i] !in encodings
    requires forall i, j :: i in before && j in before && before[i] == before[j] ==> i == j
    ensures next <= next' && Grows(before, required, next, next')
    ensures forall i :: i in before ==> i in required && required[i] == before[i]
    ensures ids.Keys == encodings && forall e :: e in encodings ==> ids[e] in required && required[ids[e]] == e
  {
    required, next', ids := before, next, map[];
    var rest := encodings;
    while rest != {}
      invariant rest <= encodings && ids.Keys == encodings - rest && next <= next'
      invariant forall i :: i in required ==> i < next' && required[i] !in rest
      invariant Grows(before, required, next, next')
      invariant forall e :: e in ids ==> ids[e] in required && required[ids[e]] == e
    {
      var e :| e in rest;
      required, ids := required[next' := e], ids[e := next'];
      next', rest := next' + 1, rest - {e};
    }
  }

  /** Each room's required-state row, reusing rows where the encoding matches. */
  method ResolveRequiredState(before: map<nat, seq<Entry>>, next: nat, configs: map<string, RoomSyncConfig>)
    returns (required: map<nat, seq<Entry>>, next': nat, ids: map<string, nat>)
    requires forall i :: i in before ==> i < next
    requires forall i, j :: i in before && j in before && before[i] == before[j] ==> i == j
    ensures next <= next' && Grows(before, required, next, next')
    ensures ids.Keys == configs.Keys
    ensures forall r :: r in configs ==> ids[r] in required && IsEncoding(configs[r].requiredState, required[ids[r]])
  {
    hide IsEncoding, Grows;
    var existing := Existing(before);
    var reused, waiting, encoded := Assign(configs, existing);
    var encodings := set r | r in waiting :: waiting[r];
    var inserted;
    required, next', inserted := InsertMissing(before, next, encodings);
    forall r | r in waiting
      ensures waiting[r] in encodings
    {
    }
    ids := Merge(reused, waiting, inserted);
  }

  /** The reused rows, and the inserted ones for the rooms that waited. */
  method Merge(reused: map<string, nat>, waiting: map<string, seq<Entry>>, inserted: map<seq<Entry>, nat>)
    returns (ids: map<string, nat>)
    requires reused.Keys !! waiting.Keys && forall r :: r in waiting ==> waiting[r] in inserted
    ensures ids.Keys == reused.Keys + waiting.Keys
    ensures forall r :: r in reused ==> ids[r] == reused[r]
    ensures forall r :: r in waiting ==> ids[r] == inserted[waiting[r]]
  {
    ids := reused + map r | r in waiting :: inserted[waiting[r]];
  }

  /** The config rows to lay over the copied ones. */
  method ConfigRows(configs: map<string, RoomSyncConfig>, ids: map<string, nat>) returns (rows: map<string, ConfigRow>)
    requires ids.Keys == configs.Keys
    ensures rows.Keys == configs.Keys
    ensures forall r :: r in configs ==> rows[r] == ConfigRow(configs[r].timelineLimit, ids[r])
  {
    rows := map r | r in configs :: ConfigRow(configs[r].timelineLimit, ids[r]);
  }

  /** The stream rows a state is written as: each status map flattened. */
  method StreamRows(rooms: RoomStatusMap, receipts: RoomStatusMap, accountData: RoomStatusMap)
    returns (rows: map<StreamRoom, HaveSent>)
    ensures rows == Streams(rooms.All(), receipts.All(), accountData.All())
    ensures rows == Streams(rooms.base, receipts.base, accountData.base)
                    + Streams(rooms.updates, receipts.updates, accountData.updates)
  {
    hide Streams;
    rows := LayStream(map[], Rooms, rooms.All());
    rows := LayStream(rows, Receipts, receipts.All());
    rows := LayStream(rows, AccountData, accountData.All());
    StreamsAre(rows, rooms.All(), receipts.All(), accountData.All());
    StreamsOverlay(rooms.base, receipts.base, accountData.base, rooms.updates, receipts.updates, accountData.updates);
  }

  /** One status map's rows laid over those of the streams before it. */
  method LayStream(before: map<StreamRoom, HaveSent>, stream: Stream, m: Statuses) returns (rows: map<StreamRoom, HaveSent>)
    ensures forall k: StreamRoom :: k in rows <==> k in before || (k.stream == stream && k.room in m)
    ensures forall k: StreamRoom :: k.stream == stream && k.room in m ==> rows[k] == m[k.room]
    ensures forall k: StreamRoom :: k in before && k.stream != stream ==> rows[k] == before[k]
  {
    rows := before;
    var rest := m.Keys;
    while rest != {}
      invariant rest <= m.Keys
      invariant forall k: StreamRoom :: k in rows <==> k in before || (k.stream == stream && k.room in m && k.room !in rest)
      invariant forall k: StreamRoom :: k.stream == stream && k.room in m && k.room !in rest ==> rows[k] == m[k.room]
      invariant forall k: StreamRoom :: k in before && k.stream != stream ==> rows[k] == before[k]
    {
      var r :| r in rest;
      rows := rows[StreamRoom(stream, r) := m[r]];
      rest := rest - {r};
    }
  }

  lemma StreamsAre(rows: map<StreamRoom, HaveSent>, rooms: Statuses, receipts: Statuses, accountData: Statuses)
    requires forall k :: k in rows <==> k.room in Held(rooms, receipts, accountData, k.stream)
    requires forall k :: k in rows ==> rows[k] == Held(rooms, receipts, accountData, k.stream)[k.room]
    ensures rows == Streams(rooms, receipts, accountData)
  {
    hide StreamKeys;
  }

  class Store {
    var db: Db

    constructor ()
      ensures Integrity(db)
    {
      db := Db(map[], map[], 1, 1, 1);
    }

    /** Loads a position and acknowledges it. No position is no state, and touches nothing. */
    method GetAndClear(owner: Owner, position: nat, now: int) returns (r: Result<Snapshot>)
      requires Integrity(db)
      modifies this
      ensures Integrity(db) && Next(old(db), Ack(owner, position, now), db)
      ensures position == 0 ==> r == Ok(NO_STATE) && db == old(db)
      ensures position != 0 && !Owns(old(db), owner, position) ==> r == UnknownPosition && db == old(db)
      ensures position != 0 && Owns(old(db), owner, position) ==>
        && db == Acked(old(db), position, now)
        && r == Ok(Snap(old(db), position)) && Owns(db, owner, position) && r == Ok(Snap(db, position))
        && db.conns[db.positions[position].conn].required.Keys == Used(db.positions[position])
    {
      if position == 0 {
        return Ok(NO_STATE);
      }
      if !Owns(db, owner, position) {
        return UnknownPosition;
      }
      AckIntegrity(db, position, now);
      AckSnapshot(db, position, now, position);
      Prune(position, now);
      r := LoadState(position);
    }

    /** Marks the connection used, and deletes every other position on it. */
    method Prune(position: nat, now: int)
      requires Integrity(db) && position in db.positions
      modifies this
      ensures db == Pruned(old(db), position, now)
      ensures Snap(db, position) == Snap(old(db), position)
    {
      var key := db.positions[position].conn;
      RowsUnmoved(db.conns[key], Touched(db.conns[key], now), db.positions[position].configs);
      db := db.(conns := db.conns[key := Touched(db.conns[key], now)]);
      db := db.(positions := map q | q in db.positions && (q == position || db.positions[q].conn != key) :: db.positions[q]);
    }

    /** Reads a position's rows and drops the required-state rows it does not use. */
    method LoadState(position: nat) returns (r: Result<Snapshot>)
      requires position in db.positions && db.positions[position].conn in db.conns
      modifies this
      ensures r == Ok(Snap(old(db), position))
      ensures db == DropUnused(old(db), position)
    {
      hide Decoded;
      var key, row := db.positions[position].conn, db.positions[position];
      var conn := db.conns[key];
      var required := DecodeRows(conn.required);
      var configs, used := LoadConfigs(row.configs, required);
      var unused := Unused(required, used);
      forall r | r in row.configs
        ensures configs[r] == ConfigOf(conn, row.configs[r])
      {
        assert Loaded(configs[r], row.configs[r], required);
      }
      assert Snapshot(row.streams, configs) == Snap(db, position);
      assert used == Used(row);
      assert conn.required - unused == Kept(conn, used).required;
      db := db.(conns := db.conns[key := conn.(required := conn.required - unused)]);
      r := Ok(Snapshot(row.streams, configs));
    }

    /** Records a state on top of a position. Nothing to record gives the position back. */
    method Persist(owner: Owner, prev: nat, state: State, now: int) returns (r: Result<nat>)
      requires Integrity(db)
      modifies this
      ensures Integrity(db) && Next(old(db), Mint(owner, prev, state, now), db)
      ensures !state.hasUpdates ==> r == Ok(prev)
      ensures state.hasUpdates && !MayMint(old(db), owner, prev) ==> r == UnknownPosition
      ensures state.hasUpdates && MayMint(old(db), owner, prev) ==>
        && r == Ok(old(db).nextPos) && Owns(db, owner, old(db).nextPos)
        && Snap(db, old(db).nextPos) == Overlay(BeforeMint(old(db), prev), state)
    {
      if !state.hasUpdates {
        return Ok(prev);
      }
      if !MayMint(db, owner, prev) {
        return UnknownPosition;
      }
      BaseIntegrity(db, owner, prev, now);
      var key := ConnectionKey(owner, prev, now);
      var position := db.nextPos;
      var required, nextRequired, ids := ResolveRequiredState(db.conns[key].required, db.nextRequired, state.configs);
      var copied := if prev != 0 then db.positions[prev] else PosRow(key, map[], map[]);
      var rows := ConfigRows(state.configs, ids);
      db := Db(db.conns[key := db.conns[key].(required := required)],
               db.positions[position := PosRow(key, copied.streams + state.streams, copied.configs + rows)],
               db.nextConn, position + 1, nextRequired);
      forall r | r in state.configs
        ensures RowFor(required, rows[r], state.configs[r])
      {
      }
      assert Minted(old(db), db, owner, prev, state, now, required, rows);
      MintIntegrity(old(db), db, owner, prev, state, now, required, rows);
      MintSnapshot(old(db), db, owner, prev, state, now, required, rows);
      r := Ok(position);
    }

    /** The connection a position belongs to, or a new one in place of the owner's old one. */
    method ConnectionKey(owner: Owner, prev: nat, now: int) returns (key: nat)
      requires Integrity(db) && MayMint(db, owner, prev)
      modifies this
      ensures db == MintBase(old(db), owner, prev, now) && key == MintConn(old(db), prev)
    {
      if prev != 0 {
        return db.positions[prev].conn;
      }
      var gone := set c | c in db.conns && db.conns[c].owner == owner;
      key := db.nextConn;
      assert 0 !in db.positions && gone == ConnsOf(db, owner);
      db := Db((db.conns - gone)[key := ConnRow(owner, Some(now), map[])],
               map p | p in db.positions && db.positions[p].conn !in gone :: db.positions[p],
               key + 1, db.nextPos, db.nextRequired);
    }

    /** Drops the connections nobody has used for a week, with everything under them. */
    method DeleteOldConnections(now: int) returns (reaped: nat)
      requires Integrity(db)
      modifies this
      ensures Integrity(db) && Next(old(db), DeleteOld(now), db) && reaped == |Expired(old(db), now)|
    {
      var gone := set c | c in db.conns && db.conns[c].lastUsed.Some? && db.conns[c].lastUsed.value < now - CONNECTION_EXPIRY;
      StepIntegrity(db, DeleteOld(now), Without(db, gone));
      reaped := |gone|;
      db := db.(conns := db.conns - gone,
                positions := map p | p in db.positions && db.positions[p].conn !in gone :: db.positions[p]);
    }
  }
}
