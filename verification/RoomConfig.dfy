/** Required-state configurations: normalising a request's `required_state` list, taking the
    union of several requests, and the stored encoding. */
module RoomConfig {
  import opened StringOrder

  const WILDCARD := "*"

  /** Event type to the state keys wanted for it. */
  type StateMap = map<string, set<string>>

  datatype RoomSyncConfig = RoomSyncConfig(timelineLimit: int, requiredState: StateMap)

  /** One `[type, state_key]` pair of a request or of a stored encoding. */
  datatype Entry = Entry(typ: string, key: string)

  function KeysOf(m: StateMap, t: string): set<string> {
    if t in m then m[t] else {}
  }

  // ---------------------------------------------------------------- meaning

  /** Entries are OR'd, and either half may be a wildcard. */
  predicate EntryCovers(e: Entry, t: string, k: string) {
    (e.typ == t || e.typ == WILDCARD) && (e.key == k || e.key == WILDCARD)
  }

  ghost predicate ListCovers(es: seq<Entry>, t: string, k: string) {
    exists e :: e in es && EntryCovers(e, t, k)
  }

  predicate HasEntry(m: StateMap, e: Entry) {
    e.typ in m && e.key in m[e.typ]
  }

  predicate Covers(m: StateMap, t: string, k: string) {
    || k in KeysOf(m, t)
    || WILDCARD in KeysOf(m, t)
    || k in KeysOf(m, WILDCARD)
    || WILDCARD in KeysOf(m, WILDCARD)
  }

  /** Everything `a` asks for among concrete types and keys, `b` asks for too. */
  ghost predicate Within(a: StateMap, b: StateMap) {
    forall t, k :: t != WILDCARD && k != WILDCARD && Covers(a, t, k) ==> Covers(b, t, k)
  }

  /** No type without keys: such a type and an absent one must not be distinguishable. */
  ghost predicate NoEmpty(m: StateMap) {
    forall t :: t in m ==> m[t] != {}
  }

  /** No empty types and no entry that another entry already covers. */
  ghost predicate Normal(m: StateMap) {
    && NoEmpty(m)
    && (forall t :: t in m && WILDCARD in m[t] ==> m[t] == {WILDCARD})
    && (WILDCARD in KeysOf(m, WILDCARD) ==> m.Keys == {WILDCARD})
    && (forall t :: t in m && t != WILDCARD ==> m[t] !! KeysOf(m, WILDCARD))
  }

  ghost function AllKeys(m: StateMap): set<string> {
    set t, k | t in m && k in m[t] :: k
  }

  lemma WildcardByFreshKey(m: StateMap, t: string, k: string)
    requires k !in AllKeys(m)
    ensures Covers(m, t, k) <==> WILDCARD in KeysOf(m, t) || WILDCARD in KeysOf(m, WILDCARD)
  {
  }

  /** A normal map is determined by what it means on concrete types and keys. */
  lemma Canonical(m: StateMap, n: StateMap)
    requires Normal(m) && Normal(n)
    requires Within(m, n) && Within(n, m)
    ensures m == n
  {
    var t' := FreshString(m.Keys + n.Keys + {WILDCARD});
    var k' := FreshString(AllKeys(m) + AllKeys(n) + {WILDCARD});
    WildcardByFreshKey(m, t', k');
    WildcardByFreshKey(n, t', k');
    if WILDCARD in KeysOf(m, WILDCARD) {
      assert m == map[WILDCARD := {WILDCARD}] == n;
    } else {
      forall k
        ensures k in KeysOf(m, WILDCARD) <==> k in KeysOf(n, WILDCARD)
      {
        assert k != WILDCARD ==> (Covers(m, t', k) <==> Covers(n, t', k));
      }
      forall t | t != WILDCARD
        ensures KeysOf(m, t) == KeysOf(n, t)
      {
        WildcardByFreshKey(m, t, k');
        WildcardByFreshKey(n, t, k');
        assert WILDCARD in KeysOf(m, t) <==> WILDCARD in KeysOf(n, t);
        forall k | k != WILDCARD
          ensures k in KeysOf(m, t) <==> k in KeysOf(n, t)
        {
          assert Covers(m, t, k) <==> Covers(n, t, k);
        }
      }
      forall t
        ensures t in m <==> t in n
        ensures t in m ==> m[t] == n[t]
      {
        assert KeysOf(m, t) == KeysOf(n, t);
      }
    }
  }

  // ------------------------------------------------------------ normalising

  ghost function DropKey(m: StateMap, k: string): StateMap {
    map t | t in m && m[t] - {k} != {} :: m[t] - {k}
  }

  /** Removes one state key from every type, leaving no empty type behind. */
  method DropStateKey(required: StateMap, stateKey: string) returns (out: StateMap)
    ensures out == DropKey(required, stateKey)
    ensures forall t, k :: k in KeysOf(out, t) <==> k in KeysOf(required, t) && k != stateKey
  {
    out := required;
    var rest := required.Keys;
    while rest != {}
      invariant rest <= required.Keys
      invariant forall t :: t in rest ==> t in out && out[t] == required[t]
      invariant forall t :: t !in rest ==>
        (t in out <==> t in DropKey(required, stateKey)) && (t in out ==> out[t] == required[t] - {stateKey})
      decreases rest
    {
      var t :| t in rest;
      var keys := required[t] - {stateKey};
      out := if keys == {} then out - {t} else out[t := keys];
      rest := rest - {t};
    }
  }

  /** What one pass of the normalising loop does to the map. */
  ghost function AddEntry(m: StateMap, e: Entry): StateMap {
    if e.key in KeysOf(m, WILDCARD) || WILDCARD in KeysOf(m, e.typ) then m
    else
      var d := if e.typ == WILDCARD then DropKey(m, e.key) else m;
      d[e.typ := if e.key == WILDCARD then {WILDCARD} else KeysOf(d, e.typ) + {e.key}]
  }

  lemma AddEntryMeaning(m: StateMap, e: Entry, t: string, k: string)
    requires t != WILDCARD && k != WILDCARD
    ensures Covers(AddEntry(m, e), t, k) <==> Covers(m, t, k) || EntryCovers(e, t, k)
  {
  }

  lemma AddEntryNormal(m: StateMap, e: Entry)
    requires Normal(m) && e != Entry(WILDCARD, WILDCARD) && WILDCARD !in KeysOf(m, WILDCARD)
    ensures Normal(AddEntry(m, e)) && WILDCARD !in KeysOf(AddEntry(m, e), WILDCARD)
  {
  }

  /** A request's list in the form the connection store holds. */
  method NewRoomSyncConfig(timelineLimit: int, entries: seq<Entry>) returns (cfg: RoomSyncConfig)
    ensures cfg.timelineLimit == timelineLimit
    ensures Normal(cfg.requiredState)
    ensures forall t, k :: t != WILDCARD && k != WILDCARD ==>
              (Covers(cfg.requiredState, t, k) <==> ListCovers(entries, t, k))
  {
    var required: StateMap := map[];
    for i := 0 to |entries|
      invariant Normal(required) && WILDCARD !in KeysOf(required, WILDCARD)
      invariant forall t, k :: t != WILDCARD && k != WILDCARD ==>
                  (Covers(required, t, k) <==> ListCovers(entries[..i], t, k))
    {
      var e := entries[i];
      ghost var before := required;
      assert entries[..i + 1] == entries[..i] + [e];
      if e.key in KeysOf(required, WILDCARD) || WILDCARD in KeysOf(required, e.typ) {
      } else if e == Entry(WILDCARD, WILDCARD) {
        assert e in entries;
        return RoomSyncConfig(timelineLimit, map[WILDCARD := {WILDCARD}]);
      } else {
        if e.typ == WILDCARD {
          required := DropStateKey(required, e.key);
        }
        if e.key == WILDCARD {
          required := required[e.typ := {WILDCARD}];
        } else {
          required := required[e.typ := KeysOf(required, e.typ) + {e.key}];
        }
      }
      assert required == AddEntry(before, e);
      if e != Entry(WILDCARD, WILDCARD) {
        AddEntryNormal(before, e);
      }
      forall t, k | t != WILDCARD && k != WILDCARD
        ensures Covers(required, t, k) <==> ListCovers(entries[..i + 1], t, k)
      {
        AddEntryMeaning(before, e, t, k);
      }
    }
    assert entries[..|entries|] == entries;
    cfg := RoomSyncConfig(timelineLimit, required);
  }

  /** Two lists that ask for the same state are stored as the same map. */
  lemma NormalisingIsCanonical(es: seq<Entry>, fs: seq<Entry>, m: StateMap, n: StateMap)
    requires forall t, k :: t != WILDCARD && k != WILDCARD ==> (ListCovers(es, t, k) <==> ListCovers(fs, t, k))
    requires Normal(m) && forall t, k :: t != WILDCARD && k != WILDCARD ==> (Covers(m, t, k) <==> ListCovers(es, t, k))
    requires Normal(n) && forall t, k :: t != WILDCARD && k != WILDCARD ==> (Covers(n, t, k) <==> ListCovers(fs, t, k))
    ensures m == n
  {
    Canonical(m, n);
  }

  // ---------------------------------------------------------------- joining

  /** An entry whose every concrete instance is covered already changes nothing (a map that
      holds `["*","*"]` is never added to). */
  lemma CoveredEntryAbsorbed(m: StateMap, e: Entry)
    requires forall t, k :: t != WILDCARD && k != WILDCARD && EntryCovers(e, t, k) ==> Covers(m, t, k)
    ensures WILDCARD in KeysOf(m, WILDCARD) || AddEntry(m, e) == m
  {
    var t' := FreshString(m.Keys + {WILDCARD});
    var k' := FreshString(AllKeys(m) + {WILDCARD});
    var t := if e.typ == WILDCARD then t' else e.typ;
    var k := if e.key == WILDCARD then k' else e.key;
    assert EntryCovers(e, t, k) && Covers(m, t, k);
    if e.key == WILDCARD {
      WildcardByFreshKey(m, t, k');
    }
    if e.key in KeysOf(m, e.typ) {
      assert KeysOf(m, e.typ) + {e.key} == m[e.typ];
    }
  }

  lemma EntriesWithin(b: StateMap, a: StateMap, e: Entry)
    requires Within(b, a) && HasEntry(b, e)
    ensures WILDCARD in KeysOf(a, WILDCARD) || AddEntry(a, e) == a
  {
    forall t, k | t != WILDCARD && k != WILDCARD && EntryCovers(e, t, k)
      ensures Covers(a, t, k)
    {
      assert Covers(b, t, k);
    }
    CoveredEntryAbsorbed(a, e);
  }

  ghost predicate CoveredBySome(done: set<Entry>, t: string, k: string) {
    exists e :: e in done && EntryCovers(e, t, k)
  }

  /** The loop state of a union: `m` means `a` plus the entries of `b` already walked. */
  ghost predicate Joined(a: StateMap, b: StateMap, done: set<Entry>, m: StateMap) {
    && (forall e :: e in done ==> HasEntry(b, e))
    && (forall t, k :: t != WILDCARD && k != WILDCARD ==>
         (Covers(m, t, k) <==> Covers(a, t, k) || CoveredBySome(done, t, k)))
    && (Normal(a) && Normal(b) ==> Normal(m))
    && (Within(b, a) ==> m == a)
  }

  lemma JoinStep(a: StateMap, b: StateMap, done: set<Entry>, m: StateMap, e: Entry)
    requires Joined(a, b, done, m) && HasEntry(b, e)
    requires e != Entry(WILDCARD, WILDCARD) && WILDCARD !in KeysOf(m, WILDCARD)
    ensures Joined(a, b, done + {e}, AddEntry(m, e))
    ensures WILDCARD !in KeysOf(AddEntry(m, e), WILDCARD)
  {
    forall t, k | t != WILDCARD && k != WILDCARD
      ensures Covers(AddEntry(m, e), t, k) <==> Covers(a, t, k) || CoveredBySome(done + {e}, t, k)
    {
      AddEntryMeaning(m, e, t, k);
    }
    if Normal(a) && Normal(b) {
      AddEntryNormal(m, e);
    }
    if Within(b, a) {
      EntriesWithin(b, a, e);
    }
  }

  /** Entries of one type that its wildcard, already walked, covers. */
  lemma JoinSkip(a: StateMap, b: StateMap, done: set<Entry>, m: StateMap, t: string)
    requires Joined(a, b, done, m) && t in b && WILDCARD in KeysOf(m, t)
    ensures Joined(a, b, done + (set k | k in b[t] :: Entry(t, k)), m)
  {
    var more := set k | k in b[t] :: Entry(t, k);
    forall t0, k0 | t0 != WILDCARD && k0 != WILDCARD && CoveredBySome(more, t0, k0)
      ensures Covers(m, t0, k0)
    {
    }
    forall t0, k0 | t0 != WILDCARD && k0 != WILDCARD
      ensures CoveredBySome(done + more, t0, k0) <==> CoveredBySome(done, t0, k0) || CoveredBySome(more, t0, k0)
    {
    }
  }

  /** Everything of `b` walked: the loop state means the union. */
  lemma JoinDone(a: StateMap, b: StateMap, done: set<Entry>, m: StateMap, t: string, k: string)
    requires Joined(a, b, done, m) && forall e :: HasEntry(b, e) ==> e in done
    requires t != WILDCARD && k != WILDCARD
    ensures Covers(m, t, k) <==> Covers(a, t, k) || Covers(b, t, k)
  {
    if Covers(b, t, k) {
      var e := if k in KeysOf(b, t) then Entry(t, k)
               else if WILDCARD in KeysOf(b, t) then Entry(t, WILDCARD)
               else if k in KeysOf(b, WILDCARD) then Entry(WILDCARD, k)
               else Entry(WILDCARD, WILDCARD);
      assert HasEntry(b, e) && EntryCovers(e, t, k);
    }
  }

  lemma AllStateWithin(b: StateMap, a: StateMap)
    requires Within(b, a) && WILDCARD in KeysOf(b, WILDCARD)
    ensures WILDCARD in KeysOf(a, WILDCARD)
  {
    var e := Entry(WILDCARD, WILDCARD);
    assert HasEntry(b, e);
    EntriesWithin(b, a, e);
    assert WILDCARD in KeysOf(AddEntry(a, e), WILDCARD);
  }

  /** The union of two configs. The walk over `b` may be in any order. */
  method CombineRoomSyncConfig(a: RoomSyncConfig, b: RoomSyncConfig) returns (r: RoomSyncConfig)
    ensures r.timelineLimit == if b.timelineLimit > a.timelineLimit then b.timelineLimit else a.timelineLimit
    ensures forall t, k :: t != WILDCARD && k != WILDCARD ==>
              (Covers(r.requiredState, t, k) <==> Covers(a.requiredState, t, k) || Covers(b.requiredState, t, k))
    ensures Normal(a.requiredState) && Normal(b.requiredState) ==> Normal(r.requiredState)
    ensures Within(b.requiredState, a.requiredState) ==> r.requiredState == a.requiredState
  {
    var limit := if b.timelineLimit > a.timelineLimit then b.timelineLimit else a.timelineLimit;
    var required := a.requiredState;
    var rest := b.requiredState.Keys;
    ghost var am, bm, done := a.requiredState, b.requiredState, {};
    while rest != {}
      invariant rest <= bm.Keys
      invariant Joined(am, bm, done, required)
      invariant forall e :: HasEntry(bm, e) && e.typ !in rest ==> e in done
      decreases rest
    {
      var t :| t in rest;
      var keys := b.requiredState[t];
      if WILDCARD in KeysOf(required, WILDCARD) {
        return RoomSyncConfig(limit, required);
      }
      if WILDCARD in KeysOf(required, t) {
        JoinSkip(am, bm, done, required, t);
        done := done + set k | k in bm[t] :: Entry(t, k);
        rest := rest - {t};
        continue;
      }
      if t == WILDCARD && WILDCARD in keys {
        if Within(bm, am) {
          AllStateWithin(bm, am);
        }
        return RoomSyncConfig(limit, map[WILDCARD := {WILDCARD}]);
      }
      required, done := CombineType(required, t, keys, am, bm, done);
      rest := rest - {t};
    }
    forall t, k | t != WILDCARD && k != WILDCARD
      ensures Covers(required, t, k) <==> Covers(am, t, k) || Covers(bm, t, k)
    {
      JoinDone(am, bm, done, required, t, k);
    }
    r := RoomSyncConfig(limit, required);
  }

  /** The inner loop of the union: one type's keys. */
  method CombineType(before: StateMap, t: string, keys: set<string>,
                     ghost a: StateMap, ghost b: StateMap, ghost done: set<Entry>)
    returns (required: StateMap, ghost done': set<Entry>)
    requires Joined(a, b, done, before) && t in b && keys == b[t]
    requires WILDCARD !in KeysOf(before, WILDCARD) && WILDCARD !in KeysOf(before, t)
    requires !(t == WILDCARD && WILDCARD in keys)
    ensures Joined(a, b, done', required)
    ensures done' == done + set k | k in b[t] :: Entry(t, k)
  {
    required := before;
    done' := done;
    var rest := keys;
    while rest != {}
      invariant rest <= keys
      invariant Joined(a, b, done', required)
      invariant WILDCARD !in KeysOf(required, WILDCARD) && WILDCARD !in KeysOf(required, t)
      invariant done' == done + set k | k in b[t] - rest :: Entry(t, k)
      decreases rest
    {
      var key :| key in rest;
      rest := rest - {key};
      var e := Entry(t, key);
      ghost var m := required;
      JoinStep(a, b, done', m, e);
      done' := done' + {e};
      if key in KeysOf(required, WILDCARD) {
        continue;
      }
      if t == WILDCARD {
        required := DropStateKey(required, key);
      }
      if key == WILDCARD {
        required := required[t := {WILDCARD}];
        assert required == AddEntry(m, e);
        JoinSkip(a, b, done', required, t);
        done' := done + set k | k in b[t] :: Entry(t, k);
        return;
      }
      required := required[t := KeysOf(required, t) + {key}];
      assert required == AddEntry(m, e);
    }
  }

  /** The least config that covers every one of a set: meaning, limit and normal form. */
  ghost predicate IsJoin(cfgs: set<RoomSyncConfig>, r: RoomSyncConfig) {
    && Normal(r.requiredState)
    && (forall t, k :: t != WILDCARD && k != WILDCARD ==>
         (Covers(r.requiredState, t, k) <==> exists c :: c in cfgs && Covers(c.requiredState, t, k)))
    && (exists c :: c in cfgs && c.timelineLimit == r.timelineLimit)
    && (forall c :: c in cfgs ==> c.timelineLimit <= r.timelineLimit)
  }

  /** So whatever order the lists of a request are folded in, the result is one config; it is
      an upper bound of each, and below every other upper bound. */
  lemma JoinUnique(cfgs: set<RoomSyncConfig>, r: RoomSyncConfig, q: RoomSyncConfig)
    requires IsJoin(cfgs, r) && IsJoin(cfgs, q)
    ensures r == q
  {
    Canonical(r.requiredState, q.requiredState);
  }

  lemma JoinIsLeast(cfgs: set<RoomSyncConfig>, r: RoomSyncConfig, u: RoomSyncConfig)
    requires IsJoin(cfgs, r)
    ensures forall c :: c in cfgs ==> Within(c.requiredState, r.requiredState) && c.timelineLimit <= r.timelineLimit
    ensures (forall c :: c in cfgs ==> Within(c.requiredState, u.requiredState) && c.timelineLimit <= u.timelineLimit)
            ==> Within(r.requiredState, u.requiredState) && r.timelineLimit <= u.timelineLimit
  {
  }

  /** Folds the configs that name one room, as the list loop does. */
  method CombineAll(cfgs: seq<RoomSyncConfig>) returns (r: RoomSyncConfig)
    requires cfgs != [] && forall c :: c in cfgs ==> Normal(c.requiredState)
    ensures IsJoin(Elements(cfgs), r)
  {
    r := cfgs[0];
    for i := 1 to |cfgs|
      invariant IsJoin(Elements(cfgs[..i]), r)
    {
      ghost var before := Elements(cfgs[..i]);
      assert cfgs[..i + 1] == cfgs[..i] + [cfgs[i]];
      assert Elements(cfgs[..i + 1]) == before + {cfgs[i]};
      r := CombineRoomSyncConfig(r, cfgs[i]);
    }
    assert cfgs[..|cfgs|] == cfgs;
  }

  ghost predicate Grown(prev: RoomSyncConfig, cfg: RoomSyncConfig) {
    cfg.timelineLimit > prev.timelineLimit || !Within(cfg.requiredState, prev.requiredState)
  }

  /** The test for a config that has grown: combining it with the stored config changes the
      stored one exactly when it asks for uncovered state or for a longer timeline. The stored
      config need not be normal. */
  method HasGrown(prev: RoomSyncConfig, cfg: RoomSyncConfig) returns (grown: bool)
    ensures grown <==> Grown(prev, cfg)
  {
    var combined := CombineRoomSyncConfig(prev, cfg);
    grown := combined != prev;
    if combined == prev {
      forall t, k | t != WILDCARD && k != WILDCARD && Covers(cfg.requiredState, t, k)
        ensures Covers(prev.requiredState, t, k)
      {
        assert Covers(combined.requiredState, t, k);
      }
    }
  }

  // ---------------------------------------------------------- stored encoding

  predicate EntryLess(a: Entry, b: Entry) {
    if a.typ != b.typ then Less(a.typ, b.typ) else Less(a.key, b.key)
  }

  lemma EntryLessStrict()
    ensures StrictOrder(EntryLess) && Total(EntryLess)
  {
    LessStrict();
  }

  /** The sorted pair list a map is stored as. */
  ghost predicate IsEncoding(m: StateMap, encoded: seq<Entry>) {
    Ascending(EntryLess, encoded) && forall e :: e in encoded <==> HasEntry(m, e)
  }

  method EncodeRequiredState(required: StateMap) returns (encoded: seq<Entry>)
    ensures IsEncoding(required, encoded)
  {
    var pairs: set<Entry> := set t, k | t in required && k in required[t] :: Entry(t, k);
    EntryLessStrict();
    encoded := SortSet(EntryLess, pairs);
    forall e
      ensures e in encoded <==> HasEntry(required, e)
    {
      if HasEntry(required, e) {
        assert e == Entry(e.typ, e.key);
      }
    }
  }

  method DecodeRequiredState(encoded: seq<Entry>) returns (m: StateMap)
    ensures NoEmpty(m) && forall e :: HasEntry(m, e) <==> e in encoded
  {
    m := map[];
    for i := 0 to |encoded|
      invariant NoEmpty(m) && forall e :: HasEntry(m, e) <==> e in encoded[..i]
    {
      assert encoded[..i + 1] == encoded[..i] + [encoded[i]];
      m := m[encoded[i].typ := KeysOf(m, encoded[i].typ) + {encoded[i].key}];
    }
    assert encoded[..|encoded|] == encoded;
  }

  /** Maps with the same entries have one encoding, so rooms that ask for the same state share
      a row; and an encoding stands for exactly one map without empty types. */
  lemma EncodingBijective(m: StateMap, em: seq<Entry>, n: StateMap, en: seq<Entry>)
    requires IsEncoding(m, em) && IsEncoding(n, en) && NoEmpty(m) && NoEmpty(n)
    ensures em == en <==> m == n
  {
    EntryLessStrict();
    if m == n {
      AscendingUnique(EntryLess, em, en);
    }
    if em == en {
      SameEntries(m, n);
    }
  }

  lemma SameEntries(m: StateMap, n: StateMap)
    requires NoEmpty(m) && NoEmpty(n)
    requires forall e :: HasEntry(m, e) <==> HasEntry(n, e)
    ensures m == n
  {
    forall t
      ensures KeysOf(m, t) == KeysOf(n, t)
    {
      forall k
        ensures k in KeysOf(m, t) <==> k in KeysOf(n, t)
      {
        assert HasEntry(m, Entry(t, k)) <==> HasEntry(n, Entry(t, k));
      }
    }
    assert forall t :: t in m <==> KeysOf(m, t) != {};
    assert forall t :: t in n <==> KeysOf(n, t) != {};
    assert forall t :: t in m ==> m[t] == KeysOf(m, t) == n[t];
  }
}
