/** The required-state diff of a sliding sync room: given what a connection was last told to
    expect in a room and what it asks for now, what to fetch, what to remember. */
module RequiredState {
  import opened Common
  import opened StringOrder
  import opened RoomConfig

  const LAZY := "$LAZY"
  const ME := "$ME"
  const MEMBER := "m.room.member"
  const MAX_REMEMBERED_STATE_KEYS: nat := 100

  datatype StateKey = StateKey(typ: string, key: string)

  // ------------------------------------------------------------ state filter

  /** A filter entry; no key means every state key of the type. */
  datatype TypeAndKey = TypeAndKey(typ: string, key: Option<string>)

  datatype KeyChoice = Every | Only(keys: set<string>)

  datatype StateFilter = AllState | Types(types: map<string, KeyChoice>) {
    predicate Wants(t: string, k: string) {
      AllState? || (t in types && (types[t].Every? || k in types[t].keys))
    }

    predicate IsEmpty() {
      Types? && types == map[]
    }
  }

  const NO_STATE := Types(map[])

  ghost predicate Listed(entries: seq<TypeAndKey>, t: string, k: string) {
    exists e :: e in entries && e.typ == t && (e.key == None || e.key == Some(k))
  }

  lemma ListedAppend(a: seq<TypeAndKey>, b: seq<TypeAndKey>, t: string, k: string)
    ensures Listed(a + b, t, k) <==> Listed(a, t, k) || Listed(b, t, k)
  {
    if Listed(a, t, k) {
      var e :| e in a && e.typ == t && (e.key == None || e.key == Some(k));
      assert e in a + b;
    }
    if Listed(b, t, k) {
      var e :| e in b && e.typ == t && (e.key == None || e.key == Some(k));
      assert e in a + b;
    }
  }

  lemma ListedSingle(e: TypeAndKey, t: string, k: string)
    ensures Listed([e], t, k) <==> e.typ == t && (e.key == None || e.key == Some(k))
  {
    assert e in [e];
  }

  method StateFilterFromTypes(entries: seq<TypeAndKey>) returns (f: StateFilter)
    ensures f.Types?
    ensures forall t, k :: f.Wants(t, k) <==> Listed(entries, t, k)
  {
    f := Types(map[]);
    for i := 0 to |entries|
      invariant f.Types?
      invariant forall t, k :: f.Wants(t, k) <==> Listed(entries[..i], t, k)
    {
      var e := entries[i];
      ghost var before := f;
      if e.key == None {
        f := Types(f.types[e.typ := Every]);
      } else if e.typ in f.types && f.types[e.typ].Every? {
      } else {
        var keys := if e.typ in f.types then f.types[e.typ].keys else {};
        f := Types(f.types[e.typ := Only(keys + {e.key.value})]);
      }
      forall t, k
        ensures f.Wants(t, k) <==> Listed(entries[..i + 1], t, k)
      {
        assert entries[..i + 1] == entries[..i] + [e];
        ListedAppend(entries[..i], [e], t, k);
        ListedSingle(e, t, k);
        assert before.Wants(t, k) <==> Listed(entries[..i], t, k);
      }
    }
    assert entries[..|entries|] == entries;
  }

  // -------------------------------------------------- what the diff computes

  /** The state keys a set of keys names, with `$ME` resolved and instructions dropped. */
  function Resolved(user: string, keys: set<string>): set<string> {
    keys - {WILDCARD, LAZY, ME} + if ME in keys then {user} else {}
  }

  /** The inputs of one diff. `deltas` is the set of (type, state_key) pairs that changed in the
      token range, grouped by type. */
  datatype DiffInput = DiffInput(
    user: string,
    prev: StateMap,
    request: StateMap,
    sentLazy: set<string>,
    wantLazy: set<string>,
    deltas: StateMap)
  {
    function Old(t: string): set<string> {
      KeysOf(prev, t)
    }

    function Req(t: string): set<string> {
      KeysOf(request, t)
    }

    function ChangedKeys(t: string): set<string> {
      KeysOf(deltas, t)
    }

    function Fresh(t: string): set<string> {
      Req(t) - Old(t)
    }

    predicate Same() {
      |prev| == |request| && forall t :: t in prev ==> prev[t] == KeysOf(request, t)
    }

    /** The branches that take the request as it is. */
    predicate Wholesale() {
      Same() || WILDCARD in Old(WILDCARD) || Old(WILDCARD) != Req(WILDCARD)
    }

    predicate LazyAppears(t: string) {
      t == MEMBER && LAZY !in Old(t) && LAZY in Req(t)
    }

    function Inheritable(t: string): set<string> {
      Old(t) - {WILDCARD, LAZY} - (Old(t) - Req(t)) * ChangedKeys(t)
    }

    /** The requested keys plus those still worth remembering, within the cap. */
    ghost function Remembered(t: string): set<string> {
      if |Req(t) + Inheritable(t)| <= MAX_REMEMBERED_STATE_KEYS then Req(t) + Inheritable(t)
      else if |Req(t)| < MAX_REMEMBERED_STATE_KEYS then
        Req(t) + First(Inheritable(t), MAX_REMEMBERED_STATE_KEYS - |Req(t)|)
      else Req(t)
    }

    /** Dropped keys whose state moved, a change to the user counting as one to `$ME`. */
    function Stale(t: string): set<string> {
      (Old(t) - Req(t)) * (ChangedKeys(t) + if user in ChangedKeys(t) then {ME} else {})
    }

    /** What the two passes record for one type. */
    ghost function TypeChange(t: string): Option<set<string>> {
      if Old(t) == Req(t) then None
      else if Fresh(t) != {} then Some(if LazyAppears(t) then Req(t) else Remembered(t))
      else if t !in deltas then None
      else if (WILDCARD in Old(t)) != (WILDCARD in Req(t)) then Some(Req(t))
      else if t == MEMBER && (LAZY in Old(t)) != (LAZY in Req(t)) then Some(Req(t))
      else if t == MEMBER && LAZY in Old(t) && Stale(t) != {} then Some(Req(t))
      else if Stale(t) != {} then Some(Old(t) - Stale(t))
      else None
    }

    ghost function NextKeys(t: string): set<string> {
      if TypeChange(t).Some? then TypeChange(t).value else Old(t)
    }

    function AllTypes(): set<string> {
      prev.Keys + request.Keys
    }

    ghost predicate AnyChange() {
      exists t :: t in AllTypes() && TypeChange(t).Some?
    }

    ghost function Overlay(): StateMap {
      map t | t in AllTypes() && (if TypeChange(t).Some? then TypeChange(t).value != {} else t in prev) :: NextKeys(t)
    }

    ghost function Changed(): Option<StateMap> {
      if Same() then None
      else if Wholesale() then Some(request)
      else if AnyChange() then Some(Overlay())
      else None
    }

    ghost predicate FirstPassAdds(t: string, k: string) {
      && Fresh(t) != {} && !LazyAppears(t) && WILDCARD !in Old(t)
      && (|| WILDCARD in Req(t)
          || (k in Fresh(t) && k != ME && k != LAZY && (t == MEMBER ==> k !in sentLazy))
          || (ME in Fresh(t) && k == user))
    }

    function ExplicitBefore(): set<string> {
      Old(MEMBER) + if ME in Old(MEMBER) then {user} else {}
    }

    ghost predicate Adds(t: string, k: string) {
      if Same() then t == MEMBER && k in wantLazy - sentLazy
      else if WILDCARD in Old(WILDCARD) then false
      else if Fresh(WILDCARD) != {} then true
      else if Old(WILDCARD) != Req(WILDCARD) then false
      else FirstPassAdds(t, k) || (t == MEMBER && k in wantLazy - sentLazy - ExplicitBefore())
    }

    function Invalidated(): set<string> {
      (sentLazy - wantLazy) * ChangedKeys(MEMBER)
    }

    ghost function ExtraLazy(): set<string> {
      if !Wholesale() && TypeChange(MEMBER).Some? && TypeChange(MEMBER).value != {} && LAZY in Req(MEMBER) then
        Resolved(user, Old(MEMBER)) - ChangedKeys(MEMBER)
      else {}
    }
  }

  datatype RequiredStateChanges = RequiredStateChanges(
    changed: Option<StateMap>,
    added: StateFilter,
    extraLazy: set<string>,
    invalidatedLazy: set<string>)

  ghost predicate IsDiff(d: DiffInput, r: RequiredStateChanges) {
    && r.changed == d.Changed()
    && (forall t, k :: r.added.Wants(t, k) <==> d.Adds(t, k))
    && r.extraLazy == d.ExtraLazy()
    && r.invalidatedLazy == d.Invalidated()
  }

  // ------------------------------------------------------------------ the code

  /** Keeps the requested keys and backfills with the first inheritable ones. */
  method Backfill(req: set<string>, inheritable: set<string>, space: nat) returns (keys: set<string>)
    ensures keys == req + First(inheritable, space)
  {
    hide Elements, Sorted, Ascending, Less;
    keys := req;
    var sorted := SortedKeys(inheritable);
    var i := 0;
    ElementsGrow(sorted);
    while i < |sorted| && i < space
      invariant 0 <= i <= |sorted| && i <= space
      invariant keys == req + Elements(sorted[..i])
    {
      keys := keys + {sorted[i]};
      i := i + 1;
    }
    SortedUnique(inheritable, sorted);
    assert sorted[..|sorted|] == sorted;
    ElementsAll(sorted, inheritable);
  }

  method RememberKeys(d: DiffInput, t: string) returns (keys: set<string>)
    ensures keys == d.Remembered(t)
  {
    var req, inheritable := d.Req(t), d.Inheritable(t);
    keys := req + inheritable;
    if |keys| > MAX_REMEMBERED_STATE_KEYS {
      keys := req;
      if |req| < MAX_REMEMBERED_STATE_KEYS {
        keys := Backfill(req, inheritable, MAX_REMEMBERED_STATE_KEYS - |req|);
      }
    }
  }

  /** What one newly requested key asks to be fetched. */
  predicate KeyAdds(d: DiffInput, t: string, key: string, k: string) {
    if key == ME then k == d.user
    else key != LAZY && k == key && (t == MEMBER ==> key !in d.sentLazy)
  }

  lemma KeysAdd(d: DiffInput, t: string, k: string)
    requires d.Fresh(t) != {} && !d.LazyAppears(t) && WILDCARD !in d.Old(t) && WILDCARD !in d.Req(t)
    ensures d.FirstPassAdds(t, k) <==> exists key :: key in d.Fresh(t) && KeyAdds(d, t, key, k)
  {
    if ME in d.Fresh(t) {
      assert KeyAdds(d, t, ME, d.user);
    }
    if k in d.Fresh(t) && k != ME && k != LAZY && (t == MEMBER ==> k !in d.sentLazy) {
      assert KeyAdds(d, t, k, k);
    }
  }

  /** The state to fetch for the keys one type gained. */
  method AddedForType(d: DiffInput, t: string) returns (added: seq<TypeAndKey>)
    requires d.Fresh(t) != {} && !d.LazyAppears(t)
    ensures forall t', k :: Listed(added, t', k) <==> (t' == t && d.FirstPassAdds(t, k))
  {
    added := [];
    if WILDCARD in d.Old(t) {
      return;
    }
    if WILDCARD in d.Req(t) {
      forall t', k
        ensures Listed([TypeAndKey(t, None)], t', k) <==> t' == t
      {
        ListedSingle(TypeAndKey(t, None), t', k);
      }
      return [TypeAndKey(t, None)];
    }
    var rest := d.Fresh(t);
    while rest != {}
      invariant rest <= d.Fresh(t)
      invariant forall t', k :: Listed(added, t', k) <==>
        (t' == t && exists key :: key in d.Fresh(t) - rest && KeyAdds(d, t, key, k))
      decreases rest
    {
      var key :| key in rest;
      var more := if key == ME then [TypeAndKey(t, Some(d.user))]
                  else if key == LAZY then []
                  else if t == MEMBER && key in d.sentLazy then []
                  else [TypeAndKey(t, Some(key))];
      forall t', k
        ensures Listed(added + more, t', k) <==>
          (t' == t && exists key' :: key' in d.Fresh(t) - (rest - {key}) && KeyAdds(d, t, key', k))
      {
        ListedAppend(added, more, t', k);
        if more != [] {
          ListedSingle(more[0], t', k);
        }
        assert Listed(more, t', k) <==> t' == t && KeyAdds(d, t, key, k);
      }
      added := added + more;
      rest := rest - {key};
    }
    forall t', k
      ensures Listed(added, t', k) <==> (t' == t && d.FirstPassAdds(t, k))
    {
      KeysAdd(d, t, k);
      assert d.Fresh(t) - rest == d.Fresh(t);
    }
  }

  ghost predicate FirstPassDone(d: DiffInput, types: set<string>, changes: map<string, set<string>>, added: seq<TypeAndKey>) {
    && (forall t :: t in changes <==> t in types && d.Fresh(t) != {})
    && (forall t :: t in changes ==> d.TypeChange(t) == Some(changes[t]))
    && (forall t, k :: Listed(added, t, k) <==> (t in types && d.FirstPassAdds(t, k)))
  }

  lemma FirstPassStep(d: DiffInput, types: set<string>, t: string,
                      changes: map<string, set<string>>, added: seq<TypeAndKey>,
                      keys: set<string>, more: seq<TypeAndKey>)
    requires FirstPassDone(d, types, changes, added)
    requires d.Fresh(t) != {} && d.TypeChange(t) == Some(keys)
    requires forall t', k :: Listed(more, t', k) <==> (t' == t && d.FirstPassAdds(t, k))
    ensures FirstPassDone(d, types + {t}, changes[t := keys], added + more)
  {
    hide DiffInput.TypeChange, DiffInput.FirstPassAdds, Listed;
    forall t', k
      ensures Listed(added + more, t', k) <==> (t' in types + {t} && d.FirstPassAdds(t', k))
    {
      ListedAppend(added, more, t', k);
    }
  }

  method FirstPass(d: DiffInput) returns (changes: map<string, set<string>>, added: seq<TypeAndKey>)
    ensures forall t :: t in changes <==> d.Fresh(t) != {}
    ensures forall t :: t in changes ==> d.TypeChange(t) == Some(changes[t])
    ensures forall t, k :: Listed(added, t, k) <==> d.FirstPassAdds(t, k)
  {
    changes, added := map[], [];
    var rest := d.AllTypes();
    while rest != {}
      invariant rest <= d.AllTypes()
      invariant FirstPassDone(d, d.AllTypes() - rest, changes, added)
      decreases rest
    {
      var t :| t in rest;
      ghost var types := d.AllTypes() - rest;
      rest := rest - {t};
      assert d.AllTypes() - rest == types + {t};
      if d.Old(t) == d.Req(t) || d.Fresh(t) == {} {
        continue;
      }
      var keys, more := d.Req(t), [];
      if !d.LazyAppears(t) {
        keys := RememberKeys(d, t);
        more := AddedForType(d, t);
      }
      FirstPassStep(d, types, t, changes, added, keys, more);
      changes := changes[t := keys];
      added := added + more;
    }
    assert d.AllTypes() - rest == d.AllTypes();
  }

  /** The second pass for one type: what was removed while its state moved. */
  method SecondPassFor(d: DiffInput, t: string) returns (change: Option<set<string>>)
    requires d.Fresh(t) == {} && t in d.deltas
    ensures change == d.TypeChange(t)
  {
    var before, req := d.Old(t), d.Req(t);
    if before == req {
      return None;
    }
    var changed := d.ChangedKeys(t);
    if d.user in changed {
      changed := changed + {ME};
    }
    var invalidated := (before - req) * changed;
    assert invalidated == d.Stale(t);
    if (WILDCARD in before) != (WILDCARD in req) {
      return Some(req);
    }
    if t == MEMBER {
      if (LAZY in before) != (LAZY in req) {
        return Some(req);
      }
      if (LAZY in before || LAZY in req) && invalidated != {} {
        return Some(req);
      }
    }
    change := if invalidated != {} then Some(before - invalidated) else None;
  }

  ghost predicate AreChanges(d: DiffInput, changes: map<string, set<string>>) {
    && (forall t :: t in changes <==> d.TypeChange(t).Some?)
    && (forall t :: t in changes ==> d.TypeChange(t) == Some(changes[t]))
  }

  method SecondPass(d: DiffInput, first: map<string, set<string>>) returns (changes: map<string, set<string>>)
    requires forall t :: t in first <==> d.Fresh(t) != {}
    requires forall t :: t in first ==> d.TypeChange(t) == Some(first[t])
    ensures AreChanges(d, changes)
  {
    changes := first;
    var rest := d.deltas.Keys;
    while rest != {}
      invariant rest <= d.deltas.Keys
      invariant forall t :: t in changes <==>
        (d.TypeChange(t).Some? && (d.Fresh(t) != {} || (t in d.deltas && t !in rest)))
      invariant forall t :: t in changes ==> d.TypeChange(t) == Some(changes[t])
      decreases rest
    {
      var t :| t in rest;
      rest := rest - {t};
      if d.Fresh(t) != {} {
        continue;
      }
      var change := SecondPassFor(d, t);
      if change.Some? {
        changes := changes[t := change.value];
      }
    }
  }

  /** Lays the recorded changes over the previous map, an empty set deleting its type. */
  method ApplyChanges(prev: StateMap, changes: map<string, set<string>>) returns (m: StateMap)
    ensures m == Laid(prev, changes)
  {
    m := prev;
    var rest := changes.Keys;
    while rest != {}
      invariant rest <= changes.Keys
      invariant forall t :: t in m <==>
        if t in changes && t !in rest then changes[t] != {} else t in prev
      invariant forall t :: t in m ==> m[t] == if t in changes && t !in rest then changes[t] else prev[t]
      decreases rest
    {
      var t :| t in rest;
      m := if changes[t] != {} then m[t := changes[t]] else m - {t};
      rest := rest - {t};
    }
  }

  ghost function Laid(prev: StateMap, changes: map<string, set<string>>): StateMap {
    map t | t in prev.Keys + changes.Keys && (t in changes ==> changes[t] != {}) ::
      if t in changes then changes[t] else prev[t]
  }

  lemma OverlayIsLaid(d: DiffInput, changes: map<string, set<string>>)
    requires AreChanges(d, changes)
    ensures d.Overlay() == Laid(d.prev, changes)
  {
    var o, l := d.Overlay(), Laid(d.prev, changes);
    forall t
      ensures t in o <==> t in l
    {
      assert t in changes <==> d.TypeChange(t).Some?;
    }
    forall t | t in o
      ensures o[t] == l[t]
    {
      assert t in changes <==> d.TypeChange(t).Some?;
    }
  }

  method ExtraLazyMembers(d: DiffInput) returns (extra: set<string>)
    ensures extra == Resolved(d.user, d.Old(MEMBER)) - d.ChangedKeys(MEMBER)
  {
    extra := {};
    var rest := d.Old(MEMBER);
    while rest != {}
      invariant rest <= d.Old(MEMBER)
      invariant extra == Resolved(d.user, d.Old(MEMBER) - rest) - d.ChangedKeys(MEMBER)
      decreases rest
    {
      var key :| key in rest;
      if key != WILDCARD && key != LAZY {
        var u := if key == ME then d.user else key;
        if u !in d.ChangedKeys(MEMBER) {
          extra := extra + {u};
        }
      }
      rest := rest - {key};
    }
  }

  method LazyToAdd(users: set<string>) returns (added: seq<TypeAndKey>)
    ensures forall t, k :: Listed(added, t, k) <==> (t == MEMBER && k in users)
  {
    added := [];
    var rest := users;
    while rest != {}
      invariant rest <= users
      invariant forall t, k :: Listed(added, t, k) <==> (t == MEMBER && k in users - rest)
      decreases rest
    {
      var u :| u in rest;
      var e := TypeAndKey(MEMBER, Some(u));
      forall t, k
        ensures Listed(added + [e], t, k) <==> (t == MEMBER && k in users - (rest - {u}))
      {
        ListedAppend(added, [e], t, k);
        ListedSingle(e, t, k);
      }
      added := added + [e];
      rest := rest - {u};
    }
  }

  /** Lazy members whose membership moved but is not being sent. */
  method InvalidatedLazy(d: DiffInput) returns (invalidated: set<string>)
    ensures invalidated == d.Invalidated()
  {
    invalidated := {};
    var rest := d.ChangedKeys(MEMBER);
    while rest != {}
      invariant rest <= d.ChangedKeys(MEMBER)
      invariant invalidated == (d.sentLazy - d.wantLazy) * (d.ChangedKeys(MEMBER) - rest)
      decreases rest
    {
      var u :| u in rest;
      if u !in d.wantLazy && u in d.sentLazy {
        invalidated := invalidated + {u};
      }
      rest := rest - {u};
    }
  }

  method AddedFilter(d: DiffInput, added: seq<TypeAndKey>) returns (f: StateFilter)
    requires !d.Wholesale()
    requires forall t, k :: Listed(added, t, k) <==> d.FirstPassAdds(t, k)
    ensures forall t, k :: f.Wants(t, k) <==> d.Adds(t, k)
  {
    var lazy := LazyToAdd(d.wantLazy - d.sentLazy - d.ExplicitBefore());
    f := StateFilterFromTypes(added + lazy);
    forall t, k
      ensures f.Wants(t, k) <==> d.Adds(t, k)
    {
      ListedAppend(added, lazy, t, k);
    }
  }

  /** Diffs a room's stored required state against the request's. */
  method ComputeRequiredStateChanges(d: DiffInput) returns (r: RequiredStateChanges)
    ensures IsDiff(d, r)
  {
    var invalidatedLazy := InvalidatedLazy(d);
    if d.Same() {
      var lazy := LazyToAdd(d.wantLazy - d.sentLazy);
      var f := StateFilterFromTypes(lazy);
      return RequiredStateChanges(None, f, {}, invalidatedLazy);
    }
    if WILDCARD in d.Old(WILDCARD) {
      return RequiredStateChanges(Some(d.request), NO_STATE, {}, invalidatedLazy);
    }
    if d.Fresh(WILDCARD) != {} {
      return RequiredStateChanges(Some(d.request), AllState, {}, invalidatedLazy);
    }
    if d.Old(WILDCARD) - d.Req(WILDCARD) != {} {
      return RequiredStateChanges(Some(d.request), NO_STATE, {}, invalidatedLazy);
    }
    assert d.Old(WILDCARD) == d.Req(WILDCARD);
    r := MergedChanges(d, invalidatedLazy);
  }

  /** The two passes, when no type wildcard moved. */
  method MergedChanges(d: DiffInput, invalidatedLazy: set<string>) returns (r: RequiredStateChanges)
    requires !d.Wholesale() && invalidatedLazy == d.Invalidated()
    ensures IsDiff(d, r)
  {
    var changes, added := FirstPass(d);
    var f := AddedFilter(d, added);
    changes := SecondPass(d, changes);
    var extra := NewlyLazy(d, changes);
    var newMap := NewMap(d, changes);
    r := RequiredStateChanges(newMap, f, extra, invalidatedLazy);
  }

  method NewlyLazy(d: DiffInput, changes: map<string, set<string>>) returns (extra: set<string>)
    requires !d.Wholesale() && AreChanges(d, changes)
    ensures extra == d.ExtraLazy()
  {
    extra := {};
    if MEMBER in changes && changes[MEMBER] != {} && LAZY in d.Req(MEMBER) {
      extra := ExtraLazyMembers(d);
    }
  }

  method NewMap(d: DiffInput, changes: map<string, set<string>>) returns (newMap: Option<StateMap>)
    requires !d.Wholesale() && AreChanges(d, changes)
    ensures newMap == d.Changed()
  {
    ChangesExist(d, changes);
    newMap := None;
    if changes != map[] {
      OverlayIsLaid(d, changes);
      var m := ApplyChanges(d.prev, changes);
      newMap := Some(m);
    }
  }

  lemma ChangesExist(d: DiffInput, changes: map<string, set<string>>)
    requires AreChanges(d, changes)
    ensures changes != map[] <==> d.AnyChange()
  {
    if changes != map[] {
      var t :| t in changes;
      assert t in d.AllTypes() && d.TypeChange(t).Some?;
    }
  }
}
