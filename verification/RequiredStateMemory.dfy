/** Membership under lazy loading, and what a connection's config remembers over a whole run. */
module RequiredStateMemory {
  import opened Common
  import opened StringOrder
  import opened RoomConfig
  import opened RequiredState
  import opened RequiredStateDelivery

  // ------------------------------------------------------------ lazy members

  /** The client holds the memberships of these users current. */
  ghost predicate HoldsMembers(users: set<string>, held: iset<StateKey>) {
    forall u :: u in users ==> StateKey(MEMBER, u) in held
  }

  /** The plan loads members lazily; one that takes all state does not get as far as `$LAZY`. */
  predicate LazyLoads(d: DiffInput) {
    WILDCARD !in d.request && LAZY in d.Req(MEMBER)
  }

  /** The members a response puts on the record: those the timeline made relevant and the explicit
      ones handed over. */
  ghost function NewlyRecorded(d: DiffInput): set<string> {
    if LazyLoads(d) then d.wantLazy + d.ExtraLazy() else {}
  }

  /** The lazy-member record after a response. What is recorded need not be what the diff was told
      was sent; without lazy loading the record is left alone. */
  ghost function LazyRecord(d: DiffInput, recorded: set<string>): set<string> {
    (if LazyLoads(d) then recorded - d.Invalidated() else recorded) + NewlyRecorded(d)
  }

  /** The inputs of one response, of a client that holds what the stored config covers and every
      membership recorded. */
  ghost predicate LazyTurn(d: DiffInput, v: View, recorded: set<string>, held: iset<StateKey>) {
    && WellFormed(d) && HoldsStored(d, held) && HoldsMembers(recorded, held) && d.sentLazy <= recorded
    && d.wantLazy == PlanLazy(d.user, d.request, v, d.ChangedKeys(MEMBER))
  }

  /** A membership recorded before, and not invalidated for being known as sent, moves unsent. */
  ghost predicate GoesStale(d: DiffInput, v: View, recorded: set<string>, u: string) {
    && u in recorded && (LazyLoads(d) ==> u !in d.sentLazy) && Concrete(StateKey(MEMBER, u))
    && u in d.ChangedKeys(MEMBER) && !PlanWants(d.user, d.request, v, StateKey(MEMBER, u))
  }

  /** Every membership on the record afterwards is held current. */
  ghost predicate RecordSound(d: DiffInput, v: View, recorded: set<string>, held: iset<StateKey>) {
    forall u :: u in LazyRecord(d, recorded) && Concrete(StateKey(MEMBER, u)) ==> HeldAfter(d, v, held, StateKey(MEMBER, u))
  }

  lemma WantedMemberAdded(d: DiffInput, u: string)
    requires WILDCARD !in d.prev && WILDCARD !in d.request
    requires u in d.wantLazy && u !in d.sentLazy && u !in d.ExplicitBefore()
    ensures d.Adds(MEMBER, u)
  {
  }

  lemma WantedMemberHeld(d: DiffInput, v: View, recorded: set<string>, held: iset<StateKey>, u: string)
    requires LazyTurn(d, v, recorded, held)
    requires u in d.wantLazy && Concrete(StateKey(MEMBER, u))
    ensures HeldAfter(d, v, held, StateKey(MEMBER, u))
  {
    hide DiffInput.Adds;
    var k := StateKey(MEMBER, u);
    assert PlanWants(d.user, d.request, v, k);
    if InDeltas(d, k) || u in d.sentLazy {
    } else if u in d.ExplicitBefore() || WILDCARD in d.prev {
      assert StateCovers(d.user, d.prev, k);
    } else {
      WantedMemberAdded(d, u);
    }
  }

  /** One entry of the record is held unless it went stale. */
  lemma RecordedMember(d: DiffInput, v: View, recorded: set<string>, held: iset<StateKey>, u: string)
    requires LazyTurn(d, v, recorded, held)
    requires u in LazyRecord(d, recorded) && Concrete(StateKey(MEMBER, u)) && !GoesStale(d, v, recorded, u)
    ensures HeldAfter(d, v, held, StateKey(MEMBER, u))
  {
    hide DiffInput.Adds, PlanLazy;
    if u in d.wantLazy {
      WantedMemberHeld(d, v, recorded, held, u);
    } else if u in NewlyRecorded(d) {
      assert u in d.ExtraLazy();
      assert StateCovers(d.user, d.prev, StateKey(MEMBER, u));
    } else {
      assert LazyLoads(d) && u in d.sentLazy ==> u !in d.ChangedKeys(MEMBER);
    }
  }

  /** And one that went stale stays on the record. */
  lemma StaleMember(d: DiffInput, v: View, recorded: set<string>, held: iset<StateKey>, u: string)
    requires GoesStale(d, v, recorded, u)
    ensures u in LazyRecord(d, recorded) && !HeldAfter(d, v, held, StateKey(MEMBER, u))
  {
    hide DiffInput.Adds, PlanWants;
  }

  /** After any response the record is sound exactly when no recorded membership moved unsent and
      uninvalidated. */
  lemma LazyMemorySoundIff(d: DiffInput, v: View, recorded: set<string>, held: iset<StateKey>)
    requires LazyTurn(d, v, recorded, held)
    ensures RecordSound(d, v, recorded, held) <==> !exists u :: GoesStale(d, v, recorded, u)
  {
    hide LazyTurn, GoesStale, LazyRecord, HeldAfter;
    if u :| GoesStale(d, v, recorded, u) {
      StaleMember(d, v, recorded, held, u);
      assert Concrete(StateKey(MEMBER, u)) by {
        StaleIsConcrete(d, v, recorded, u);
      }
    } else {
      forall u | u in LazyRecord(d, recorded) && Concrete(StateKey(MEMBER, u))
        ensures HeldAfter(d, v, held, StateKey(MEMBER, u))
      {
        RecordedMember(d, v, recorded, held, u);
      }
    }
  }

  lemma StaleIsConcrete(d: DiffInput, v: View, recorded: set<string>, u: string)
    requires GoesStale(d, v, recorded, u)
    ensures Concrete(StateKey(MEMBER, u))
  {
  }

  /** So if the diff is told everything recorded, a request with `$LAZY` keeps the record sound. */
  lemma LazyMemorySound(d: DiffInput, v: View, recorded: set<string>, held: iset<StateKey>)
    requires LazyTurn(d, v, recorded, held) && d.sentLazy == recorded && LAZY in d.Req(MEMBER)
    ensures RecordSound(d, v, recorded, held)
  {
    LazyMemorySoundIff(d, v, recorded, held);
    assert forall u :: !GoesStale(d, v, recorded, u);
    hide *;
  }

  /** But it is told nothing: then the record is sound exactly when no recorded membership moves in
      a response whose plan does not want it. */
  lemma LazyMemoryUntold(d: DiffInput, v: View, recorded: set<string>, held: iset<StateKey>)
    requires LazyTurn(d, v, recorded, held) && d.sentLazy == {}
    ensures RecordSound(d, v, recorded, held) <==>
      !exists u :: u in recorded && Concrete(StateKey(MEMBER, u)) && u in d.ChangedKeys(MEMBER)
                   && !PlanWants(d.user, d.request, v, StateKey(MEMBER, u))
  {
    LazyMemorySoundIff(d, v, recorded, held);
    hide RecordSound, LazyTurn, PlanWants, Concrete;
    assert forall u :: GoesStale(d, v, recorded, u) <==>
      u in recorded && Concrete(StateKey(MEMBER, u)) && u in d.ChangedKeys(MEMBER)
      && !PlanWants(d.user, d.request, v, StateKey(MEMBER, u));
  }

  /** The smallest such response: a member recorded before changes while the timeline has a gap. */
  lemma RecordGoesStaleExample()
    ensures var d := DiffInput("@u:h", map[MEMBER := {LAZY}], map[MEMBER := {LAZY}], {}, {}, map[MEMBER := {"@a:h"}]);
            var v, recorded := View({}, true), {"@a:h"};
            LazyTurn(d, v, recorded, iset{StateKey(MEMBER, "@a:h")}) && GoesStale(d, v, recorded, "@a:h")
  {
  }

  // --------------------------------------------------------- explicit members

  /** The least the client may hold: what the stored config and the lazy record vouch for. */
  ghost function WorstHeld(d: DiffInput): iset<StateKey> {
    iset k | StateCovers(d.user, d.prev, k) || (k.typ == MEMBER && k.key in d.sentLazy)
  }

  /** When `$LAZY` first appears, members named in the same request are not fetched. */
  ghost predicate Missed(d: DiffInput, u: string) {
    && WILDCARD !in d.prev && WILDCARD !in d.request
    && d.LazyAppears(MEMBER)
    && Concrete(StateKey(MEMBER, u))
    && KeysCover(d.user, d.Req(MEMBER), u)
    && !KeysCover(d.user, d.Old(MEMBER), u)
    && u !in d.sentLazy + d.wantLazy + d.ChangedKeys(MEMBER)
  }

  lemma NewExplicitMemberAdded(d: DiffInput, u: string)
    requires WILDCARD !in d.prev && WILDCARD !in d.request && Concrete(StateKey(MEMBER, u))
    requires KeysCover(d.user, d.Req(MEMBER), u) && !KeysCover(d.user, d.Old(MEMBER), u)
    requires !d.LazyAppears(MEMBER) && u !in d.sentLazy
    ensures d.FirstPassAdds(MEMBER, u)
  {
    assert WILDCARD in d.Fresh(MEMBER) || u in d.Fresh(MEMBER) || (ME in d.Fresh(MEMBER) && u == d.user);
  }

  /** For a member not covered, sent or changed before, what the diff adds. */
  lemma NewExplicitMember(d: DiffInput, u: string)
    requires WellFormed(d) && Concrete(StateKey(MEMBER, u))
    requires StateCovers(d.user, d.request, StateKey(MEMBER, u)) && !StateCovers(d.user, d.prev, StateKey(MEMBER, u))
    requires u !in d.sentLazy
    ensures d.Adds(MEMBER, u) <==> WILDCARD in d.request || !d.LazyAppears(MEMBER) || u in d.wantLazy
  {
    NotSame(d, u);
    if WILDCARD in d.request {
      AddsEverything(d, u);
    } else {
      AddsByType(d, u);
      hide DiffInput.Adds, DiffInput.FirstPassAdds, DiffInput.LazyAppears;
      NotExplicitBefore(d, u);
      if d.LazyAppears(MEMBER) {
        LazyAppearsAddsNone(d, u);
      } else {
        NewExplicitMemberAdded(d, u);
      }
    }
  }

  lemma NotSame(d: DiffInput, u: string)
    requires WellFormed(d)
    requires StateCovers(d.user, d.request, StateKey(MEMBER, u)) && !StateCovers(d.user, d.prev, StateKey(MEMBER, u))
    ensures !d.Same()
  {
    if d.Same() {
      SameMeansEqual(d);
      assert false;
    }
  }

  lemma AddsEverything(d: DiffInput, u: string)
    requires WellFormed(d) && !d.Same() && WILDCARD in d.request && WILDCARD !in d.prev
    ensures d.Adds(MEMBER, u)
  {
    hide DiffInput.FirstPassAdds, DiffInput.Same;
    assert d.request[WILDCARD] != {};
    assert d.Fresh(WILDCARD) != {};
  }

  lemma AddsByType(d: DiffInput, u: string)
    requires !d.Same() && WILDCARD !in d.request && WILDCARD !in d.prev
    ensures d.Adds(MEMBER, u) <==> d.FirstPassAdds(MEMBER, u) || u in d.wantLazy - d.sentLazy - d.ExplicitBefore()
  {
    hide DiffInput.FirstPassAdds, DiffInput.Same, DiffInput.ExplicitBefore;
    assert d.Old(WILDCARD) == d.Req(WILDCARD) == {};
  }

  lemma NotExplicitBefore(d: DiffInput, u: string)
    requires Concrete(StateKey(MEMBER, u)) && !StateCovers(d.user, d.prev, StateKey(MEMBER, u))
    ensures u !in d.ExplicitBefore()
  {
  }

  lemma LazyAppearsAddsNone(d: DiffInput, u: string)
    requires d.LazyAppears(MEMBER)
    ensures !d.FirstPassAdds(MEMBER, u)
  {
  }

  lemma ExplicitMember(d: DiffInput, v: View, u: string)
    requires WellFormed(d) && Concrete(StateKey(MEMBER, u))
    requires StateCovers(d.user, d.request, StateKey(MEMBER, u))
    ensures HeldAfter(d, v, WorstHeld(d), StateKey(MEMBER, u)) <==> !Missed(d, u)
  {
    var k := StateKey(MEMBER, u);
    assert PlanWants(d.user, d.request, v, k);
    if !InDeltas(d, k) && k !in WorstHeld(d) {
      NewExplicitMember(d, u);
    }
  }

  /** Explicitly requested members are all delivered exactly when none is missed. */
  lemma ExplicitMembersDelivered(d: DiffInput, v: View)
    requires WellFormed(d)
    ensures (forall u :: Concrete(StateKey(MEMBER, u)) && StateCovers(d.user, d.request, StateKey(MEMBER, u))
              ==> HeldAfter(d, v, WorstHeld(d), StateKey(MEMBER, u)))
            <==> !exists u :: Missed(d, u)
  {
    forall u | Concrete(StateKey(MEMBER, u)) && StateCovers(d.user, d.request, StateKey(MEMBER, u))
      ensures HeldAfter(d, v, WorstHeld(d), StateKey(MEMBER, u)) <==> !Missed(d, u)
    {
      ExplicitMember(d, v, u);
    }
  }

  /** The smallest failing input: `$LAZY` and a member asked for together. */
  lemma MissedExample()
    ensures var d := DiffInput("@u:h", map[], map[MEMBER := {LAZY, "@a:h"}], {}, {}, map[]);
            WellFormed(d) && Missed(d, "@a:h")
  {
  }

  /** What lazy loading is for: every membership the timeline makes relevant is held afterwards, unless
      it is one of those missed; and over a continuous timeline every membership that moved is. */
  lemma RelevantMembersHeld(d: DiffInput, v: View, recorded: set<string>, held: iset<StateKey>, u: string)
    requires LazyTurn(d, v, recorded, held) && LAZY in d.Req(MEMBER) && Concrete(StateKey(MEMBER, u))
    ensures u in v.users && !Missed(d, u) ==> HeldAfter(d, v, held, StateKey(MEMBER, u))
    ensures !v.gapped && u in d.ChangedKeys(MEMBER) ==> Sends(d, v, StateKey(MEMBER, u))
  {
    hide DiffInput.Adds, Missed;
    if u in v.users && !Missed(d, u) {
      if u in d.wantLazy {
        WantedMemberHeld(d, v, recorded, held, u);
      } else {
        assert StateCovers(d.user, d.request, StateKey(MEMBER, u));
        ExplicitMember(d, v, u);
      }
    }
  }

  /** The members a connection need not be sent again: named by its config, or on the record. */
  function Remembers(user: string, cfg: StateMap, record: set<string>): set<string> {
    Resolved(user, KeysOf(cfg, MEMBER)) + record
  }

  /** A response with `$LAZY` whose diff reports a change forgets no member whose membership did not
      move: one its config no longer names is handed over to the record. */
  lemma UnmovedMembersKept(d: DiffInput, recorded: set<string>, u: string)
    requires WellFormed(d) && LazyLoads(d) && !d.Wholesale() && d.Changed().Some?
    requires u in Remembers(d.user, d.prev, recorded) && u !in d.ChangedKeys(MEMBER)
    ensures u in Remembers(d.user, d.Changed().value, LazyRecord(d, recorded))
  {
    OverlayKeys(d, MEMBER);
    if u !in recorded {
      MemberChangeLazy(d);
      hide DiffInput.Remembered, DiffInput.Stale, DiffInput.Wholesale, DiffInput.Changed;
    }
  }

  lemma MemberChangeLazy(d: DiffInput)
    requires LAZY in d.Req(MEMBER)
    ensures d.TypeChange(MEMBER).Some? ==> LAZY in d.TypeChange(MEMBER).value
  {
    NextKeysRequested(d, MEMBER);
    hide DiffInput.Remembered, DiffInput.Stale;
  }

  /** A dropped instruction, `*` for a type or `$LAZY`, is inherited exactly while the type neither gains
      a key nor has any state that moved. */
  lemma DroppedInstructionKeptIff(d: DiffInput, t: string, k: string)
    requires k == WILDCARD || (t == MEMBER && k == LAZY)
    requires k in d.Old(t) - d.Req(t)
    ensures k in d.NextKeys(t) <==> d.Req(t) <= d.Old(t) && t !in d.deltas
  {
    FreshIff(d, t);
    if d.Fresh(t) != {} && !d.LazyAppears(t) {
      RememberedIsOld(d, t);
    }
    hide DiffInput.Remembered, DiffInput.Stale;
  }

  lemma FreshIff(d: DiffInput, t: string)
    ensures d.Fresh(t) == {} <==> d.Req(t) <= d.Old(t)
  {
    if d.Fresh(t) == {} {
      assert forall x :: x in d.Req(t) && x !in d.Old(t) ==> x in d.Fresh(t);
    }
  }

  /** With `$LAZY` before and after and no member newly named, a dropped one stays in the config exactly
      as long as no dropped membership moved. When `$LAZY` appears, only the requested ones are stored. */
  lemma LazyMemberKeptIff(d: DiffInput, u: string)
    requires LAZY in d.Req(MEMBER) && u in d.Old(MEMBER) - d.Req(MEMBER) && u !in {WILDCARD, LAZY}
    requires d.Req(MEMBER) <= d.Old(MEMBER) && (WILDCARD in d.Old(MEMBER) ==> WILDCARD in d.Req(MEMBER))
    ensures u in d.NextKeys(MEMBER) <==>
      forall x :: x in d.Old(MEMBER) - d.Req(MEMBER) ==>
        x !in KeysOf(d.deltas, MEMBER) && !(x == ME && d.user in KeysOf(d.deltas, MEMBER))
  {
    FreshIff(d, MEMBER);
    hide DiffInput.Remembered;
    if x :| x in d.Stale(MEMBER) {
      assert x in d.Old(MEMBER) - d.Req(MEMBER);
    } else {
      forall x | x in d.Old(MEMBER) - d.Req(MEMBER)
        ensures x !in KeysOf(d.deltas, MEMBER) && !(x == ME && d.user in KeysOf(d.deltas, MEMBER))
      {
        assert x !in d.Stale(MEMBER);
      }
    }
  }

  lemma LazyAppearsStoresRequest(d: DiffInput)
    requires LAZY in d.Req(MEMBER) - d.Old(MEMBER)
    ensures d.NextKeys(MEMBER) == d.Req(MEMBER)
  {
    assert LAZY in d.Fresh(MEMBER);
  }

  // ------------------------------------------------- remembering, over a run

  /** One response's request and what changed in the room before it. */
  datatype Turn = Turn(request: StateMap, sentLazy: set<string>, wantLazy: set<string>, deltas: StateMap)

  function Input(user: string, cfg: StateMap, turn: Turn): DiffInput {
    DiffInput(user, cfg, turn.request, turn.sentLazy, turn.wantLazy, turn.deltas)
  }

  /** The config after a response when no change means "leave the stored one alone". */
  ghost function Keep(user: string, cfg: StateMap, turn: Turn): StateMap {
    var changed := Input(user, cfg, turn).Changed();
    if changed.Some? then changed.value else cfg
  }

  ghost function KeepAll(user: string, cfg: StateMap, turns: seq<Turn>): StateMap
    decreases |turns|
  {
    if turns == [] then cfg else KeepAll(user, Keep(user, cfg, turns[0]), turns[1..])
  }

  lemma RememberedSize(d: DiffInput, t: string, bound: nat)
    requires MAX_REMEMBERED_STATE_KEYS <= bound && |d.Req(t)| <= bound
    ensures |d.Remembered(t)| <= bound
  {
    if |d.Req(t)| < MAX_REMEMBERED_STATE_KEYS {
      var space := MAX_REMEMBERED_STATE_KEYS - |d.Req(t)|;
      FirstSize(d.Inheritable(t), space);
      UnionSize(d.Req(t), First(d.Inheritable(t), space));
    }
  }

  lemma NextKeysBounded(d: DiffInput, t: string, bound: nat)
    requires MAX_REMEMBERED_STATE_KEYS <= bound && |d.Old(t)| <= bound && |d.Req(t)| <= bound
    ensures |d.NextKeys(t)| <= bound
  {
    NextKeysCases(d, t);
    var next := d.NextKeys(t);
    if next == d.Remembered(t) {
      RememberedSize(d, t, bound);
    } else if next <= d.Old(t) {
      SubsetSize(next, d.Old(t));
    }
  }

  lemma NextKeysCases(d: DiffInput, t: string)
    ensures d.NextKeys(t) == d.Remembered(t) || d.NextKeys(t) == d.Req(t) || d.NextKeys(t) <= d.Old(t)
  {
    hide DiffInput.Remembered, DiffInput.Stale, DiffInput.Fresh, DiffInput.LazyAppears, DiffInput.Old, DiffInput.Req;
  }

  lemma KeepBounded(user: string, cfg: StateMap, turn: Turn, t: string, bound: nat)
    requires MAX_REMEMBERED_STATE_KEYS <= bound && |KeysOf(cfg, t)| <= bound && |KeysOf(turn.request, t)| <= bound
    ensures |KeysOf(Keep(user, cfg, turn), t)| <= bound
  {
    var d := Input(user, cfg, turn);
    if d.Changed().Some? && !d.Wholesale() {
      NextKeysBounded(d, t, bound);
      OverlayKeys(d, t);
    }
  }

  lemma UnionSize<T>(a: set<T>, b: set<T>)
    ensures |a + b| <= |a| + |b|
  {
  }

  /** Over any run, a type keeps at most the cap or the largest set a request named for it. */
  lemma {:induction false} RememberedBounded(user: string, cfg: StateMap, turns: seq<Turn>, t: string, bound: nat)
    requires MAX_REMEMBERED_STATE_KEYS <= bound && |KeysOf(cfg, t)| <= bound
    requires forall turn :: turn in turns ==> |KeysOf(turn.request, t)| <= bound
    ensures |KeysOf(KeepAll(user, cfg, turns), t)| <= bound
    decreases |turns|
  {
    if turns != [] {
      assert turns[0] in turns;
      KeepBounded(user, cfg, turns[0], t, bound);
      RememberedBounded(user, Keep(user, cfg, turns[0]), turns[1..], t, bound);
    }
  }

  /** A real state key of a type other than membership. */
  predicate Ordinary(t: string, k: string) {
    t != MEMBER && t != WILDCARD && k !in {WILDCARD, LAZY, ME}
  }

  /** No wildcard anywhere the type's keys are decided. */
  predicate Plain(m: StateMap, t: string) {
    WILDCARD !in m && WILDCARD !in KeysOf(m, t)
  }

  /** The cap does not cut a stored key: the type gained nothing, so nothing is cut; or everything
      fits; or the key is among the first that do. */
  ghost predicate CapKeeps(d: DiffInput, t: string, k: string) {
    || d.Fresh(t) == {}
    || |d.Req(t) + d.Inheritable(t)| <= MAX_REMEMBERED_STATE_KEYS
    || (|d.Req(t)| < MAX_REMEMBERED_STATE_KEYS && k in First(d.Inheritable(t), MAX_REMEMBERED_STATE_KEYS - |d.Req(t)|))
  }

  /** What decides whether a stored key stays stored: it is requested, or it was dropped while its
      state did not move and the cap does not cut it. */
  ghost predicate StaysStored(d: DiffInput, t: string, k: string) {
    k in d.Req(t) || (k !in d.ChangedKeys(t) && CapKeeps(d, t, k))
  }

  lemma RememberedIff(d: DiffInput, t: string, k: string)
    requires Ordinary(t, k) && k in d.Old(t) && d.Fresh(t) != {}
    ensures k in d.Remembered(t) <==> StaysStored(d, t, k)
  {
    if |d.Req(t)| < MAX_REMEMBERED_STATE_KEYS {
      FirstSize(d.Inheritable(t), MAX_REMEMBERED_STATE_KEYS - |d.Req(t)|);
    }
  }

  lemma NextKeysIff(d: DiffInput, t: string, k: string)
    requires Ordinary(t, k) && k in d.Old(t) && WILDCARD !in d.Old(t) && WILDCARD !in d.Req(t)
    ensures k in d.NextKeys(t) <==> StaysStored(d, t, k)
  {
    if d.Fresh(t) != {} {
      RememberedIff(d, t, k);
      hide DiffInput.Remembered, StaysStored, DiffInput.Stale;
      assert d.TypeChange(t) == Some(d.Remembered(t));
    } else {
      assert k in d.Stale(t) <==> k !in d.Req(t) && k in d.ChangedKeys(t);
      assert t !in d.deltas ==> d.ChangedKeys(t) == {};
      hide DiffInput.Remembered, DiffInput.Stale;
    }
  }

  /** Nothing records a type the diff does not change. */
  lemma UnchangedKeys(d: DiffInput, t: string)
    requires d.Changed().None? && !d.Same() && !d.Wholesale()
    ensures d.NextKeys(t) == d.Old(t)
  {
    hide DiffInput.Remembered, DiffInput.Stale;
    if t in d.AllTypes() {
      assert d.TypeChange(t).None?;
    }
  }

  /** One turn, exactly: a stored key is stored afterwards if and only if it is requested, or its
      state did not move and the cap does not cut it. */
  lemma TurnKeepsIff(user: string, cfg: StateMap, turn: Turn, t: string, k: string)
    requires Ordinary(t, k) && k in KeysOf(cfg, t) && Plain(cfg, t) && Plain(turn.request, t)
    ensures k in KeysOf(Keep(user, cfg, turn), t) <==> StaysStored(Input(user, cfg, turn), t, k)
  {
    var d := Input(user, cfg, turn);
    hide DiffInput.NextKeys, DiffInput.AnyChange, CapKeeps;
    if d.Same() {
      assert k in d.Req(t);
    } else {
      assert d.Old(WILDCARD) == d.Req(WILDCARD) == {};
      NextKeysIff(d, t, k);
      hide StaysStored, DiffInput.Same;
      if d.Changed().Some? {
        OverlayKeys(d, t);
      } else {
        UnchangedKeys(d, t);
      }
    }
  }

  lemma KeepPlain(user: string, cfg: StateMap, turn: Turn, t: string)
    requires t != WILDCARD && Plain(cfg, t) && Plain(turn.request, t)
    ensures Plain(Keep(user, cfg, turn), t)
  {
    var d := Input(user, cfg, turn);
    assert d.Old(WILDCARD) == d.Req(WILDCARD) == {};
    if d.Changed().Some? && !d.Wholesale() {
      OverlayKeys(d, t);
      if WILDCARD in d.NextKeys(t) {
        NextKeysWithin(d, t, WILDCARD);
        assert false;
      }
    }
  }

  /** Every turn of a run keeps the key, each judged against the config stored by then. */
  ghost predicate RunStaysStored(user: string, cfg: StateMap, turns: seq<Turn>, t: string, k: string)
    decreases |turns|
  {
    turns == [] ||
    (StaysStored(Input(user, cfg, turns[0]), t, k) && RunStaysStored(user, Keep(user, cfg, turns[0]), turns[1..], t, k))
  }

  /** The key is stored at the start and after every turn. */
  ghost predicate StoredThroughout(user: string, cfg: StateMap, turns: seq<Turn>, t: string, k: string)
    decreases |turns|
  {
    k in KeysOf(cfg, t) && (turns == [] || StoredThroughout(user, Keep(user, cfg, turns[0]), turns[1..], t, k))
  }

  /** Over any run without wildcards for the type, a stored key stays stored throughout exactly when
      every turn requests it, or leaves its state alone and does not cut it at the cap. */
  lemma {:induction false} StoredThroughoutIff(user: string, cfg: StateMap, turns: seq<Turn>, t: string, k: string)
    requires Ordinary(t, k) && k in KeysOf(cfg, t) && Plain(cfg, t)
    requires forall turn :: turn in turns ==> Plain(turn.request, t)
    ensures StoredThroughout(user, cfg, turns, t, k) <==> RunStaysStored(user, cfg, turns, t, k)
    ensures Plain(KeepAll(user, cfg, turns), t)
    ensures StoredThroughout(user, cfg, turns, t, k) ==> k in KeysOf(KeepAll(user, cfg, turns), t)
    decreases |turns|
  {
    hide StaysStored, Keep, Plain;
    if turns != [] {
      assert turns[0] in turns;
      var next := Keep(user, cfg, turns[0]);
      TurnKeepsIff(user, cfg, turns[0], t, k);
      KeepPlain(user, cfg, turns[0], t);
      if k in KeysOf(next, t) {
        StoredThroughoutIff(user, next, turns[1..], t, k);
      } else {
        KeepAllPlain(user, next, turns[1..], t);
      }
    }
  }

  lemma {:induction false} KeepAllPlain(user: string, cfg: StateMap, turns: seq<Turn>, t: string)
    requires t != WILDCARD && Plain(cfg, t) && forall turn :: turn in turns ==> Plain(turn.request, t)
    ensures Plain(KeepAll(user, cfg, turns), t)
    decreases |turns|
  {
    hide Keep, Plain;
    if turns != [] {
      assert turns[0] in turns;
      KeepPlain(user, cfg, turns[0], t);
      KeepAllPlain(user, Keep(user, cfg, turns[0]), turns[1..], t);
    }
  }

  /** Asking for a key fetches it exactly when it is not stored, or when it is the user's own and
      `$ME` is asked for at the same time. */
  lemma FetchedIff(d: DiffInput, t: string, k: string)
    requires WellFormed(d) && Ordinary(t, k) && k in d.Req(t) && Plain(d.prev, t) && Plain(d.request, t)
    ensures d.Adds(t, k) <==> k !in d.Old(t) || (k == d.user && ME in d.Fresh(t))
  {
    if d.Same() {
      SameMeansEqual(d);
      hide DiffInput.FirstPassAdds;
      assert d.Old(t) == d.Req(t);
    } else {
      hide DiffInput.Same;
      assert d.Old(WILDCARD) == d.Req(WILDCARD) == d.Fresh(WILDCARD) == {};
      assert d.Adds(t, k) <==> d.FirstPassAdds(t, k);
      assert d.FirstPassAdds(t, k) <==> k in d.Fresh(t) || (ME in d.Fresh(t) && k == d.user);
    }
  }

  /** A dropped key is remembered exactly as long as the run gives no reason to forget it, and then
      asking for it again fetches nothing, beyond a `$ME` asked for at the same time. */
  lemma DroppedKeyRemembered(user: string, cfg: StateMap, turns: seq<Turn>, again: Turn, t: string, k: string)
    requires Ordinary(t, k) && k in KeysOf(cfg, t) && Plain(cfg, t) && Plain(again.request, t)
    requires forall turn :: turn in turns ==> Plain(turn.request, t)
    requires WellFormed(Input(user, KeepAll(user, cfg, turns), again)) && k in KeysOf(again.request, t)
    ensures StoredThroughout(user, cfg, turns, t, k) <==> RunStaysStored(user, cfg, turns, t, k)
    ensures var d := Input(user, KeepAll(user, cfg, turns), again);
            && (RunStaysStored(user, cfg, turns, t, k) ==> k in d.Old(t))
            && (d.Adds(t, k) <==> k !in d.Old(t) || (k == user && ME in d.Fresh(t)))
  {
    hide StaysStored, Plain;
    StoredThroughoutIff(user, cfg, turns, t, k);
    FetchedIff(Input(user, KeepAll(user, cfg, turns), again), t, k);
  }

  // ------------------------------------------------------ what the resolver keeps

  /** The resolver stores the request when the diff reports no change. */
  ghost function ResolverStores(d: DiffInput): StateMap {
    if d.Changed().Some? then d.Changed().value else d.request
  }

  /** Some type gained a key; or lost one, with state of the type moving, that is an instruction or
      whose own state moved. */
  ghost predicate SomethingMoves(d: DiffInput) {
    exists t :: t in d.AllTypes() && (d.Fresh(t) != {} || LostSomething(d, t))
  }

  ghost predicate LostSomething(d: DiffInput, t: string) {
    && t in d.deltas
    && exists k :: k in d.Old(t) - d.Req(t)
         && (|| k == WILDCARD || (t == MEMBER && k == LAZY)
             || k in d.ChangedKeys(t) || (k == ME && d.user in d.ChangedKeys(t)))
  }

  lemma TypeMovesIff(d: DiffInput, t: string)
    ensures d.TypeChange(t).Some? <==> d.Fresh(t) != {} || LostSomething(d, t)
  {
    hide DiffInput.Remembered;
    if d.Fresh(t) == {} {
      assert forall k :: k in d.Req(t) ==> k in d.Old(t) by {
        assert forall k :: k in d.Req(t) && k !in d.Old(t) ==> k in d.Fresh(t);
      }
      assert (WILDCARD in d.Old(t)) != (WILDCARD in d.Req(t)) ==> WILDCARD in d.Old(t) - d.Req(t);
      assert (LAZY in d.Old(t)) != (LAZY in d.Req(t)) ==> LAZY in d.Old(t) - d.Req(t);
      if k :| k in d.Stale(t) {
        assert k in d.Old(t) - d.Req(t);
      }
      if LostSomething(d, t) {
        var k :| k in d.Old(t) - d.Req(t)
          && (|| k == WILDCARD || (t == MEMBER && k == LAZY)
              || k in d.ChangedKeys(t) || (k == ME && d.user in d.ChangedKeys(t)));
        assert k in d.ChangedKeys(t) || (k == ME && d.user in d.ChangedKeys(t)) ==> k in d.Stale(t);
      }
    }
  }

  lemma AnyChangeIff(d: DiffInput)
    ensures d.AnyChange() <==> SomethingMoves(d)
  {
    hide DiffInput.TypeChange, LostSomething;
    forall t | t in d.AllTypes()
      ensures d.TypeChange(t).Some? <==> d.Fresh(t) != {} || LostSomething(d, t)
    {
      TypeMovesIff(d, t);
    }
  }

  /** Through the resolver a dropped key stays stored exactly when something else gave the diff a
      change to report, its own state did not move, and the cap does not cut it. */
  lemma ResolverKeepsDropped(d: DiffInput, t: string, k: string)
    requires WellFormed(d) && Ordinary(t, k) && k in d.Old(t) - d.Req(t) && Plain(d.prev, t) && Plain(d.request, t)
    ensures k in KeysOf(ResolverStores(d), t) <==> SomethingMoves(d) && k !in d.ChangedKeys(t) && CapKeeps(d, t, k)
    ensures Plain(ResolverStores(d), t)
  {
    if d.Same() {
      SameMeansEqual(d);
      assert false;
    }
    assert d.Old(WILDCARD) == d.Req(WILDCARD) == {};
    AnyChangeIff(d);
    NextKeysIff(d, t, k);
    if WILDCARD in d.NextKeys(t) {
      NextKeysWithin(d, t, WILDCARD);
      assert false;
    }
    hide SomethingMoves, CapKeeps, DiffInput.NextKeys, DiffInput.AnyChange;
    if d.AnyChange() {
      OverlayKeys(d, t);
    }
  }

  /** So asking for it again fetches it, although the client may still hold it, exactly when nothing
      else moved, its own state did, or the cap cut it. */
  lemma ResolverForgetsDropped(d: DiffInput, again: DiffInput, t: string, k: string)
    requires WellFormed(d) && Ordinary(t, k) && k in d.Old(t) - d.Req(t) && Plain(d.prev, t) && Plain(d.request, t)
    requires WellFormed(again) && again.prev == ResolverStores(d) && k in again.Req(t) && Plain(again.request, t)
    ensures again.Adds(t, k) <==>
      !SomethingMoves(d) || k in d.ChangedKeys(t) || !CapKeeps(d, t, k) || (k == again.user && ME in again.Fresh(t))
  {
    ResolverKeepsDropped(d, t, k);
    hide SomethingMoves, CapKeeps, ResolverStores;
    FetchedIff(again, t, k);
  }

  /** The smallest such run: a topic dropped and asked for again. */
  lemma ResolverForgetsExample()
    ensures exists d: DiffInput, t, k ::
      WellFormed(d) && k in d.Old(t) - d.Req(t) && d.deltas == map[] && d.Changed() == None && k !in KeysOf(ResolverStores(d), t)
  {
    var d := DiffInput("@u:h", map["m.room.topic" := {""}, "m.room.name" := {""}], map["m.room.name" := {""}], {}, {}, map[]);
    assert d.Fresh("m.room.topic") == {} && d.Fresh("m.room.name") == {};
    assert d.AllTypes() == {"m.room.topic", "m.room.name"};
    assert |d.prev.Keys| == 2 && |d.request.Keys| == 1;
    assert !d.AnyChange();
    assert "" in d.Old("m.room.topic") - d.Req("m.room.topic");
  }
}
