/** What the required-state diff promises a client: which state it holds after a response, what
    a connection remembers between responses, and how much. */
module RequiredStateDelivery {
  import opened Common
  import opened StringOrder
  import opened RoomConfig
  import opened RequiredState

  // ---------------------------------------------------------------- the plan

  datatype TimelineEvent = TimelineEvent(sender: string, typ: string, isState: bool, stateKey: string)

  datatype Plan = Plan(
    all: bool,
    keys: set<StateKey>,
    wildcardTypes: set<string>,
    lazyLoad: bool,
    lazyUsers: set<string>,
    explicitUsers: set<string>)
  {
    predicate Wants(k: StateKey) {
      all || k.typ in wildcardTypes || k in keys
    }
  }

  /** The senders of a timeline and the subjects of its membership changes. */
  function TimelineUsers(timeline: seq<TimelineEvent>): set<string> {
    (set e | e in timeline :: e.sender) + (set e | e in timeline && e.typ == MEMBER && e.isState :: e.stateKey)
  }

  /** The part of one response's input that is not in the diff. `gapped`: limited or initial. */
  datatype View = View(users: set<string>, gapped: bool)

  /** The state a config asks to be sent for one response. */
  predicate PlanWants(user: string, cfg: StateMap, v: View, k: StateKey) {
    || WILDCARD in cfg
    || WILDCARD in KeysOf(cfg, k.typ)
    || (k.typ == MEMBER && LAZY in KeysOf(cfg, MEMBER) && (!v.gapped || k.key in v.users))
    || k.key in Resolved(user, KeysOf(cfg, k.typ))
  }

  function PlanLazy(user: string, cfg: StateMap, v: View, memberDeltas: set<string>): set<string> {
    if WILDCARD in cfg || LAZY !in KeysOf(cfg, MEMBER) then {}
    else v.users + (if v.gapped then {} else memberDeltas) - Resolved(user, KeysOf(cfg, MEMBER))
  }

  ghost predicate PlanSoFar(user: string, walked: StateMap, v: View, memberDeltas: set<string>, p: Plan) {
    && !p.all
    && (forall k :: p.Wants(k) <==> PlanWants(user, walked, v, k))
    && (p.lazyLoad <==> LAZY in KeysOf(walked, MEMBER))
    && p.lazyUsers == (if p.lazyLoad then v.users + (if v.gapped then {} else memberDeltas) else {})
    && p.explicitUsers == Resolved(user, KeysOf(walked, MEMBER))
  }

  /** Adds one config entry to the plan. */
  method PlanEntry(user: string, t: string, key: string, v: View, memberDeltas: set<string>, before: Plan,
                   ghost walked: StateMap) returns (p: Plan)
    requires t != WILDCARD && WILDCARD !in walked
    requires PlanSoFar(user, walked, v, memberDeltas, before)
    ensures PlanSoFar(user, walked[t := KeysOf(walked, t) + {key}], v, memberDeltas, p)
  {
    p := before;
    ghost var after := walked[t := KeysOf(walked, t) + {key}];
    ResolvedAdd(user, KeysOf(walked, t), key);
    if key == WILDCARD {
      p := p.(wildcardTypes := p.wildcardTypes + {t});
    } else if t == MEMBER && key == LAZY {
      p := p.(lazyLoad := true, lazyUsers := p.lazyUsers + v.users);
      if v.gapped {
        p := p.(keys := p.keys + set u | u in v.users :: StateKey(MEMBER, u));
      } else {
        p := p.(wildcardTypes := p.wildcardTypes + {MEMBER}, lazyUsers := p.lazyUsers + memberDeltas);
      }
    } else if key == LAZY {
    } else {
      var normalised := if key == ME then user else key;
      if t == MEMBER {
        p := p.(explicitUsers := p.explicitUsers + {normalised});
      }
      p := p.(keys := p.keys + {StateKey(t, normalised)});
    }
    forall k
      ensures p.Wants(k) <==> PlanWants(user, after, v, k)
    {
      assert before.Wants(k) <==> PlanWants(user, walked, v, k);
      if t == MEMBER && key == LAZY && v.gapped {
        assert k in p.keys <==> k in before.keys || (k.typ == MEMBER && k.key in v.users);
      }
    }
  }

  lemma ResolvedAdd(user: string, keys: set<string>, key: string)
    ensures Resolved(user, keys + {key}) ==
            Resolved(user, keys) + if key in {WILDCARD, LAZY} then {} else {if key == ME then user else key}
  {
  }

  /** Works out what to fetch for a room. */
  method PlanRequiredState(user: string, cfg: StateMap, timeline: seq<TimelineEvent>,
                           memberDeltas: set<string>, gapped: bool) returns (p: Plan)
    ensures p.all <==> WILDCARD in cfg
    ensures forall k :: p.Wants(k) <==> PlanWants(user, cfg, View(TimelineUsers(timeline), gapped), k)
    ensures p.lazyLoad <==> WILDCARD !in cfg && LAZY in KeysOf(cfg, MEMBER)
    ensures p.lazyUsers == PlanLazy(user, cfg, View(TimelineUsers(timeline), gapped), memberDeltas)
  {
    p := Plan(false, {}, {}, false, {}, {});
    if WILDCARD in cfg {
      return p.(all := true);
    }
    var v := View(TimelineUsers(timeline), gapped);
    ghost var walked: StateMap := map[];
    var types := cfg.Keys;
    while types != {}
      invariant types <= cfg.Keys
      invariant WILDCARD !in walked && PlanSoFar(user, walked, v, memberDeltas, p)
      invariant forall t :: t in types ==> t !in walked
      invariant forall t :: t !in types ==> KeysOf(walked, t) == KeysOf(cfg, t)
      decreases types
    {
      var t :| t in types;
      var keys := cfg[t];
      while keys != {}
        invariant keys <= cfg[t]
        invariant WILDCARD !in walked && PlanSoFar(user, walked, v, memberDeltas, p)
        invariant KeysOf(walked, t) == cfg[t] - keys
        invariant forall t' :: t' in types && t' != t ==> t' !in walked
        invariant forall t' :: t' !in types ==> KeysOf(walked, t') == KeysOf(cfg, t')
        decreases keys
      {
        var key :| key in keys;
        p := PlanEntry(user, t, key, v, memberDeltas, p, walked);
        walked := walked[t := KeysOf(walked, t) + {key}];
        keys := keys - {key};
      }
      types := types - {t};
    }
    assert forall t :: KeysOf(walked, t) == KeysOf(cfg, t);
    assert forall k :: PlanWants(user, walked, v, k) <==> PlanWants(user, cfg, v, k);
    p := p.(lazyUsers := p.lazyUsers - p.explicitUsers);
  }

  // ------------------------------------------------------ what the client holds

  /** A real state key of a real type, not an instruction. */
  predicate Concrete(k: StateKey) {
    k.typ != WILDCARD && k.key !in {WILDCARD, LAZY, ME}
  }

  /** The state a stored config vouches for; any type wildcard fetches all state. */
  predicate StateCovers(user: string, cfg: StateMap, k: StateKey) {
    WILDCARD in cfg || WILDCARD in KeysOf(cfg, k.typ) || k.key in Resolved(user, KeysOf(cfg, k.typ))
  }

  ghost predicate WellFormed(d: DiffInput) {
    NoEmpty(d.prev) && NoEmpty(d.request) && d.user !in {WILDCARD, LAZY, ME}
  }

  predicate InDeltas(d: DiffInput, k: StateKey) {
    k.key in d.ChangedKeys(k.typ)
  }

  /** Deltas and newly required state go out, narrowed to what the plan wants. */
  ghost predicate Sends(d: DiffInput, v: View, k: StateKey) {
    (InDeltas(d, k) || d.Adds(k.typ, k.key)) && PlanWants(d.user, d.request, v, k)
  }

  /** The client's copy of `k` is current after the response, if `held` was current before it. */
  ghost predicate HeldAfter(d: DiffInput, v: View, held: iset<StateKey>, k: StateKey) {
    Sends(d, v, k) || (k in held && !InDeltas(d, k))
  }

  ghost predicate HoldsStored(d: DiffInput, held: iset<StateKey>) {
    forall k :: Concrete(k) && StateCovers(d.user, d.prev, k) ==> k in held
  }

  lemma SameMeansEqual(d: DiffInput)
    requires NoEmpty(d.prev) && d.Same()
    ensures d.prev == d.request
  {
    forall t | t in d.prev
      ensures t in d.request && d.request[t] == d.prev[t]
    {
      assert d.prev[t] != {};
    }
    assert d.prev.Keys <= d.request.Keys;
    assert |d.prev.Keys| == |d.request.Keys|;
    SubsetOfSameSize(d.prev.Keys, d.request.Keys);
  }

  lemma NewlyCoveredIsAdded(d: DiffInput, k: StateKey)
    requires WellFormed(d) && Concrete(k) && k.typ != MEMBER
    requires StateCovers(d.user, d.request, k) && !StateCovers(d.user, d.prev, k)
    ensures d.Adds(k.typ, k.key)
  {
    if d.Same() {
      SameMeansEqual(d);
      assert false;
    } else if WILDCARD in d.request {
      assert d.request[WILDCARD] != {};
      assert d.Fresh(WILDCARD) != {};
    } else {
      var t := k.typ;
      if WILDCARD in d.Req(t) {
        assert WILDCARD in d.Fresh(t);
      } else if k.key in d.Req(t) {
        assert k.key in d.Fresh(t);
      } else {
        assert ME in d.Fresh(t) && k.key == d.user;
      }
      assert d.FirstPassAdds(t, k.key);
    }
  }

  /** Everything the request covers outside membership is current after the response. */
  lemma RequestedStateDelivered(d: DiffInput, v: View, held: iset<StateKey>, k: StateKey)
    requires WellFormed(d) && HoldsStored(d, held)
    requires Concrete(k) && k.typ != MEMBER && StateCovers(d.user, d.request, k)
    ensures HeldAfter(d, v, held, k)
  {
    if !InDeltas(d, k) && !StateCovers(d.user, d.prev, k) {
      NewlyCoveredIsAdded(d, k);
    }
  }

  /** The configs the connection may hold next: the changed one, or when there is none the old
      one (the diff's reading of "leave alone") or the request (what the resolver stores). */
  ghost predicate StoredNext(d: DiffInput, cfg: StateMap) {
    if d.Changed().Some? then cfg == d.Changed().value else cfg == d.prev || cfg == d.request
  }

  ghost predicate MeSurvivesCap(d: DiffInput, t: string) {
    || |d.Req(t) + d.Inheritable(t)| <= MAX_REMEMBERED_STATE_KEYS
    || (|d.Req(t)| < MAX_REMEMBERED_STATE_KEYS
        && ME in First(d.Inheritable(t), MAX_REMEMBERED_STATE_KEYS - |d.Req(t)|))
  }

  /** The first pass inherits `$ME` although the user's own state of that type moved unsent. */
  ghost predicate StaleMe(d: DiffInput, t: string) {
    && WILDCARD !in d.prev && WILDCARD !in d.request
    && t != MEMBER && d.Fresh(t) != {} && WILDCARD !in d.Req(t)
    && ME in d.Old(t) - d.Req(t) - d.ChangedKeys(t)
    && d.user in d.ChangedKeys(t) - d.Req(t)
    && MeSurvivesCap(d, t)
  }

  predicate KeysCover(user: string, keys: set<string>, k: string) {
    WILDCARD in keys || k in Resolved(user, keys)
  }

  lemma NextKeysWithin(d: DiffInput, t: string, k: string)
    requires k in d.NextKeys(t) && k !in d.Req(t)
    ensures k in d.Old(t)
  {
    if d.TypeChange(t).Some? && d.Fresh(t) != {} {
      RememberedIsOld(d, t);
    }
  }

  lemma CoverSplit(user: string, next: set<string>, req: set<string>, prev: set<string>, k: string)
    requires (forall x :: x in next ==> x in req || x in prev) && KeysCover(user, next, k) && !KeysCover(user, req, k)
    ensures KeysCover(user, prev, k)
  {
  }

  /** The second pass keeps no dropped key whose state moved. */
  lemma SecondPassForgets(d: DiffInput, t: string)
    requires d.Fresh(t) == {} && t in d.deltas
    ensures d.NextKeys(t) !! d.Stale(t)
    ensures WILDCARD in d.NextKeys(t) ==> WILDCARD in d.Req(t)
    ensures d.NextKeys(t) <= d.Old(t)
  {
    forall k | k in d.Req(t)
      ensures k in d.Old(t)
    {
      assert k !in d.Fresh(t);
    }
  }

  lemma ForgottenUncovered(d: DiffInput, t: string, next: set<string>, k: string)
    requires next <= d.Old(t) && next !! d.Stale(t) && k in d.ChangedKeys(t)
    requires WILDCARD in next ==> WILDCARD in d.Req(t)
    requires KeysCover(d.user, next, k)
    ensures KeysCover(d.user, d.Req(t), k)
  {
  }

  /** The first pass forgets dropped keys whose state moved, but not `$ME` for its user. */
  lemma FirstPassForgets(d: DiffInput, t: string, k: string)
    requires k !in {WILDCARD, LAZY, ME} && k in d.ChangedKeys(t)
    requires KeysCover(d.user, d.Remembered(t), k) && !KeysCover(d.user, d.Req(t), k)
    ensures k == d.user && ME in d.Remembered(t) - d.Req(t)
  {
    RememberedIsOld(d, t);
    assert k !in d.Req(t) && k !in d.Inheritable(t);
  }

  /** Only an inherited `$ME` can be remembered while its state moves unsent. */
  lemma UnsentMeansStaleMe(d: DiffInput, t: string, k: string)
    requires WellFormed(d) && WILDCARD !in d.prev && WILDCARD !in d.request
    requires t != MEMBER && k !in {WILDCARD, LAZY, ME} && k in d.ChangedKeys(t)
    requires KeysCover(d.user, d.NextKeys(t), k) && !KeysCover(d.user, d.Req(t), k)
    ensures StaleMe(d, t)
  {
    if d.Fresh(t) == {} {
      SecondPassForgets(d, t);
      ForgottenUncovered(d, t, d.NextKeys(t), k);
    } else {
      FirstPassForgets(d, t, k);
      RememberedIsOld(d, t);
    }
  }

  /** Without type wildcards, the stored keys of one type vouch only for current state. */
  lemma NextKeysHeld(d: DiffInput, v: View, held: iset<StateKey>, k: StateKey)
    requires WellFormed(d) && HoldsStored(d, held)
    requires WILDCARD !in d.prev && WILDCARD !in d.request
    requires Concrete(k) && k.typ != MEMBER && !StaleMe(d, k.typ)
    requires KeysCover(d.user, d.NextKeys(k.typ), k.key)
    ensures HeldAfter(d, v, held, k)
  {
    if KeysCover(d.user, d.Req(k.typ), k.key) {
      RequestedStateDelivered(d, v, held, k);
    } else if InDeltas(d, k) {
      UnsentMeansStaleMe(d, k.typ, k.key);
      assert false;
    } else {
      forall x | x in d.NextKeys(k.typ) && x !in d.Req(k.typ)
        ensures x in d.Old(k.typ)
      {
        NextKeysWithin(d, k.typ, x);
      }
      CoverSplit(d.user, d.NextKeys(k.typ), d.Req(k.typ), d.Old(k.typ), k.key);
    }
  }

  lemma RememberedIsOld(d: DiffInput, t: string)
    ensures forall k :: k in d.Remembered(t) ==> k in d.Req(t) || k in d.Inheritable(t)
    ensures ME in d.Remembered(t) - d.Req(t) ==> ME in d.Inheritable(t) && MeSurvivesCap(d, t)
  {
    if |d.Req(t)| < MAX_REMEMBERED_STATE_KEYS {
      FirstSize(d.Inheritable(t), MAX_REMEMBERED_STATE_KEYS - |d.Req(t)|);
    }
  }

  lemma OverlayKeys(d: DiffInput, t: string)
    ensures KeysOf(d.Overlay(), t) == d.NextKeys(t)
    ensures d.Old(WILDCARD) == d.Req(WILDCARD) ==> (WILDCARD in d.Overlay() <==> WILDCARD in d.prev)
  {
  }

  /** A stored config that differs from the request covers the room type by type. */
  lemma StoredKeys(d: DiffInput, cfg: StateMap, t: string)
    requires WellFormed(d) && StoredNext(d, cfg) && cfg != d.request
    ensures KeysOf(cfg, t) == d.NextKeys(t)
    ensures WILDCARD in cfg <==> WILDCARD in d.prev
    ensures WILDCARD in d.prev <==> WILDCARD in d.request
  {
    if d.Same() {
      SameMeansEqual(d);
    }
    assert !d.Wholesale();
    assert WILDCARD in d.prev <==> d.Old(WILDCARD) != {};
    assert WILDCARD in d.request <==> d.Req(WILDCARD) != {};
    if d.AnyChange() {
      OverlayKeys(d, t);
    } else {
      assert t in d.AllTypes() ==> d.TypeChange(t).None?;
    }
  }

  lemma StoredKeyHeld(d: DiffInput, v: View, held: iset<StateKey>, cfg: StateMap, k: StateKey)
    requires WellFormed(d) && HoldsStored(d, held) && !StaleMe(d, k.typ)
    requires StoredNext(d, cfg) && Concrete(k) && k.typ != MEMBER && StateCovers(d.user, cfg, k)
    ensures HeldAfter(d, v, held, k)
  {
    if StateCovers(d.user, d.request, k) {
      RequestedStateDelivered(d, v, held, k);
    } else {
      StoredKeys(d, cfg, k.typ);
      NextKeysHeld(d, v, held, k);
    }
  }

  lemma StaleMeNotHeld(d: DiffInput, v: View, held: iset<StateKey>, t: string)
    requires WellFormed(d) && StaleMe(d, t)
    ensures var k := StateKey(t, d.user);
            d.Changed().Some? && Concrete(k) && StateCovers(d.user, d.Changed().value, k) && !HeldAfter(d, v, held, k)
  {
    StaleMeStored(d, t);
    var k := StateKey(t, d.user);
    assert !PlanWants(d.user, d.request, v, k);
  }

  lemma StaleMeStored(d: DiffInput, t: string)
    requires WellFormed(d) && StaleMe(d, t)
    ensures d.Changed().Some? && ME in KeysOf(d.Changed().value, t)
  {
    StaleMeChange(d, t);
    hide DiffInput.TypeChange, DiffInput.Remembered;
    assert d.AnyChange();
    OverlayKeys(d, t);
  }

  lemma StaleMeChange(d: DiffInput, t: string)
    requires WellFormed(d) && StaleMe(d, t)
    ensures !d.Wholesale() && t in d.AllTypes() && d.TypeChange(t) == Some(d.Remembered(t)) && ME in d.Remembered(t)
  {
    if d.Same() {
      SameMeansEqual(d);
      assert false;
    }
    assert ME in d.Inheritable(t);
  }

  /** The stored config vouches only for state the client holds, exactly when no type inherits
      a stale `$ME`. */
  lemma StoredStateDelivered(d: DiffInput, v: View, held: iset<StateKey>)
    requires WellFormed(d) && HoldsStored(d, held)
    ensures (forall cfg, k :: StoredNext(d, cfg) && Concrete(k) && k.typ != MEMBER && StateCovers(d.user, cfg, k)
              ==> HeldAfter(d, v, held, k))
            <==> !exists t :: StaleMe(d, t)
  {
    if t :| StaleMe(d, t) {
      StaleMeNotHeld(d, v, held, t);
      assert StoredNext(d, d.Changed().value);
    } else {
      forall cfg, k | StoredNext(d, cfg) && Concrete(k) && k.typ != MEMBER && StateCovers(d.user, cfg, k)
        ensures HeldAfter(d, v, held, k)
      {
        StoredKeyHeld(d, v, held, cfg, k);
      }
    }
  }

  // ------------------------------------------------------------ nothing for nothing

  /** Only what the request covers is fetched, or what lazy loading wants. */
  lemma AddedIsRequested(d: DiffInput, k: StateKey)
    requires Concrete(k) && d.Adds(k.typ, k.key)
    ensures StateCovers(d.user, d.request, k) || (k.typ == MEMBER && k.key in d.wantLazy)
  {
    if d.Fresh(WILDCARD) != {} {
      var x :| x in d.Fresh(WILDCARD);
      assert x in d.Req(WILDCARD);
    }
  }

  /** Nor is anything sent that was not asked for: outside membership only what the request covers, and
      under `$LAZY` also the members of the timeline, or any that moved if it is continuous. */
  lemma SentIsRequested(d: DiffInput, v: View, k: StateKey)
    requires Concrete(k) && Sends(d, v, k)
    ensures StateCovers(d.user, d.request, k) || (k.typ == MEMBER && LAZY in d.Req(MEMBER) && (!v.gapped || k.key in v.users))
    ensures !v.gapped || k.typ != MEMBER || k.key in v.users || StateCovers(d.user, d.request, k)
  {
    hide DiffInput.Adds;
  }

  /** A request names a key it did not before, with both configs agreeing on type wildcards: the whole
      type, the key itself, or the user's own key in a way it was not named before. */
  predicate NamedAnew(user: string, prev: StateMap, request: StateMap, k: StateKey) {
    var before, now := KeysOf(prev, k.typ), KeysOf(request, k.typ);
    && KeysOf(prev, WILDCARD) == KeysOf(request, WILDCARD) && WILDCARD !in before
    && (WILDCARD in now || k.key in Resolved(user, now - before))
  }

  /** What the stored config vouches for is fetched again exactly when a type wildcard appears, or the
      request names it anew; and never once all state is stored. */
  lemma VouchedFetchedIff(d: DiffInput, k: StateKey)
    requires WellFormed(d) && Concrete(k) && k.typ != MEMBER && StateCovers(d.user, d.prev, k)
    ensures d.Adds(k.typ, k.key) <==>
      && WILDCARD !in KeysOf(d.prev, WILDCARD)
      && (!(KeysOf(d.request, WILDCARD) <= KeysOf(d.prev, WILDCARD)) || NamedAnew(d.user, d.prev, d.request, k))
  {
    WildcardsFresh(d);
    NamedAnewIff(d, k);
    if d.Same() {
      SameMeansEqual(d);
    }
    hide DiffInput.Same, DiffInput.FirstPassAdds, NamedAnew, StateCovers, NoEmpty;
  }

  lemma NamedAnewIff(d: DiffInput, k: StateKey)
    requires Concrete(k) && k.typ != MEMBER
    ensures NamedAnew(d.user, d.prev, d.request, k) <==> d.Old(WILDCARD) == d.Req(WILDCARD) && d.FirstPassAdds(k.typ, k.key)
  {
    var t := k.typ;
    assert WILDCARD in d.Req(t) && WILDCARD !in d.Old(t) ==> WILDCARD in d.Fresh(t);
    assert k.key in Resolved(d.user, d.Fresh(t)) ==> k.key in d.Fresh(t) || ME in d.Fresh(t);
  }

  lemma WildcardsFresh(d: DiffInput)
    ensures d.Fresh(WILDCARD) != {} <==> !(d.Req(WILDCARD) <= d.Old(WILDCARD))
  {
    if x :| x in d.Req(WILDCARD) && x !in d.Old(WILDCARD) {
      assert x in d.Fresh(WILDCARD);
    }
  }

  /** So without type wildcards, for a type that does not gain the wildcard, only the user's own state
      is fetched twice, on being named by `$ME` after the user ID or the other way round. */
  lemma VouchedNotFetched(d: DiffInput, k: StateKey)
    requires WellFormed(d) && Concrete(k) && k.typ != MEMBER && StateCovers(d.user, d.prev, k)
    requires WILDCARD !in d.prev && WILDCARD !in d.request && (WILDCARD in d.Req(k.typ) ==> WILDCARD in d.Old(k.typ))
    ensures d.Adds(k.typ, k.key) ==> k.key == d.user && exists x :: x in {d.user, ME} && x in d.Req(k.typ) - d.Old(k.typ)
  {
    VouchedFetchedIff(d, k);
  }

  /** A member named anew, unless that is when `$LAZY` appears; one lazily sent before only if the whole
      type or `$ME` is what is new. */
  predicate MemberNamedAnew(d: DiffInput, u: string) {
    var before, now := KeysOf(d.prev, MEMBER), KeysOf(d.request, MEMBER);
    && NamedAnew(d.user, d.prev, d.request, StateKey(MEMBER, u))
    && (LAZY in now ==> LAZY in before)
    && (u in d.sentLazy ==> WILDCARD in now || (u == d.user && ME in now - before))
  }

  /** The same for a member: a type wildcard appears, it is named anew, or lazy loading wants it and it
      was neither sent nor named before. */
  lemma VouchedMemberFetchedIff(d: DiffInput, u: string)
    requires WellFormed(d) && Concrete(StateKey(MEMBER, u)) && StateCovers(d.user, d.prev, StateKey(MEMBER, u))
    ensures d.Adds(MEMBER, u) <==>
      if d.prev == d.request then u in d.wantLazy - d.sentLazy
      else
        && WILDCARD !in KeysOf(d.prev, WILDCARD)
        && (|| !(KeysOf(d.request, WILDCARD) <= KeysOf(d.prev, WILDCARD)) || MemberNamedAnew(d, u)
            || (KeysOf(d.prev, WILDCARD) == KeysOf(d.request, WILDCARD)
                && u in d.wantLazy - d.sentLazy && u !in KeysOf(d.prev, MEMBER) && !(u == d.user && ME in KeysOf(d.prev, MEMBER))))
  {
    WildcardsFresh(d);
    MemberNamedAnewIff(d, u);
    if d.Same() {
      SameMeansEqual(d);
    } else {
      assert d.prev != d.request;
    }
    hide DiffInput.Same, DiffInput.FirstPassAdds, MemberNamedAnew, StateCovers, NoEmpty;
  }

  lemma MemberNamedAnewIff(d: DiffInput, u: string)
    requires Concrete(StateKey(MEMBER, u))
    ensures MemberNamedAnew(d, u) <==> d.Old(WILDCARD) == d.Req(WILDCARD) && d.FirstPassAdds(MEMBER, u)
  {
    assert WILDCARD in d.Req(MEMBER) && WILDCARD !in d.Old(MEMBER) ==> WILDCARD in d.Fresh(MEMBER);
    assert u in Resolved(d.user, d.Fresh(MEMBER)) ==> u in d.Fresh(MEMBER) || ME in d.Fresh(MEMBER);
  }

  lemma NextKeysRequested(d: DiffInput, t: string)
    ensures d.Req(t) <= d.NextKeys(t)
  {
    if d.Fresh(t) == {} {
      forall k | k in d.Req(t)
        ensures k in d.Old(t) && k !in d.Stale(t)
      {
        assert k !in d.Fresh(t);
      }
    }
  }

  /** Whichever config is stored next names everything requested. */
  lemma StoredNamesRequest(d: DiffInput, cfg: StateMap, t: string)
    requires WellFormed(d) && StoredNext(d, cfg)
    ensures KeysOf(d.request, t) <= KeysOf(cfg, t)
  {
    if cfg != d.request {
      StoredKeys(d, cfg, t);
      NextKeysRequested(d, t);
    }
  }

  /** So asking again for the same fetches nothing, whatever moved meanwhile: only deltas go out. */
  lemma RepeatAddsNothing(d: DiffInput, cfg: StateMap, again: DiffInput, k: StateKey)
    requires WellFormed(d) && StoredNext(d, cfg)
    requires again.user == d.user && again.prev == cfg && again.request == d.request && k.typ != MEMBER
    ensures !again.Adds(k.typ, k.key)
  {
    StoredNamesRequest(d, cfg, WILDCARD);
    StoredNamesRequest(d, cfg, k.typ);
    hide DiffInput.Same, StoredNext;
    assert again.Fresh(WILDCARD) == {} && again.Fresh(k.typ) == {};
  }

  /** The smallest failing input: a key added to a type whose `$ME` is dropped while the user's own
      state of that type moves. */
  lemma StaleMeExample()
    ensures var d := DiffInput("@u:h", map["t" := {ME}], map["t" := {"k"}], {}, {}, map["t" := {"@u:h"}]);
            WellFormed(d) && StaleMe(d, "t")
  {
    var d := DiffInput("@u:h", map["t" := {ME}], map["t" := {"k"}], {}, {}, map["t" := {"@u:h"}]);
    assert NoEmpty(d.prev) && NoEmpty(d.request);
    hide NoEmpty, DiffInput.Remembered, StringOrder.First;
    assert d.Old("t") == {ME} && d.Req("t") == {"k"} && d.ChangedKeys("t") == {"@u:h"};
    assert "k" in d.Fresh("t");
    assert d.Inheritable("t") == {ME};
    assert d.Req("t") + d.Inheritable("t") == {"k", ME};
  }
}
