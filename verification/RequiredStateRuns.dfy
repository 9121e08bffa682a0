/** Required state over whole runs: one room on one connection, with every fork of it.

    A branch of the connection holds the client's copies, each as it was at some stream position,
    and the bound up to which the room was answered for. The stored config of a position claims that
    what it covers is current at that bound. */
module RequiredStateRuns {
  import opened Common
  import opened StringOrder
  import opened RoomConfig
  import opened RequiredState
  import opened RequiredStateDelivery

  /** A change of the room's current state. */
  datatype Change = Change(key: StateKey, pos: int)

  /** `asOf` is the position each copy the client holds was taken at. */
  datatype Branch = Branch(cfg: StateMap, bound: int, asOf: imap<StateKey, int>)

  /** The rest of a response's input: what it asks for, the timeline's view, the lazy members. */
  datatype Turn = Turn(request: StateMap, view: View, sentLazy: set<string>, wantLazy: set<string>)

  /** How a response treats the room: sent from scratch; sent from its bound; sent as an invite or a
      knock, with no state; in the window, but live with nothing happening in it and nothing more asked
      of it; live, but in no window or not among the request's rooms; or withheld, so that its bound
      stays. */
  datatype How =
    | Scratch(turn: Turn)
    | Serve(turn: Turn, deltas: StateMap, stored: StateMap)
    | Invited(turn: Turn)
    | Idle(request: StateMap)
    | LeftOut
    | Withhold

  /** `since` holds the positions of each branch back to the last response from scratch, and `fine`
      the positions all of whose responses since then met their condition. */
  datatype Sys = Sys(
    user: string,
    changes: set<Change>,
    horizon: int,
    branches: map<nat, Branch>,
    since: map<nat, set<nat>>,
    fine: set<nat>)

  /** Any position may be answered, and answered again. */
  datatype Step =
    | Commit(change: Change)
    | Answer(prev: nat, now: int, how: How, mint: nat)

  ghost predicate MovedIn(changes: set<Change>, k: StateKey, from: int, to: int) {
    exists c :: c in changes && c.key == k && from < c.pos <= to
  }

  lemma StillAcross(changes: set<Change>, k: StateKey, a: int, b: int, c: int)
    requires !MovedIn(changes, k, a, b) && !MovedIn(changes, k, b, c)
    ensures !MovedIn(changes, k, a, c)
  {
  }

  /** The client's copy of a key is what the state is at the bound. */
  ghost predicate Current(changes: set<Change>, b: Branch, k: StateKey) {
    k in b.asOf && !MovedIn(changes, k, b.asOf[k], b.bound)
  }

  /** The real state keys a config covers, memberships aside. */
  predicate Claims(user: string, cfg: StateMap, k: StateKey) {
    Concrete(k) && k.typ != MEMBER && StateCovers(user, cfg, k)
  }

  ghost function Diff(user: string, b: Branch, turn: Turn, deltas: StateMap): DiffInput {
    DiffInput(user, b.cfg, turn.request, turn.sentLazy, turn.wantLazy, deltas)
  }

  /** The deltas are, memberships aside, exactly the keys that moved above the bound. */
  ghost predicate AreDeltas(changes: set<Change>, from: int, to: int, deltas: StateMap) {
    forall k: StateKey :: k.typ != MEMBER ==> (k.key in KeysOf(deltas, k.typ) <==> MovedIn(changes, k, from, to))
  }

  /** What a response of a kind may find. */
  ghost predicate Possible(s: Sys, b: Branch, now: int, how: How) {
    && b.bound <= now
    && match how
       case Scratch(turn) => NoEmpty(turn.request)
       case Serve(turn, deltas, stored) =>
         && NoEmpty(turn.request) && AreDeltas(s.changes, b.bound, now, deltas)
         && StoredNext(Diff(s.user, b, turn, deltas), stored)
       case Invited(turn) => NoEmpty(turn.request)
       case Idle(request) => NoEmpty(request) && Within(request, b.cfg) && forall k :: !MovedIn(s.changes, k, b.bound, now)
       case LeftOut => true
       case Withhold => true
  }

  /** Everything the plan wants is read afresh. */
  ghost function Rebuilt(user: string, b: Branch, now: int, turn: Turn): Branch {
    Branch(turn.request, now,
           imap k | k in b.asOf || PlanWants(user, turn.request, turn.view, k) ::
             if PlanWants(user, turn.request, turn.view, k) then now else b.asOf[k])
  }

  /** The deltas and what is newly required are read afresh, as far as the plan wants them. */
  ghost function Served(user: string, b: Branch, now: int, turn: Turn, deltas: StateMap, stored: StateMap): Branch {
    var d := Diff(user, b, turn, deltas);
    Branch(stored, now, imap k | k in b.asOf || Sends(d, turn.view, k) :: if Sends(d, turn.view, k) then now else b.asOf[k])
  }

  ghost function Answered(user: string, b: Branch, now: int, how: How): Branch {
    match how
    case Scratch(turn) => Rebuilt(user, b, now, turn)
    case Serve(turn, deltas, stored) => Served(user, b, now, turn, deltas, stored)
    case Invited(turn) => Branch(turn.request, now, b.asOf)
    case Idle(_) => b.(bound := now)
    case LeftOut => b.(bound := now)
    case Withhold => b
  }

  /** When a response keeps the config honest: no type inherits a stale `$ME`; an invite asks only for
      what the client already holds unmoved; nothing the config covers moved in a room left out. */
  ghost predicate Fine(s: Sys, b: Branch, now: int, how: How) {
    match how
    case Serve(turn, deltas, stored) => forall t :: !StaleMe(Diff(s.user, b, turn, deltas), t)
    case Invited(turn) =>
      forall k :: Claims(s.user, turn.request, k) ==> k in b.asOf && !MovedIn(s.changes, k, b.asOf[k], now)
    case LeftOut => forall k :: Claims(s.user, b.cfg, k) ==> !MovedIn(s.changes, k, b.bound, now)
    case _ => true
  }

  ghost predicate Init(s: Sys) {
    && s.user !in {WILDCARD, LAZY, ME} && s.horizon >= 0
    && s.branches == map[0 := Branch(map[], 0, imap[])] && s.since == map[0 := {0}] && s.fine == {0}
  }

  ghost predicate Enabled(s: Sys, step: Step) {
    match step
    case Commit(c) => c.pos > s.horizon
    case Answer(prev, now, how, mint) =>
      prev in s.branches && prev in s.since && mint !in s.branches && Possible(s, s.branches[prev], now, how)
  }

  ghost function Apply(s: Sys, step: Step): Sys
    requires Enabled(s, step)
  {
    match step
    case Commit(c) => s.(changes := s.changes + {c})
    case Answer(prev, now, how, mint) =>
      var b := s.branches[prev];
      s.(branches := s.branches[mint := Answered(s.user, b, now, how)],
         horizon := Max(s.horizon, now),
         since := s.since[mint := (if how.Scratch? then {} else s.since[prev]) + {mint}],
         fine := s.fine + if how.Scratch? || (prev in s.fine && Fine(s, b, now, how)) then {mint} else {})
  }

  // ----------------------------------------------------------------- one response

  /** What a position's config covers is current on its branch. */
  ghost predicate Vouches(user: string, changes: set<Change>, b: Branch) {
    forall k :: Claims(user, b.cfg, k) ==> Current(changes, b, k)
  }

  /** No copy is newer than the bound. */
  ghost predicate Dated(b: Branch) {
    forall k :: k in b.asOf ==> b.asOf[k] <= b.bound
  }

  lemma RebuiltVouches(user: string, changes: set<Change>, b: Branch, now: int, turn: Turn)
    ensures Vouches(user, changes, Rebuilt(user, b, now, turn))
  {
    var b' := Rebuilt(user, b, now, turn);
    forall k | Claims(user, b'.cfg, k)
      ensures Current(changes, b', k)
    {
      assert PlanWants(user, turn.request, turn.view, k);
    }
  }

  /** The copies a branch may rely on; nothing is claimed of memberships here. */
  ghost function Copies(changes: set<Change>, b: Branch): iset<StateKey> {
    iset k: StateKey | k.typ == MEMBER || Current(changes, b, k)
  }

  /** What is held after a response is current at its token. */
  lemma HeldIsCurrent(s: Sys, b: Branch, now: int, turn: Turn, deltas: StateMap, stored: StateMap, k: StateKey)
    requires AreDeltas(s.changes, b.bound, now, deltas) && k.typ != MEMBER
    requires HeldAfter(Diff(s.user, b, turn, deltas), turn.view, Copies(s.changes, b), k)
    ensures Current(s.changes, Served(s.user, b, now, turn, deltas, stored), k)
  {
    hide Sends, PlanWants;
    if !Sends(Diff(s.user, b, turn, deltas), turn.view, k) {
      StillAcross(s.changes, k, b.asOf[k], b.bound, now);
    }
  }

  /** A response from the bound brings everything requested, and everything in the config stored next,
      up to its token, if no type inherits a stale `$ME`. */
  lemma ServedVouches(s: Sys, b: Branch, now: int, turn: Turn, deltas: StateMap, stored: StateMap)
    requires s.user !in {WILDCARD, LAZY, ME} && NoEmpty(b.cfg) && Vouches(s.user, s.changes, b)
    requires Possible(s, b, now, Serve(turn, deltas, stored)) && Fine(s, b, now, Serve(turn, deltas, stored))
    ensures Vouches(s.user, s.changes, Served(s.user, b, now, turn, deltas, stored))
    ensures forall k :: Claims(s.user, turn.request, k) ==> Current(s.changes, Served(s.user, b, now, turn, deltas, stored), k)
  {
    hide StaleMe, StoredNext, StateCovers, HeldAfter, Current, AreDeltas;
    var d, b', held := Diff(s.user, b, turn, deltas), Served(s.user, b, now, turn, deltas, stored), Copies(s.changes, b);
    assert HoldsStored(d, held) by {
      assert forall k :: Concrete(k) && k.typ != MEMBER && StateCovers(s.user, b.cfg, k) ==> Claims(s.user, b.cfg, k);
    }
    forall k | Claims(s.user, stored, k) || Claims(s.user, turn.request, k)
      ensures Current(s.changes, b', k)
    {
      if StateCovers(s.user, turn.request, k) {
        RequestedStateDelivered(d, turn.view, held, k);
      } else {
        StoredKeyHeld(d, turn.view, held, stored, k);
      }
      HeldIsCurrent(s, b, now, turn, deltas, stored, k);
    }
  }

  /** And if one does, the position it leaves vouches for a copy that is not current. */
  lemma StaleMeBreaks(s: Sys, b: Branch, now: int, turn: Turn, deltas: StateMap, stored: StateMap, t: string)
    requires s.user !in {WILDCARD, LAZY, ME} && NoEmpty(b.cfg) && Dated(b)
    requires Possible(s, b, now, Serve(turn, deltas, stored)) && StaleMe(Diff(s.user, b, turn, deltas), t)
    ensures var b' := Served(s.user, b, now, turn, deltas, stored);
            Claims(s.user, stored, StateKey(t, s.user)) && !Current(s.changes, b', StateKey(t, s.user))
  {
    var k, d := StateKey(t, s.user), Diff(s.user, b, turn, deltas);
    StaleMeNotHeld(d, turn.view, iset{}, t);
    assert k.typ != MEMBER && k.key in d.ChangedKeys(t);
    assert MovedIn(s.changes, k, b.bound, now);
    hide StateCovers, StaleMe, PlanWants;
    var c :| c in s.changes && c.key == k && b.bound < c.pos <= now;
    var b' := Served(s.user, b, now, turn, deltas, stored);
    if k in b'.asOf {
      assert b'.asOf[k] == b.asOf[k];
    }
  }

  lemma ServedVouchesIff(s: Sys, b: Branch, now: int, turn: Turn, deltas: StateMap, stored: StateMap)
    requires s.user !in {WILDCARD, LAZY, ME} && NoEmpty(b.cfg) && Dated(b) && Vouches(s.user, s.changes, b)
    requires Possible(s, b, now, Serve(turn, deltas, stored))
    ensures Vouches(s.user, s.changes, Served(s.user, b, now, turn, deltas, stored)) <==> Fine(s, b, now, Serve(turn, deltas, stored))
  {
    hide StaleMe, Possible, Claims, Current, Served;
    if t :| StaleMe(Diff(s.user, b, turn, deltas), t) {
      StaleMeBreaks(s, b, now, turn, deltas, stored, t);
      assert Served(s.user, b, now, turn, deltas, stored).cfg == stored by {
        ServedStores(s.user, b, now, turn, deltas, stored);
      }
    } else {
      ServedVouches(s, b, now, turn, deltas, stored);
    }
  }

  lemma ServedStores(user: string, b: Branch, now: int, turn: Turn, deltas: StateMap, stored: StateMap)
    ensures Served(user, b, now, turn, deltas, stored).cfg == stored
  {
  }

  /** A room left out keeps an honest config exactly when nothing it covers moved. */
  lemma LeftOutVouchesIff(s: Sys, b: Branch, now: int)
    requires Dated(b) && Vouches(s.user, s.changes, b) && b.bound <= now
    ensures Vouches(s.user, s.changes, b.(bound := now)) <==> Fine(s, b, now, LeftOut)
  {
    hide Claims;
    forall k | Claims(s.user, b.cfg, k)
      ensures Current(s.changes, b.(bound := now), k) <==> !MovedIn(s.changes, k, b.bound, now)
    {
      assert Current(s.changes, b, k);
      if !MovedIn(s.changes, k, b.bound, now) {
        StillAcross(s.changes, k, b.asOf[k], b.bound, now);
      } else {
        var c :| c in s.changes && c.key == k && b.bound < c.pos <= now;
        assert MovedIn(s.changes, k, b.asOf[k], now);
      }
    }
  }

  /** An invite stores the request and sends no state. Its config is honest exactly when all it covers
      is held already and has not moved; for a room never sent, exactly when it covers nothing. */
  lemma InvitedVouchesIff(s: Sys, b: Branch, now: int, turn: Turn)
    ensures Vouches(s.user, s.changes, Branch(turn.request, now, b.asOf)) <==> Fine(s, b, now, Invited(turn))
    ensures b.asOf == imap[] ==> (Fine(s, b, now, Invited(turn)) <==> forall k :: !Claims(s.user, turn.request, k))
  {
    hide Claims, MovedIn;
    assert forall k :: Current(s.changes, Branch(turn.request, now, b.asOf), k) <==>
      k in b.asOf && !MovedIn(s.changes, k, b.asOf[k], now);
  }

  /** One response of any kind, exactly. */
  lemma AnswerVouchesIff(s: Sys, b: Branch, now: int, how: How)
    requires s.user !in {WILDCARD, LAZY, ME} && NoEmpty(b.cfg) && Dated(b) && Possible(s, b, now, how)
    requires how.Scratch? || Vouches(s.user, s.changes, b)
    ensures Vouches(s.user, s.changes, Answered(s.user, b, now, how)) <==> Fine(s, b, now, how)
  {
    match how
    case Scratch(turn) =>
      hide Vouches, PlanWants;
      RebuiltVouches(s.user, s.changes, b, now, turn);
    case Serve(turn, deltas, stored) =>
      hide Vouches, Fine, Possible, Served;
      ServedVouchesIff(s, b, now, turn, deltas, stored);
    case Invited(turn) =>
      hide Vouches, Fine;
      InvitedVouchesIff(s, b, now, turn);
    case Idle(_) =>
      hide Vouches, MovedIn;
      LeftOutVouchesIff(s, b, now);
    case LeftOut =>
      hide Vouches, Fine;
      LeftOutVouchesIff(s, b, now);
    case Withhold =>
  }

  /** A config that asks for nothing uncovered claims nothing more, whatever its wildcards. */
  lemma WithinClaims(user: string, a: StateMap, b: StateMap, k: StateKey)
    requires NoEmpty(a) && Within(a, b) && Claims(user, a, k)
    ensures Claims(user, b, k)
  {
    var t' := FreshString(a.Keys + b.Keys + {WILDCARD});
    var k' := FreshString(AllKeys(a) + AllKeys(b) + {WILDCARD});
    if WILDCARD in a {
      var x :| x in a[WILDCARD];
      assert Covers(a, t', if x == WILDCARD then k' else x);
      assert KeysOf(b, WILDCARD) != {};
    } else if WILDCARD in KeysOf(a, k.typ) {
      assert Covers(a, k.typ, k');
      WildcardByFreshKey(b, k.typ, k');
    } else {
      var x := if k.key in KeysOf(a, k.typ) then k.key else ME;
      assert Covers(a, k.typ, x) && Covers(b, k.typ, x);
    }
  }

  /** The request of a response that answers for a room in the window. */
  function Asked(how: How): Option<StateMap> {
    match how
    case Scratch(turn) => Some(turn.request)
    case Serve(turn, _, _) => Some(turn.request)
    case Idle(request) => Some(request)
    case _ => None
  }

  /** What such a response's own request covers is current after it, sent or not. */
  lemma RequestedCurrent(s: Sys, b: Branch, now: int, how: How, k: StateKey)
    requires s.user !in {WILDCARD, LAZY, ME} && NoEmpty(b.cfg) && Dated(b) && Possible(s, b, now, how) && Fine(s, b, now, how)
    requires how.Scratch? || Vouches(s.user, s.changes, b)
    requires Asked(how).Some? && Claims(s.user, Asked(how).value, k)
    ensures Current(s.changes, Answered(s.user, b, now, how), k)
  {
    match how
    case Scratch(turn) =>
      RebuiltVouches(s.user, s.changes, b, now, turn);
    case Serve(turn, deltas, stored) =>
      hide Vouches, Fine, Possible, Served;
      ServedVouches(s, b, now, turn, deltas, stored);
    case Idle(request) =>
      WithinClaims(s.user, request, b.cfg, k);
      assert Current(s.changes, b, k);
      StillAcross(s.changes, k, b.asOf[k], b.bound, now);
  }

  lemma StoredNoEmpty(d: DiffInput, stored: StateMap)
    requires NoEmpty(d.prev) && NoEmpty(d.request) && StoredNext(d, stored)
    ensures NoEmpty(stored)
  {
    hide DiffInput.TypeChange;
  }

  lemma AnswerKeepsShape(s: Sys, b: Branch, now: int, how: How)
    requires NoEmpty(b.cfg) && Dated(b) && Possible(s, b, now, how)
    ensures var b' := Answered(s.user, b, now, how); NoEmpty(b'.cfg) && Dated(b') && b'.bound <= Max(b.bound, now)
  {
    hide NoEmpty, StoredNext, PlanWants, Sends, AreDeltas, MovedIn;
    match how
    case Serve(turn, deltas, stored) => StoredNoEmpty(Diff(s.user, b, turn, deltas), stored);
    case _ =>
  }

  // ------------------------------------------------------------------ whole runs

  ghost predicate Shaped(s: Sys) {
    && s.user !in {WILDCARD, LAZY, ME} && s.since.Keys == s.branches.Keys && s.fine <= s.branches.Keys
    && (forall p :: p in s.since ==> p in s.since[p] && s.since[p] <= s.branches.Keys)
    && (forall p :: p in s.branches ==> NoEmpty(s.branches[p].cfg) && Dated(s.branches[p]) && s.branches[p].bound <= s.horizon)
  }

  ghost predicate AllVouch(s: Sys, positions: set<nat>) {
    forall q :: q in positions && q in s.branches ==> Vouches(s.user, s.changes, s.branches[q])
  }

  ghost predicate Inv(s: Sys) {
    Shaped(s) && forall p :: p in s.branches ==> (p in s.fine <==> AllVouch(s, s.since[p]))
  }

  lemma CommitVouchesIff(s: Sys, c: Change, b: Branch)
    requires b.bound <= s.horizon < c.pos
    ensures Vouches(s.user, s.changes + {c}, b) <==> Vouches(s.user, s.changes, b)
  {
    hide Claims;
    forall k
      ensures Current(s.changes + {c}, b, k) <==> Current(s.changes, b, k)
    {
      assert k in b.asOf && MovedIn(s.changes, k, b.asOf[k], b.bound) ==> MovedIn(s.changes + {c}, k, b.asOf[k], b.bound);
    }
  }

  /** Two states in which the same of these positions vouch. */
  lemma SameVouch(s: Sys, t: Sys, positions: set<nat>)
    requires positions <= s.branches.Keys && positions <= t.branches.Keys
    requires forall q :: q in positions ==>
      (Vouches(t.user, t.changes, t.branches[q]) <==> Vouches(s.user, s.changes, s.branches[q]))
    ensures AllVouch(t, positions) <==> AllVouch(s, positions)
  {
    hide Vouches;
  }

  lemma CommitKeeps(s: Sys, c: Change)
    requires Inv(s) && Enabled(s, Commit(c))
    ensures Inv(Apply(s, Commit(c)))
  {
    hide Vouches, NoEmpty, Dated, AllVouch;
    var t := Apply(s, Commit(c));
    forall p | p in t.branches
      ensures p in t.fine <==> AllVouch(t, t.since[p])
    {
      forall q | q in s.since[p]
        ensures Vouches(t.user, t.changes, t.branches[q]) <==> Vouches(s.user, s.changes, s.branches[q])
      {
        CommitVouchesIff(s, c, s.branches[q]);
      }
      SameVouch(s, t, s.since[p]);
    }
  }

  lemma AnswerShaped(s: Sys, prev: nat, now: int, how: How, mint: nat)
    requires Shaped(s) && Enabled(s, Answer(prev, now, how, mint))
    ensures Shaped(Apply(s, Answer(prev, now, how, mint)))
  {
    hide NoEmpty, Dated, Fine, Answered, Possible;
    AnswerKeepsShape(s, s.branches[prev], now, how);
  }

  /** The minted position is fine exactly when it and the positions before it vouch. */
  lemma MintedVouchesIff(s: Sys, prev: nat, now: int, how: How, mint: nat)
    requires Inv(s) && Enabled(s, Answer(prev, now, how, mint))
    ensures var t := Apply(s, Answer(prev, now, how, mint)); mint in t.fine <==> AllVouch(t, t.since[mint])
  {
    hide Vouches, NoEmpty, Dated, Fine, Answered, Possible;
    var b, t := s.branches[prev], Apply(s, Answer(prev, now, how, mint));
    assert prev in s.since[prev] && mint !in s.fine;
    assert AllVouch(t, t.since[mint]) <==>
      (how.Scratch? || AllVouch(s, s.since[prev])) && Vouches(s.user, s.changes, t.branches[mint]);
    if how.Scratch? || prev in s.fine {
      AnswerVouchesIff(s, b, now, how);
      if how.Scratch? {
        ScratchIsFine(s, b, now, how);
      }
    }
  }

  lemma AnswerKeeps(s: Sys, prev: nat, now: int, how: How, mint: nat)
    requires Inv(s) && Enabled(s, Answer(prev, now, how, mint))
    ensures Inv(Apply(s, Answer(prev, now, how, mint)))
  {
    hide Vouches, NoEmpty, Dated, Fine, Answered, Possible, AllVouch;
    var t := Apply(s, Answer(prev, now, how, mint));
    AnswerShaped(s, prev, now, how, mint);
    forall p | p in t.branches
      ensures p in t.fine <==> AllVouch(t, t.since[p])
    {
      if p == mint {
        MintedVouchesIff(s, prev, now, how, mint);
      } else {
        SameVouch(s, t, s.since[p]);
      }
    }
  }

  lemma ScratchIsFine(s: Sys, b: Branch, now: int, how: How)
    requires how.Scratch?
    ensures Fine(s, b, now, how)
  {
  }

  ghost predicate IsRun(states: seq<Sys>, steps: seq<Step>) {
    && |states| == |steps| + 1 && Init(states[0])
    && forall i :: 0 <= i < |steps| ==> Enabled(states[i], steps[i]) && states[i + 1] == Apply(states[i], steps[i])
  }

  lemma InitInv(s: Sys)
    requires Init(s)
    ensures Inv(s)
  {
  }

  lemma {:induction false} RunKeeps(states: seq<Sys>, steps: seq<Step>, i: nat)
    requires IsRun(states, steps) && i < |states|
    ensures Inv(states[i])
  {
    hide Inv, Apply, Enabled;
    if i == 0 {
      InitInv(states[0]);
    } else {
      RunKeeps(states, steps, i - 1);
      match steps[i - 1]
      case Commit(c) => CommitKeeps(states[i - 1], c);
      case Answer(prev, now, how, mint) => AnswerKeeps(states[i - 1], prev, now, how, mint);
    }
  }

  /** In every run, forks and retries included: the stored configs of a position and of its branch back
      to the last response from scratch cover only copies that are current there, memberships aside,
      exactly when each response since then met its condition. */
  lemma ConfigVouchesIff(states: seq<Sys>, steps: seq<Step>, i: nat, p: nat)
    requires IsRun(states, steps) && i < |states| && p in states[i].branches
    ensures p in states[i].since && (p in states[i].fine <==> AllVouch(states[i], states[i].since[p]))
  {
    RunKeeps(states, steps, i);
  }

  /** So whatever the config of such a position covers, the client holds on that branch as it is at the
      position's bound. */
  lemma ConfigVouches(states: seq<Sys>, steps: seq<Step>, i: nat, p: nat, k: StateKey)
    requires IsRun(states, steps) && i < |states| && p in states[i].fine
    ensures p in states[i].branches
    ensures Claims(states[i].user, states[i].branches[p].cfg, k) ==> Current(states[i].changes, states[i].branches[p], k)
  {
    RunKeeps(states, steps, i);
    hide Claims, Current;
    assert p in states[i].since[p];
    assert Vouches(states[i].user, states[i].changes, states[i].branches[p]);
  }

  /** And whatever a response asks of a room in the window, the client holds as it is at the response's
      token, if the response and those its branch builds on met their conditions: idling included, so
      no room that asks for more may idle. */
  lemma RequestedIsCurrent(states: seq<Sys>, steps: seq<Step>, i: nat, k: StateKey)
    requires IsRun(states, steps) && i < |steps| && steps[i].Answer? && steps[i].mint in states[i + 1].fine
    requires Asked(steps[i].how).Some? && Claims(states[i].user, Asked(steps[i].how).value, k)
    ensures steps[i].mint in states[i + 1].branches
    ensures Current(states[i + 1].changes, states[i + 1].branches[steps[i].mint], k)
  {
    RunKeeps(states, steps, i);
    var s, prev, how := states[i], steps[i].prev, steps[i].how;
    assert prev in s.since[prev];
    assert steps[i].mint !in s.fine;
    if how.Scratch? {
      ScratchIsFine(s, s.branches[prev], steps[i].now, how);
    }
    hide Vouches, Claims, Current, Fine, Possible, Answered, NoEmpty, Dated;
    assert !how.Scratch? ==> Vouches(s.user, s.changes, s.branches[prev]);
    RequestedCurrent(s, s.branches[prev], steps[i].now, how, k);
  }

  // -------------------------------------------------------- two runs that go wrong

  ghost function Start(): Sys {
    Sys("@u:h", {}, 0, map[0 := Branch(map[], 0, imap[])], map[0 := {0}], {0})
  }

  /** A request for the room's name. */
  ghost function Asks(): Turn {
    Turn(map["m.room.name" := {""}], View({}, true), {}, {})
  }

  const NAME := StateKey("m.room.name", "")

  /** Step `i` is answered from a position's bound, meets its own condition, and still mints a position
      whose config vouches for a name the client does not hold as it is. */
  ghost predicate Misled(states: seq<Sys>, steps: seq<Step>, i: nat)
    requires IsRun(states, steps) && i < |steps|
  {
    && steps[i].Answer? && steps[i].how.Serve?
    && Fine(states[i], states[i].branches[steps[i].prev], steps[i].now, steps[i].how)
    && var s, p := states[i + 1], steps[i].mint;
       Claims(s.user, s.branches[p].cfg, NAME) && !Current(s.changes, s.branches[p], NAME)
  }

  lemma AskedName()
    ensures NoEmpty(Asks().request) && Claims("@u:h", Asks().request, NAME)
    ensures PlanWants("@u:h", Asks().request, Asks().view, NAME)
  {
    assert "" in Resolved("@u:h", {""});
  }

  /** With the request as the stored config and nothing moved, a response sends no state. */
  lemma SameAgain(b: Branch, now: int)
    requires b.cfg == Asks().request
    ensures StoredNext(Diff("@u:h", b, Asks(), map[]), Asks().request)
    ensures !Sends(Diff("@u:h", b, Asks(), map[]), Asks().view, NAME)
    ensures forall t :: !StaleMe(Diff("@u:h", b, Asks(), map[]), t)
  {
    var d := Diff("@u:h", b, Asks(), map[]);
    assert d.Same() && d.prev == d.request;
    assert forall t :: d.ChangedKeys(t) == {};
    hide DiffInput.Same, DiffInput.Wholesale, DiffInput.Remembered;
  }

  /** A run goes on with one more response to position `prev`, which every other position survives. */
  lemma Answering(states: seq<Sys>, steps: seq<Step>, prev: nat, now: int, how: How, mint: nat)
    returns (states': seq<Sys>)
    requires IsRun(states, steps)
    requires var s := states[|steps|];
             prev in s.branches && prev in s.since && mint !in s.branches && Possible(s, s.branches[prev], now, how)
    ensures IsRun(states', steps + [Answer(prev, now, how, mint)])
    ensures |states'| == |states| + 1 == |steps| + 2 && states'[..|states|] == states
    ensures var s, t := states[|steps|], states'[|states|];
            && t.user == s.user && t.changes == s.changes && t.since.Keys == s.since.Keys + {mint}
            && t.branches == s.branches[mint := Answered(s.user, s.branches[prev], now, how)] && t.horizon == Max(s.horizon, now)
  {
    hide Possible, Answered, Fine;
    states' := states + [Apply(states[|steps|], Answer(prev, now, how, mint))];
  }

  lemma Committing(states: seq<Sys>, steps: seq<Step>, c: Change) returns (states': seq<Sys>)
    requires IsRun(states, steps) && c.pos > states[|steps|].horizon
    ensures IsRun(states', steps + [Commit(c)])
    ensures |states'| == |states| + 1 == |steps| + 2 && states'[..|states|] == states
    ensures states'[|states|] == states[|steps|].(changes := states[|steps|].changes + {c})
  {
    states' := states + [Apply(states[|steps|], Commit(c))];
  }

  /** Served again with nothing moved: the position vouches for the name whether it is current or not. */
  lemma ServedAgain(states: seq<Sys>, steps: seq<Step>, prev: nat, now: int, mint: nat) returns (states': seq<Sys>)
    requires IsRun(states, steps) && mint !in states[|steps|].branches
    requires var s := states[|steps|];
             && s.user == "@u:h" && prev in s.branches && prev in s.since && s.branches[prev].cfg == Asks().request
             && s.branches[prev].bound <= now && AreDeltas(s.changes, s.branches[prev].bound, now, map[])
             && !(NAME in s.branches[prev].asOf && !MovedIn(s.changes, NAME, s.branches[prev].asOf[NAME], now))
    ensures var steps' := steps + [Answer(prev, now, Serve(Asks(), map[], Asks().request), mint)];
            IsRun(states', steps') && Misled(states', steps', |steps|)
  {
    var how := Serve(Asks(), map[], Asks().request);
    AskedName();
    SameAgain(states[|steps|].branches[prev], now);
    hide StaleMe, NoEmpty, Claims, StoredNext, Sends, PlanWants, IsRun, AreDeltas, MovedIn;
    assert |states| == |steps| + 1 by {
      RunLength(states, steps);
    }
    states' := Answering(states, steps, prev, now, how, mint);
    assert states'[|steps|] == states[|steps|] by {
      assert states'[..|states|][|steps|] == states[|steps|];
    }
  }

  lemma RunLength(states: seq<Sys>, steps: seq<Step>)
    requires IsRun(states, steps)
    ensures |states| == |steps| + 1
  {
  }

  lemma StartIsRun()
    ensures IsRun([Start()], [])
  {
  }

  /** Invited, then outside the windows, then served: the client asks for the name throughout and never
      gets it. */
  lemma InvitedRunExample()
    ensures exists states: seq<Sys>, steps: seq<Step> :: IsRun(states, steps) && steps == [
              Commit(Change(NAME, 1)), Answer(0, 1, Invited(Asks()), 1), Answer(1, 1, Withhold, 2),
              Answer(2, 2, Serve(Asks(), map[], Asks().request), 3)] && Misled(states, steps, 3)
  {
    AskedName();
    StartIsRun();
    hide IsRun, Claims, NoEmpty, Misled;
    var states := Committing([Start()], [], Change(NAME, 1));
    var steps := [] + [Commit(Change(NAME, 1))];
    states := Answering(states, steps, 0, 1, Invited(Asks()), 1);
    steps := steps + [Answer(0, 1, Invited(Asks()), 1)];
    states := Answering(states, steps, 1, 1, Withhold, 2);
    steps := steps + [Answer(1, 1, Withhold, 2)];
    states := ServedAgain(states, steps, 2, 2, 3);
    assert steps == [Commit(Change(NAME, 1)), Answer(0, 1, Invited(Asks()), 1), Answer(1, 1, Withhold, 2)];
  }

  /** Live, left out of a request's rooms while its name changes, then served: the client keeps the old
      name. */
  lemma LeftOutRunExample()
    ensures exists states: seq<Sys>, steps: seq<Step> :: IsRun(states, steps) && steps == [
              Answer(0, 1, Scratch(Asks()), 1), Commit(Change(NAME, 2)), Answer(1, 2, LeftOut, 2),
              Answer(2, 3, Serve(Asks(), map[], Asks().request), 3)] && Misled(states, steps, 3)
  {
    AskedName();
    StartIsRun();
    hide IsRun, Claims, NoEmpty, Misled, PlanWants;
    var states := Answering([Start()], [], 0, 1, Scratch(Asks()), 1);
    var steps := [] + [Answer(0, 1, Scratch(Asks()), 1)];
    states := Committing(states, steps, Change(NAME, 2));
    steps := steps + [Commit(Change(NAME, 2))];
    states := Answering(states, steps, 1, 2, LeftOut, 2);
    steps := steps + [Answer(1, 2, LeftOut, 2)];
    assert MovedIn(states[3].changes, NAME, 1, 3) by {
      assert Change(NAME, 2) in states[3].changes;
    }
    states := ServedAgain(states, steps, 2, 3, 3);
    assert steps == [Answer(0, 1, Scratch(Asks()), 1), Commit(Change(NAME, 2)), Answer(1, 2, LeftOut, 2)];
  }
}
