/** Lazily sent members over whole runs: one room on one connection, with every fork of it.

    The record of a branch says which memberships it was sent. `RequiredStateRuns` says which copies
    the client holds, and `LazyStore` keeps the table; here both move together, with the diff told of
    no recorded member, as `Build` leaves it. */
module LazyRuns {
  import opened Common
  import opened RoomConfig
  import opened RequiredState
  import opened RequiredStateDelivery
  import Memory = RequiredStateMemory
  import Runs = RequiredStateRuns
  import Store = LazyStore

  /** `kept` holds the positions all of whose responses met their condition. Position 0 stands for the
      request without one that begins the connection. */
  datatype Sys = Sys(room: string, state: Runs.Sys, store: Store.Sys, kept: set<nat>)

  /** A response also writes and invalidates rows of other rooms. */
  datatype Step =
    | Commit(change: Runs.Change)
    | Acknowledge(position: nat)
    | Respond(prev: nat, now: int, how: Runs.How, others: set<Store.Member>, gone: set<Store.Member>)

  function Key(u: string): StateKey {
    StateKey(MEMBER, u)
  }

  // ---------------------------------------------------------------- one response

  /** The members a response puts on the record. */
  ghost function Returned(user: string, b: Runs.Branch, how: Runs.How): set<string> {
    match how
    case Scratch(turn) => turn.wantLazy
    case Serve(turn, deltas, _) => Memory.NewlyRecorded(Runs.Diff(user, b, turn, deltas))
    case _ => {}
  }

  /** Every membership that moved is among the deltas, besides perhaps the user's own leave. */
  ghost predicate HasMoved(changes: set<Runs.Change>, from: int, to: int, deltas: StateMap) {
    forall u :: Runs.MovedIn(changes, Key(u), from, to) ==> u in KeysOf(deltas, MEMBER)
  }

  /** The lazy members are the plan's, and the diff is told of none. */
  ghost predicate Possible(s: Runs.Sys, b: Runs.Branch, now: int, how: Runs.How) {
    && Runs.Possible(s, b, now, how)
    && match how
       case Scratch(turn) => turn.wantLazy == PlanLazy(s.user, turn.request, turn.view, {})
       case Serve(turn, deltas, _) =>
         && turn.sentLazy == {} && turn.wantLazy == PlanLazy(s.user, turn.request, turn.view, KeysOf(deltas, MEMBER))
         && HasMoved(s.changes, b.bound, now, deltas)
       case _ => true
  }

  /** The response's plan wants a membership. */
  predicate Wants(user: string, how: Runs.How, k: StateKey) {
    match how
    case Scratch(turn) => PlanWants(user, turn.request, turn.view, k)
    case Serve(turn, _, _) => PlanWants(user, turn.request, turn.view, k)
    case _ => false
  }

  /** A membership moves in a response that does not want it. */
  ghost predicate Strays(s: Runs.Sys, b: Runs.Branch, now: int, how: Runs.How, u: string) {
    !how.Withhold? && Runs.MovedIn(s.changes, Key(u), b.bound, now) && !Wants(s.user, how, Key(u))
  }

  /** A response records a membership it does not send, which the client does not hold as it is. */
  ghost predicate Presumed(s: Runs.Sys, b: Runs.Branch, now: int, how: Runs.How, u: string) {
    && how.Serve? && u in Returned(s.user, b, how)
    && !Sends(Runs.Diff(s.user, b, how.turn, how.deltas), how.turn.view, Key(u))
    && !(Key(u) in b.asOf && !Runs.MovedIn(s.changes, Key(u), b.asOf[Key(u)], now))
  }

  /** No recorded membership strays, and no other is presumed. */
  ghost predicate Keeps(s: Runs.Sys, b: Runs.Branch, recorded: set<string>, now: int, how: Runs.How) {
    forall u :: if u in recorded then !Strays(s, b, now, how, u) else !Presumed(s, b, now, how, u)
  }

  /** What a branch has on record is current there. */
  ghost predicate Sound(changes: set<Runs.Change>, b: Runs.Branch, recorded: set<string>) {
    forall u :: u in recorded ==> Runs.Current(changes, b, Key(u))
  }

  /** Only members the stored config already covers are presumed: no other is recorded unsent. */
  lemma PresumedIsCovered(s: Runs.Sys, b: Runs.Branch, now: int, how: Runs.How, u: string)
    requires Possible(s, b, now, how) && Presumed(s, b, now, how, u) && Concrete(Key(u))
    ensures StateCovers(s.user, b.cfg, Key(u))
  {
    var d := Runs.Diff(s.user, b, how.turn, how.deltas);
    hide StoredNext, Runs.AreDeltas, HasMoved, NoEmpty;
    if u in d.ExtraLazy() {
      assert u in Resolved(s.user, d.Old(MEMBER));
    } else if !StateCovers(s.user, b.cfg, Key(u)) {
      assert PlanWants(s.user, d.request, how.turn.view, Key(u));
      assert u in d.wantLazy && WILDCARD !in d.prev && WILDCARD !in d.request;
      Memory.NotExplicitBefore(d, u);
      hide PlanWants, DiffInput.Adds, DiffInput.ExplicitBefore;
      Memory.WantedMemberAdded(d, u);
    }
  }

  lemma ServedCopy(s: Runs.Sys, b: Runs.Branch, now: int, how: Runs.How, k: StateKey)
    requires how.Serve?
    ensures var sent := Sends(Runs.Diff(s.user, b, how.turn, how.deltas), how.turn.view, k);
            Runs.Current(s.changes, Runs.Answered(s.user, b, now, how), k) <==>
              sent || (k in b.asOf && !Runs.MovedIn(s.changes, k, b.asOf[k], now))
  {
    hide Sends;
  }

  lemma SendsMoved(s: Runs.Sys, b: Runs.Branch, now: int, how: Runs.How, u: string)
    requires how.Serve? && Possible(s, b, now, how)
    ensures var sent := Sends(Runs.Diff(s.user, b, how.turn, how.deltas), how.turn.view, Key(u));
            Runs.MovedIn(s.changes, Key(u), b.bound, now) ==> (sent <==> Wants(s.user, how, Key(u)))
  {
    hide PlanWants, DiffInput.Adds, NoEmpty, StoredNext, Runs.AreDeltas, PlanLazy, Runs.MovedIn;
  }

  lemma ServedMemberIff(s: Runs.Sys, b: Runs.Branch, now: int, how: Runs.How, recorded: set<string>, u: string)
    requires how.Serve? && Possible(s, b, now, how) && Runs.Dated(b) && (u in recorded ==> Runs.Current(s.changes, b, Key(u)))
    requires u in recorded + Returned(s.user, b, how)
    ensures Runs.Current(s.changes, Runs.Answered(s.user, b, now, how), Key(u)) <==>
      if u in recorded then !Strays(s, b, now, how, u) else !Presumed(s, b, now, how, u)
  {
    ServedCopy(s, b, now, how, Key(u));
    SendsMoved(s, b, now, how, u);
    assert b.bound <= now;
    if u in recorded {
      assert Key(u) in b.asOf;
      hide Possible, Sends, Wants, Returned, Runs.Answered, Runs.Dated, Runs.MovedIn, Runs.Current;
      Unsent(s.changes, b, now, Key(u));
    } else {
      hide Possible, Sends, Wants, Returned, Runs.Answered, Runs.Dated, Runs.MovedIn, Runs.Current;
    }
  }

  /** A copy not sent again stays current exactly when it does not move. */
  lemma Unsent(changes: set<Runs.Change>, b: Runs.Branch, now: int, k: StateKey)
    requires Runs.Dated(b) && Runs.Current(changes, b, k) && b.bound <= now
    ensures Runs.MovedIn(changes, k, b.asOf[k], now) <==> Runs.MovedIn(changes, k, b.bound, now)
  {
    if !Runs.MovedIn(changes, k, b.bound, now) {
      Runs.StillAcross(changes, k, b.asOf[k], b.bound, now);
    } else {
      var c :| c in changes && c.key == k && b.bound < c.pos <= now;
    }
  }

  lemma MemberIff(s: Runs.Sys, b: Runs.Branch, now: int, how: Runs.How, recorded: set<string>, u: string)
    requires Possible(s, b, now, how) && Runs.Dated(b) && (u in recorded ==> Runs.Current(s.changes, b, Key(u)))
    requires u in recorded + Returned(s.user, b, how)
    ensures Runs.Current(s.changes, Runs.Answered(s.user, b, now, how), Key(u)) <==>
      if u in recorded then !Strays(s, b, now, how, u) else !Presumed(s, b, now, how, u)
  {
    var k := Key(u);
    match how
    case Serve(turn, deltas, stored) =>
      hide *;
      ServedMemberIff(s, b, now, how, recorded, u);
    case Scratch(turn) =>
      assert u in turn.wantLazy ==> PlanWants(s.user, turn.request, turn.view, k);
      hide PlanWants, NoEmpty;
      if !PlanWants(s.user, turn.request, turn.view, k) {
        Unsent(s.changes, b, now, k);
      }
    case Withhold =>
    case _ =>
      Unsent(s.changes, b, now, k);
  }

  /** One response of any kind leaves the record sound exactly when it meets its condition. */
  lemma RecordSoundIff(s: Runs.Sys, b: Runs.Branch, now: int, how: Runs.How, recorded: set<string>)
    requires Possible(s, b, now, how) && Runs.Dated(b) && Sound(s.changes, b, recorded)
    ensures Sound(s.changes, Runs.Answered(s.user, b, now, how), recorded + Returned(s.user, b, how))
            <==> Keeps(s, b, recorded, now, how)
  {
    forall u | u in recorded + Returned(s.user, b, how)
      ensures Runs.Current(s.changes, Runs.Answered(s.user, b, now, how), Key(u)) <==>
        if u in recorded then !Strays(s, b, now, how, u) else !Presumed(s, b, now, how, u)
    {
      hide Strays, Presumed, Runs.Answered, Possible, Returned, Runs.Current, Runs.Dated;
      MemberIff(s, b, now, how, recorded, u);
    }
    hide Strays, Runs.Answered, Possible, Returned, Runs.Current, Runs.Dated, Sends;
  }

  // ------------------------------------------------------------------ whole runs

  ghost function Rows(room: string, users: set<string>): set<Store.Member> {
    set u | u in users :: Store.Member(room, u)
  }

  /** The users of the room on the record of a position. */
  ghost function Told(s: Sys, p: nat): set<string>
    requires p in s.store.told
  {
    set m | m in s.store.told[p] && m.room == s.room :: m.user
  }

  ghost predicate Init(s: Sys) {
    Runs.Init(s.state) && Store.Init(s.store) && s.store.told == map[0 := {}] && s.store.acked == {0} && s.kept == {0}
  }

  ghost function Minting(s: Sys, prev: nat, how: Runs.How, others: set<Store.Member>, gone: set<Store.Member>): Store.Step
    requires prev in s.state.branches
  {
    Store.Mint(prev, Rows(s.room, Returned(s.state.user, s.state.branches[prev], how)) + others, gone)
  }

  /** Only the first response is to no position, and nothing but it can acknowledge that. */
  ghost predicate Enabled(s: Sys, step: Step) {
    match step
    case Commit(c) => Runs.Enabled(s.state, Runs.Commit(c))
    case Acknowledge(p) => p != 0 && Store.Enabled(s.store, Store.Acknowledge(p))
    case Respond(prev, now, how, others, gone) =>
      && (prev == 0 ==> s.store.next == 1) && Runs.Enabled(s.state, Runs.Answer(prev, now, how, s.store.next))
      && Store.Enabled(s.store, Minting(s, prev, how, others, gone))
      && Possible(s.state, s.state.branches[prev], now, how)
      && forall m :: m in others + gone ==> m.room != s.room
  }

  ghost function Apply(s: Sys, step: Step): Sys
    requires Enabled(s, step)
  {
    match step
    case Commit(c) => s.(state := Runs.Apply(s.state, Runs.Commit(c)))
    case Acknowledge(p) => s.(store := Store.Apply(s.store, Store.Acknowledge(p)))
    case Respond(prev, now, how, others, gone) =>
      s.(state := Runs.Apply(s.state, Runs.Answer(prev, now, how, s.store.next)),
         store := Store.Apply(s.store, Minting(s, prev, how, others, gone)),
         kept := s.kept + if prev in s.kept && Keeps(s.state, s.state.branches[prev], Told(s, prev), now, how)
                          then {s.store.next} else {})
  }

  ghost predicate SoundAt(s: Sys, p: nat) {
    p in s.state.branches && p in s.store.told && Sound(s.state.changes, s.state.branches[p], Told(s, p))
  }

  ghost predicate AllSound(s: Sys, positions: set<nat>) {
    forall q :: q in positions ==> SoundAt(s, q)
  }

  ghost predicate Aligned(s: Sys) {
    && Runs.Shaped(s.state) && Store.Inv(s.store)
    && s.state.branches.Keys == s.store.path.Keys && s.kept <= s.state.branches.Keys
    && (forall p :: p in s.store.path ==> s.store.path[p] <= s.state.branches.Keys)
  }

  ghost predicate Inv(s: Sys) {
    Aligned(s) && forall p :: p in s.state.branches ==> (p in s.kept <==> AllSound(s, s.store.path[p]))
  }

  /** A step that mints nothing and leaves every position as sound as it was. */
  lemma SameKept(s: Sys, t: Sys)
    requires Inv(s) && Aligned(t) && t.kept == s.kept && t.store.path == s.store.path
    requires forall q :: q in s.state.branches ==> (SoundAt(t, q) <==> SoundAt(s, q))
    ensures Inv(t)
  {
    hide Store.Inv, Runs.Shaped, SoundAt, AllSound;
    forall p | p in t.state.branches
      ensures p in t.kept <==> AllSound(t, t.store.path[p])
    {
      SameSound(s, t, s.store.path[p]);
    }
  }

  lemma CommitKeeps(s: Sys, c: Runs.Change)
    requires Inv(s) && Enabled(s, Commit(c))
    ensures Inv(Apply(s, Commit(c)))
  {
    var t := Apply(s, Commit(c));
    hide Inv, Store.Inv, NoEmpty, Runs.Dated, SoundAt;
    assert Aligned(s) by {
      KeptIsAligned(s);
    }
    forall q | q in s.state.branches
      ensures SoundAt(t, q) <==> SoundAt(s, q)
    {
      CommitSoundIff(s, c, q);
    }
    SameKept(s, t);
  }

  lemma KeptIsAligned(s: Sys)
    requires Inv(s)
    ensures Aligned(s)
  {
  }

  lemma CommitSoundIff(s: Sys, c: Runs.Change, q: nat)
    requires Enabled(s, Commit(c)) && Runs.Shaped(s.state) && q in s.state.branches
    ensures SoundAt(Apply(s, Commit(c)), q) <==> SoundAt(s, q)
  {
    hide NoEmpty, Runs.Dated;
    var t, b := Apply(s, Commit(c)), s.state.branches[q];
    forall k
      ensures Runs.Current(t.state.changes, b, k) <==> Runs.Current(s.state.changes, b, k)
    {
      assert k in b.asOf && Runs.MovedIn(s.state.changes, k, b.asOf[k], b.bound)
        ==> Runs.MovedIn(t.state.changes, k, b.asOf[k], b.bound);
    }
    assert q in s.store.told ==> Told(t, q) == Told(s, q);
    hide Runs.Current, Told;
  }

  lemma SameSound(s: Sys, t: Sys, positions: set<nat>)
    requires forall q :: q in positions ==> (SoundAt(t, q) <==> SoundAt(s, q))
    ensures AllSound(t, positions) <==> AllSound(s, positions)
  {
    hide SoundAt;
  }

  lemma AcknowledgeKeeps(s: Sys, p: nat)
    requires Inv(s) && Enabled(s, Acknowledge(p))
    ensures Inv(Apply(s, Acknowledge(p)))
  {
    var t := Apply(s, Acknowledge(p));
    Store.AcknowledgeKeeps(s.store, p);
    forall q | q in s.state.branches
      ensures SoundAt(t, q) <==> SoundAt(s, q)
    {
      assert q in s.store.told ==> Told(t, q) == Told(s, q);
      hide Inv, Aligned, Told, Sound;
    }
    hide Inv, Store.Inv, Runs.Shaped, SoundAt;
    assert Aligned(s) by {
      KeptIsAligned(s);
    }
    SameKept(s, t);
  }

  lemma RespondTold(s: Sys, step: Step)
    requires Aligned(s) && Enabled(s, step) && step.Respond?
    ensures var b, t := s.state.branches[step.prev], Apply(s, step);
            && s.store.next in t.store.told && s.store.next !in s.state.branches
            && Told(t, s.store.next) == Told(s, step.prev) + Returned(s.state.user, b, step.how)
  {
    hide Keeps, Possible, Runs.Possible, Returned, Runs.Fine, Runs.Answered, Runs.Shaped;
    var b, t := s.state.branches[step.prev], Apply(s, step);
    var returned := Returned(s.state.user, b, step.how);
    assert t.store.told[s.store.next] == s.store.told[step.prev] + (Rows(s.room, returned) + step.others) - step.gone;
    forall u
      ensures u in Told(t, s.store.next) <==> u in Told(s, step.prev) + returned
    {
      var m := Store.Member(s.room, u);
      assert u in Told(s, step.prev) <==> m in s.store.told[step.prev];
      assert u in Told(t, s.store.next) <==> m in t.store.told[s.store.next];
      assert m in Rows(s.room, returned) <==> u in returned;
    }
  }

  /** The minted position is kept exactly when the record is sound at every position of its branch. */
  lemma MintedSoundIff(s: Sys, step: Step)
    requires Inv(s) && Enabled(s, step) && step.Respond?
    ensures var t := Apply(s, step); AllSound(s, s.store.path[step.prev]) ==>
              (SoundAt(t, s.store.next) <==> Keeps(s.state, s.state.branches[step.prev], Told(s, step.prev), step.now, step.how))
  {
    RespondTold(s, step);
    var b, t := s.state.branches[step.prev], Apply(s, step);
    assert step.prev in s.store.path[step.prev];
    assert Runs.Dated(b);
    hide Keeps, Possible, Runs.Possible, Returned, Runs.Fine, Runs.Answered, Runs.Shaped, Told, Sound, Store.Inv, NoEmpty;
    if SoundAt(s, step.prev) {
      RecordSoundIff(s.state, b, step.now, step.how, Told(s, step.prev));
    }
  }

  lemma RespondOthers(s: Sys, step: Step, q: nat)
    requires Aligned(s) && Enabled(s, step) && step.Respond? && q in s.state.branches
    ensures SoundAt(Apply(s, step), q) <==> SoundAt(s, q)
  {
    hide Keeps, Possible, Runs.Possible, Returned, Runs.Fine, Runs.Answered, Runs.Shaped, Sound;
    var t := Apply(s, step);
    assert q != s.store.next;
    assert Told(t, q) == Told(s, q);
    hide Told, Store.Inv;
  }

  /** How a response changes the positions kept and their branches. */
  lemma RespondEffect(s: Sys, step: Step)
    requires Aligned(s) && Enabled(s, step) && step.Respond?
    ensures var t, n := Apply(s, step), s.store.next;
            && step.prev in s.store.path && n !in s.state.branches && t.state.branches.Keys == s.state.branches.Keys + {n}
            && t.store.path == s.store.path[n := s.store.path[step.prev] + {n}]
            && (n in t.kept <==> (step.prev in s.kept
                                  && Keeps(s.state, s.state.branches[step.prev], Told(s, step.prev), step.now, step.how)))
            && forall p :: p != n ==> (p in t.kept <==> p in s.kept)
  {
    hide Keeps, Possible, Runs.Possible, Returned, Runs.Fine, Runs.Answered, Runs.Shaped, Told;
  }

  lemma RespondParts(s: Sys, step: Step)
    requires Runs.Shaped(s.state) && Store.Inv(s.store) && Enabled(s, step) && step.Respond?
    ensures Runs.Shaped(Apply(s, step).state) && Store.Inv(Apply(s, step).store)
  {
    assert step.prev in s.state.branches;
    hide Runs.Shaped, Store.Inv, Keeps, Told, Possible, Runs.Enabled, Runs.Apply, Store.Enabled, Store.Apply;
    var Respond(prev, now, how, others, gone) := step;
    Runs.AnswerShaped(s.state, prev, now, how, s.store.next);
    Store.MintKeeps(s.store, prev, Rows(s.room, Returned(s.state.user, s.state.branches[prev], how)) + others, gone);
  }

  lemma RespondAligned(s: Sys, step: Step)
    requires Aligned(s) && Enabled(s, step) && step.Respond?
    ensures Aligned(Apply(s, step))
  {
    hide Apply, Enabled, Store.Inv, Runs.Shaped, Keeps, Told;
    RespondParts(s, step);
    RespondEffect(s, step);
  }

  /** With one position minted on top of `prev`, kept as far as `prev` is and the response allows. */
  lemma MintedKept(s: Sys, t: Sys, prev: nat, n: nat, keeps: bool)
    requires Inv(s) && Aligned(t) && prev in s.store.path && n !in s.state.branches
    requires t.state.branches.Keys == s.state.branches.Keys + {n}
    requires t.store.path == s.store.path[n := s.store.path[prev] + {n}]
    requires (n in t.kept <==> prev in s.kept && keeps) && forall p :: p != n ==> (p in t.kept <==> p in s.kept)
    requires AllSound(s, s.store.path[prev]) ==> (SoundAt(t, n) <==> keeps)
    requires forall q :: q in s.state.branches ==> (SoundAt(t, q) <==> SoundAt(s, q))
    ensures Inv(t)
  {
    hide Runs.Shaped, Store.Inv, SoundAt, AllSound;
    SameSound(s, t, s.store.path[prev]);
    AndMinted(t, s.store.path[prev], n);
    forall p | p in t.state.branches
      ensures p in t.kept <==> AllSound(t, t.store.path[p])
    {
      if p != n {
        SameSound(s, t, s.store.path[p]);
      }
    }
  }

  lemma AndMinted(t: Sys, positions: set<nat>, n: nat)
    ensures AllSound(t, positions + {n}) <==> AllSound(t, positions) && SoundAt(t, n)
  {
    hide SoundAt;
  }

  lemma RespondKeeps(s: Sys, step: Step)
    requires Inv(s) && Enabled(s, step) && step.Respond?
    ensures Inv(Apply(s, step))
  {
    var t, n := Apply(s, step), s.store.next;
    KeptIsAligned(s);
    RespondAligned(s, step);
    RespondEffect(s, step);
    MintedSoundIff(s, step);
    forall q | q in s.state.branches
      ensures SoundAt(t, q) <==> SoundAt(s, q)
    {
      RespondOthers(s, step, q);
    }
    var keeps := Keeps(s.state, s.state.branches[step.prev], Told(s, step.prev), step.now, step.how);
    hide Inv, Aligned, Apply, Enabled, Keeps, SoundAt, AllSound, Told;
    MintedKept(s, t, step.prev, n, keeps);
  }

  ghost predicate IsRun(states: seq<Sys>, steps: seq<Step>) {
    && |states| == |steps| + 1 && Init(states[0])
    && forall i :: 0 <= i < |steps| ==> Enabled(states[i], steps[i]) && states[i + 1] == Apply(states[i], steps[i])
  }

  lemma InitInv(s: Sys)
    requires Init(s)
    ensures Inv(s)
  {
  }

  lemma {:induction false} RunKeeps(states: seq<Sys>, steps: seq<Step>, i: nat)
    requires IsRun(states, steps) && i < |states|
    ensures Inv(states[i])
  {
    hide Inv, Apply, Enabled, Init;
    if i == 0 {
      InitInv(states[0]);
    } else {
      RunKeeps(states, steps, i - 1);
      match steps[i - 1]
      case Commit(c) => CommitKeeps(states[i - 1], c);
      case Acknowledge(p) => AcknowledgeKeeps(states[i - 1], p);
      case Respond(_, _, _, _, _) => RespondKeeps(states[i - 1], steps[i - 1]);
    }
  }

  /** In every run, forks, retries and acknowledgements included: at a position and at all the positions
      its branch went through, every member on the branch's record is held current, exactly when each of
      its responses met its condition. */
  lemma RecordSoundThroughoutIff(states: seq<Sys>, steps: seq<Step>, i: nat, p: nat)
    requires IsRun(states, steps) && i < |states| && p in states[i].state.branches
    ensures p in states[i].store.path && (p in states[i].kept <==> AllSound(states[i], states[i].store.path[p]))
  {
    RunKeeps(states, steps, i);
  }

  /** So a row the lookup shows at such a position is of a member held current there, if it is the
      branch's own: at no position or at one of the branch's. */
  lemma ShownIsCurrent(states: seq<Sys>, steps: seq<Step>, i: nat, p: nat, u: string)
    requires IsRun(states, steps) && i < |states| && p in states[i].store.live && p in states[i].kept
    requires var s := states[i]; var m := Store.Member(s.room, u);
             m in s.store.rows && p in s.store.path && (s.store.rows[m].None? || s.store.rows[m].value in s.store.path[p])
    ensures p in states[i].state.branches && Runs.Current(states[i].state.changes, states[i].state.branches[p], Key(u))
  {
    RunKeeps(states, steps, i);
    hide Runs.Shaped;
    assert Store.Own(states[i].store, p, Store.Member(states[i].room, u));
    OwnIsCurrent(states[i], p, u);
  }

  /** A row stays on the table through any response, and the response adds the rows it returns. */
  lemma RowsStay(s: Sys, step: Step, u: string)
    requires Aligned(s) && Enabled(s, step) && step.Respond?
    ensures var m, t := Store.Member(s.room, u), Apply(s, step);
            && (m in t.store.rows <==> m in s.store.rows || u in Returned(s.state.user, s.state.branches[step.prev], step.how))
            && s.store.next in t.store.live && t.room == s.room
  {
    hide Keeps, Possible, Runs.Possible, Returned, Runs.Fine, Runs.Answered, Runs.Shaped, Told;
    var returned := Returned(s.state.user, s.state.branches[step.prev], step.how);
    assert Store.Member(s.room, u) in Rows(s.room, returned) <==> u in returned;
  }

  /** A row of another branch says nothing: whichever response wrote it, it is shown at the position of
      any later response, also to a branch that does not hold the member at all. */
  lemma SiblingShownUnheld(s: Sys, step: Step, u: string)
    requires Inv(s) && Enabled(s, step) && step.Respond? && Store.Member(s.room, u) in s.store.rows
    requires Key(u) !in Runs.Answered(s.state.user, s.state.branches[step.prev], step.now, step.how).asOf
    ensures var t, n := Apply(s, step), s.store.next;
            && n in t.store.live && Store.Member(t.room, u) in t.store.rows && n in t.state.branches
            && !Runs.Current(t.state.changes, t.state.branches[n], Key(u))
            && (n in t.kept ==> !Store.Own(t.store, n, Store.Member(t.room, u)))
  {
    var t, n, m := Apply(s, step), s.store.next, Store.Member(s.room, u);
    RowsStay(s, step, u);
    RespondKeeps(s, step);
    hide Keeps, Possible, Runs.Possible, Returned, Runs.Fine, Runs.Answered, Runs.Shaped;
    assert t.state.branches[n].asOf == Runs.Answered(s.state.user, s.state.branches[step.prev], step.now, step.how).asOf;
    if n in t.kept && Store.Own(t.store, n, m) {
      OwnIsCurrent(t, n, u);
    }
  }

  lemma OwnIsCurrent(s: Sys, p: nat, u: string)
    requires Inv(s) && p in s.kept
    requires Store.Member(s.room, u) in s.store.rows && Store.Own(s.store, p, Store.Member(s.room, u))
    ensures p in s.state.branches && Runs.Current(s.state.changes, s.state.branches[p], Key(u))
  {
    hide Runs.Shaped;
    var m := Store.Member(s.room, u);
    assert p in s.store.path[p];
    assert SoundAt(s, p);
    assert m in s.store.told[p] && m.user in Told(s, p);
  }
}
