/** The lazy-member table of one connection: which memberships its forks have been sent. */
module LazyStore {
  import opened Common

  /** A member of a room. */
  datatype Member = Member(room: string, user: string)

  /** A row's position: the one it was written against, or none once it holds for all to come. */
  type Rows = map<Member, Option<nat>>

  // -------------------------------------------------------------- the statements

  /** A response's rows written and its invalidations applied. A row that is already there keeps its
      position, whichever fork wrote it; an invalidation reaches every fork. */
  ghost function Written(rows: Rows, position: nat, returned: set<Member>, invalidated: set<Member>): Rows {
    map m | m in rows.Keys + returned && m !in invalidated :: if m in rows then rows[m] else Some(position)
  }

  /** Acknowledging a position: rows of other positions go with them, its own hold from now on. */
  ghost function Promoted(rows: Rows, position: nat): Rows {
    map m | m in rows && (rows[m] == None || rows[m] == Some(position)) :: None
  }

  class LazyTable {
    var rows: Rows

    constructor ()
      ensures rows == map[]
    {
      rows := map[];
    }

    method Persist(position: nat, returned: set<Member>, invalidated: set<Member>)
      modifies this
      ensures rows == Written(old(rows), position, returned, invalidated)
    {
      var rest := returned;
      while rest != {}
        invariant rest <= returned
        invariant rows.Keys == old(rows).Keys + (returned - rest)
        invariant forall m :: m in rows ==> rows[m] == if m in old(rows) then old(rows)[m] else Some(position)
      {
        var m :| m in rest;
        if m !in rows {
          rows := rows[m := Some(position)];
        }
        rest := rest - {m};
      }
      rows := rows - invalidated;
    }

    method Promote(position: nat)
      modifies this
      ensures rows == Promoted(old(rows), position)
    {
      rows := map m | m in rows && (rows[m] == None || rows[m] == Some(position)) :: rows[m];
      rows := map m | m in rows :: if rows[m] == Some(position) then None else rows[m];
    }
  }

  // ------------------------------------------------------------------ whole runs

  /** For each position, `told` is what the branch leading to it was sent and has not invalidated
      since, and `path` the positions of that branch, itself included. `writer` is the position each
      row was first written against, and `acked` the positions acknowledged so far. */
  datatype Sys = Sys(rows: Rows, live: set<nat>, next: nat, told: map<nat, set<Member>>, path: map<nat, set<nat>>,
                     writer: map<Member, nat>, acked: set<nat>)

  datatype Step =
    | Acknowledge(position: nat)
    | Mint(prev: nat, returned: set<Member>, invalidated: set<Member>)

  /** A connection starts with the position of its first response; one without rows may count as
      acknowledged already. */
  ghost predicate Init(s: Sys) {
    && s.next > 0 && var first: nat := s.next - 1;
    && s.live == s.told.Keys == {first} && s.path == map[first := {first}]
    && s.rows.Keys == s.writer.Keys == s.told[first]
    && s.acked <= {first} && (s.acked != {} ==> s.rows == map[])
    && forall m :: m in s.rows ==> s.rows[m] == Some(first) && s.writer[m] == first
  }

  /** A request acknowledges a live position, and mints on top of one it has acknowledged. */
  ghost predicate Enabled(s: Sys, step: Step) {
    match step
    case Acknowledge(p) => p in s.live
    case Mint(prev, _, _) => prev in s.live && prev in s.acked && prev in s.told && prev in s.path
  }

  ghost function Apply(s: Sys, step: Step): Sys
    requires Enabled(s, step)
  {
    match step
    case Acknowledge(p) => s.(rows := Promoted(s.rows, p), live := {p}, acked := s.acked + {p})
    case Mint(prev, returned, invalidated) =>
      var rows := Written(s.rows, s.next, returned, invalidated);
      Sys(rows, s.live + {s.next}, s.next + 1,
          s.told[s.next := s.told[prev] + returned - invalidated],
          s.path[s.next := s.path[prev] + {s.next}],
          map m | m in rows :: if m in s.rows && m in s.writer then s.writer[m] else s.next,
          s.acked)
  }

  /** A row written on a position's own branch. */
  ghost predicate Own(s: Sys, p: nat, m: Member) {
    p in s.path && m in s.writer && s.writer[m] in s.path[p]
  }

  ghost predicate WellFormed(s: Sys) {
    && s.told.Keys == s.path.Keys && s.rows.Keys <= s.writer.Keys
    && (forall p :: p in s.live ==> p in s.path)
    && (forall p :: p in s.path ==> p in s.path[p])
    && (forall p, q :: p in s.path && q in s.path[p] ==> q <= p < s.next)
    && (forall p, q :: p in s.path && q in s.path[p] && q != p ==> q in s.acked) && s.next !in s.acked
    && (forall p :: p in s.acked ==> p < s.next)
  }

  ghost predicate Inv(s: Sys) {
    && WellFormed(s)
    && (forall m :: m in s.rows && s.rows[m].Some? ==> s.writer[m] == s.rows[m].value < s.next && s.rows[m].value !in s.acked)
    && (forall m, p :: m in s.rows && s.rows[m].None? && p in s.live ==> Own(s, p, m))
    && (forall m, p :: m in s.rows && p in s.path && Own(s, p, m) ==> m in s.told[p])
  }

  lemma MintKeeps(s: Sys, prev: nat, returned: set<Member>, invalidated: set<Member>)
    requires Inv(s) && Enabled(s, Mint(prev, returned, invalidated))
    ensures Inv(Apply(s, Mint(prev, returned, invalidated)))
  {
    var t := Apply(s, Mint(prev, returned, invalidated));
    forall m, p | m in t.rows && p in t.path && Own(t, p, m)
      ensures m in t.told[p]
    {
      if m in s.rows {
        assert p != s.next ==> Own(s, p, m);
        assert p == s.next ==> Own(s, prev, m);
      } else {
        assert p == s.next;
      }
    }
    forall m, p | m in t.rows && t.rows[m].None? && p in t.live
      ensures Own(t, p, m)
    {
      assert Own(s, if p == s.next then prev else p, m);
    }
  }

  lemma AcknowledgeKeeps(s: Sys, position: nat)
    requires Inv(s) && Enabled(s, Acknowledge(position))
    ensures Inv(Apply(s, Acknowledge(position)))
  {
    var t := Apply(s, Acknowledge(position));
    forall m, p | m in t.rows && p in t.live
      ensures Own(t, p, m)
    {
      OwnHere(s, position, m);
    }
  }

  lemma OwnHere(s: Sys, position: nat, m: Member)
    requires Inv(s) && position in s.live && m in Promoted(s.rows, position)
    ensures Own(s, position, m)
  {
  }

  ghost predicate IsRun(states: seq<Sys>, steps: seq<Step>) {
    && |states| == |steps| + 1 && Init(states[0])
    && forall i :: 0 <= i < |steps| ==> Enabled(states[i], steps[i]) && states[i + 1] == Apply(states[i], steps[i])
  }

  lemma {:induction false} RunKeeps(states: seq<Sys>, steps: seq<Step>, i: nat)
    requires IsRun(states, steps) && i < |states|
    ensures Inv(states[i])
  {
    if i > 0 {
      hide Inv, Apply, Enabled;
      RunKeeps(states, steps, i - 1);
      match steps[i - 1]
      case Acknowledge(p) => AcknowledgeKeeps(states[i - 1], p);
      case Mint(prev, returned, invalidated) => MintKeeps(states[i - 1], prev, returned, invalidated);
    }
  }

  /** In every run of forks, a row shown at a live position was written on its own branch exactly
      when it is at no position or at one of the branch's; and then the branch was sent the member. */
  lemma ShownRowIsOwnIff(states: seq<Sys>, steps: seq<Step>, i: nat, p: nat, m: Member)
    requires IsRun(states, steps) && i < |states| && p in states[i].live && m in states[i].rows
    ensures p in states[i].path && p in states[i].told
    ensures Own(states[i], p, m) <==> states[i].rows[m].None? || states[i].rows[m].value in states[i].path[p]
    ensures Own(states[i], p, m) ==> m in states[i].told[p]
  {
    RunKeeps(states, steps, i);
  }

  /** Whatever forks came and went, once a position is acknowledged the table holds only members its
      own branch was sent, and every row holds from now on. */
  lemma AcknowledgedRowsAreOwn(states: seq<Sys>, steps: seq<Step>, i: nat, m: Member)
    requires IsRun(states, steps) && i < |steps| && steps[i].Acknowledge? && m in states[i + 1].rows
    ensures states[i + 1].rows[m] == None && steps[i].position in states[i].told && m in states[i].told[steps[i].position]
  {
    RunKeeps(states, steps, i);
    RunKeeps(states, steps, i + 1);
    assert Own(states[i + 1], steps[i].position, m);
  }

  /** And it still holds all those it showed of that branch: acknowledging loses no own row. */
  lemma AcknowledgedKeepsOwn(states: seq<Sys>, steps: seq<Step>, i: nat, m: Member)
    requires IsRun(states, steps) && i < |steps| && steps[i].Acknowledge?
    ensures m in states[i + 1].rows <==> m in states[i].rows && Own(states[i], steps[i].position, m)
  {
    RunKeeps(states, steps, i);
    var s, p := states[i], steps[i].position;
    if m in s.rows && Own(s, p, m) && s.rows[m].Some? {
      assert s.rows[m].value in s.path[p];
    }
  }

  /** Until then a row may be a sibling's: whatever two responses to one position, the table says the
      second branch was sent every member only the first one was. */
  lemma SiblingRowsShow(s: Sys, prev: nat, m: Member, first: set<Member>, second: set<Member>)
    requires Inv(s) && prev in s.live && prev in s.acked && m in first && m !in second && m !in s.rows && m !in s.told[prev]
    ensures var t := Apply(Apply(s, Mint(prev, first, {})), Mint(prev, second, {}));
            && m in t.rows && s.next + 1 in t.live && !Own(t, s.next + 1, m) && m !in t.told[s.next + 1]
  {
    var t := Apply(Apply(s, Mint(prev, first, {})), Mint(prev, second, {}));
    assert t.writer[m] == s.next && s.next !in s.path[prev];
  }
}
