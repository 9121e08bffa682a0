/** The `state` block around a timeline. */
module StateBlock {
  import opened Common

  const MEMBER := "m.room.member"
  const ALIASES := "m.room.aliases"

  datatype StateKey = StateKey(typ: string, key: string)

  /** An event: its identifier, the state key it sets if it is state, and its predecessors. */
  datatype Event = Event(id: string, state: Option<StateKey>, prevs: seq<string>)

  type RoomState = map<StateKey, string>

  /** The state a run of events leaves: the last event per key. */
  function StateOf(events: seq<Event>): RoomState {
    if events == [] then map[] else
      var e := events[|events| - 1];
      var before := StateOf(events[..|events| - 1]);
      if e.state.Some? then before[e.state.value := e.id] else before
  }

  // ------------------------------------------------------------- the calculation

  /** The events a block leaves out. A membership at the timeline's start is sent again under lazy
      loading, even if it was already in force. */
  ghost predicate Withheld(k: StateKey, id: string, start: RoomState, previous: RoomState, messages: seq<Event>, lazy: bool) {
    || id in StateOf(messages).Values
    || (id in previous.Values && !(lazy && exists m :: m in start && start[m] == id && m.typ == MEMBER))
    || k.typ == ALIASES
  }

  /** What a block says of a key: the state at the end if that is not withheld, else at the start. */
  ghost function BlockAt(k: StateKey, start: RoomState, end: RoomState, previous: RoomState, messages: seq<Event>, lazy: bool): Option<string> {
    if k in end && !Withheld(k, end[k], start, previous, messages, lazy) then Some(end[k])
    else if k in start && !Withheld(k, start[k], start, previous, messages, lazy) then Some(start[k])
    else None
  }

  ghost predicate IsBlock(block: RoomState, start: RoomState, end: RoomState, previous: RoomState, messages: seq<Event>, lazy: bool) {
    forall k :: (if k in block then Some(block[k]) else None) == BlockAt(k, start, end, previous, messages, lazy)
  }

  method TimelineContains(messages: seq<Event>) returns (contains: RoomState)
    ensures contains == StateOf(messages)
  {
    contains := map[];
    for i := 0 to |messages|
      invariant contains == StateOf(messages[..i])
    {
      if messages[i].state.Some? {
        contains := contains[messages[i].state.value := messages[i].id];
      }
      assert messages[..i + 1][..i] == messages[..i];
    }
    assert messages[..|messages|] == messages;
  }

  /** The identifiers the client already holds, less the memberships lazy loading sends again. */
  method AlreadySent(start: RoomState, previous: RoomState, lazy: bool) returns (sent: set<string>)
    ensures forall id :: id in sent <==>
      id in previous.Values && !(lazy && exists m :: m in start && start[m] == id && m.typ == MEMBER)
  {
    sent := previous.Values;
    if lazy {
      var rest := start.Keys;
      while rest != {}
        invariant rest <= start.Keys
        invariant forall id :: id in sent <==>
          id in previous.Values && !exists m :: m in start && m !in rest && start[m] == id && m.typ == MEMBER
      {
        var k :| k in rest;
        if k.typ == MEMBER {
          sent := sent - {start[k]};
        }
        rest := rest - {k};
      }
    }
  }

  /** Lays over a block what one end's state adds to it. */
  method Lay(block: RoomState, state: RoomState, inTimeline: set<string>, sent: set<string>) returns (out: RoomState)
    ensures forall k :: k in out <==> k in block || (k in state && Sendable(k, state[k], inTimeline, sent))
    ensures forall k :: k in out ==>
      out[k] == if k in state && Sendable(k, state[k], inTimeline, sent) then state[k] else block[k]
  {
    out := block;
    var rest := state.Keys;
    while rest != {}
      invariant rest <= state.Keys
      invariant forall k :: k in out <==> k in block || (k in state && k !in rest && Sendable(k, state[k], inTimeline, sent))
      invariant forall k :: k in out ==>
        out[k] == if k in state && k !in rest && Sendable(k, state[k], inTimeline, sent) then state[k] else block[k]
    {
      var k :| k in rest;
      if !(state[k] in inTimeline || state[k] in sent || k.typ == ALIASES) {
        out := out[k := state[k]];
      }
      rest := rest - {k};
    }
  }

  predicate Sendable(k: StateKey, id: string, inTimeline: set<string>, sent: set<string>) {
    id !in inTimeline && id !in sent && k.typ != ALIASES
  }

  method CalculateState(start: RoomState, end: RoomState, previous: RoomState, messages: seq<Event>, lazy: bool)
    returns (out: RoomState)
    ensures IsBlock(out, start, end, previous, messages, lazy)
  {
    var contains := TimelineContains(messages);
    var inTimeline := contains.Values;
    var sent := AlreadySent(start, previous, lazy);
    out := Lay(map[], start, inTimeline, sent);
    out := Lay(out, end, inTimeline, sent);
    forall k, id
      ensures Sendable(k, id, inTimeline, sent) <==> !Withheld(k, id, start, previous, messages, lazy)
    {
    }
  }

  /** The initial sync's block: nothing was sent before. */
  method SyncStateBlock(start: RoomState, end: RoomState, messages: seq<Event>) returns (out: RoomState)
    ensures IsBlock(out, start, end, map[], messages, false)
  {
    var contains := TimelineContains(messages);
    var inTimeline := contains.Values;
    out := Lay(map[], start, inTimeline, {});
    out := Lay(out, end, inTimeline, {});
    forall k, id
      ensures Sendable(k, id, inTimeline, {}) <==> !Withheld(k, id, start, map[], messages, false)
    {
    }
  }

  // ------------------------------------------------------------- the linear shortcut

  /** The identifier before a place in a timeline. */
  function Before(prev: string, messages: seq<Event>, i: nat): string
    requires i <= |messages|
  {
    if i == 0 then prev else messages[i - 1].id
  }

  /** Each event names exactly its predecessor, starting from `prev`. */
  ghost predicate Chained(prev: string, messages: seq<Event>) {
    forall i :: 0 <= i < |messages| ==> messages[i].prevs == [Before(prev, messages, i)]
  }

  method IsLinearTimeline(last: string, messages: seq<Event>) returns (linear: bool)
    ensures linear <==> Chained(last, messages)
  {
    var prev := last;
    for i := 0 to |messages|
      invariant prev == Before(last, messages, i)
      invariant forall k :: 0 <= k < i ==> messages[k].prevs == [Before(last, messages, k)]
    {
      var e := messages[i];
      if |e.prevs| != 1 || e.prevs[0] != prev {
        assert e.prevs != [prev];
        return false;
      }
      assert e.prevs == [prev];
      prev := e.id;
    }
    return true;
  }

  function Predecessors(h: seq<Event>, i: nat): seq<string>
    requires i <= |h|
  {
    if i == 0 then [] else [h[i - 1].id]
  }

  ghost predicate DistinctIds(h: seq<Event>) {
    forall i, j :: 0 <= i < j < |h| ==> h[i].id != h[j].id
  }

  /** A linear history: distinct, named events, the first with no predecessor and every other naming
      exactly the one before it. */
  ghost predicate Linear(h: seq<Event>) {
    && (forall i :: 0 <= i < |h| ==> h[i].id != "")
    && DistinctIds(h)
    && (forall i :: 0 <= i < |h| ==> h[i].prevs == Predecessors(h, i))
  }

  /** The identifier of the last event before a point, or none. */
  function LastId(events: seq<Event>): string {
    if events == [] then "" else events[|events| - 1].id
  }

  /** In one history: a chain that starts after the first `a` events is the rest from `n` on exactly
      when that is where they stop, and there are some. */
  lemma ChainedIff(h: seq<Event>, a: nat, n: nat)
    requires Linear(h) && a <= n < |h|
    ensures Chained(LastId(h[..a]), h[n..]) <==> a == n && a > 0
  {
    var timeline, prev := h[n..], LastId(h[..a]);
    assert timeline[0] == h[n] && h[n].prevs == Predecessors(h, n);
    if a == n && a > 0 {
      forall i | 0 <= i < |timeline|
        ensures timeline[i].prevs == [Before(prev, timeline, i)]
      {
        assert timeline[i] == h[n + i] && h[n + i].prevs == Predecessors(h, n + i);
      }
    } else {
      assert h[n].prevs != [prev] by {
        if n > 0 {
          OnlyOne(h[n].prevs, h[n - 1].id, prev);
        }
      }
      assert Before(prev, timeline, 0) == prev;
    }
  }

  /** The shortcut is taken exactly when nothing was skipped, and something came before. */
  lemma LinearIffNoGap(synced: seq<Event>, gap: seq<Event>, timeline: seq<Event>)
    requires Linear(synced + gap + timeline) && timeline != []
    ensures Chained(LastId(synced), timeline) <==> gap == [] && synced != []
  {
    hide Linear, Chained;
    var h, a, n := synced + gap + timeline, |synced|, |synced| + |gap|;
    assert h[..a] == synced && h[n..] == timeline;
    ChainedIff(h, a, n);
  }

  lemma OnlyOne(s: seq<string>, a: string, b: string)
    requires s == [a] && a != b
    ensures s != [b]
  {
    assert s[0] == a;
  }

  // ------------------------------------------------------------------ reconstruction

  lemma {:induction false} StateOfConcat(a: seq<Event>, b: seq<Event>)
    ensures StateOf(a + b) == StateOf(a) + StateOf(b)
  {
    if b == [] {
      assert a + b == a;
    } else {
      var n := |b| - 1;
      assert (a + b)[..|a + b| - 1] == a + b[..n];
      StateOfConcat(a, b[..n]);
    }
  }

  /** Every event in force is one of the events, and sets the key it is in force for. */
  lemma {:induction false} StateOfFrom(events: seq<Event>, k: StateKey) returns (i: nat)
    requires k in StateOf(events)
    ensures i < |events| && events[i].id == StateOf(events)[k] && events[i].state == Some(k)
  {
    var n := |events| - 1;
    if events[n].state == Some(k) {
      i := n;
    } else {
      i := StateOfFrom(events[..n], k);
    }
  }

  /** In one history an identifier is in force for one key only. */
  lemma SameEvent(h: seq<Event>, a: seq<Event>, da: nat, b: seq<Event>, db: nat, k: StateKey, m: StateKey)
    requires DistinctIds(h) && da + |a| <= |h| && db + |b| <= |h|
    requires a == h[da..da + |a|] && b == h[db..db + |b|]
    requires k in StateOf(a) && m in StateOf(b) && StateOf(a)[k] == StateOf(b)[m]
    ensures k == m
  {
    hide StateOf;
    var i := StateOfFrom(a, k);
    var j := StateOfFrom(b, m);
    assert h[da + i] == a[i] && h[db + j] == b[j];
  }

  /** What the timeline's first event may be known to have been interpreted under. */
  ghost predicate IsStart(start: RoomState, before: seq<Event>, timeline: seq<Event>) {
    start == StateOf(before + timeline) || (timeline != [] && start == StateOf(before + [timeline[0]]))
  }

  /** A key the timeline does not touch is the same at both of its ends. */
  lemma Untouched(before: seq<Event>, timeline: seq<Event>, start: RoomState, k: StateKey)
    requires IsStart(start, before, timeline) && k !in StateOf(timeline)
    ensures k in start <==> k in StateOf(before + timeline)
    ensures k in start ==> start[k] == StateOf(before + timeline)[k]
  {
    StateOfConcat(before, timeline);
    if timeline != [] {
      StateOfConcat(before, [timeline[0]]);
      StateOfConcat([timeline[0]], timeline[1..]);
      assert timeline == [timeline[0]] + timeline[1..];
    }
  }

  /** What a client holds for a key, once it has laid a block and then the timeline over its state. */
  ghost function Holds(client: RoomState, block: RoomState, timeline: seq<Event>, k: StateKey): Option<string> {
    var state := client + block + StateOf(timeline);
    if k in state then Some(state[k]) else None
  }

  ghost function At(state: RoomState, k: StateKey): Option<string> {
    if k in state then Some(state[k]) else None
  }

  /** Reconstruction: on any linear history, however it splits into what was synced, what was
      skipped and the timeline, a client that held the state at the end of the first holds the
      state at the end of the last, for every key but the aliases. */
  lemma BlockReconstructs(synced: seq<Event>, gap: seq<Event>, timeline: seq<Event>, start: RoomState,
                          client: RoomState, block: RoomState, lazy: bool, k: StateKey)
    requires Linear(synced + gap + timeline) && IsStart(start, synced + gap, timeline)
    requires k.typ != ALIASES && At(client, k) == At(StateOf(synced), k)
    requires IsBlock(block, start, StateOf(synced + gap + timeline), StateOf(synced), timeline, lazy)
    ensures Holds(client, block, timeline, k) == At(StateOf(synced + gap + timeline), k)
  {
    var h := synced + gap + timeline;
    var end, previous := StateOf(h), StateOf(synced);
    StateOfConcat(synced + gap, timeline);
    StateOfConcat(synced, gap);
    if k !in StateOf(timeline) {
      Untouched(synced + gap, timeline, start, k);
      assert At(block, k) == BlockAt(k, start, end, previous, timeline, lazy);
      if k in end {
        NotInTimeline(synced, gap, timeline, k);
        if end[k] in previous.Values {
          HeldAlready(synced, gap, timeline, k);
        }
      }
    }
  }

  /** Without lazy loading the block sends nothing twice: what it carries for a key is an event from
      after the client's last sync that sets the key, and is not what the timeline leaves in force. */
  lemma BlockSendsOnlyNew(synced: seq<Event>, gap: seq<Event>, timeline: seq<Event>, start: RoomState, block: RoomState, k: StateKey)
    returns (e: Event)
    requires IsStart(start, synced + gap, timeline) && k in block
    requires IsBlock(block, start, StateOf(synced + gap + timeline), StateOf(synced), timeline, false)
    ensures k.typ != ALIASES && e in gap + timeline && e.state == Some(k) && e.id == block[k]
    ensures block[k] !in StateOf(timeline).Values
  {
    var h, rest := synced + gap + timeline, gap + timeline;
    assert At(block, k) == BlockAt(k, start, StateOf(h), StateOf(synced), timeline, false);
    assert h == synced + rest;
    if k in StateOf(h) && block[k] == StateOf(h)[k] {
      e := NewlyInForce(synced, rest, k);
    } else {
      assert start != StateOf(h);
      assert synced + gap + [timeline[0]] == synced + (gap + [timeline[0]]);
      e := NewlyInForce(synced, gap + [timeline[0]], k);
    }
  }

  lemma NewlyInForce(synced: seq<Event>, rest: seq<Event>, k: StateKey) returns (e: Event)
    requires k in StateOf(synced + rest) && StateOf(synced + rest)[k] !in StateOf(synced).Values
    ensures e in rest && e.state == Some(k) && e.id == StateOf(synced + rest)[k]
  {
    StateOfConcat(synced, rest);
    assert k in StateOf(synced) ==> StateOf(synced)[k] in StateOf(synced).Values;
    var i := StateOfFrom(rest, k);
    e := rest[i];
  }

  /** Under lazy loading a membership in force where the timeline starts is right afterwards for every
      client, whatever it was sent before. */
  lemma LazyMembersReconstruct(synced: seq<Event>, gap: seq<Event>, timeline: seq<Event>, start: RoomState,
                               client: RoomState, block: RoomState, k: StateKey)
    requires Linear(synced + gap + timeline) && IsStart(start, synced + gap, timeline)
    requires k.typ == MEMBER && k in start
    requires IsBlock(block, start, StateOf(synced + gap + timeline), StateOf(synced), timeline, true)
    ensures Holds(client, block, timeline, k) == At(StateOf(synced + gap + timeline), k)
  {
    var end := StateOf(synced + gap + timeline);
    StateOfConcat(synced + gap, timeline);
    if k !in StateOf(timeline) {
      Untouched(synced + gap, timeline, start, k);
      NotInTimeline(synced, gap, timeline, k);
      assert At(block, k) == BlockAt(k, start, end, StateOf(synced), timeline, true);
    }
  }

  /** The event in force for a key the timeline does not touch is not in the timeline. */
  lemma NotInTimeline(synced: seq<Event>, gap: seq<Event>, timeline: seq<Event>, k: StateKey)
    requires Linear(synced + gap + timeline)
    requires k in StateOf(synced + gap + timeline) && k !in StateOf(timeline)
    ensures StateOf(synced + gap + timeline)[k] !in StateOf(timeline).Values
  {
    hide StateOf, Predecessors;
    var h, n := synced + gap + timeline, |synced + gap|;
    if m :| m in StateOf(timeline) && StateOf(timeline)[m] == StateOf(h)[k] {
      assert h[..] == h && h[n..] == timeline;
      SameEvent(h, h, 0, timeline, n, k, m);
    }
  }

  /** And if it was in force when the client last synced, the client holds it for that key. */
  lemma HeldAlready(synced: seq<Event>, gap: seq<Event>, timeline: seq<Event>, k: StateKey)
    requires Linear(synced + gap + timeline)
    requires k in StateOf(synced + gap + timeline) && StateOf(synced + gap + timeline)[k] in StateOf(synced).Values
    ensures k in StateOf(synced) && StateOf(synced)[k] == StateOf(synced + gap + timeline)[k]
  {
    hide StateOf, Predecessors;
    var h := synced + gap + timeline;
    var m :| m in StateOf(synced) && StateOf(synced)[m] == StateOf(h)[k];
    assert h[0..|h|] == h && h[0..|synced|] == synced;
    SameEvent(h, h, 0, synced, 0, k, m);
  }

  /** The whole delta: the shortcut when the timeline continues the client's history, nothing when
      nothing happened, and the full formula otherwise. `start` is what the store knows of the
      timeline's first event. */
  method IncrementalStateDelta(synced: seq<Event>, gap: seq<Event>, timeline: seq<Event>, limited: bool, start: RoomState)
    returns (block: RoomState)
    requires Linear(synced + gap + timeline) && IsStart(start, synced + gap, timeline)
    requires !limited && timeline == [] ==> gap == []
    ensures forall client: RoomState, k: StateKey :: k.typ != ALIASES && At(client, k) == At(StateOf(synced), k) ==>
      Holds(client, block, timeline, k) == At(StateOf(synced + gap + timeline), k)
    ensures !limited && gap == [] && (timeline == [] || synced != []) ==> block == map[]
  {
    if !limited && timeline != [] {
      var linear := IsLinearTimeline(LastId(synced), timeline);
      LinearIffNoGap(synced, gap, timeline);
      if linear {
        EmptyReconstructs(synced, timeline);
        assert synced + gap == synced;
        return map[];
      }
    }
    if !limited && timeline == [] {
      EmptyReconstructs(synced, timeline);
      assert synced + gap + timeline == synced + timeline;
      return map[];
    }
    block := CalculateState(start, StateOf(synced + gap + timeline), StateOf(synced), timeline, false);
    forall client: RoomState, k: StateKey | k.typ != ALIASES && At(client, k) == At(StateOf(synced), k)
      ensures Holds(client, block, timeline, k) == At(StateOf(synced + gap + timeline), k)
    {
      BlockReconstructs(synced, gap, timeline, start, client, block, false, k);
    }
  }

  /** With nothing skipped, the empty block reconstructs the same state. */
  lemma EmptyReconstructs(synced: seq<Event>, timeline: seq<Event>)
    ensures forall client: RoomState, k: StateKey :: At(client, k) == At(StateOf(synced), k) ==>
      Holds(client, map[], timeline, k) == At(StateOf(synced + timeline), k)
  {
    StateOfConcat(synced, timeline);
  }

  /** The initial block, for a client that holds nothing. */
  lemma InitialBlockReconstructs(before: seq<Event>, timeline: seq<Event>, start: RoomState, block: RoomState, k: StateKey)
    requires Linear(before + timeline) && IsStart(start, before, timeline) && k.typ != ALIASES
    requires IsBlock(block, start, StateOf(before + timeline), map[], timeline, false)
    ensures Holds(map[], block, timeline, k) == At(StateOf(before + timeline), k)
  {
    assert [] + before == before;
    BlockReconstructs([], before, timeline, start, map[], block, false, k);
  }
}
