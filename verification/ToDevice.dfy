/** The to-device inbox: messages go out, and are deleted once a token proves they arrived. */
module ToDevice {
  import opened Common
  import opened StringOrder

  const DELETE_BATCH := 1000
  const TO_DEVICE_LIMIT := 100

  datatype Key = Key(user: string, device: string)

  /** A message in one device's inbox. Messages may share a stream position. */
  datatype Message = Message(stream: int, id: nat)

  predicate MessageLess(a: Message, b: Message) {
    a.stream < b.stream || (a.stream == b.stream && a.id < b.id)
  }

  lemma MessageLessStrict()
    ensures StrictOrder(MessageLess) && Total(MessageLess)
  {
  }

  /** A device's messages in (from, to]. */
  function Window(inbox: set<Message>, from: int, to: int): set<Message> {
    set m | m in inbox && from < m.stream <= to
  }

  // ------------------------------------------------------------------ the deleter

  /** The position the next batch ends at: the highest among the first messages of the window. */
  method BatchEnd(inbox: set<Message>, from: int, to: int) returns (end: Option<int>)
    ensures end.None? <==> Window(inbox, from, to) == {}
    ensures end.Some? ==>
      && from < end.value <= to
      && |Window(inbox, from, end.value)| >= 1
      && (|Window(inbox, from, end.value)| < DELETE_BATCH ==> Window(inbox, from, end.value) == Window(inbox, from, to))
  {
    var window := Window(inbox, from, to);
    MessageLessStrict();
    var sorted := SortSet(MessageLess, window);
    if |sorted| == 0 {
      return None;
    }
    var n := if |sorted| < DELETE_BATCH then |sorted| else DELETE_BATCH;
    end := Some(sorted[n - 1].stream);
    assert sorted[n - 1] in window;
    HeadFits(inbox, from, to, sorted, n);
  }

  /** The first `n` in order all lie at or below the last of them. */
  lemma HeadFits(inbox: set<Message>, from: int, to: int, sorted: seq<Message>, n: nat)
    requires Ascending(MessageLess, sorted) && 0 < n <= |sorted|
    requires forall m :: m in sorted <==> m in Window(inbox, from, to)
    ensures from < sorted[n - 1].stream <= to && |Window(inbox, from, sorted[n - 1].stream)| >= n
    ensures n == |sorted| ==> Window(inbox, from, sorted[n - 1].stream) == Window(inbox, from, to)
  {
    var end := sorted[n - 1].stream;
    assert sorted[n - 1] in sorted;
    forall i | 0 <= i < n
      ensures sorted[i] in Window(inbox, from, end)
    {
      assert sorted[i] in sorted;
      assert i < n - 1 ==> MessageLess(sorted[i], sorted[n - 1]);
    }
    var head := sorted[..n];
    AscendingLength(MessageLess, head);
    assert Elements(head) <= Window(inbox, from, end);
    SubsetSize(Elements(head), Window(inbox, from, end));
    if n == |sorted| {
      forall m | m in Window(inbox, from, to)
        ensures m in Window(inbox, from, end)
      {
        var i :| 0 <= i < |sorted| && sorted[i] == m;
      }
    }
  }

  class Deleter {
    var inboxes: map<Key, set<Message>>
    var lastDeleted: map<Key, int>

    ghost function Inbox(k: Key): set<Message>
      reads this
    {
      if k in inboxes then inboxes[k] else {}
    }

    /** Nothing is left at or below the position a device is remembered to be cleared to. */
    ghost predicate Valid()
      reads this
    {
      forall k :: k in lastDeleted ==> Window(Inbox(k), 0, lastDeleted[k]) == {}
    }

    constructor ()
      ensures Valid() && inboxes == map[] && lastDeleted == map[]
    {
      inboxes, lastDeleted := map[], map[];
    }

    /** A message arrives, above whatever its device has acknowledged. */
    method Deliver(k: Key, m: Message)
      requires Valid() && (k in lastDeleted ==> m.stream > lastDeleted[k])
      modifies this`inboxes
      ensures Valid() && Inbox(k) == old(Inbox(k)) + {m} && forall j :: j != k ==> Inbox(j) == old(Inbox(j))
    {
      var held := if k in inboxes then inboxes[k] else {};
      inboxes := inboxes[k := held + {m}];
      assert forall j :: j != k ==> Inbox(j) == old(Inbox(j));
    }

    /** The cache of acknowledged positions may forget a device. */
    method Forget(k: Key)
      requires Valid()
      modifies this`lastDeleted
      ensures Valid() && lastDeleted == old(lastDeleted) - {k}
    {
      lastDeleted := lastDeleted - {k};
    }

    /** One batch: deletes the device's messages up to where the batch ends, and says where to go on
        from, or nowhere. */
    method DeleteBetween(k: Key, from: int, to: int) returns (next: int, deleted: nat)
      requires from >= 0
      modifies this`inboxes
      ensures forall j :: j != k ==> Inbox(j) == old(Inbox(j))
      ensures Inbox(k) == old(Inbox(k)) - Window(old(Inbox(k)), from, if next == 0 then to else next)
      ensures deleted == |Window(old(Inbox(k)), from, if next == 0 then to else next)|
      ensures next != 0 ==> from < next <= to
      ensures next == 0 <==> deleted < DELETE_BATCH
    {
      var held := if k in inboxes then inboxes[k] else {};
      var end := BatchEnd(held, from, to);
      if end.None? {
        assert Inbox(k) == old(Inbox(k)) - {};
        return 0, 0;
      }
      var gone := Window(held, from, end.value);
      inboxes := inboxes[k := held - gone];
      deleted := |gone|;
      next := if deleted < DELETE_BATCH then 0 else end.value;
      assert forall j :: j != k ==> Inbox(j) == old(Inbox(j));
    }

    /** Deletes exactly the device's messages in (0, upTo], batch by batch, and counts them. A call
        the cache turns away would have deleted nothing. */
    method DeleteUpTo(k: Key, upTo: int) returns (total: nat)
      requires Valid()
      modifies this
      ensures Valid() && forall j :: j != k ==> Inbox(j) == old(Inbox(j))
      ensures k.user == "" || k.device == "" || upTo <= 0 ==> total == 0 && Inbox(k) == old(Inbox(k))
      ensures lastDeleted == if k.user == "" || k.device == "" || upTo <= 0 || (k in old(lastDeleted) && old(lastDeleted)[k] >= upTo)
                             then old(lastDeleted) else old(lastDeleted)[k := upTo]
      ensures !(k.user == "" || k.device == "" || upTo <= 0) ==>
        && Inbox(k) == old(Inbox(k)) - Window(old(Inbox(k)), 0, upTo)
        && (forall m :: m in Inbox(k) <==> m in old(Inbox(k)) && !(0 < m.stream <= upTo))
        && total == |Window(old(Inbox(k)), 0, upTo)|
    {
      if k.user == "" || k.device == "" || upTo <= 0 {
        return 0;
      }
      if k in lastDeleted && lastDeleted[k] >= upTo {
        NothingBelow(Inbox(k), upTo, lastDeleted[k]);
        assert Inbox(k) == old(Inbox(k)) - {};
        return 0;
      }
      ghost var held := Inbox(k);
      var from, busy := 0, true;
      total := 0;
      while busy
        invariant 0 <= from <= upTo && lastDeleted == old(lastDeleted)
        invariant forall j :: j != k ==> Inbox(j) == old(Inbox(j))
        invariant Inbox(k) == held - Window(held, 0, if busy then from else upTo)
        invariant total == |Window(held, 0, if busy then from else upTo)|
        decreases upTo - from, busy
      {
        ghost var before := Inbox(k);
        var next, deleted := DeleteBetween(k, from, upTo);
        Adjoining(held, before, from, if next == 0 then upTo else next);
        total := total + deleted;
        if next == 0 {
          busy := false;
        } else {
          from := next;
        }
      }
      if !(k in lastDeleted && upTo <= lastDeleted[k]) {
        lastDeleted := lastDeleted[k := upTo];
      }
      assert Window(Inbox(k), 0, upTo) == {};
    }
  }

  lemma NothingBelow(inbox: set<Message>, a: int, b: int)
    requires a <= b && Window(inbox, 0, b) == {}
    ensures Window(inbox, 0, a) == {}
  {
    assert Window(inbox, 0, a) <= Window(inbox, 0, b);
  }

  /** Deleting up to one position and then from there to another. */
  lemma Adjoining(held: set<Message>, left: set<Message>, from: int, to: int)
    requires 0 <= from <= to && left == held - Window(held, 0, from)
    ensures left - Window(left, from, to) == held - Window(held, 0, to)
    ensures |Window(held, 0, from)| + |Window(left, from, to)| == |Window(held, 0, to)|
  {
    assert Window(left, from, to) == Window(held, from, to);
    assert Window(held, 0, from) + Window(held, from, to) == Window(held, 0, to);
    assert Window(held, 0, from) !! Window(held, from, to);
  }

  // ------------------------------------------------------------------ the response

  /** The first messages of a window in stream order, up to the limit, and the position a client
      resumes from: the last of them if the limit was reached, the end of the window if not. */
  ghost predicate IsResponse(inbox: set<Message>, from: int, now: int, carried: set<Message>, next: int) {
    var window := Window(inbox, from, now);
    && carried <= window
    && (|window| < TO_DEVICE_LIMIT ==> carried == window && next == now)
    && (|window| >= TO_DEVICE_LIMIT ==>
         && |carried| == TO_DEVICE_LIMIT
         && (exists m :: m in carried && m.stream == next)
         && (forall m :: m in carried ==> m.stream <= next)
         && (forall m :: m in window - carried ==> m.stream >= next))
  }

  method MessagesForDevice(inbox: set<Message>, from: int, now: int) returns (messages: seq<Message>, next: int)
    requires from <= now
    ensures Ascending(MessageLess, messages) && IsResponse(inbox, from, now, Elements(messages), next)
  {
    var window := Window(inbox, from, now);
    if from == now {
      assert window == {};
      return [], now;
    }
    MessageLessStrict();
    var sorted := SortSet(MessageLess, window);
    if |sorted| < TO_DEVICE_LIMIT {
      assert Elements(sorted) == window;
      return sorted, now;
    }
    messages := sorted[..TO_DEVICE_LIMIT];
    next := messages[TO_DEVICE_LIMIT - 1].stream;
    HeadIsResponse(inbox, from, now, sorted);
  }

  lemma HeadIsResponse(inbox: set<Message>, from: int, now: int, sorted: seq<Message>)
    requires Ascending(MessageLess, sorted) && |sorted| >= TO_DEVICE_LIMIT && |sorted| == |Window(inbox, from, now)|
    requires forall m :: m in sorted <==> m in Window(inbox, from, now)
    ensures IsResponse(inbox, from, now, Elements(sorted[..TO_DEVICE_LIMIT]), sorted[TO_DEVICE_LIMIT - 1].stream)
  {
    var head, next := sorted[..TO_DEVICE_LIMIT], sorted[TO_DEVICE_LIMIT - 1].stream;
    AscendingLength(MessageLess, head);
    assert head[TO_DEVICE_LIMIT - 1] in Elements(head);
    forall m | m in Elements(head)
      ensures m in Window(inbox, from, now) && m.stream <= next
    {
      var i :| 0 <= i < |head| && head[i] == m;
      assert sorted[i] == m;
      assert i < TO_DEVICE_LIMIT - 1 ==> MessageLess(sorted[i], sorted[TO_DEVICE_LIMIT - 1]);
    }
    forall m | m in Window(inbox, from, now) - Elements(head)
      ensures m.stream >= next
    {
      var i :| 0 <= i < |sorted| && sorted[i] == m;
      assert forall k :: 0 <= k < TO_DEVICE_LIMIT ==> sorted[k] == head[k] && head[k] in Elements(head);
      assert MessageLess(sorted[TO_DEVICE_LIMIT - 1], sorted[i]);
    }
  }

  /** The limit cuts a window between two positions: it is not reached, or the messages up to some
      position are exactly as many. */
  ghost predicate CutsCleanly(inbox: set<Message>, from: int, now: int) {
    || |Window(inbox, from, now)| < TO_DEVICE_LIMIT
    || exists p :: from < p <= now && |Window(inbox, from, p)| == TO_DEVICE_LIMIT
  }

  /** A full response whose window is cut cleanly is the window up to the cut. */
  lemma FullIsCut(inbox: set<Message>, from: int, now: int, carried: set<Message>, next: int, p: int)
    requires IsResponse(inbox, from, now, carried, next) && |Window(inbox, from, now)| >= TO_DEVICE_LIMIT
    requires from < p <= now && |Window(inbox, from, p)| == TO_DEVICE_LIMIT
    ensures carried == Window(inbox, from, p) && next <= p
  {
    var cut := Window(inbox, from, p);
    if next <= p {
      assert carried <= cut;
      SubsetOfSameSize(carried, cut);
    } else {
      forall m | m in cut
        ensures m in carried
      {
        assert m in Window(inbox, from, now);
      }
      SubsetOfSameSize(cut, carried);
    }
  }

  /** A response carries everything up to the token it hands out exactly when the limit cuts its
      window cleanly. */
  lemma CompleteIffCut(inbox: set<Message>, from: int, now: int, carried: set<Message>, next: int)
    requires from <= now && IsResponse(inbox, from, now, carried, next)
    ensures from <= next <= now
    ensures Window(inbox, from, next) <= carried <==> CutsCleanly(inbox, from, now)
  {
    if |Window(inbox, from, now)| >= TO_DEVICE_LIMIT {
      var last :| last in carried && last.stream == next;
      assert last in Window(inbox, from, now);
      if p :| from < p <= now && |Window(inbox, from, p)| == TO_DEVICE_LIMIT {
        FullIsCut(inbox, from, now, carried, next, p);
        assert Window(inbox, from, next) <= Window(inbox, from, p);
      }
      if Window(inbox, from, next) <= carried {
        assert carried <= Window(inbox, from, next);
        assert carried == Window(inbox, from, next);
      }
    }
  }

  // ------------------------------------------------------------------ whole runs

  /** A response: the token it handed out and the messages it carried. */
  datatype Response = Response(token: int, carried: set<Message>)

  /** One device. `now` is the announced position, `arrived` everything ever sent to it. */
  datatype Sys = Sys(
    inbox: set<Message>,
    arrived: set<Message>,
    now: int,
    responses: set<Response>,
    presented: set<int>)

  datatype Step =
    | Arrive(message: Message)
    | Announce(now: int)
    | Present(token: int)
    | Respond(from: int, carried: set<Message>, next: int)

  predicate Handed(s: Sys, token: int) {
    token == 0 || exists r :: r in s.responses && r.token == token
  }

  ghost predicate Init(s: Sys) {
    s.inbox == {} && s.arrived == {} && s.now == 0 && s.responses == {} && s.presented == {}
  }

  /** A message arrives above every token handed out; a client presents and resumes from tokens it
      was handed; an initial sync starts from nothing. */
  ghost predicate Enabled(s: Sys, step: Step) {
    match step
    case Arrive(m) => m.stream > 0 && m !in s.arrived && forall r :: r in s.responses ==> m.stream > r.token
    case Announce(now) => now >= s.now
    case Present(token) => Handed(s, token)
    case Respond(from, carried, next) =>
      Handed(s, from) && from <= s.now && IsResponse(s.inbox, from, s.now, carried, next)
  }

  /** The limit does not fall between messages that share a position. */
  ghost predicate Whole(s: Sys, step: Step) {
    step.Respond? ==> CutsCleanly(s.inbox, step.from, s.now)
  }

  ghost function Apply(s: Sys, step: Step): Sys {
    match step
    case Arrive(m) => s.(inbox := s.inbox + {m}, arrived := s.arrived + {m})
    case Announce(now) => s.(now := now)
    case Present(token) => s.(inbox := s.inbox - Window(s.inbox, 0, token), presented := s.presented + {token})
    case Respond(from, carried, next) => s.(responses := s.responses + {Response(next, carried)})
  }

  /** Some response at or below a token carried the message. */
  ghost predicate Carried(responses: set<Response>, m: Message, token: int) {
    exists r :: r in responses && m in r.carried && r.token <= token
  }

  ghost predicate Inv(s: Sys) {
    && s.now >= 0 && s.inbox <= s.arrived && s.presented <= (set r | r in s.responses :: r.token) + {0}
    && (forall m :: m in s.arrived ==> m.stream > 0)
    && (forall r :: r in s.responses ==> 0 <= r.token <= s.now)
    && (forall m, t :: m in s.inbox && t in s.presented ==> m.stream > t)
    && (forall m :: m in s.arrived - s.inbox ==> exists t :: t in s.presented && m.stream <= t)
    && (forall m, r :: m in s.arrived && r in s.responses && m.stream <= r.token ==> Carried(s.responses, m, r.token))
  }

  /** What a token that was handed out stands for. */
  lemma HandedCarries(s: Sys, token: int, m: Message)
    requires Inv(s) && Handed(s, token) && m in s.arrived && m.stream <= token
    ensures Carried(s.responses, m, token)
  {
    var r :| r in s.responses && r.token == token;
  }

  lemma CarriedStill(a: set<Response>, b: set<Response>, m: Message, token: int, higher: int)
    requires Carried(a, m, token) && a <= b && token <= higher
    ensures Carried(b, m, higher)
  {
    var r :| r in a && m in r.carried && r.token <= token;
    assert r in b;
  }

  /** The token a response hands out covers only what some response carried. */
  lemma NewTokenCarries(s: Sys, from: int, carried: set<Message>, next: int, m: Message)
    requires Inv(s) && Enabled(s, Respond(from, carried, next)) && m in s.arrived && m.stream <= next
    requires CutsCleanly(s.inbox, from, s.now)
    ensures Carried(s.responses + {Response(next, carried)}, m, next)
  {
    var responses := s.responses + {Response(next, carried)};
    CompleteIffCut(s.inbox, from, s.now, carried, next);
    if m.stream <= from {
      HandedCarries(s, from, m);
      CarriedStill(s.responses, responses, m, from, next);
    } else if m in s.inbox {
      assert m in Window(s.inbox, from, next);
      assert Response(next, carried) in responses;
    } else {
      var t :| t in s.presented && m.stream <= t;
      assert Handed(s, t);
      HandedCarries(s, t, m);
      PresentedBelow(s, from, carried, next, t);
      CarriedStill(s.responses, responses, m, t, next);
    }
  }

  /** A response never hands out a token below one that was presented, from a window that reaches
      past it. */
  lemma PresentedBelow(s: Sys, from: int, carried: set<Message>, next: int, t: int)
    requires Inv(s) && Enabled(s, Respond(from, carried, next)) && t in s.presented
    ensures t <= next
  {
    if |Window(s.inbox, from, s.now)| >= TO_DEVICE_LIMIT {
      var last :| last in carried && last.stream == next;
      assert last in s.inbox;
    }
  }

  lemma RespondKeeps(s: Sys, from: int, carried: set<Message>, next: int)
    requires Inv(s) && Enabled(s, Respond(from, carried, next)) && CutsCleanly(s.inbox, from, s.now)
    ensures Inv(Apply(s, Respond(from, carried, next)))
  {
    var t := Apply(s, Respond(from, carried, next));
    CompleteIffCut(s.inbox, from, s.now, carried, next);
    assert 0 <= from by {
      if from != 0 {
        var r :| r in s.responses && r.token == from;
      }
    }
    forall m, r | m in t.arrived && r in t.responses && m.stream <= r.token
      ensures Carried(t.responses, m, r.token)
    {
      if r in s.responses {
        CarriedStill(s.responses, t.responses, m, r.token, r.token);
      } else {
        NewTokenCarries(s, from, carried, next, m);
      }
    }
  }

  lemma PresentKeeps(s: Sys, token: int)
    requires Inv(s) && Enabled(s, Present(token))
    ensures Inv(Apply(s, Present(token)))
  {
    var t := Apply(s, Present(token));
    assert token in t.presented;
    if token != 0 {
      var r :| r in s.responses && r.token == token;
      assert token in (set r | r in s.responses :: r.token);
    }
    forall m | m in t.arrived - t.inbox
      ensures exists u :: u in t.presented && m.stream <= u
    {
      if m !in s.inbox {
        var u :| u in s.presented && m.stream <= u;
        assert u in t.presented;
      }
    }
  }

  lemma ArriveKeeps(s: Sys, m: Message)
    requires Inv(s) && Enabled(s, Arrive(m))
    ensures Inv(Apply(s, Arrive(m)))
  {
    var t := Apply(s, Arrive(m));
    forall u | u in s.presented
      ensures u <= s.now
    {
      assert u in (set r | r in s.responses :: r.token) + {0};
    }
  }

  lemma StepKeeps(s: Sys, step: Step)
    requires Inv(s) && Enabled(s, step) && Whole(s, step)
    ensures Inv(Apply(s, step))
  {
    match step
    case Arrive(m) => ArriveKeeps(s, m);
    case Announce(now) =>
    case Present(token) => PresentKeeps(s, token);
    case Respond(from, carried, next) => RespondKeeps(s, from, carried, next);
  }

  ghost predicate IsRun(states: seq<Sys>, steps: seq<Step>) {
    && |states| == |steps| + 1 && Init(states[0])
    && forall i :: 0 <= i < |steps| ==> Enabled(states[i], steps[i]) && states[i + 1] == Apply(states[i], steps[i])
  }

  lemma {:induction false} RunKeeps(states: seq<Sys>, steps: seq<Step>, i: nat)
    requires IsRun(states, steps) && i < |states| && forall k :: 0 <= k < i ==> Whole(states[k], steps[k])
    ensures Inv(states[i])
  {
    if i > 0 {
      hide Inv, Apply, Enabled, Whole;
      RunKeeps(states, steps, i - 1);
      StepKeeps(states[i - 1], steps[i - 1]);
    }
  }

  /** To-device safety: in every run of whole responses, a message that is gone was carried by a
      response whose token, or a later one, the client has presented. */
  lemma DeletedWasDelivered(states: seq<Sys>, steps: seq<Step>, i: nat, m: Message)
    requires IsRun(states, steps) && i < |states| && forall k :: 0 <= k < i ==> Whole(states[k], steps[k])
    requires m in states[i].arrived - states[i].inbox
    ensures exists t :: t in states[i].presented && Carried(states[i].responses, m, t)
  {
    RunKeeps(states, steps, i);
    var t :| t in states[i].presented && m.stream <= t;
    assert Handed(states[i], t);
    HandedCarries(states[i], t, m);
  }

  /** Any other response loses a message: presenting its token deletes one it left out. */
  lemma UncleanResponseLoses(s: Sys, from: int, carried: set<Message>, next: int) returns (m: Message)
    requires Inv(s) && Enabled(s, Respond(from, carried, next)) && !CutsCleanly(s.inbox, from, s.now)
    ensures m in s.inbox && m !in carried && m !in Apply(Apply(s, Respond(from, carried, next)), Present(next)).inbox
  {
    CompleteIffCut(s.inbox, from, s.now, carried, next);
    m :| m in Window(s.inbox, from, next) && m !in carried;
  }

  function Burst(n: nat): set<Message> {
    set i: nat | i < n :: Message(1, i)
  }

  lemma {:induction false} BurstSize(n: nat)
    ensures |Burst(n)| == n
  {
    if n > 0 {
      BurstSize(n - 1);
      assert Burst(n) == Burst(n - 1) + {Message(1, n - 1)};
    }
  }

  /** Such a response exists: one more message than fits, all at one position. */
  lemma BurstIsUnclean()
    ensures IsResponse(Burst(TO_DEVICE_LIMIT + 1), 0, 1, Burst(TO_DEVICE_LIMIT), 1)
    ensures !CutsCleanly(Burst(TO_DEVICE_LIMIT + 1), 0, 1)
  {
    var inbox, carried := Burst(TO_DEVICE_LIMIT + 1), Burst(TO_DEVICE_LIMIT);
    BurstSize(TO_DEVICE_LIMIT);
    BurstSize(TO_DEVICE_LIMIT + 1);
    assert Window(inbox, 0, 1) == inbox;
    assert Message(1, 0) in carried;
  }

  /** It is not enough that messages arrive above the tokens presented so far: any message that
      arrives at or below a token already handed out is deleted when that token is presented, and
      no response carried it. */
  lemma LateArrivalIsLost(s: Sys, r: Response, late: Message)
    requires r in s.responses && 0 < late.stream <= r.token && forall q :: q in s.responses ==> late !in q.carried
    ensures var t := Apply(Apply(s, Arrive(late)), Present(r.token));
            && Handed(s, r.token) && late in t.arrived - t.inbox
            && forall token :: !Carried(t.responses, late, token)
  {
  }

  /** A run gets there: an empty inbox answered at an announced position hands out that position. */
  lemma LateArrivalExample()
    ensures var s := Apply(Sys({}, {}, 0, {}, {}), Announce(5));
            && Init(Sys({}, {}, 0, {}, {})) && Enabled(Sys({}, {}, 0, {}, {}), Announce(5)) && Enabled(s, Respond(0, {}, 5))
            && Response(5, {}) in Apply(s, Respond(0, {}, 5)).responses && Apply(s, Respond(0, {}, 5)).presented == {}
  {
    assert Window({}, 0, 5) == {};
  }
}
