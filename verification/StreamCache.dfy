/** A stream-change cache as it is stored: entries by entity and by position, a horizon, and a bound on
    the positions held. */
module StreamCache {
  import opened Common
  import opened StreamGate

  ghost predicate Ascending(s: seq<int>) {
    forall i, j :: 0 <= i < j < |s| ==> s[i] < s[j]
  }

  /** The same entries, by entity and by position. */
  ghost predicate Indexed(byPos: map<int, set<string>>, positions: seq<int>, entityPos: map<string, int>) {
    && Ascending(positions) && (forall p :: p in byPos <==> p in positions)
    && (forall e :: e in entityPos ==> entityPos[e] in byPos && e in byPos[entityPos[e]])
    && (forall p, e :: p in byPos && e in byPos[p] ==> e in entityPos && entityPos[e] == p)
    && (forall p :: p in byPos ==> byPos[p] != {})
  }

  /** Where a position is, or would go. */
  method Search(positions: seq<int>, pos: int) returns (i: nat)
    requires Ascending(positions)
    ensures i <= |positions|
    ensures forall k :: 0 <= k < i ==> positions[k] < pos
    ensures forall k :: i <= k < |positions| ==> positions[k] >= pos
  {
    i := 0;
    var j := |positions|;
    while i < j
      invariant 0 <= i <= j <= |positions|
      invariant forall k :: 0 <= k < i ==> positions[k] < pos
      invariant forall k :: j <= k < |positions| ==> positions[k] >= pos
    {
      var h := i + (j - i) / 2;
      if positions[h] >= pos {
        j := h;
      } else {
        i := h + 1;
      }
    }
  }

  method InsertPosition(positions: seq<int>, pos: int) returns (out: seq<int>)
    requires Ascending(positions) && pos !in positions
    ensures Ascending(out) && |out| == |positions| + 1 && forall p :: p in out <==> p in positions || p == pos
  {
    var n := |positions|;
    if n == 0 || positions[n - 1] < pos {
      return positions + [pos];
    }
    var i := Search(positions, pos);
    out := positions[..i] + [pos] + positions[i..];
    assert positions == positions[..i] + positions[i..];
  }

  method RemovePosition(positions: seq<int>, pos: int) returns (out: seq<int>)
    requires Ascending(positions) && pos in positions
    ensures Ascending(out) && |out| == |positions| - 1 && forall p :: p in out <==> p in positions && p != pos
  {
    var i := Search(positions, pos);
    assert i < |positions| && positions[i] == pos by {
      var k :| 0 <= k < |positions| && positions[k] == pos;
      assert i <= k && positions[i] <= positions[k];
    }
    out := positions[..i] + positions[i + 1..];
    assert positions == positions[..i] + [pos] + positions[i + 1..];
  }

  class Cache {
    const max: int
    var byPos: map<int, set<string>>
    var positions: seq<int>
    var entityPos: map<string, int>
    var earliest: int
    var disarmed: bool

    ghost predicate Valid()
      reads this
    {
      && Indexed(byPos, positions, entityPos) && |positions| <= Max(max, 0)
      && (forall e :: e in entityPos ==> entityPos[e] > earliest)
      && (disarmed ==> entityPos == map[])
    }

    /** What the cache answers by. One that may hold nothing is as good as disarmed. */
    ghost function View(): Gate
      reads this
    {
      Gate(!disarmed && max > 0, earliest, entityPos)
    }

    constructor (current: int, bound: int)
      ensures Valid() && max == bound && View() == Gate(false, current, map[])
    {
      max, byPos, positions, entityPos, earliest, disarmed := bound, map[], [], map[], current, true;
    }

    method Reset(pos: int)
      modifies this`byPos, this`positions, this`entityPos, this`earliest
      ensures Indexed(byPos, positions, entityPos) && positions == []
      ensures entityPos == map[] && earliest == Max(old(earliest), pos)
    {
      byPos, positions, entityPos := map[], [], map[];
      if pos > earliest {
        earliest := pos;
      }
    }

    /** Something changed and nobody knows what. */
    method AllEntitiesChanged(pos: int)
      requires Valid()
      modifies this`byPos, this`positions, this`entityPos, this`earliest
      ensures Valid() && View() == Forgot(old(View()), pos)
    {
      Reset(pos);
    }

    method Disarm()
      requires Valid()
      modifies this
      ensures Valid() && View() == Gate(false, old(earliest), map[])
    {
      disarmed := true;
      Reset(earliest);
    }

    method Arm(current: int)
      requires Valid()
      modifies this
      ensures Valid() && View() == Gate(max > 0, Max(old(earliest), current), map[])
    {
      Reset(current);
      disarmed := false;
    }

    /** Takes an entity out of the index. */
    method Unindex(entity: string)
      requires Indexed(byPos, positions, entityPos) && entity in entityPos
      modifies this`byPos, this`positions, this`entityPos
      ensures Indexed(byPos, positions, entityPos) && entityPos == old(entityPos) - {entity} && |positions| <= |old(positions)|
    {
      hide Indexed;
      Taken(byPos, positions, entityPos, entity);
      var p := entityPos[entity];
      var rest := byPos[p] - {entity};
      entityPos := entityPos - {entity};
      if rest == {} {
        byPos := byPos - {p};
        positions := RemovePosition(positions, p);
      } else {
        byPos := byPos[p := rest];
      }
    }

    /** Puts an entity into it. */
    method Index(entity: string, pos: int)
      requires Indexed(byPos, positions, entityPos) && entity !in entityPos
      modifies this`byPos, this`positions, this`entityPos
      ensures Indexed(byPos, positions, entityPos) && entityPos == old(entityPos)[entity := pos] && |positions| <= |old(positions)| + 1
    {
      hide Indexed;
      Put(byPos, positions, entityPos, entity, pos);
      if pos !in byPos {
        positions := InsertPosition(positions, pos);
        byPos := byPos[pos := {entity}];
      } else {
        byPos := byPos[pos := byPos[pos] + {entity}];
      }
      entityPos := entityPos[entity := pos];
    }

    /** Drops the oldest positions until the rest fit, and moves the horizon up to them. */
    method Evict()
      requires Indexed(byPos, positions, entityPos) && max > 0 && forall e :: e in entityPos ==> entityPos[e] > earliest
      modifies this`byPos, this`positions, this`entityPos, this`earliest
      ensures Indexed(byPos, positions, entityPos) && |positions| <= max && earliest >= old(earliest)
      ensures forall e :: e in entityPos <==> e in old(entityPos) && old(entityPos)[e] > earliest
      ensures forall e :: e in entityPos ==> entityPos[e] == old(entityPos)[e]
      ensures earliest != old(earliest) ==> |positions| == max
    {
      hide Indexed;
      while |positions| > max
        invariant Indexed(byPos, positions, entityPos) && earliest >= old(earliest)
        invariant forall e :: e in entityPos <==> e in old(entityPos) && old(entityPos)[e] > earliest
        invariant forall e :: e in entityPos ==> entityPos[e] == old(entityPos)[e]
        invariant earliest != old(earliest) ==> |positions| >= max
      {
        var k := positions[0];
        DropFirst(byPos, positions, entityPos);
        entityPos := entityPos - byPos[k];
        byPos := byPos - {k};
        positions := positions[1..];
        if k > earliest {
          earliest := k;
        }
      }
    }

    /** Records a change. One at or below the horizon is answered for already. */
    method EntityHasChanged(entity: string, pos: int)
      requires Valid()
      modifies this`byPos, this`positions, this`entityPos, this`earliest
      ensures Valid() && earliest >= old(earliest)
      ensures View() == Evicted(Noted(old(View()), entity, pos), earliest)
      ensures earliest != old(earliest) ==> |positions| == max
    {
      hide Indexed, Noted, Evicted;
      ghost var before := View();
      NotedIs(before, entity, pos);
      EvictedIs(before, earliest, entityPos);
      if max <= 0 || disarmed || pos <= earliest {
        return;
      }
      if entity in entityPos {
        if entityPos[entity] >= pos {
          return;
        }
        Unindex(entity);
      }
      Index(entity, pos);
      assert entityPos == before.last[entity := pos];
      Evict();
      EvictedIs(Noted(before, entity, pos), earliest, entityPos);
    }

    /** Whether an entity may have changed after a position: the cache's whole purpose, see the gate. */
    method HasEntityChanged(entity: string, pos: int) returns (changed: bool)
      requires Valid()
      ensures changed <==> Says(View(), entity, pos)
      ensures changed <==> disarmed || max <= 0 || pos < earliest || (entity in entityPos && pos < entityPos[entity])
    {
      if max <= 0 || disarmed || pos < earliest {
        return true;
      }
      changed := entity in entityPos && pos < entityPos[entity];
    }

    /** Those of some entities that may have changed, in the order given. An empty cache names them all. */
    method EntitiesChanged(entities: seq<string>, pos: int) returns (out: seq<string>)
      requires Valid()
      ensures out == if byPos == map[] then entities else Saying(View(), entities, pos)
    {
      hide Saying;
      if max <= 0 || disarmed || pos < earliest || byPos == map[] {
        SayingAll(View(), entities, pos);
        return entities;
      }
      out := [];
      SayingNone(View(), entities, pos);
      for i := 0 to |entities|
        invariant out == Saying(View(), entities[..i], pos)
      {
        SayingOne(View(), entities, pos, i);
        if entities[i] in entityPos && entityPos[entities[i]] > pos {
          out := out + [entities[i]];
        }
      }
      assert entities[..|entities|] == entities;
    }

    /** Whether anything may have. */
    method HasAnyEntityChanged(pos: int) returns (changed: bool)
      requires Valid()
      ensures changed <==> disarmed || max <= 0 || pos < earliest || exists e :: e in entityPos && pos < entityPos[e]
      ensures !changed ==> forall e :: !Says(View(), e, pos)
    {
      if max <= 0 || disarmed || pos < earliest {
        return true;
      }
      if positions == [] {
        return false;
      }
      var top := positions[|positions| - 1];
      LastIsHighest(byPos, positions, entityPos);
      changed := pos < top;
    }

    /** Seeds an empty cache from one query: what it holds and how far down that can be trusted. */
    method Prefill(entries: map<string, int>, minPos: int)
      requires Valid() && entityPos == map[]
      modifies this`byPos, this`positions, this`entityPos, this`earliest
      ensures Valid() && (!old(View()).armed ==> View() == old(View()))
      ensures old(View()).armed ==>
        earliest >= Max(old(earliest), minPos) && View() == Evicted(Armed(old(View()), minPos, entries), earliest)
    {
      if max <= 0 || disarmed {
        return;
      }
      hide Indexed, Evicted, Noted;
      if minPos > earliest {
        earliest := minPos;
      }
      ghost var low := earliest;
      var rest := entries.Keys;
      while rest != {}
        invariant Valid() && !disarmed && earliest >= low && rest <= entries.Keys
        invariant forall e :: e in entityPos <==> e in entries && e !in rest && entries[e] > earliest
        invariant forall e :: e in entityPos ==> entityPos[e] == entries[e]
      {
        var e :| e in rest;
        rest := rest - {e};
        ghost var before := View();
        EntityHasChanged(e, entries[e]);
        NotedIs(before, e, entries[e]);
        Survivors(Noted(before, e, entries[e]), earliest);
      }
      PrefilledIs(old(View()), minPos, entries, View());
    }
  }

  // -------------------------------------------------------------------- the feeder

  /** A row, or a jump, as a cache hears it: its subjects one by one; naming nobody, a horizon. Evictions
      may follow each. */
  ghost predicate FedTo(before: Gate, pos: int, subjects: seq<string>, after: Gate) {
    && after.armed == before.armed && after.earliest >= before.earliest
    && (subjects == [] ==> after == Forgot(before, pos))
    && (subjects != [] ==> forall e, from :: from >= after.earliest ==>
          (Says(after, e, from) <==> Says(before, e, from) || (e in subjects && from < pos)))
  }

  method OnStreamAdvance(c: Cache, pos: int, subjects: seq<string>)
    requires c.Valid()
    modifies c`byPos, c`positions, c`entityPos, c`earliest
    ensures c.Valid() && FedTo(old(c.View()), pos, subjects, c.View())
  {
    hide Indexed, Noted, Evicted, Says;
    if subjects == [] {
      c.AllEntitiesChanged(pos);
      return;
    }
    for i := 0 to |subjects|
      invariant c.Valid() && c.View().armed == old(c.View()).armed && c.View().earliest >= old(c.View()).earliest
      invariant forall e, from :: from >= c.View().earliest ==>
        (Says(c.View(), e, from) <==> Says(old(c.View()), e, from) || (e in subjects[..i] && from < pos))
    {
      ghost var before := c.View();
      c.EntityHasChanged(subjects[i], pos);
      forall e, from | from >= c.View().earliest
        ensures Says(c.View(), e, from) <==> Says(before, e, from) || (e == subjects[i] && from < pos)
      {
        NotedSays(before, subjects[i], pos, e, from);
        EvictedSays(Noted(before, subjects[i], pos), c.View().earliest, e, from);
      }
      assert subjects[..i + 1] == subjects[..i] + [subjects[i]];
    }
    assert subjects[..|subjects|] == subjects;
  }

  // ------------------------------------------------------------------- the prefill

  ghost predicate NewestFirst(table: seq<Change>) {
    forall i, j :: 0 <= i < j < |table| ==> table[i].pos >= table[j].pos
  }

  /** Every row of a table is among the entries, or newer than none of them. */
  ghost predicate Entered(rows: seq<Change>, dict: map<string, int>) {
    forall k :: 0 <= k < |rows| ==> rows[k].entity in dict && rows[k].pos <= dict[rows[k].entity]
  }

  lemma EnteredOne(rows: seq<Change>, dict: map<string, int>, i: nat)
    requires i < |rows| && Entered(rows[..i], dict) && rows[i].entity !in dict
    ensures Entered(rows[..i + 1], dict[rows[i].entity := rows[i].pos])
  {
  }

  /** A row for an entity already seen is an older one. */
  lemma EnteredAgain(rows: seq<Change>, dict: map<string, int>, i: nat)
    requires i < |rows| && Entered(rows[..i], dict) && rows[i].entity in dict && dict[rows[i].entity] >= rows[i].pos
    ensures Entered(rows[..i + 1], dict)
  {
  }

  lemma NotNewer(rows: seq<Change>, dict: map<string, int>, i: nat, e: string)
    requires NewestFirst(rows) && i < |rows| && e in dict && Change(e, dict[e]) in rows[..i]
    ensures dict[e] >= rows[i].pos
  {
  }

  /** The newest rows of a stream's table by entity, and how far down they can be trusted: one above the
      lowest row read, since the limit may cut rows that share a position. */
  method CacheDict(table: seq<Change>, maxValue: int, limit: int) returns (dict: map<string, int>, minPos: int)
    requires NewestFirst(table) && limit > 0
    ensures table == [] ==> dict == map[] && minPos == maxValue
    ensures table != [] ==> forall c :: c in table ==> c.pos < minPos || (c.entity in dict && c.pos <= dict[c.entity])
    ensures forall e :: e in dict ==> Change(e, dict[e]) in table
    ensures table != [] ==> minPos == (if |table| > limit then table[limit - 1] else table[|table| - 1]).pos + 1
  {
    var n := if |table| < limit then |table| else limit;
    var lowest, first := 0, true;
    dict := map[];
    for i := 0 to n
      invariant first <==> i == 0
      invariant i > 0 ==> lowest == table[i - 1].pos
      invariant Entered(table[..i], dict)
      invariant forall e :: e in dict ==> Change(e, dict[e]) in table[..i]
    {
      hide Entered, NewestFirst;
      var row := table[i];
      if row.entity !in dict {
        EnteredOne(table, dict, i);
        dict := dict[row.entity := row.pos];
      } else {
        NotNewer(table, dict, i, row.entity);
        EnteredAgain(table, dict, i);
      }
      assert table[..i + 1] == table[..i] + [row];
      if i > 0 {
        Descending(table, i);
      }
      if first || row.pos < lowest {
        lowest, first := row.pos, false;
      }
    }
    if first {
      return dict, maxValue;
    }
    minPos := lowest + 1;
    Trusted(table, n, dict);
  }

  lemma Descending(table: seq<Change>, i: nat)
    requires NewestFirst(table) && 0 < i < |table|
    ensures table[i].pos <= table[i - 1].pos
  {
  }

  lemma Trusted(table: seq<Change>, n: nat, dict: map<string, int>)
    requires NewestFirst(table) && 0 < n <= |table| && Entered(table[..n], dict)
    ensures forall c :: c in table ==> c.pos <= table[n - 1].pos || (c.entity in dict && c.pos <= dict[c.entity])
  {
    forall c | c in table
      ensures c.pos <= table[n - 1].pos || (c.entity in dict && c.pos <= dict[c.entity])
    {
      var i :| 0 <= i < |table| && table[i] == c;
      assert i < n ==> table[..n][i] == c;
    }
  }

  /** So arming a cache with what the query returns leaves it complete, in any run, if the table holds
      every change committed so far. */
  lemma PrefillIsFine(s: Sys, table: seq<Change>, dict: map<string, int>, minPos: int)
    requires Enabled(s, Arm(minPos, dict)) && (forall c :: c in s.changes ==> c in table)
    requires forall c :: c in table ==> c.pos < minPos || (c.entity in dict && c.pos <= dict[c.entity])
    ensures Fine(s, Arm(minPos, dict))
  {
  }

  /** The entities a gate says may have changed. */
  ghost function Saying(g: Gate, entities: seq<string>, pos: int): seq<string> {
    if entities == [] then [] else
      var n := |entities| - 1;
      Saying(g, entities[..n], pos) + if Says(g, entities[n], pos) then [entities[n]] else []
  }

  lemma SayingNone(g: Gate, entities: seq<string>, pos: int)
    ensures Saying(g, entities[..0], pos) == []
  {
  }

  lemma SayingOne(g: Gate, entities: seq<string>, pos: int, i: nat)
    requires i < |entities|
    ensures Saying(g, entities[..i + 1], pos) == Saying(g, entities[..i], pos) + if Says(g, entities[i], pos) then [entities[i]] else []
  {
    assert entities[..i + 1][..i] == entities[..i];
  }

  lemma {:induction false} SayingAll(g: Gate, entities: seq<string>, pos: int)
    ensures !g.armed || pos < g.earliest ==> Saying(g, entities, pos) == entities
  {
    if entities != [] {
      SayingAll(g, entities[..|entities| - 1], pos);
    }
  }

  lemma LastIsHighest(byPos: map<int, set<string>>, positions: seq<int>, entityPos: map<string, int>)
    requires Indexed(byPos, positions, entityPos) && positions != []
    ensures var top := positions[|positions| - 1];
            (exists e :: e in entityPos && entityPos[e] == top) && forall e :: e in entityPos ==> entityPos[e] <= top
  {
    var top := positions[|positions| - 1];
    assert top in byPos;
    var e :| e in byPos[top];
    assert entityPos[e] == top;
    forall e | e in entityPos
      ensures entityPos[e] <= top
    {
      assert entityPos[e] in byPos;
      var i :| 0 <= i < |positions| && positions[i] == entityPos[e];
    }
  }

  lemma Survivors(g: Gate, earliest: int)
    ensures Evicted(g, earliest).armed == g.armed && Evicted(g, earliest).earliest == Max(g.earliest, earliest)
    ensures var last := Evicted(g, earliest).last;
            && (forall e :: e in last <==> e in g.last && g.last[e] > earliest)
            && forall e :: e in last ==> last[e] == g.last[e]
  {
  }

  lemma PrefilledIs(g: Gate, horizon: int, entries: map<string, int>, out: Gate)
    requires g.armed && out.armed && out.earliest >= Max(g.earliest, horizon)
    requires forall e :: e in out.last <==> e in entries && entries[e] > out.earliest
    requires forall e :: e in out.last ==> out.last[e] == entries[e]
    ensures out == Evicted(Armed(g, horizon, entries), out.earliest)
  {
    var a := Armed(g, horizon, entries);
    Survivors(a, out.earliest);
    hide Evicted;
    assert out.last == Evicted(a, out.earliest).last;
  }

  /** The index with one entity more. */
  lemma Put(byPos: map<int, set<string>>, positions: seq<int>, entityPos: map<string, int>, entity: string, pos: int)
    requires Indexed(byPos, positions, entityPos) && entity !in entityPos
    ensures Ascending(positions) && (pos in byPos <==> pos in positions)
    ensures pos in byPos ==> Indexed(byPos[pos := byPos[pos] + {entity}], positions, entityPos[entity := pos])
    ensures pos !in byPos ==> forall out :: Ascending(out) && (forall p :: p in out <==> p in positions || p == pos) ==>
      Indexed(byPos[pos := {entity}], out, entityPos[entity := pos])
  {
    hide Ascending;
  }

  /** And with one less. */
  lemma Taken(byPos: map<int, set<string>>, positions: seq<int>, entityPos: map<string, int>, entity: string)
    requires Indexed(byPos, positions, entityPos) && entity in entityPos
    ensures Ascending(positions) && entityPos[entity] in positions && entityPos[entity] in byPos
    ensures var p, rest := entityPos[entity], byPos[entityPos[entity]] - {entity};
            if rest != {} then Indexed(byPos[p := rest], positions, entityPos - {entity})
            else forall out :: Ascending(out) && (forall q :: q in out <==> q in positions && q != p) ==>
              Indexed(byPos - {p}, out, entityPos - {entity})
  {
    hide Ascending;
    var p := entityPos[entity];
    assert p in byPos && p in positions;
    forall e | e in byPos[p] && byPos[p] - {entity} == {}
      ensures e == entity
    {
      assert e !in byPos[p] - {entity};
    }
  }

  lemma NotedIs(g: Gate, entity: string, pos: int)
    ensures g.armed && pos > g.earliest && (entity in g.last ==> g.last[entity] < pos) ==>
      Noted(g, entity, pos) == g.(last := g.last[entity := pos])
    ensures !(g.armed && pos > g.earliest && (entity in g.last ==> g.last[entity] < pos)) ==> Noted(g, entity, pos) == g
  {
  }

  lemma EvictedIs(g: Gate, earliest: int, last: map<string, int>)
    requires earliest >= g.earliest && (forall e :: e in last <==> e in g.last && g.last[e] > earliest)
    requires forall e :: e in last ==> last[e] == g.last[e]
    ensures Evicted(g, earliest) == Gate(g.armed, earliest, last)
  {
  }

  lemma FirstLowest(positions: seq<int>)
    requires Ascending(positions) && positions != []
    ensures Ascending(positions[1..])
    ensures forall p :: p in positions ==> p >= positions[0]
    ensures forall p :: p in positions[1..] <==> p in positions && p != positions[0]
  {
    assert positions == [positions[0]] + positions[1..];
  }

  /** The oldest position is everyone's at or below it. */
  lemma DropFirst(byPos: map<int, set<string>>, positions: seq<int>, entityPos: map<string, int>)
    requires Indexed(byPos, positions, entityPos) && positions != []
    ensures var k := positions[0];
            && k in byPos && Indexed(byPos - {k}, positions[1..], entityPos - byPos[k])
            && forall e :: e in entityPos ==> (e in byPos[k] <==> entityPos[e] <= k)
  {
    FirstLowest(positions);
    hide Ascending;
    var k := positions[0];
    assert k in positions;
    assert forall e :: e in byPos[k] ==> e in entityPos && entityPos[e] == k;
    assert forall p, e :: p in byPos - {k} && e in byPos[p] ==> e in entityPos && entityPos[e] == p && e !in byPos[k];
  }
}
