/** Changes stashed during a request, their compaction for the reply, and their commit. */
module Commit {
  import opened Common
  import opened Oid

  type Value = string

  datatype Object = Object(oid: OID, value: Value)

  /** The catalog after a list of puts. */
  function Replay(m: map<OID, Value>, objects: seq<Object>): map<OID, Value>
    decreases |objects|
  {
    if objects == [] then m else Replay(m[objects[0].oid := objects[0].value], objects[1..])
  }

  predicate Recurs(oid: OID, objects: seq<Object>) {
    exists i :: 0 <= i < |objects| && objects[i].oid == oid
  }

  /** Drops every object that a later one supersedes. */
  function Squooshed(objects: seq<Object>): seq<Object> {
    if objects == [] then []
    else (if Recurs(objects[0].oid, objects[1..]) then [] else [objects[0]]) + Squooshed(objects[1..])
  }

  // ---- What compaction keeps ----

  ghost predicate IsLast(objects: seq<Object>, i: int) {
    0 <= i < |objects| && forall j :: i < j < |objects| ==> objects[j].oid != objects[i].oid
  }

  /** `at` are the positions kept: the last one of each identifier, in order. */
  ghost predicate Keeps(objects: seq<Object>, kept: seq<Object>, at: seq<int>) {
    && |at| == |kept| && (forall p :: 0 <= p < |at| ==> IsLast(objects, at[p]) && kept[p] == objects[at[p]])
    && (forall p, q :: 0 <= p < q < |at| ==> at[p] < at[q])
    && (forall i :: IsLast(objects, i) ==> i in at)
  }

  function Shifted(at: seq<int>): (r: seq<int>)
    ensures |r| == |at| && forall p :: 0 <= p < |at| ==> r[p] == at[p] + 1
  {
    if at == [] then [] else [at[0] + 1] + Shifted(at[1..])
  }

  lemma LastInTail(objects: seq<Object>, i: int)
    requires objects != []
    ensures i > 0 ==> (IsLast(objects, i) <==> IsLast(objects[1..], i - 1))
    ensures IsLast(objects, 0) <==> !Recurs(objects[0].oid, objects[1..])
  {
    if i > 0 && IsLast(objects[1..], i - 1) {
      forall j | i < j < |objects| ensures objects[j].oid != objects[i].oid {
        assert objects[1..][j - 1] == objects[j];
      }
    }
    if Recurs(objects[0].oid, objects[1..]) {
      var j :| 0 <= j < |objects| - 1 && objects[1..][j].oid == objects[0].oid;
      assert objects[j + 1].oid == objects[0].oid;
    } else {
      forall j | 0 < j < |objects| ensures objects[j].oid != objects[0].oid {
        assert objects[1..][j - 1] == objects[j];
      }
    }
  }

  /** The positions of the objects that survive. */
  function Positions(objects: seq<Object>): seq<int> {
    if objects == [] then []
    else (if Recurs(objects[0].oid, objects[1..]) then [] else [0]) + Shifted(Positions(objects[1..]))
  }

  lemma {:induction false} PositionsFit(objects: seq<Object>)
    ensures var at, kept := Positions(objects), Squooshed(objects);
            |at| == |kept| && forall p :: 0 <= p < |at| ==> 0 <= at[p] < |objects| && kept[p] == objects[at[p]]
  {
    if objects != [] {
      PositionsFit(objects[1..]);
    }
  }

  lemma {:induction false} PositionsAscend(objects: seq<Object>)
    ensures var at := Positions(objects); forall p, q :: 0 <= p < q < |at| ==> at[p] < at[q]
  {
    if objects != [] {
      PositionsFit(objects[1..]);
      PositionsAscend(objects[1..]);
    }
  }

  lemma ShiftedHas(at: seq<int>, i: int)
    ensures i in Shifted(at) <==> i - 1 in at
  {
    if i - 1 in at {
      var p :| 0 <= p < |at| && at[p] == i - 1;
      assert Shifted(at)[p] == i;
    }
  }

  lemma {:induction false} PositionsAreLast(objects: seq<Object>, i: int)
    ensures i in Positions(objects) <==> IsLast(objects, i)
  {
    if objects != [] {
      ShiftedHas(Positions(objects[1..]), i);
      PositionsAreLast(objects[1..], i - 1);
      LastInTail(objects, i);
    }
  }

  /** One entry for each identifier: its last, in the order of the last occurrences. */
  lemma SquooshKeepsLast(objects: seq<Object>)
    ensures Keeps(objects, Squooshed(objects), Positions(objects))
  {
    PositionsFit(objects);
    PositionsAscend(objects);
    forall i: int ensures i in Positions(objects) <==> IsLast(objects, i) {
      PositionsAreLast(objects, i);
    }
  }

  ghost predicate OneEach(objects: seq<Object>) {
    forall i, j :: 0 <= i < j < |objects| ==> objects[i].oid != objects[j].oid
  }

  lemma SquooshIsOneEach(objects: seq<Object>)
    ensures OneEach(Squooshed(objects))
  {
    SquooshKeepsLast(objects);
    assert forall p :: 0 <= p < |Positions(objects)| ==> IsLast(objects, Positions(objects)[p]);
  }

  lemma {:induction false} OneEachIsKept(objects: seq<Object>)
    requires OneEach(objects)
    ensures Squooshed(objects) == objects
  {
    if objects != [] {
      assert OneEach(objects[1..]);
      OneEachIsKept(objects[1..]);
      LastInTail(objects, 0);
      assert objects == [objects[0]] + objects[1..];
    }
  }

  lemma SquooshTwice(objects: seq<Object>)
    ensures Squooshed(Squooshed(objects)) == Squooshed(objects)
  {
    SquooshIsOneEach(objects);
    OneEachIsKept(Squooshed(objects));
  }

  /** A put that a later one supersedes leaves no trace. */
  lemma {:induction false} Superseded(m: map<OID, Value>, oid: OID, value: Value, objects: seq<Object>)
    requires Recurs(oid, objects)
    ensures Replay(m[oid := value], objects) == Replay(m, objects)
    decreases |objects|
  {
    var o := objects[0];
    if o.oid == oid {
      assert m[oid := value][oid := o.value] == m[oid := o.value];
    } else {
      assert m[oid := value][o.oid := o.value] == m[o.oid := o.value][oid := value];
      var i :| 0 <= i < |objects| && objects[i].oid == oid;
      assert objects[1..][i - 1].oid == oid;
      Superseded(m[o.oid := o.value], oid, value, objects[1..]);
    }
  }

  /** Committing the compacted list would give the same catalog as committing the raw one. */
  lemma {:induction false} SquooshKeepsMeaning(m: map<OID, Value>, objects: seq<Object>)
    ensures Replay(m, Squooshed(objects)) == Replay(m, objects)
    decreases |objects|
  {
    if objects != [] {
      var o := objects[0];
      if Recurs(o.oid, objects[1..]) {
        Superseded(m, o.oid, o.value, objects[1..]);
        SquooshKeepsMeaning(m, objects[1..]);
        assert [] + Squooshed(objects[1..]) == Squooshed(objects[1..]);
      } else {
        SquooshKeepsMeaning(m[o.oid := o.value], objects[1..]);
        assert Squooshed(objects)[1..] == Squooshed(objects[1..]);
      }
    }
  }

  lemma {:induction false} ReplayAt(m: map<OID, Value>, objects: seq<Object>, oid: OID)
    ensures oid in Replay(m, objects) <==> oid in m || Recurs(oid, objects)
    ensures !Recurs(oid, objects) && oid in m ==> Replay(m, objects)[oid] == m[oid]
    ensures forall i :: IsLast(objects, i) && objects[i].oid == oid ==>
              oid in Replay(m, objects) && Replay(m, objects)[oid] == objects[i].value
    decreases |objects|
  {
    if objects != [] {
      ReplayAt(m[objects[0].oid := objects[0].value], objects[1..], oid);
      LastInTail(objects, 0);
      if Recurs(oid, objects[1..]) {
        var j :| 0 <= j < |objects| - 1 && objects[1..][j].oid == oid;
        assert objects[j + 1].oid == oid;
      }
      forall i | IsLast(objects, i) && objects[i].oid == oid
        ensures oid in Replay(m, objects) && Replay(m, objects)[oid] == objects[i].value
      {
        LastInTail(objects, i);
      }
    }
  }

  /** Committing the same changes a second time changes nothing. */
  lemma ReplayTwice(m: map<OID, Value>, objects: seq<Object>)
    ensures Replay(Replay(m, objects), objects) == Replay(m, objects)
  {
    var once := Replay(m, objects);
    var twice := Replay(once, objects);
    forall oid: OID ensures oid in twice <==> oid in once {
      ReplayAt(m, objects, oid);
      ReplayAt(once, objects, oid);
    }
    forall oid | oid in once ensures twice[oid] == once[oid] {
      ReplayAt(m, objects, oid);
      ReplayAt(once, objects, oid);
      if Recurs(oid, objects) {
        LastOf(oid, objects);
      }
    }
  }

  lemma {:induction false} LastOf(oid: OID, objects: seq<Object>)
    requires Recurs(oid, objects)
    ensures exists i :: IsLast(objects, i) && objects[i].oid == oid
  {
    if Recurs(oid, objects[1..]) {
      LastOf(oid, objects[1..]);
      var i :| IsLast(objects[1..], i) && objects[1..][i].oid == oid;
      LastInTail(objects, i + 1);
    } else {
      RecursStep(objects, 1);
      assert objects[0..] == objects;
      LastInTail(objects, 0);
    }
  }

  // ---- Stashing and committing ----

  datatype Pending = Pending(oid: OID, field: string, value: Value)

  datatype Record = Record(oid: OID, operation: string, description: string)

  /** What a commit does to the world outside, in order. */
  datatype Effect = Put(entry: Object) | Write(record: Record) | Hook | Update(update: Pending) | Finish

  function Puts(objects: seq<Object>): seq<Effect> {
    if objects == [] then [] else Puts(objects[..|objects| - 1]) + [Put(objects[|objects| - 1])]
  }

  function Writes(records: seq<Record>): seq<Effect> {
    if records == [] then [] else Writes(records[..|records| - 1]) + [Write(records[|records| - 1])]
  }

  function Updates(updates: seq<Pending>): seq<Effect> {
    if updates == [] then [] else Updates(updates[..|updates| - 1]) + [Update(updates[|updates| - 1])]
  }

  /** One put for each object, one entry of the trail for each record and one update for each one
      pending, in order. */
  lemma EffectsAre(objects: seq<Object>, records: seq<Record>, updates: seq<Pending>)
    ensures |Puts(objects)| == |objects| && forall i :: 0 <= i < |objects| ==> Puts(objects)[i] == Put(objects[i])
    ensures |Writes(records)| == |records| && forall i :: 0 <= i < |records| ==> Writes(records)[i] == Write(records[i])
    ensures |Updates(updates)| == |updates|
    ensures forall i :: 0 <= i < |updates| ==> Updates(updates)[i] == Update(updates[i])
  {
    PutsAre(objects);
    WritesAre(records);
    UpdatesAre(updates);
  }

  lemma {:induction false} PutsAre(objects: seq<Object>)
    ensures |Puts(objects)| == |objects| && forall i :: 0 <= i < |objects| ==> Puts(objects)[i] == Put(objects[i])
  {
    if objects != [] {
      PutsAre(objects[..|objects| - 1]);
    }
  }

  lemma {:induction false} WritesAre(records: seq<Record>)
    ensures |Writes(records)| == |records| && forall i :: 0 <= i < |records| ==> Writes(records)[i] == Write(records[i])
  {
    if records != [] {
      WritesAre(records[..|records| - 1]);
    }
  }

  lemma {:induction false} UpdatesAre(updates: seq<Pending>)
    ensures |Updates(updates)| == |updates|
    ensures forall i :: 0 <= i < |updates| ==> Updates(updates)[i] == Update(updates[i])
  {
    if updates != [] {
      UpdatesAre(updates[..|updates| - 1]);
    }
  }

  lemma {:induction false} ReplayAppend(m: map<OID, Value>, objects: seq<Object>, o: Object)
    ensures Replay(m, objects + [o]) == Replay(m, objects)[o.oid := o.value]
    decreases |objects|
  {
    if objects == [] {
      assert [o][1..] == [];
    } else {
      ReplayAppend(m[objects[0].oid := objects[0].value], objects[1..], o);
      assert (objects + [o])[1..] == objects[1..] + [o];
    }
  }

  /** The catalog, and everything done so far. */
  class World {
    var catalog: map<OID, Value>
    var done: seq<Effect>

    constructor ()
      ensures catalog == map[] && done == []
    {
      catalog, done := map[], [];
    }

    method PutObject(o: Object)
      modifies this
      ensures catalog == old(catalog)[o.oid := o.value] && done == old(done) + [Put(o)]
    {
      catalog, done := catalog[o.oid := o.value], done + [Put(o)];
    }

    method Do(e: Effect)
      modifies this`done
      ensures done == old(done) + [e]
    {
      done := done + [e];
    }
  }

  /** Scans backwards, keeping an object unless its identifier was seen later in the list. */
  method Squoosh(objects: seq<Object>) returns (list: seq<Object>)
    ensures list == Squooshed(objects)
  {
    var keys: set<OID> := {};
    list := [];
    var i := |objects|;
    while i > 0
      invariant 0 <= i <= |objects|
      invariant forall oid :: oid in keys <==> Recurs(oid, objects[i..])
      invariant list == Squooshed(objects[i..])
    {
      var o := objects[i - 1];
      assert objects[i - 1..][0] == o && objects[i - 1..][1..] == objects[i..];
      RecursStep(objects, i);
      if o.oid !in keys {
        keys := keys + {o.oid};
        list := [o] + list;
      }
      i := i - 1;
    }
    assert objects[0..] == objects;
  }

  lemma RecursStep(objects: seq<Object>, i: int)
    requires 0 < i <= |objects|
    ensures forall oid :: Recurs(oid, objects[i - 1..]) <==> Recurs(oid, objects[i..]) || oid == objects[i - 1].oid
  {
    forall oid | Recurs(oid, objects[i..]) ensures Recurs(oid, objects[i - 1..]) {
      var j :| 0 <= j < |objects| - i && objects[i..][j].oid == oid;
      assert objects[i - 1..][j + 1].oid == oid;
    }
    assert objects[i - 1..][0].oid == objects[i - 1].oid;
    forall oid | Recurs(oid, objects[i - 1..]) && oid != objects[i - 1].oid ensures Recurs(oid, objects[i..]) {
      var j :| 0 <= j <= |objects| - i && objects[i - 1..][j].oid == oid;
      assert objects[i..][j - 1].oid == oid;
    }
  }

  class DBC {
    var objects: seq<Object>
    var updated: seq<Pending>
    var logs: seq<Record>
    const trail: bool

    constructor (trail: bool)
      ensures objects == [] && updated == [] && logs == [] && this.trail == trail
    {
      objects, updated, logs, this.trail := [], [], [], trail;
    }

    method Stash(list: seq<Object>)
      modifies this`objects
      ensures objects == old(objects) + list
    {
      objects := objects + list;
    }

    method Updated(oid: OID, field: string, value: Value)
      modifies this`updated
      ensures updated == old(updated) + [Pending(oid, field, value)]
    {
      updated := updated + [Pending(oid, field, value)];
    }

    method Log(r: Record)
      modifies this`logs
      ensures logs == old(logs) + [r]
    {
      logs := logs + [r];
    }

    /** The reply to the request: the latest value of everything stashed. */
    method Objects() returns (list: seq<Object>)
      ensures list == Squooshed(objects)
    {
      list := Squoosh(objects);
    }

    /** Puts, then the audit trail, then the hook that swaps in the new state, then the updates,
        and last the deferred tasks. Only the log is drained. */
    method Commit(world: World)
      modifies this`logs, world
      ensures logs == [] && world.catalog == Replay(old(world.catalog), objects)
      ensures world.done == old(world.done) + Puts(objects) + (if trail then Writes(old(logs)) else []) + [Hook]
                + Updates(updated) + [Finish]
    {
      for i := 0 to |objects|
        invariant logs == old(logs) && world.catalog == Replay(old(world.catalog), objects[..i])
        invariant world.done == old(world.done) + Puts(objects[..i])
      {
        assert objects[..i + 1] == objects[..i] + [objects[i]];
        assert objects[..i + 1][..i] == objects[..i];
        ReplayAppend(old(world.catalog), objects[..i], objects[i]);
        world.PutObject(objects[i]);
      }
      assert objects[..|objects|] == objects;
      ghost var put := world.done;
      if trail {
        for i := 0 to |logs|
          invariant logs == old(logs) && world.done == put + Writes(logs[..i])
                      && world.catalog == Replay(old(world.catalog), objects)
        {
          assert logs[..i + 1][..i] == logs[..i];
          world.Do(Write(logs[i]));
        }
        assert logs[..|logs|] == logs;
      }
      logs := [];
      world.Do(Hook);
      ghost var hooked := world.done;
      for i := 0 to |updated|
        invariant logs == [] && world.done == hooked + Updates(updated[..i])
                    && world.catalog == Replay(old(world.catalog), objects)
      {
        assert updated[..i + 1][..i] == updated[..i];
        world.Do(Update(updated[i]));
      }
      assert updated[..|updated|] == updated;
      world.Do(Finish);
    }
  }

  /** What a request is told of is exactly what the catalog then holds: putting the reply into a
      catalog gives what the commit made of it. */
  method CommitAndReply(d: DBC, world: World) returns (reply: seq<Object>)
    modifies d`logs, world
    ensures Replay(old(world.catalog), reply) == world.catalog && OneEach(reply)
    ensures forall o :: o in reply ==> o.oid in world.catalog && world.catalog[o.oid] == o.value
  {
    d.Commit(world);
    reply := d.Objects();
    SquooshKeepsMeaning(old(world.catalog), d.objects);
    SquooshIsOneEach(d.objects);
    forall o | o in reply ensures o.oid in world.catalog && world.catalog[o.oid] == o.value {
      var i :| 0 <= i < |reply| && reply[i] == o;
      assert IsLast(reply, i);
      ReplayAt(old(world.catalog), reply, o.oid);
    }
  }
}
