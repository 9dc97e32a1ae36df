/** Validation of the controllers: what the access control list relies on. */
module Controllers {
  import opened Common
  import opened Oid
  import opened Acl

  /** A controller as it is configured; its doors by channel. */
  datatype Unit = Unit(oid: OID, id: U32, named: bool, modified: bool, deleted: bool, doors: map<nat, OID>)

  ghost predicate Wired(cc: seq<Unit>, i: int, d: int, door: OID) {
    0 <= i < |cc| && d in cc[i].doors && cc[i].doors[d] == door != ""
  }

  /** Every door is known and is wired to one channel of one controller, deleted ones included. */
  ghost predicate DoorsValid(cc: seq<Unit>, known: set<OID>) {
    && (forall i, d, door :: Wired(cc, i, d, door) ==> door in known)
    && (forall i, d, j, e, door :: Wired(cc, i, d, door) && Wired(cc, j, e, door) ==> i == j && d == e)
  }

  /** No two live controllers share a device number. */
  ghost predicate DevicesValid(cc: seq<Unit>) {
    && (forall i :: 0 <= i < |cc| ==>
          cc[i].oid != "" && (cc[i].deleted || cc[i].named || cc[i].id != 0 || !cc[i].modified))
    && (forall i, j :: 0 <= i < j < |cc| && !cc[i].deleted && !cc[j].deleted && cc[i].id != 0 ==> cc[i].id != cc[j].id)
  }

  method ValidateDevices(cc: seq<Unit>) returns (ok: bool)
    ensures ok <==> DevicesValid(cc)
  {
    var devices: map<U32, OID> := map[];
    for n := 0 to |cc|
      invariant DevicesValid(cc[..n])
      invariant forall id :: id in devices <==> exists i :: 0 <= i < n && !cc[i].deleted && cc[i].id == id != 0
    {
      var c := cc[n];
      if c.oid == "" {
        return false;
      }
      if c.deleted {
        continue;
      }
      if !c.named && c.id == 0 && c.modified {
        return false;
      }
      if c.id != 0 {
        if c.id in devices {
          return false;
        }
        devices := devices[c.id := c.oid];
      }
    }
    assert cc[..|cc|] == cc;
    ok := true;
  }

  /** The channels visited: those of the first n controllers, and some of the next one. */
  ghost predicate Visited(cc: seq<Unit>, n: nat, done: set<nat>, i: int, d: int, door: OID) {
    Wired(cc, i, d, door) && (i < n || (i == n && d in done))
  }

  ghost predicate Checked(cc: seq<Unit>, known: set<OID>, n: nat, done: set<nat>, doors: set<OID>) {
    && (forall i, d, door :: Visited(cc, n, done, i, d, door) ==> door in known && door in doors)
    && (forall door :: door in doors && door != "" ==> exists i, d :: Visited(cc, n, done, i, d, door))
    && (forall i, d, j, e, door :: Visited(cc, n, done, i, d, door) && Visited(cc, n, done, j, e, door) ==>
          i == j && d == e)
  }

  lemma CheckedStep(cc: seq<Unit>, known: set<OID>, n: nat, done: set<nat>, doors: set<OID>, d: nat)
    requires n < |cc| && d !in done && d in cc[n].doors && Checked(cc, known, n, done, doors)
    requires var v := cc[n].doors[d]; v != "" ==> v in known && v !in doors
    ensures Checked(cc, known, n, done + {d}, doors + {cc[n].doors[d]})
  {
    var v := cc[n].doors[d];
    var more := done + {d};
    forall i, e, door: OID
      ensures Visited(cc, n, more, i, e, door) <==>
                Visited(cc, n, done, i, e, door) || (i == n && e == d && door == v != "")
    {
    }
    forall door | door in doors + {v} && door != "" ensures exists i, e :: Visited(cc, n, more, i, e, door) {
      if door == v {
        assert Visited(cc, n, more, n, d, door);
      } else {
        var i, e :| Visited(cc, n, done, i, e, door);
        assert Visited(cc, n, more, i, e, door);
      }
    }
  }

  lemma SameVisited(cc: seq<Unit>, known: set<OID>, n: nat, done: set<nat>, m: nat, done': set<nat>, doors: set<OID>)
    requires Checked(cc, known, n, done, doors)
    requires forall i, d, door: OID :: Visited(cc, n, done, i, d, door) <==> Visited(cc, m, done', i, d, door)
    ensures Checked(cc, known, m, done', doors)
  {
    forall door | door in doors && door != "" ensures exists i, d :: Visited(cc, m, done', i, d, door) {
      var i, d :| Visited(cc, n, done, i, d, door);
      assert Visited(cc, m, done', i, d, door);
    }
  }

  /** Why a channel fails the check. */
  lemma NotValid(cc: seq<Unit>, known: set<OID>, n: nat, done: set<nat>, doors: set<OID>, d: nat)
    requires n < |cc| && d !in done && d in cc[n].doors && Checked(cc, known, n, done, doors)
    requires var v := cc[n].doors[d]; v != "" && (v !in known || v in doors)
    ensures !DoorsValid(cc, known)
  {
    var v := cc[n].doors[d];
    assert Wired(cc, n, d, v);
    if v in doors {
      var i, e :| Visited(cc, n, done, i, e, v);
      assert Wired(cc, i, e, v) && (i != n || e != d);
    }
  }

  /** One controller's channels, in any order. */
  method CheckUnit(cc: seq<Unit>, known: set<OID>, n: nat, doors: set<OID>) returns (ok: bool, doors': set<OID>)
    requires n < |cc| && Checked(cc, known, n, {}, doors)
    ensures if ok then Checked(cc, known, n, cc[n].doors.Keys, doors') else !DoorsValid(cc, known)
  {
    doors' := doors;
    var all := cc[n].doors.Keys;
    var todo := all;
    ghost var done: set<nat> := {};
    while todo != {}
      invariant todo <= all && done == all - todo && Checked(cc, known, n, done, doors')
    {
      var d :| d in todo;
      var v := cc[n].doors[d];
      if v != "" && (v !in known || v in doors') {
        NotValid(cc, known, n, done, doors', d);
        return false, doors';
      }
      CheckedStep(cc, known, n, done, doors', d);
      doors', done, todo := doors' + {v}, done + {d}, todo - {d};
    }
    assert done == all;
    ok := true;
  }

  method Validate(cc: seq<Unit>, known: set<OID>) returns (ok: bool)
    ensures ok <==> DevicesValid(cc) && DoorsValid(cc, known)
  {
    ok := ValidateDevices(cc);
    if !ok {
      return;
    }
    var doors: set<OID> := {};
    for n := 0 to |cc|
      invariant Checked(cc, known, n, {}, doors)
    {
      var all := cc[n].doors.Keys;
      ok, doors := CheckUnit(cc, known, n, doors);
      if !ok {
        return;
      }
      SameVisited(cc, known, n, all, n + 1, {}, doors);
    }
    ok := true;
    assert forall i, d, door :: Wired(cc, i, d, door) ==> Visited(cc, |cc|, {}, i, d, door);
  }

  /** The catalog's wires are the channels of the live controllers with a device number. */
  ghost predicate WiredAs(cc: seq<Unit>, wires: map<Slot, OID>) {
    forall s: Slot :: s in wires ==>
      exists i ::
          0 <= i < |cc| && !cc[i].deleted && cc[i].id == s.controller != 0 && s.door in cc[i].doors
              && cc[i].doors[s.door] == wires[s]
  }

  /** Validated controllers give the access control list wires that lead to known doors, each
      door once. */
  lemma ValidWires(cc: seq<Unit>, known: set<OID>, wires: map<Slot, OID>)
    requires DevicesValid(cc) && DoorsValid(cc, known) && WiredAs(cc, wires)
    ensures WiredOnce(wires) && forall s: Slot :: s in wires ==> wires[s] == "" || wires[s] in known
  {
    forall s: Slot | s in wires && wires[s] != ""
      ensures exists i :: Wired(cc, i, s.door, wires[s]) && cc[i].id == s.controller
    {
      var i :|
          0 <= i < |cc| && !cc[i].deleted && cc[i].id == s.controller != 0 && s.door in cc[i].doors
              && cc[i].doors[s.door] == wires[s];
      assert Wired(cc, i, s.door, wires[s]);
    }
    forall s: Slot, t: Slot | s in wires && t in wires && wires[s] == wires[t] != "" ensures s == t {
      var i :| Wired(cc, i, s.door, wires[s]) && cc[i].id == s.controller;
      var j :| Wired(cc, j, t.door, wires[t]) && cc[j].id == t.controller;
      assert i == j && s.door == t.door;
    }
  }
}
