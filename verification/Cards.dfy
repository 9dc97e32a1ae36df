/** The store of credentials: shared, mutable card objects with their membership maps. */
module Cards {
  import opened Common
  import opened Oid
  import opened Groups
  import opened CatalogTable
  import opened CardRecords
  import opened CardEdits
  import opened CardImports

  /** A Go map value: shared by whoever holds it. */
  class Memberships {
    var m: map<OID, bool>

    /** The identifier of the card that the map was made for. */
    ghost const holder: OID

    constructor (m: map<OID, bool>, ghost holder: OID)
      ensures this.m == m && this.holder == holder
    {
      this.m, this.holder := m, holder;
    }
  }

  class Card {
    var oid: OID
    var number: U32
    var text: Text
    var pin: U32
    var from: Option<int>
    var to: Option<int>
    var groups: Memberships
    var incorrect: bool
    var unconfigured: bool
    var modified: bool
    var deleted: Option<int>

    /** What may be observed of the card. */
    ghost function View(): Record
      reads this, groups
    {
      Record(oid, number, text, pin, from, to, groups.m, incorrect, unconfigured, modified, deleted)
    }

    constructor (r: Record, groups: Memberships)
      ensures View() == r.(groups := groups.m) && this.groups == groups
    {
      oid, number, text, pin, from, to := r.oid, r.number, r.text, r.pin, r.from, r.to;
      incorrect, unconfigured, modified, deleted := r.incorrect, r.unconfigured, r.modified, r.deleted;
      this.groups := groups;
    }

    /** A deep copy: the membership map is not shared either. */
    method Clone() returns (c: Card)
      ensures fresh(c) && fresh(c.groups) && c.groups.holder == oid
      ensures c.View() == View()
    {
      c := NewCard(Record(oid, number, text, pin, from, to, groups.m, incorrect, unconfigured, modified, deleted));
    }

    /** Merges details discovered on a controller. */
    method Merge(i: Import, withPIN: bool)
      modifies this, groups
      ensures View() == MergeRecord(old(View()), i, withPIN) && groups == old(groups)
    {
      if !i.preserve {
        from, to := i.from, i.to;
        if withPIN {
          pin := i.pin;
        }
      }
      groups.m := groups.m[i.group := true];
      unconfigured, modified := false, true;
    }

    /** Sets a field that is free text, or the kind, which is one of three words. */
    method SetText(field: Field, value: string, ghost env: Env, authorised: bool) returns (ok: bool)
      requires field.IsText() && deleted.None?
      modifies this
      ensures groups == old(groups)
      ensures ok ==> SetField(old(View()), field, value, env) == Some(View())
      ensures !ok ==> unchanged(this) && (!authorised || SetField(View(), field, value, env) == None)
      ensures ok ==> authorised
    {
      if !authorised || (field == KindField && KindOf(value) !in KINDS) {
        return false;
      }
      match field {
        case NameField =>
          text := text.(name := TrimSpace(value));
        case ManagementGroupField =>
          text := text.(managementGroup := TrimSpace(value));
        case LabelField =>
          text := text.(labelText := TrimSpace(value));
        case KindField =>
          text := text.(kind := KindOf(value));
      }
      modified := true;
      incorrect, unconfigured := false, false;
      ok := true;
    }

    /** Sets one field. The right is asked for only where something would be written: without it
        an edit can do no more than clear the marks. */
    method Set(field: Field, value: string, env: Env, authorised: bool) returns (ok: bool)
      modifies this, groups
      ensures groups == old(groups)
      ensures ok ==> SetField(old(View()), field, value, env) == Some(View())
      ensures !ok ==> unchanged(this, groups) && (!authorised || SetField(View(), field, value, env) == None)
      ensures ok && !authorised ==> View() == old(View()).(incorrect := false, unconfigured := false)
    {
      if deleted.Some? {
        return false;
      }
      if field.IsText() {
        ok := SetText(field, value, env, authorised);
        return;
      }
      var edit := true;
      match field {
        case NumberField =>
          match ParseField(value, 0x1_0000_0000) {
            case Bad => return false;
            case Ignored => edit := false;
            case Number(n) =>
              if !authorised {
                return false;
              }
              number := n;
          }
        case PinField =>
          match ParseField(value, 1_000_000) {
            case Bad => return false;
            case Ignored => edit := false;
            case Number(n) =>
              if !authorised {
                return false;
              }
              pin := n;
          }
        case FromField =>
          if !authorised || (value !in env.dates && value != "") {
            return false;
          }
          from := if value in env.dates then Some(env.dates[value]) else None;
        case ToField =>
          if !authorised || (value !in env.dates && value != "") {
            return false;
          }
          to := if value in env.dates then Some(env.dates[value]) else None;
        case GroupField(gid) =>
          if gid.None? {
            edit := false;
          } else {
            var g := Append(GROUPS_OID, gid.value);
            if !authorised || g !in env.levels {
              return false;
            }
            groups.m := groups.m[g := value == "true"];
          }
        case _ =>
          edit := false;
      }
      modified := modified || edit;
      incorrect, unconfigured := false, false;
      ok := true;
    }
  }

  /** What the catalog guarantees the store: every identifier in use has been issued, and
      `room` more can be. */
  ghost predicate Catalogued(t: Tab, keys: set<OID>, room: nat) {
    t.base == CARDS_OID && t.Bounded() && t.last + room <= MAX_UINT32 && keys <= t.m.Keys
  }

  lemma NextCardOid(t: Tab, oid: OID, t': Tab, keys: set<OID>, room: nat)
    requires Catalogued(t, keys, room + 1) && Issues(t, oid, t')
    ensures oid !in keys && oid != "" && Catalogued(t', keys + {oid}, room)
  {
    NewMovesUp(t, oid, t');
    var next: U32 := t.last + 1;
    assert t.Free(next);
    assert Steps(t.last, t'.last) <= Steps(t.last, next) == 1;
    assert |oid| >= |CARDS_OID|;
  }

  method NewCard(r: Record) returns (card: Card)
    ensures fresh(card) && fresh(card.groups) && card.groups.holder == r.oid && card.View() == r
  {
    var groups := new Memberships(r.groups, r.oid);
    card := new Card(r, groups);
  }

  method Issue(catalog: Table, ghost keys: set<OID>, ghost room: nat) returns (oid: OID)
    requires Catalogued(catalog.t, keys, room + 1)
    modifies catalog
    ensures oid !in keys && oid != "" && Catalogued(catalog.t, keys + {oid}, room)
    ensures oid !in old(catalog.t).m && oid in catalog.t.m && StillMarked(old(catalog.t), catalog.t)
  {
    ghost var before := catalog.t;
    FreeBelowLimit(before);
    oid := catalog.New();
    NextCardOid(before, oid, catalog.t, keys, room);
  }

  /** The card is k's, and so is its membership map. */
  ghost predicate Holds(repr: set<object>, k: OID, c: Card, r: Record)
    reads c, c.groups
  {
    c in repr && c.groups in repr && c.groups.holder == k && c.View() == r
  }

  class Cards {
    var cards: map<OID, Card>

    /** What may be observed of the store. */
    ghost var view: Records

    /** The objects the store may write to. */
    ghost var repr: set<object>

    /** The view is what the cards look like. */
    ghost predicate Viewed()
      reads this, repr
    {
      && this !in repr && view.Keys == cards.Keys
      && forall k :: k in cards ==> cards[k] in repr && cards[k].groups in repr && Holds(repr, k, cards[k], view[k])
    }

    /** Every key is its card's identifier and every membership map is held by one card, so no
        two entries share either. */
    ghost predicate Valid()
      reads this, repr
    {
      Viewed() && Keyed(view)
    }

    /** The store only writes to objects that it wrote to before, or that are new. */
    twostate predicate Grown()
      reads this
    {
      forall o :: o in repr ==> o in old(repr) || fresh(o)
    }

    constructor (cards: map<OID, Card>, ghost view: Records, ghost repr: set<object>)
      ensures this.cards == cards && this.view == view && this.repr == repr
    {
      this.cards, this.view, this.repr := cards, view, repr;
    }

    /** A deep copy: neither the cards nor their membership maps are shared. */
    method Clone() returns (shadow: Cards)
      requires Valid()
      ensures fresh(shadow) && fresh(shadow.repr)
      ensures shadow.Valid() && shadow.view == view
    {
      var copies: map<OID, Card> := map[];
      ghost var copied: set<object> := {};
      var todo := cards.Keys;
      while todo != {}
        invariant todo <= cards.Keys && copies.Keys == cards.Keys - todo
        invariant fresh(copied)
        invariant forall k :: k in copies ==> Holds(copied, k, copies[k], view[k])
      {
        var k :| k in todo;
        assert Holds(repr, k, cards[k], view[k]);
        var c := cards[k].Clone();
        copies, copied, todo := copies[k := c], copied + {c, c.groups}, todo - {k};
      }
      shadow := new Cards(copies, view, copied);
    }

    /** A store may hold a card under a key that is not its identifier; such a store is refused. */
    method Validate() returns (ok: bool)
      requires Viewed()
      ensures ok <==> ValidRecords(view)
    {
      var numbers: map<U32, OID> := map[];
      var todo := cards.Keys;
      while todo != {}
        invariant todo <= cards.Keys
        invariant forall n :: n in numbers ==>
                    numbers[n] in view && numbers[n] !in todo && view[numbers[n]].Live()
                        && view[numbers[n]].number == n != 0
        invariant forall k :: k in view && k !in todo && view[k].Live() ==>
                    k != "" && view[k].oid == k && view[k].WellFormed()
                        && (view[k].number != 0 ==> view[k].number in numbers && numbers[view[k].number] == k)
      {
        var k :| k in todo;
        var c := cards[k];
        assert Holds(repr, k, c, view[k]);
        todo := todo - {k};
        if c.deleted.Some? {
          continue;
        }
        if c.oid == "" || k != c.oid {
          return false;
        }
        if TrimSpace(c.text.name) == "" && c.number == 0 {
          if c.modified {
            return false;
          }
        }
        if c.number != 0 {
          if c.number in numbers {
            return false;
          }
          numbers := numbers[c.number := k];
        }
      }
      ok := true;
    }

    /** Removes entries from the map; the card objects stay as they are. */
    method Drop(remove: set<OID>)
      requires Valid()
      modifies this
      ensures Valid() && repr == old(repr) && cards == old(cards) - remove && view == old(view) - remove
    {
      cards := cards - remove;
      view := view - remove;
    }

    /** Removes the records deleted before the cutoff. */
    method Sweep(cutoff: int)
      requires Valid()
      modifies this
      ensures Valid() && repr == old(repr) && cards.Keys <= old(cards).Keys && view == Unswept(old(view), cutoff)
      ensures forall k :: k in cards ==> cards[k] == old(cards)[k]
      ensures forall k :: k in old(view) ==>
                (k !in view <==> old(view)[k].deleted.Some? && old(view)[k].deleted.value < cutoff)
      ensures forall k :: k in view ==> k in old(view) && view[k] == old(view)[k]
    {
      var expired: set<OID> := {};
      var todo := cards.Keys;
      while todo != {}
        invariant todo <= cards.Keys
        invariant expired == set k | k in view && k !in todo && Swept(view[k], cutoff)
      {
        var k :| k in todo;
        assert Holds(repr, k, cards[k], view[k]);
        if cards[k].deleted.Some? && cards[k].deleted.value < cutoff {
          expired := expired + {k};
        }
        todo := todo - {k};
      }
      Drop(expired);
    }

    /** Which numbers were found but are not live here, and which live unconfigured records
        were not found. The cards come in any order; a matched number is swapped out. */
    method Scan(found: seq<U32>) returns (add: seq<U32>, remove: set<OID>)
      requires Valid() && NumbersDistinct(view)
      requires Distinct(found) && 0 !in found
      ensures Distinct(add) && Elements(add) == Elements(found) - LiveNumbers(view)
      ensures Removable(view, found, remove)
    {
      add, remove := found, {};
      var todo := cards.Keys;
      ghost var seen: set<U32> := {};
      while todo != {}
        invariant todo <= cards.Keys && remove <= cards.Keys - todo
        invariant Distinct(add) && Elements(add) == Elements(found) - seen
        invariant seen == LiveNumbersOf(view, todo)
        invariant forall k :: k in remove ==> view[k].unconfigured && (view[k].Live() ==> view[k].number !in found)
        invariant forall k ::
                    k in view && k !in todo && view[k].unconfigured && view[k].Live() && view[k].number !in found ==>
                        k in remove
      {
        var k :| k in todo;
        var card := cards[k];
        assert Holds(repr, k, card, view[k]);
        var ix := IndexOf(add, card.number);
        SeenStep(view, k, todo);
        assert card.number in add <==> card.number in Elements(add);
        if ix < |add| {
          if card.deleted.None? {
            SwapRemove(add, ix);
            add := add[ix := add[|add| - 1]][..|add| - 1];
          }
        } else if card.unconfigured {
          remove := remove + {k};
        }
        todo := todo - {k};
        seen := LiveNumbersOf(view, todo);
      }
      assert LiveNumbersOf(view, {}) == LiveNumbers(view);
    }

    /** Puts a card that shares nothing with the others under a free key. */
    method Insert(card: Card)
      requires Valid() && card.oid !in cards && card.groups.holder == card.oid
      modifies this
      ensures Valid() && cards == old(cards)[card.oid := card] && view == old(view)[card.oid := card.View()]
      ensures repr == old(repr) + {card, card.groups}
    {
      repr := repr + {card, card.groups};
      cards := cards[card.oid := card];
      view := view[card.oid := card.View()];
    }

    /** Puts a new card, with a membership map of its own, under a free key. */
    method PutNew(r: Record)
      requires Valid() && r.oid !in cards
      modifies this
      ensures Valid() && Grown() && cards.Keys == old(cards).Keys + {r.oid} && view == old(view)[r.oid := r]
    {
      var card := NewCard(r);
      Insert(card);
    }

    /** Enters a new card under an identifier from the catalog, which is never one in use. */
    method Enter(catalog: Table, r: Record, ghost room: nat) returns (oid: OID)
      requires Valid() && Catalogued(catalog.t, cards.Keys, room + 1)
      modifies this, catalog
      ensures Valid() && Catalogued(catalog.t, cards.Keys, room) && Grown()
      ensures oid !in old(catalog.t).m && oid != "" && StillMarked(old(catalog.t), catalog.t)
      ensures cards.Keys == old(cards).Keys + {oid} && view == old(view)[oid := r.(oid := oid)]
    {
      oid := Issue(catalog, cards.Keys, room);
      PutNew(r.(oid := oid));
    }

    method AddAllFound(add: seq<U32>, catalog: Table, ghost room: nat) returns (ghost oids: seq<OID>)
      requires Valid() && Catalogued(catalog.t, cards.Keys, room + |add|)
      modifies this, catalog
      ensures Valid() && Catalogued(catalog.t, cards.Keys, room) && Grown()
      ensures |oids| == |add| && Distinct(oids) && forall o :: o in oids ==> o !in old(catalog.t).m
      ensures view == AddRecords(old(view), oids, add)
    {
      ghost var issued := catalog.t.m.Keys;
      oids := [];
      for i := 0 to |add|
        invariant Valid() && Grown() && |oids| == i && Distinct(oids)
        invariant Catalogued(catalog.t, cards.Keys, room + |add| - i) && issued <= catalog.t.m.Keys
        invariant forall o :: o in oids ==> o !in issued && o in catalog.t.m
        invariant view == AddRecords(old(view), oids, add[..i])
      {
        var oid := Enter(catalog, FoundRecord("", add[i]), room + |add| - i - 1);
        AddRecordsStep(old(view), oids, add, i, oid);
        oids := oids + [oid];
      }
      assert add[..|add|] == add;
    }

    /** Reconciles the unconfigured records with the card numbers found on the controllers. */
    method Found(found: seq<U32>, catalog: Table, ghost room: nat)
      requires Valid() && NumbersDistinct(view)
      requires Distinct(found) && 0 !in found
      requires Catalogued(catalog.t, cards.Keys, room + |found|)
      modifies this, catalog
      ensures Valid() && NumbersDistinct(view) && Catalogued(catalog.t, cards.Keys, room) && Grown()
      ensures forall k :: k in old(view) && !old(view)[k].unconfigured ==> k in view && view[k] == old(view)[k]
      ensures UnconfiguredNumbers(view) == Elements(found) - ConfiguredNumbers(old(view))
      ensures Discovered(old(view), view, found)
    {
      ghost var v := view;
      var add, remove := Scan(found);
      DistinctCount(add);
      DistinctCount(found);
      SubsetSize(Elements(add), Elements(found));
      Drop(remove);
      ghost var oids := AddAllFound(add, catalog, room + |found| - |add|);
      FoundIsExact(v, found, remove, oids, add);
      FoundMeans(v, found, remove, oids, add);
    }

    // ---- Edits ----

    /** Adds an empty record. Its identifier is used up even when the caller may not add. */
    method Create(catalog: Table, authorised: bool, ghost room: nat) returns (oid: Option<OID>)
      requires Valid() && Catalogued(catalog.t, cards.Keys, room + 1)
      modifies this, catalog
      ensures Valid() && Grown() && Catalogued(catalog.t, cards.Keys, room) && StillMarked(old(catalog.t), catalog.t)
      ensures oid.Some? <==> authorised
      ensures oid.Some? ==> oid.value !in old(view) && view == old(view)[oid.value := EmptyRecord(oid.value)]
      ensures oid.Some? ==> IsBlank(view[oid.value], oid.value)
      ensures oid.None? ==> view == old(view)
    {
      if !authorised {
        var unused := Issue(catalog, cards.Keys, room);
        return None;
      }
      var issued := Enter(catalog, EmptyRecord(""), room);
      oid := Some(issued);
    }

    /** Writing to one card and its membership map leaves the other entries as they were. */
    twostate lemma OneChanged(k: OID, new c: Card)
      requires old(Valid()) && cards == old(cards) && repr == old(repr) && k in old(cards) && c == old(cards)[k]
      requires forall o :: o in repr && o != c && o != c.groups ==> unchanged(o)
      requires c.oid == k && c.groups == old(c.groups) && view == old(view)[k := c.View()]
      ensures Valid()
    {
      assert old(Holds(repr, k, cards[k], view[k]));
      forall j | j in cards && j != k ensures Holds(repr, j, cards[j], view[j]) {
        assert old(Holds(repr, j, cards[j], view[j]));
        assert unchanged(cards[j]) && unchanged(cards[j].groups);
      }
    }

    /** The card whose identifier contains a field's. The cards come in any order, but at most
        one of the catalog's identifiers can match. */
    method Route(field: OID) returns (target: Option<OID>)
      requires Valid()
      ensures match target
              case None => forall k :: k in view ==> !Contains(k, field)
              case Some(k) => k in view && Contains(k, field)
    {
      var todo := cards.Keys;
      while todo != {}
        invariant todo <= cards.Keys
        invariant forall k :: k in view && k !in todo ==> !Contains(k, field)
      {
        var k :| k in todo;
        assert Holds(repr, k, cards[k], view[k]);
        if Contains(cards[k].oid, field) {
          return Some(k);
        }
        todo := todo - {k};
      }
      target := None;
    }

    /** Sets a field of the card under one key. */
    method SetAt(k: OID, field: Field, value: string, env: Env, authorised: bool) returns (ok: bool)
      requires Valid() && k in cards
      modifies this, repr
      ensures Valid() && repr == old(repr)
      ensures ok ==>
                k in view && SetField(old(view)[k], field, value, env) == Some(view[k])
                    && view == old(view)[k := view[k]]
      ensures !ok ==> view == old(view) && (!authorised || SetField(view[k], field, value, env) == None)
      ensures ok && !authorised ==> view[k] == old(view)[k].(incorrect := false, unconfigured := false)
    {
      assert Holds(repr, k, cards[k], view[k]);
      var card := cards[k];
      ok := card.Set(field, value, env, authorised);
      if !ok {
        return;
      }
      view := view[k := card.View()];
      OneChanged(k, card);
    }

    /** Edits the card that contains the field, if there is one. */
    method Update(field: OID, value: string, env: Env, authorised: bool) returns (ok: bool)
      requires Valid()
      modifies this, repr
      ensures Valid() && repr == old(repr) && view.Keys == old(view).Keys
      ensures if ok then Updated(old(view), view, field, value, env) else view == old(view)
      ensures !ok ==> !authorised || Refused(view, field, value, env)
      ensures forall k :: Owns(old(view), k, field) ==>
                            EditOutcome(old(view), view, k, field, value, env, authorised, ok)
    {
      ghost var before := view;
      var target := Route(field);
      if target.Some? {
        ok := SetAt(target.value, FieldOf(target.value, field), value, env, authorised);
      } else {
        ok := true;
      }
      forall k | Owns(before, k, field) ensures EditOutcome(before, view, k, field, value, env, authorised, ok) {
        assert Contains(k, field);
        assert target == Some(k);
        EditMeans(before, view, k, field, value, env, authorised, ok);
      }
    }

    /** Marks a card as deleted, here and in the catalog; the record stays until it is swept. */
    method Delete(oid: OID, catalog: Table, now: int, authorised: bool, ghost room: nat) returns (ok: bool)
      requires Valid() && Catalogued(catalog.t, cards.Keys, room) && catalog !in repr
      modifies this, repr, catalog
      ensures Valid() && repr == old(repr) && Catalogued(catalog.t, cards.Keys, room)
      ensures ok <==> oid in old(view) ==> authorised
      ensures view == if ok then Deleted(old(view), oid, now) else old(view)
      ensures ok && oid in old(view) ==>
                view == old(view)[oid := view[oid]]
                    && view[oid] == old(view)[oid].(deleted := Some(now), modified := true)
      ensures catalog.t.m == if ok && oid in old(view) then old(catalog.t).m[oid := true] else old(catalog.t).m
    {
      if oid !in cards {
        return true;
      }
      if !authorised {
        return false;
      }
      assert Holds(repr, oid, cards[oid], view[oid]);
      var card := cards[oid];
      card.deleted, card.modified := Some(now), true;
      view := view[oid := card.View()];
      OneChanged(oid, card);
      catalog.Delete(oid);
      ok := true;
    }

    // ---- Imports from controllers ----

    /** The live card with a number; the cards come in any order. */
    method FindLive(n: U32) returns (k: Option<OID>)
      requires Valid()
      ensures k.Some? ==> k.value in view && view[k.value].Live() && view[k.value].number == n
      ensures k.Some? <==> HasLive(view, n)
    {
      var todo := cards.Keys;
      while todo != {}
        invariant todo <= cards.Keys
        invariant forall k :: k in view && k !in todo ==> !(view[k].Live() && view[k].number == n)
      {
        var j :| j in todo;
        assert Holds(repr, j, cards[j], view[j]);
        if cards[j].deleted.None? && cards[j].number == n {
          return Some(j);
        }
        todo := todo - {j};
      }
      k := None;
    }

    method LocalNumbers() returns (numbers: set<U32>)
      requires Valid()
      ensures numbers == LiveNumbers(view) - {0}
    {
      numbers := {};
      var todo := cards.Keys;
      while todo != {}
        invariant todo <= cards.Keys && numbers == LiveNumbersOf(view, todo) - {0}
      {
        var k :| k in todo;
        assert Holds(repr, k, cards[k], view[k]);
        VisitStep(view, k, todo);
        if cards[k].number != 0 && cards[k].deleted.None? {
          numbers := numbers + {cards[k].number};
        }
        todo := todo - {k};
      }
      assert LiveNumbersOf(view, {}) == LiveNumbers(view);
    }

    method MergeAt(k: OID, i: Import, withPIN: bool)
      requires Valid() && k in cards
      modifies this, repr
      ensures Valid() && repr == old(repr)
      ensures view == old(view)[k := MergeRecord(old(view)[k], i, withPIN)]
    {
      assert Holds(repr, k, cards[k], view[k]);
      var card := cards[k];
      card.Merge(i, withPIN);
      view := view[k := card.View()];
      OneChanged(k, card);
    }

    method AddImported(i: Import, withPIN: bool, catalog: Table, authorised: bool, ghost room: nat) returns (ok: bool)
      requires Valid() && Catalogued(catalog.t, cards.Keys, room + 1)
      requires !HasLive(view, i.number)
      modifies this, catalog
      ensures Valid() && Catalogued(catalog.t, cards.Keys, room)
      ensures Grown()
      ensures if ok then Merged(old(view), view, i, withPIN) else view == old(view)
      ensures ok <==> authorised
    {
      ok := authorised;
      if authorised {
        var oid := Enter(catalog, ImportedRecord("", i, withPIN), room);
        assert view == old(view)[oid := ImportedRecord(oid, i, withPIN)];
      } else {
        var unused := Issue(catalog, cards.Keys, room);
      }
    }

    /** Merges one import into the live card with its number, or adds a card. */
    method MergeOne(i: Import, withPIN: bool, catalog: Table, authorised: bool, ghost room: nat)
      returns (ok: bool, added: bool)
      requires Valid() && Catalogued(catalog.t, cards.Keys, room + 1) && catalog !in repr
      modifies this, repr, catalog
      ensures Valid() && Catalogued(catalog.t, cards.Keys, room)
      ensures Grown()
      ensures if ok then Merged(old(view), view, i, withPIN) else view == old(view)
      ensures added <==> !HasLive(old(view), i.number)
      ensures ok <==> added ==> authorised
    {
      var existing := FindLive(i.number);
      added := existing.None?;
      if existing.Some? {
        MergeAt(existing.value, i, withPIN);
        ok := true;
      } else {
        ok := AddImported(i, withPIN, catalog, authorised, room);
      }
    }

    /** One step of a list: imports without a number are skipped. */
    method MergeNext(ghost u: Records, imports: seq<Import>, j: nat, withPIN: bool, catalog: Table, authorised: bool,
                     ghost room: nat, added: nat, updated: nat)
      returns (ok: bool, added': nat, updated': nat)
      requires Valid() && NumbersDistinct(view) && catalog !in repr && Catalogued(catalog.t, cards.Keys, room + 1)
      requires j < |imports| && MergedSoFar(u, view, imports[..j], withPIN, added, updated)
      modifies this, repr, catalog
      ensures Valid() && NumbersDistinct(view) && Catalogued(catalog.t, cards.Keys, room) && Grown()
      ensures MergedSoFar(u, view, imports[..if ok then j + 1 else j], withPIN, added', updated')
      ensures ok || !authorised
    {
      if imports[j].number == 0 {
        SkipStep(u, view, imports, j, withPIN, added, updated);
        return true, added, updated;
      }
      ghost var v := view;
      var isNew;
      ok, isNew := MergeOne(imports[j], withPIN, catalog, authorised, room);
      if !ok {
        return ok, added, updated;
      }
      MergeStep(u, v, view, imports, j, withPIN, added, updated, isNew);
      added' := if isNew then added + 1 else added;
      updated' := if isNew then updated else updated + 1;
    }

    method MergeList(imports: seq<Import>, withPIN: bool, catalog: Table, authorised: bool, ghost room: nat)
      returns (ok: bool, added: nat, updated: nat)
      requires Valid() && NumbersDistinct(view) && catalog !in repr
      requires Catalogued(catalog.t, cards.Keys, room + |imports|)
      modifies this, repr, catalog
      ensures Valid() && NumbersDistinct(view) && Catalogued(catalog.t, cards.Keys, room) && Grown()
      ensures Kept(old(view), view) && (ok ==> MergedSoFar(old(view), view, imports, withPIN, added, updated))
      ensures ok || !authorised
    {
      added, updated := 0, 0;
      NothingMerged(view, withPIN);
      for j := 0 to |imports|
        invariant Valid() && NumbersDistinct(view) && Grown()
        invariant Catalogued(catalog.t, cards.Keys, room + |imports| - j)
        invariant MergedSoFar(old(view), view, imports[..j], withPIN, added, updated)
      {
        ok, added, updated := MergeNext(old(view), imports, j, withPIN, catalog, authorised, room + |imports| - j - 1,
                                        added, updated);
        if !ok {
          return;
        }
      }
      assert imports[..|imports|] == imports;
      ok := true;
    }

    /** Merges a list of imports and validates the result: every number ends up exactly as the
        list says, no card is lost, and each import with a number adds or updates one. */
    method MergeControllerImports(imports: seq<Import>, withPIN: bool, catalog: Table, authorised: bool,
                                  ghost room: nat)
      returns (ok: bool, added: nat, updated: nat)
      requires Valid() && NumbersDistinct(view) && catalog !in repr
      requires Catalogued(catalog.t, cards.Keys, room + |imports|)
      modifies this, repr, catalog
      ensures Valid() && NumbersDistinct(view) && Catalogued(catalog.t, cards.Keys, room) && Grown()
      ensures Kept(old(view), view)
      ensures ok ==> ImportedAs(old(view), view, imports, withPIN, added, updated)
      ensures authorised && ValidRecords(old(view)) ==> ok
    {
      ok, added, updated := MergeList(imports, withPIN, catalog, authorised, room);
      if ok {
        ImportsMean(old(view), view, imports, withPIN);
        ok := Validate();
      }
    }
  }

  /** Importing a list twice: the second time adds nothing and changes no card's details. */
  method ImportTwice(store: Cards, imports: seq<Import>, withPIN: bool, catalog: Table, ghost room: nat)
    returns (ok: bool, added: nat, ghost after: Records)
    requires store.Valid() && ValidRecords(store.view) && catalog !in store.repr
    requires Catalogued(catalog.t, store.cards.Keys, room + |imports| + |imports|)
    modifies store, store.repr, catalog
    ensures ok && added == 0 && AllMerged(old(store.view), after, imports, withPIN)
    ensures after.Keys == store.view.Keys && SameDetails(after, store.view)
  {
    ghost var before := store.view;
    var first, updated;
    ok, first, updated := store.MergeControllerImports(imports, withPIN, catalog, true, room + |imports|);
    after := store.view;
    ghost var updatedFirst := updated;
    ok, added, updated := store.MergeControllerImports(imports, withPIN, catalog, true, room);
    SecondImport(before, after, store.view, imports, withPIN, first, updatedFirst, added, updated);
  }

  function EmptyRecord(oid: OID): Record {
    Record(oid, 0, NO_TEXT, 0, None, None, map[], false, false, false, None)
  }

  /** A record with nothing in it. */
  predicate IsBlank(r: Record, oid: OID) {
    r == Record(oid, 0, Text("", "", "", ""), 0, None, None, map[], false, false, false, None)
  }

  lemma EditMeans(v: Records, w: Records, k: OID, field: OID, value: string, env: Env, authorised: bool, ok: bool)
    requires Owns(v, k, field) && k in w
    requires if ok then Updated(v, w, field, value, env) else w == v && (!authorised || Refused(v, field, value, env))
    requires ok && !authorised ==> w[k] == v[k].(incorrect := false, unconfigured := false)
    ensures EditOutcome(v, w, k, field, value, env, authorised, ok)
  {
    if ok {
      UpdateMeans(v, w, k, field, value, env);
    } else if authorised {
      RefusalMeans(v, k, field, value, env);
    }
  }

  function Deleted(v: Records, oid: OID, now: int): Records {
    if oid in v then v[oid := v[oid].(deleted := Some(now), modified := true)] else v
  }

  /** The numbers of the live cards outside `todo`. */
  ghost function LiveNumbersOf(v: Records, todo: set<OID>): set<U32> {
    set k | k in v && k !in todo && v[k].Live() :: v[k].number
  }

  lemma VisitStep(v: Records, k: OID, todo: set<OID>)
    requires k in v && k in todo
    ensures LiveNumbersOf(v, todo - {k}) == LiveNumbersOf(v, todo) + if v[k].Live() then {v[k].number} else {}
  {
    var more: set<U32> := if v[k].Live() then {v[k].number} else {};
    forall n | n in LiveNumbersOf(v, todo) + more ensures n in LiveNumbersOf(v, todo - {k}) {
      if n in LiveNumbersOf(v, todo) {
        var j :| j in v && j !in todo && v[j].Live() && v[j].number == n;
        assert j !in todo - {k};
      }
    }
  }

  /** Visiting a live card adds its number, which no live card visited before had. */
  lemma SeenStep(v: Records, k: OID, todo: set<OID>)
    requires NumbersDistinct(v) && k in v && k in todo
    ensures LiveNumbersOf(v, todo - {k}) == LiveNumbersOf(v, todo) + if v[k].Live() then {v[k].number} else {}
    ensures v[k].Live() && v[k].number != 0 ==> v[k].number !in LiveNumbersOf(v, todo)
  {
    VisitStep(v, k, todo);
  }

  ghost function Unswept(v: Records, cutoff: int): Records {
    v - set k | k in v && Swept(v[k], cutoff)
  }

  predicate Swept(r: Record, cutoff: int) {
    r.deleted.Some? && r.deleted.value < cutoff
  }

  method IndexOf(s: seq<U32>, x: U32) returns (ix: nat)
    ensures ix <= |s|
    ensures if ix < |s| then s[ix] == x else x !in s
  {
    ix := 0;
    while ix < |s| && s[ix] != x
      invariant ix <= |s| && x !in s[..ix]
    {
      ix := ix + 1;
    }
  }

  /** Overwriting an element with the last one and dropping the last removes that element. */
  lemma SwapRemove(s: seq<U32>, ix: nat)
    requires Distinct(s) && ix < |s|
    ensures var t := s[ix := s[|s| - 1]][..|s| - 1];
            Distinct(t) && Elements(t) == Elements(s) - {s[ix]}
  {
    var t := s[ix := s[|s| - 1]][..|s| - 1];
    forall x | x in Elements(s) - {s[ix]} ensures x in t {
      var i :| 0 <= i < |s| && s[i] == x;
      assert if i == |s| - 1 then t[ix] == x else t[i] == x;
    }
  }
}
