/** Transactions over the credential store: edits and imports work on a shadow copy, which
    replaces the committed store only when everything has succeeded. */
module System {
  import opened Common
  import opened Oid
  import opened Groups
  import opened CatalogTable
  import opened CardRecords
  import opened CardEdits
  import opened CardImports
  import opened ImportMeaning
  import opened Cards
  import opened ControllerImport
  import opened ImportPlan

  /** One item of a request, with whether the caller may make it. */
  datatype Edit =
    | Create(allowed: bool)
    | Update(field: OID, value: string, allowed: bool)
    | Delete(oid: OID, allowed: bool)

  /** What one edit does to the records. */
  ghost predicate EditStep(v: Records, w: Records, e: Edit, env: Env, now: int) {
    match e
    case Create(allowed) => allowed && exists oid :: oid !in v && w == v[oid := EmptyRecord(oid)]
    case Update(field, value, _) => Updated(v, w, field, value, env)
    case Delete(oid, allowed) => (oid in v ==> allowed) && w == Deleted(v, oid, now)
  }

  /** The same in terms of the request: a new record is blank, an edit changes the card that owns the
      field as its value says, and a deletion marks one record; everything else stays as it was. */
  lemma StepMeans(v: Records, w: Records, e: Edit, env: Env, now: int)
    requires EditStep(v, w, e, env, now)
    ensures e.Create? ==>
              e.allowed && exists oid :: oid !in v && oid in w && w == v[oid := w[oid]] && IsBlank(w[oid], oid)
    ensures e.Update? ==> forall k :: Owns(v, k, e.field) ==>
                k in w && w == v[k := w[k]] && !Unacceptable(v[k], e.field, e.value, env)
                && FieldEdited(v[k], w[k], e.field, e.value, env)
    ensures e.Update? && (forall k :: k in v ==> !(k + "." <= e.field)) ==> w == v
    ensures e.Delete? ==>
              if e.oid in v then e.allowed && w == v[e.oid := v[e.oid].(deleted := Some(now), modified := true)]
              else w == v
  {
    match e
    case Create(_) =>
      var oid :| oid !in v && w == v[oid := EmptyRecord(oid)];
      assert IsBlank(w[oid], oid);
    case Update(field, value, _) =>
      forall k | Owns(v, k, field)
        ensures k in w && w == v[k := w[k]] && !Unacceptable(v[k], field, value, env)
        ensures FieldEdited(v[k], w[k], field, value, env)
      {
        UpdateMeans(v, w, k, field, value, env);
      }
      assert forall k :: k in v && Contains(k, field) ==> k + "." <= field;
    case Delete(_, _) =>
  }

  /** Why an edit fails. */
  ghost predicate Barred(v: Records, e: Edit, env: Env) {
    !e.allowed || (e.Update? && Refused(v, e.field, e.value, env))
  }

  /** What a list of edits does, one after another. */
  ghost predicate Edits(v: Records, w: Records, edits: seq<Edit>, env: Env, now: int)
    decreases |edits|
  {
    if edits == [] then w == v
    else
      var front, last := edits[..|edits| - 1], edits[|edits| - 1];
      exists u :: Edits(v, u, front, env, now) && EditStep(u, w, last, env, now)
  }

  lemma EditsAppend(v: Records, u: Records, w: Records, edits: seq<Edit>, e: Edit, env: Env, now: int)
    requires Edits(v, u, edits, env, now) && EditStep(u, w, e, env, now)
    ensures Edits(v, w, edits + [e], env, now)
  {
    assert (edits + [e])[..|edits + [e]| - 1] == edits;
  }

  lemma EditsStep(v: Records, u: Records, w: Records, edits: seq<Edit>, i: nat, env: Env, now: int)
    requires i < |edits| && Edits(v, u, edits[..i], env, now) && EditStep(u, w, edits[i], env, now)
    ensures Edits(v, w, edits[..i + 1], env, now)
  {
    EditsAppend(v, u, w, edits[..i], edits[i], env, now);
    assert edits[..i] + [edits[i]] == edits[..i + 1];
  }

  /** The n-th edit fails, after those before it. */
  ghost predicate Stuck(v: Records, edits: seq<Edit>, n: nat, env: Env, now: int) {
    n < |edits| && exists u :: Edits(v, u, edits[..n], env, now) && Barred(u, edits[n], env)
  }

  /** The list may make the records invalid. */
  ghost predicate Spoils(v: Records, edits: seq<Edit>, env: Env, now: int) {
    exists w :: Edits(v, w, edits, env, now) && !ValidRecords(w)
  }

  /** How many identifiers a list of edits uses up. */
  function Creates(edits: seq<Edit>): nat {
    if edits == [] then 0 else (if edits[0].Create? then 1 else 0) + Creates(edits[1..])
  }

  ghost predicate Deletes(edits: seq<Edit>, oid: OID) {
    exists i :: 0 <= i < |edits| && edits[i].Delete? && edits[i].oid == oid
  }

  /** The deleted marks after some edits: the catalog is shared, so deletions on a shadow show
      there at once. */
  ghost predicate MarksAre(before: Tab, after: Tab, keys: set<OID>, edits: seq<Edit>) {
    forall k :: k in keys ==> k in before.m && k in after.m && (after.m[k] <==> before.m[k] || Deletes(edits, k))
  }

  lemma MarksStep(before: Tab, during: Tab, after: Tab, keys: set<OID>, edits: seq<Edit>, n: nat)
    requires n < |edits| && MarksAre(before, during, keys, edits[..n]) && MarksAre(during, after, keys, [edits[n]])
    ensures MarksAre(before, after, keys, edits[..n + 1])
  {
    forall k | k in keys ensures Deletes(edits[..n + 1], k) <==> Deletes(edits[..n], k) || Deletes([edits[n]], k) {
      DeletesStep(edits, n, k);
    }
  }

  lemma DeletesStep(edits: seq<Edit>, n: nat, k: OID)
    requires n < |edits|
    ensures Deletes(edits[..n + 1], k) <==> Deletes(edits[..n], k) || Deletes([edits[n]], k)
  {
    var front, all := edits[..n], edits[..n + 1];
    if Deletes(front, k) {
      var i :| 0 <= i < n && front[i].Delete? && front[i].oid == k;
      assert all[i].Delete?;
    }
    if Deletes([edits[n]], k) {
      assert all[n].Delete? && all[n].oid == k;
    }
    if Deletes(all, k) {
      var i :| 0 <= i <= n && all[i].Delete? && all[i].oid == k;
      if i < n {
        assert front[i].Delete?;
      } else {
        assert [edits[n]][0].Delete?;
      }
    }
  }

  lemma OneMark(before: Tab, after: Tab, keys: set<OID>, e: Edit)
    requires keys <= before.m.Keys
    ensures !e.Delete? && StillMarked(before, after) ==> MarksAre(before, after, keys, [e])
    ensures e.Delete? && after.m == before.m[e.oid := true] ==> MarksAre(before, after, keys, [e])
    ensures e.Delete? && e.oid !in keys && after.m == before.m ==> MarksAre(before, after, keys, [e])
    ensures StillMarked(before, after) ==> MarksAre(before, after, keys, [])
  {
    if e.Delete? {
      assert [e][0].Delete? && [e][0].oid == e.oid;
    }
  }

  /** One edit of a shadow copy. */
  method Apply(shadow: Cards, e: Edit, env: Env, now: int, catalog: Table, ghost room: nat) returns (ok: bool)
    requires shadow.Valid() && catalog !in shadow.repr
    requires Catalogued(catalog.t, shadow.cards.Keys, room + if e.Create? then 1 else 0)
    modifies shadow, shadow.repr, catalog
    ensures shadow.Valid() && shadow.Grown() && Catalogued(catalog.t, shadow.cards.Keys, room)
    ensures old(shadow.view).Keys <= shadow.view.Keys
    ensures if ok then EditStep(old(shadow.view), shadow.view, e, env, now)
            else shadow.view == old(shadow.view) && Barred(shadow.view, e, env)
    ensures MarksAre(old(catalog.t), catalog.t, old(shadow.view).Keys, if ok then [e] else [])
  {
    ghost var t, keys := catalog.t, shadow.view.Keys;
    match e
    case Create(allowed) =>
      var oid := shadow.Create(catalog, allowed, room);
      ok := oid.Some?;
      OneMark(t, catalog.t, keys, e);
    case Update(field, value, allowed) =>
      ok := shadow.Update(field, value, env, allowed);
      OneMark(t, catalog.t, keys, e);
    case Delete(oid, allowed) =>
      ok := shadow.Delete(oid, catalog, now, allowed, room);
      OneMark(t, catalog.t, keys, e);
  }

  /** Edits a shadow copy until one edit fails; n is the number of edits made. */
  method ApplyAll(shadow: Cards, edits: seq<Edit>, env: Env, now: int, catalog: Table, ghost room: nat)
    returns (ok: bool, ghost n: nat)
    requires shadow.Valid() && catalog !in shadow.repr
    requires Catalogued(catalog.t, shadow.cards.Keys, room + Creates(edits))
    modifies shadow, shadow.repr, catalog
    ensures shadow.Valid() && shadow.Grown() && Catalogued(catalog.t, shadow.cards.Keys, room)
    ensures old(shadow.view).Keys <= shadow.view.Keys && n <= |edits|
    ensures if ok then n == |edits| && Edits(old(shadow.view), shadow.view, edits, env, now)
            else Stuck(old(shadow.view), edits, n, env, now)
    ensures MarksAre(old(catalog.t), catalog.t, old(shadow.view).Keys, edits[..n])
  {
    ghost var base, t := shadow.view, catalog.t;
    assert edits[..0] == [] && edits[0..] == edits;
    n := 0;
    for i := 0 to |edits|
      invariant shadow.Valid() && shadow.Grown() && base.Keys <= shadow.view.Keys && n == i
      invariant Catalogued(catalog.t, shadow.cards.Keys, room + Creates(edits[i..]))
      invariant Edits(base, shadow.view, edits[..i], env, now)
      invariant MarksAre(t, catalog.t, base.Keys, edits[..i])
    {
      assert edits[i..][1..] == edits[i + 1..];
      ghost var u, during := shadow.view, catalog.t;
      ok := Apply(shadow, edits[i], env, now, catalog, room + Creates(edits[i + 1..]));
      if !ok {
        return;
      }
      EditsStep(base, u, shadow.view, edits, i, env, now);
      MarksStep(t, during, catalog.t, base.Keys, edits, i);
      n := n + 1;
    }
    assert edits[..|edits|] == edits;
    ok := true;
  }

  /** A shadow copy with the edits applied and validated. Nothing but the catalog changes. */
  method PrepareUpdate(committed: Cards, edits: seq<Edit>, env: Env, now: int, catalog: Table, ghost room: nat)
    returns (ok: bool, shadow: Cards, ghost n: nat)
    requires committed.Valid() && Catalogued(catalog.t, committed.cards.Keys, room + Creates(edits))
    modifies catalog
    ensures fresh(shadow) && fresh(shadow.repr) && shadow.Valid() && committed.view.Keys <= shadow.view.Keys
    ensures Catalogued(catalog.t, shadow.cards.Keys, room) && n <= |edits|
    ensures if ok then n == |edits| && Edits(committed.view, shadow.view, edits, env, now) && ValidRecords(shadow.view)
            else Stuck(committed.view, edits, n, env, now) || (n == |edits| && Spoils(committed.view, edits, env, now))
    ensures MarksAre(old(catalog.t), catalog.t, committed.view.Keys, edits[..n])
  {
    shadow := committed.Clone();
    ok, n := ApplyAll(shadow, edits, env, now, catalog, room);
    if ok {
      ok := shadow.Validate();
    }
  }

  function SettingOf(q: Request, v: Records): (x: Setting)
    ensures x.raw == q.raw && x.resolutions == q.resolutions && x.doors == q.doors
  {
    Setting(q.raw, q.resolutions, q.doors, (set k | k in v && v[k].Live() :: v[k].number) - {0})
  }

  /** What an import makes of the records and levels before it. */
  ghost predicate ImportOutcome(q: Request, v: Records, w: Records, before: map<OID, Group>, after: map<OID, Group>,
                                merged: map<U32, Summary>, invalid: set<OID>, added: nat)
  {
    && ValidRecords(w) && LevelsValid(after, invalid)
    && ImportApplied(SettingOf(q, v), v, w, after, merged, q.withPIN) && ImportMeans(q, v, w, after)
    && Kept(v, w) && Extends(before, after) && |w| == |v| + added
  }

  /** What is read, and what is made of it on success. */
  ghost predicate ImportResult(q: Request, v: Records, w: Records, before: map<OID, Group>, after: map<OID, Group>,
                               merged: map<U32, Summary>, invalid: set<OID>, ok: bool, added: nat) {
    && ReadMeans(q.raw, q.wiring, q.withPIN, merged)
    && (ok ==> ImportOutcome(q, v, w, before, after, merged, invalid, added))
  }

  /** The levels have what the plan needs. */
  ghost predicate LevelsReady(x: Setting, before: map<OID, Group>, after: map<OID, Group>, merged: map<U32, Summary>,
                              numbers: seq<U32>, imports: seq<Import>) {
    && Extends(before, after) && |imports| <= |merged| && (forall n :: n in numbers <==> n in merged)
    && Planned(x, after, merged, numbers, imports)
  }

  lemma PlanOutcome(q: Request, v: Records, w: Records, before: map<OID, Group>, after: map<OID, Group>,
                    merged: map<U32, Summary>, numbers: seq<U32>, imports: seq<Import>, invalid: set<OID>,
                    added: nat, updated: nat)
    requires ReadMeans(q.raw, q.wiring, q.withPIN, merged) && LevelsValid(after, invalid)
    requires LevelsReady(SettingOf(q, v), before, after, merged, numbers, imports)
    requires ImportedAs(v, w, imports, q.withPIN, added, updated)
    ensures ImportOutcome(q, v, w, before, after, merged, invalid, added)
  {
    PlanApplies(SettingOf(q, v), v, w, after, merged, numbers, imports, q.withPIN);
    PlanMeans(q, SettingOf(q, v), v, w, after, merged, numbers, imports);
  }

  /** A shadow of the levels with what the plan needs added, and the plan. */
  method PrepareLevels(levels: Groups, x: Setting, merged: map<U32, Summary>, canAdd: bool, groupCatalog: Table,
                       ghost room: nat)
    returns (plan: Result<seq<Import>, string>, shadow: Groups, ghost numbers: seq<U32>)
    requires WellKeyed(levels.groups) && Roomy(groupCatalog.t, room + |merged|)
    modifies groupCatalog
    ensures fresh(shadow) && Roomy(groupCatalog.t, room)
    ensures canAdd && levels.groups.Keys <= old(groupCatalog.t).m.Keys ==> plan.Ok?
    ensures plan.Ok? ==> LevelsReady(x, levels.groups, shadow.groups, merged, numbers, plan.value)
  {
    shadow := levels.Clone();
    plan, numbers := PlanImports(x, merged, shadow, groupCatalog, canAdd, room);
  }

  /** A shadow of the cards with the imports merged. */
  method PrepareCards(committed: Cards, imports: seq<Import>, withPIN: bool, canAdd: bool, catalog: Table,
                      ghost room: nat)
    returns (ok: bool, shadow: Cards, added: nat, updated: nat)
    requires committed.Valid() && NumbersDistinct(committed.view)
               && Catalogued(catalog.t, committed.cards.Keys, room + |imports|)
    modifies catalog
    ensures fresh(shadow) && fresh(shadow.repr) && shadow.Valid() && Catalogued(catalog.t, shadow.cards.Keys, room)
    ensures Catalogued(catalog.t, committed.cards.Keys, room)
    ensures ok ==> ImportedAs(committed.view, shadow.view, imports, withPIN, added, updated)
    ensures canAdd && ValidRecords(committed.view) ==> ok
  {
    shadow := committed.Clone();
    ok, added, updated := shadow.MergeControllerImports(imports, withPIN, catalog, canAdd, room);
  }

  /** When an import goes through: both kinds of record may be added, and the committed cards and
      levels are valid and catalogued. */
  ghost predicate MayImport(v: Records, levels: map<OID, Group>, t: Tab, invalid: set<OID>, canAddGroup: bool,
                            canAddCard: bool) {
    && canAddGroup && canAddCard && ValidRecords(v)
    && LevelsValid(levels, invalid) && invalid <= levels.Keys <= t.m.Keys
  }

  /** Merges a plan on a shadow of the cards, and validates cards and levels. */
  method FinishImport(committed: Cards, ghost before: map<OID, Group>, levels: Groups, q: Request,
                      ghost merged: map<U32, Summary>, ghost numbers: seq<U32>, imports: seq<Import>, canAdd: bool,
                      invalid: set<OID>, catalog: Table, ghost room: nat)
    returns (ok: bool, cards: Cards, added: nat, updated: nat)
    requires committed.Valid() && NumbersDistinct(committed.view)
               && Catalogued(catalog.t, committed.cards.Keys, room + |imports|)
    requires ReadMeans(q.raw, q.wiring, q.withPIN, merged)
    requires LevelsReady(SettingOf(q, committed.view), before, levels.groups, merged, numbers, imports)
    modifies catalog
    ensures Catalogued(catalog.t, committed.cards.Keys, room)
    ensures fresh(cards) && fresh(cards.repr) && cards.Valid() && Catalogued(catalog.t, cards.cards.Keys, room)
    ensures canAdd && ValidRecords(committed.view) && LevelsValid(before, invalid) && invalid <= before.Keys ==> ok
    ensures ImportResult(q, committed.view, cards.view, before, levels.groups, merged, invalid, ok, added)
  {
    ok, cards, added, updated := PrepareCards(committed, imports, q.withPIN, canAdd, catalog, room);
    if ok {
      ok := levels.Validate(invalid);
      if ok {
        PlanOutcome(q, committed.view, cards.view, before, levels.groups, merged, numbers, imports, invalid, added,
                    updated);
      } else if LevelsValid(before, invalid) && invalid <= before.Keys {
        LevelsStayValid(before, levels.groups, invalid);
      }
    }
  }

  method Preview(committed: Cards, q: Request) returns (merged: map<U32, Summary>, x: Setting)
    requires committed.Valid()
    ensures |merged| == |Numbers(q.raw)| && x == SettingOf(q, committed.view)
    ensures ReadMeans(q.raw, q.wiring, q.withPIN, merged)
  {
    merged := ReadControllerImport(q.raw, q.wiring, q.withPIN);
    MergedNumbers(q.raw, q.wiring, q.withPIN, merged);
    assert |merged| == |merged.Keys|;
    var local := committed.LocalNumbers();
    x := Setting(q.raw, q.resolutions, q.doors, local);
  }

  /** What the controllers hold, a shadow of the levels with what is needed added, and the plan. */
  method PreparePlan(committed: Cards, levels: Groups, q: Request, canAdd: bool, groupCatalog: Table,
                     ghost groupRoom: nat)
    returns (plan: Result<seq<Import>, string>, groups: Groups, merged: map<U32, Summary>, ghost numbers: seq<U32>)
    requires committed.Valid() && WellKeyed(levels.groups)
    requires groupCatalog !in committed.repr && Roomy(groupCatalog.t, groupRoom + |Numbers(q.raw)|)
    modifies groupCatalog
    ensures Roomy(groupCatalog.t, groupRoom) && fresh(groups) && ReadMeans(q.raw, q.wiring, q.withPIN, merged)
    ensures canAdd && levels.groups.Keys <= old(groupCatalog.t).m.Keys ==> plan.Ok?
    ensures plan.Ok? ==>
              LevelsReady(SettingOf(q, committed.view), levels.groups, groups.groups, merged, numbers, plan.value)
    ensures plan.Ok? ==> |plan.value| <= |Numbers(q.raw)|
  {
    var x;
    merged, x := Preview(committed, q);
    plan, groups, numbers := PrepareLevels(levels, x, merged, canAdd, groupCatalog, groupRoom);
  }

  /** Reads, plans and merges an import on shadows, and validates them. Only the catalogs change. */
  method PrepareImport(committed: Cards, levels: Groups, q: Request, canAddGroup: bool, canAddCard: bool,
                       invalid: set<OID>, catalog: Table, groupCatalog: Table, ghost room: nat, ghost groupRoom: nat)
    returns (ok: bool, cards: Cards, groups: Groups, added: nat, updated: nat, merged: map<U32, Summary>)
    requires committed.Valid() && NumbersDistinct(committed.view) && WellKeyed(levels.groups) && catalog != groupCatalog
    requires Catalogued(catalog.t, committed.cards.Keys, room + |Numbers(q.raw)|)
    requires Roomy(groupCatalog.t, groupRoom + |Numbers(q.raw)|) && groupCatalog !in committed.repr
    modifies catalog, groupCatalog
    ensures Catalogued(catalog.t, committed.cards.Keys, room) && Roomy(groupCatalog.t, groupRoom)
    ensures ok ==> fresh(cards) && fresh(cards.repr) && fresh(groups)
    ensures ok ==> cards.Valid() && Catalogued(catalog.t, cards.cards.Keys, room)
    ensures MayImport(committed.view, levels.groups, old(groupCatalog.t), invalid, canAddGroup, canAddCard) ==> ok
    ensures ImportResult(q, committed.view, cards.view, levels.groups, groups.groups, merged, invalid, ok, added)
  {
    var plan;
    ghost var numbers;
    plan, groups, merged, numbers := PreparePlan(committed, levels, q, canAddGroup, groupCatalog, groupRoom);
    if plan.Err? {
      return false, committed, groups, 0, 0, merged;
    }
    ok, cards, added, updated := FinishImport(committed, levels.groups, groups, q, merged, numbers, plan.value,
                                              canAddCard, invalid, catalog, room);
  }

  class Server {
    var cards: Cards
    var groups: Groups
    const catalog: Table
    const groupCatalog: Table

    ghost predicate Valid()
      reads this, cards, cards.repr, groups
    {
      && cards.Valid() && NumbersDistinct(cards.view) && WellKeyed(groups.groups)
      && catalog !in cards.repr && groupCatalog !in cards.repr && catalog != groupCatalog
    }

    /** Room in the catalog for that many more cards. */
    ghost predicate Room(room: nat)
      reads this, cards, catalog
    {
      Catalogued(catalog.t, cards.cards.Keys, room)
    }

    constructor ()
      ensures Valid() && cards.view == map[] && groups.groups == map[] && Room(MAX_UINT32) && Roomy(groupCatalog.t, 0)
    {
      cards := new Cards(map[], map[], {});
      groups := new Groups();
      catalog := new Table(CARDS_OID);
      groupCatalog := new Table(GROUPS_OID);
    }

    /** Creations, then updates, then deletions go to a shadow; the committed cards are not written
        to, and they are replaced only by a valid store that was saved. The catalog is not part
        of the shadow: whatever the outcome, a committed card is newly marked as deleted there
        exactly when a deletion of it is among the n edits that were made. */
    method UpdateCards(created: seq<Edit>, updated: seq<Edit>, deleted: seq<Edit>, env: Env, now: int, saved: bool,
                       ghost room: nat)
      returns (ok: bool, ghost n: nat)
      requires Valid() && Room(room + Creates(created + updated + deleted))
      modifies this`cards, catalog
      ensures Valid() && Room(room)
      ensures var edits := created + updated + deleted;
              && n <= |edits| && MarksAre(old(catalog.t), catalog.t, old(cards.view).Keys, edits[..n])
              && (n < |edits| ==> !ok && Stuck(old(cards.view), edits, n, env, now))
              && (n == |edits| && !ok ==> !saved || Spoils(old(cards.view), edits, env, now))
              && (ok ==> Edits(old(cards.view), cards.view, edits, env, now) && ValidRecords(cards.view))
      ensures ok ==> saved && fresh(cards) && fresh(cards.repr)
      ensures !ok ==> cards == old(cards) && cards.view == old(cards.view)
    {
      var shadow;
      ok, shadow, n := PrepareUpdate(cards, created + updated + deleted, env, now, catalog, room);
      if ok && saved {
        cards := shadow;
      }
      ok := ok && saved;
    }

    method Install(newCards: Cards, newGroups: Groups)
      requires newCards.Valid() && NumbersDistinct(newCards.view) && WellKeyed(newGroups.groups)
      requires catalog !in newCards.repr && groupCatalog !in newCards.repr && this !in newCards.repr
                 && catalog != groupCatalog
      modifies this
      ensures Valid() && cards == newCards && groups == newGroups
    {
      cards, groups := newCards, newGroups;
    }

    /** Levels and cards are planned and merged on shadows; both are replaced together, or
        neither is. Each chosen card ends up live, a member of a level for exactly the relays
        it opens on the controllers; other cards keep their details, and none is lost. */
    method ApplyControllerImport(q: Request, canAddGroup: bool, canAddCard: bool, invalid: set<OID>, saved: bool,
                                 ghost room: nat, ghost groupRoom: nat)
      returns (ok: bool, added: nat, updated: nat, merged: map<U32, Summary>)
      requires Valid() && Room(room + |Numbers(q.raw)|) && Roomy(groupCatalog.t, groupRoom + |Numbers(q.raw)|)
      modifies this, catalog, groupCatalog
      ensures Valid() && Room(room) && Roomy(groupCatalog.t, groupRoom)
      ensures ImportResult(q, old(cards.view), cards.view, old(groups.groups), groups.groups, merged, invalid, ok,
                           added)
      ensures var t := old(groupCatalog.t);
              saved && MayImport(old(cards.view), old(groups.groups), t, invalid, canAddGroup, canAddCard) ==> ok
      ensures ok ==> saved && fresh(cards) && fresh(cards.repr) && fresh(groups)
      ensures !ok ==>
                cards == old(cards) && groups == old(groups) && cards.view == old(cards.view)
                    && groups.groups == old(groups.groups)
    {
      var newCards, newGroups;
      ok, newCards, newGroups, added, updated, merged :=
        PrepareImport(cards, groups, q, canAddGroup, canAddCard, invalid, catalog, groupCatalog, room, groupRoom);
      ok := ok && saved;
      if ok {
        Install(newCards, newGroups);
      }
    }

    /** Discovery works on the committed cards. */
    method FoundCards(found: seq<U32>, ghost room: nat)
      requires Valid() && Room(room + |found|) && Distinct(found) && 0 !in found
      modifies cards, catalog
      ensures Valid() && Room(room)
      ensures UnconfiguredNumbers(cards.view) == Elements(found) - ConfiguredNumbers(old(cards.view))
      ensures forall k :: k in old(cards.view) && !old(cards.view)[k].unconfigured ==>
                k in cards.view && cards.view[k] == old(cards.view)[k]
      ensures Discovered(old(cards.view), cards.view, found)
    {
      cards.Found(found, catalog, room);
    }

    method SweepCards(cutoff: int, ghost room: nat)
      requires Valid() && Room(room)
      modifies cards
      ensures Valid() && Room(room) && cards.view == Unswept(old(cards.view), cutoff)
    {
      cards.Sweep(cutoff);
    }

    method Take(step: Step, ghost room: nat, ghost groupRoom: nat)
      requires Valid() && step.Allowed() && Room(room + step.Cards())
                 && Roomy(groupCatalog.t, groupRoom + step.Levels())
      modifies this, cards, catalog, groupCatalog
      ensures Valid() && Room(room) && Roomy(groupCatalog.t, groupRoom)
      ensures cards == old(cards) || fresh(cards)
    {
      match step
      case UpdateStep(created, updated, deleted, env, now, saved) =>
        var ok, n := UpdateCards(created, updated, deleted, env, now, saved, room);
      case ImportStep(q, canAddGroup, canAddCard, invalid, saved) =>
        var ok, added, updated, merged := ApplyControllerImport(q, canAddGroup, canAddCard, invalid, saved, room,
                                                                groupRoom);
      case FoundStep(found) =>
        FoundCards(found, room);
      case SweepStep(cutoff) =>
        SweepCards(cutoff, room);
    }

    /** Over every run, whatever is edited, imported, found or swept: in every state the keys are
        the cards' identifiers and no two live cards share a number. */
    method Run(steps: seq<Step>) returns (ghost states: seq<Records>)
      requires Valid() && (forall i :: 0 <= i < |steps| ==> steps[i].Allowed())
      requires Room(CardsNeeded(steps)) && Roomy(groupCatalog.t, LevelsNeeded(steps))
      modifies this, cards, catalog, groupCatalog
      ensures Valid() && |states| == |steps| + 1 && states[0] == old(cards.view) && states[|steps|] == cards.view
      ensures forall i :: 0 <= i < |states| ==> Keyed(states[i]) && NumbersDistinct(states[i])
    {
      states := [cards.view];
      for i := 0 to |steps|
        invariant Valid() && (cards == old(cards) || fresh(cards))
        invariant Room(CardsNeeded(steps[i..])) && Roomy(groupCatalog.t, LevelsNeeded(steps[i..]))
        invariant |states| == i + 1 && states[0] == old(cards.view) && states[i] == cards.view
        invariant forall j :: 0 <= j < |states| ==> Keyed(states[j]) && NumbersDistinct(states[j])
      {
        assert steps[i..][1..] == steps[i + 1..];
        Take(steps[i], CardsNeeded(steps[i + 1..]), LevelsNeeded(steps[i + 1..]));
        states := states + [cards.view];
      }
    }
  }

  datatype Step =
    | UpdateStep(created: seq<Edit>, updated: seq<Edit>, deleted: seq<Edit>, env: Env, now: int, saved: bool)
    | ImportStep(q: Request, canAddGroup: bool, canAddCard: bool, invalid: set<OID>, saved: bool)
    | FoundStep(found: seq<U32>)
    | SweepStep(cutoff: int)
  {
    /** Controllers hold no card twice, and none with number 0. */
    ghost predicate Allowed() {
      FoundStep? ==> Distinct(found) && 0 !in found
    }

    /** How many identifiers a step may use up. */
    function Cards(): nat {
      match this
      case UpdateStep(created, updated, deleted, _, _, _) => Creates(created + updated + deleted)
      case ImportStep(q, _, _, _, _) => |Numbers(q.raw)|
      case FoundStep(found) => |found|
      case SweepStep(_) => 0
    }

    function Levels(): nat {
      if ImportStep? then |Numbers(q.raw)| else 0
    }
  }

  function CardsNeeded(steps: seq<Step>): nat {
    if steps == [] then 0 else steps[0].Cards() + CardsNeeded(steps[1..])
  }

  function LevelsNeeded(steps: seq<Step>): nat {
    if steps == [] then 0 else steps[0].Levels() + LevelsNeeded(steps[1..])
  }
}
