/** From what the controllers hold to a list of imports: which cards are imported, with whose
    details, and the access level created for each. */
module ImportPlan {
  import opened Common
  import opened Oid
  import opened Groups
  import opened CatalogTable
  import opened CardRecords
  import opened ControllerImport

  datatype Mode = Skip | Override | Other

  /** The caller's decision for a card; without one nothing is overridden or selected. */
  datatype Resolution = Resolution(mode: Mode, controller: U32)

  /** What a plan reads: the controllers' cards, the caller's decisions, the doors in the catalog
      and the numbers of the local cards. */
  datatype Setting = Setting(raw: Raw, resolutions: map<U32, Resolution>, doors: set<OID>, local: set<U32>) {
    function ResolutionOf(n: U32): Resolution {
      if n in resolutions then resolutions[n] else Resolution(Other, 0)
    }

    /** Cards whose entries conflict need a controller selected among those that hold them. */
    predicate Chosen(n: U32, s: Summary) {
      (s.Supported() || s.Resolvable()) && ResolutionOf(n).mode != Skip
          && (s.Resolvable() ==> ResolutionOf(n).controller in s.controllers)
    }

    function Selected(n: U32, s: Summary): U32 {
      if s.Resolvable() then ResolutionOf(n).controller else 0
    }

    predicate Preserves(n: U32) {
      n in local && ResolutionOf(n).mode != Override
    }
  }

  function ImportOf(n: U32, card: RawCard, group: OID, preserve: bool): Import {
    Import(n, card.pin, card.from, card.to, group, preserve)
  }

  /** The details come from the entry selected, and the level is a live unrestricted one for
      exactly the relays that the card opens. */
  ghost predicate Plans(x: Setting, levels: map<OID, Group>, s: Summary, i: Import) {
    && (exists card ::
          IsACLCard(x.raw, i.number, x.Selected(i.number, s), card)
              && i == ImportOf(i.number, card, i.group, x.Preserves(i.number)))
    && i.group in levels && GrantsExactly(levels[i.group], s.relays, x.doors)
  }

  /** Levels are only added. */
  ghost predicate Extends(before: map<OID, Group>, after: map<OID, Group>) {
    && (forall k :: k in before ==> k in after && after[k] == before[k])
    && (forall k :: k in after && k !in before ==> k != "")
    && (NamesUnique(before) ==> NamesUnique(after)) && WellKeyed(after)
  }

  lemma ImportedExtends(before: map<OID, Group>, after: map<OID, Group>, oid: OID, wanted: set<OID>, doors: set<OID>)
    requires Imported(before, after, oid, wanted, doors)
    ensures Extends(before, after) && oid in after && GrantsExactly(after[oid], wanted, doors)
  {
  }

  /** Each import is one that a chosen number visited calls for. */
  ghost predicate Justified(x: Setting, levels: map<OID, Group>, merged: map<U32, Summary>, visited: seq<U32>,
                            imports: seq<Import>) {
    forall j :: 0 <= j < |imports| ==>
      var n := imports[j].number;
      n in merged && n in visited && x.Chosen(n, merged[n]) && Plans(x, levels, merged[n], imports[j])
  }

  /** One import for each chosen number visited, and no other. */
  ghost predicate Planned(x: Setting, levels: map<OID, Group>, merged: map<U32, Summary>, visited: seq<U32>,
                          imports: seq<Import>) {
    && Justified(x, levels, merged, visited, imports)
    && (forall n :: n in visited && n in merged && x.Chosen(n, merged[n]) ==> Mentions(imports, n))
    && (forall j, k :: 0 <= j < k < |imports| ==> imports[j].number != imports[k].number)
  }

  lemma PlannedSkip(x: Setting, levels: map<OID, Group>, merged: map<U32, Summary>, visited: seq<U32>,
                    imports: seq<Import>, n: U32)
    requires Planned(x, levels, merged, visited, imports) && n in merged && !x.Chosen(n, merged[n])
    ensures Planned(x, levels, merged, visited + [n], imports)
  {
  }

  lemma PlansKept(x: Setting, levels: map<OID, Group>, levels': map<OID, Group>, s: Summary, i: Import)
    requires Plans(x, levels, s, i) && Extends(levels, levels')
    ensures Plans(x, levels', s, i)
  {
    var card :|
        IsACLCard(x.raw, i.number, x.Selected(i.number, s), card)
            && i == ImportOf(i.number, card, i.group, x.Preserves(i.number));
  }

  lemma JustifiedStep(x: Setting, levels: map<OID, Group>, levels': map<OID, Group>, merged: map<U32, Summary>,
                      visited: seq<U32>, imports: seq<Import>, i: Import)
    requires Justified(x, levels, merged, visited, imports) && Extends(levels, levels')
    requires i.number in merged && x.Chosen(i.number, merged[i.number]) && Plans(x, levels', merged[i.number], i)
    ensures Justified(x, levels', merged, visited + [i.number], imports + [i])
  {
    forall j | 0 <= j < |imports| ensures Plans(x, levels', merged[imports[j].number], imports[j]) {
      PlansKept(x, levels, levels', merged[imports[j].number], imports[j]);
    }
  }

  lemma PlannedStep(x: Setting, levels: map<OID, Group>, levels': map<OID, Group>, merged: map<U32, Summary>,
                    visited: seq<U32>, imports: seq<Import>, i: Import)
    requires Planned(x, levels, merged, visited, imports) && Extends(levels, levels')
    requires i.number in merged && i.number !in visited && x.Chosen(i.number, merged[i.number])
               && Plans(x, levels', merged[i.number], i)
    ensures Planned(x, levels', merged, visited + [i.number], imports + [i])
  {
    JustifiedStep(x, levels, levels', merged, visited, imports, i);
    MentionsStep(imports, i);
  }

  method SetToSeq(s: set<OID>) returns (q: seq<OID>)
    ensures Elements(q) == s
  {
    q := [];
    var todo := s;
    while todo != {}
      invariant todo <= s && Elements(q) == s - todo
    {
      var o :| o in todo;
      ElementsStep(q, o);
      q, todo := q + [o], todo - {o};
    }
  }

  /** Plans one chosen card. */
  method PlanOne(x: Setting, n: U32, s: Summary, levels: Groups, catalog: Table, canAdd: bool, ghost room: nat)
    returns (r: Result<Import, string>)
    requires WellKeyed(levels.groups) && Roomy(catalog.t, room + 1)
    modifies levels, catalog
    ensures Roomy(catalog.t, room)
    ensures canAdd && old(levels.groups).Keys <= old(catalog.t).m.Keys ==>
              r.Ok? && levels.groups.Keys <= catalog.t.m.Keys
    ensures r.Ok? ==>
              Extends(old(levels.groups), levels.groups) && r.value.number == n && Plans(x, levels.groups, s, r.value)
  {
    var relays := SetToSeq(s.relays);
    IssuedKeepsRoom(catalog.t, catalog.t, room);
    ghost var t := catalog.t;
    var ensured := levels.EnsureImported(catalog, x.doors, DEFAULT_NAME, relays, canAdd);
    IssuedKeepsRoom(t, catalog.t, room);
    if ensured.Err? {
      return Err(ensured.error);
    }
    ImportedExtends(old(levels.groups), levels.groups, ensured.value, s.relays, x.doors);
    var card := FindACLCard(x.raw, n, x.Selected(n, s));
    r := Ok(ImportOf(n, card, ensured.value, x.Preserves(n)));
  }

  lemma ExtendsTwice(a: map<OID, Group>, b: map<OID, Group>, c: map<OID, Group>)
    requires Extends(a, b) && Extends(b, c)
    ensures Extends(a, c)
  {
  }

  /** The import for one card, if it is chosen. */
  method PlanNext(x: Setting, merged: map<U32, Summary>, ghost visited: seq<U32>, imports: seq<Import>, n: U32,
                  levels: Groups, catalog: Table, canAdd: bool, ghost room: nat)
    returns (r: Result<seq<Import>, string>)
    requires WellKeyed(levels.groups) && Roomy(catalog.t, room + 1)
    requires n in merged && n !in visited && Planned(x, levels.groups, merged, visited, imports)
    modifies levels, catalog
    ensures Roomy(catalog.t, room)
    ensures canAdd && old(levels.groups).Keys <= old(catalog.t).m.Keys ==>
              r.Ok? && levels.groups.Keys <= catalog.t.m.Keys
    ensures r.Ok? ==>
              Extends(old(levels.groups), levels.groups) && Planned(x, levels.groups, merged, visited + [n], r.value)
                      && |r.value| <= |imports| + 1
  {
    if !x.Chosen(n, merged[n]) {
      PlannedSkip(x, levels.groups, merged, visited, imports, n);
      return Ok(imports);
    }
    ghost var before := levels.groups;
    var planned := PlanOne(x, n, merged[n], levels, catalog, canAdd, room);
    if planned.Err? {
      return Err(planned.error);
    }
    PlannedStep(x, before, levels.groups, merged, visited, imports, planned.value);
    r := Ok(imports + [planned.value]);
  }

  /** Plans an import for every chosen card, by ascending number. */
  method PlanImports(x: Setting, merged: map<U32, Summary>, levels: Groups, catalog: Table, canAdd: bool,
                     ghost room: nat)
    returns (r: Result<seq<Import>, string>, ghost numbers: seq<U32>)
    requires WellKeyed(levels.groups) && Roomy(catalog.t, room + |merged|)
    modifies levels, catalog
    ensures Roomy(catalog.t, room)
    ensures canAdd && old(levels.groups).Keys <= old(catalog.t).m.Keys ==> r.Ok?
    ensures r.Ok? ==> Extends(old(levels.groups), levels.groups) && |r.value| <= |merged|
                      && (forall n :: n in numbers <==> n in merged)
                           && Planned(x, levels.groups, merged, numbers, r.value)
  {
    var keys := CollectKeys(merged);
    AscendingIs(keys);
    numbers := Ascending(keys);
    var order := Ascending(keys);
    DistinctCount(order);
    SubsetSize(Elements(order), merged.Keys);
    assert order[..0] == [];
    var imports: seq<Import> := [];
    for i := 0 to |order|
      invariant Roomy(catalog.t, room + |merged| - i)
      invariant canAdd && old(levels.groups).Keys <= old(catalog.t).m.Keys ==> levels.groups.Keys <= catalog.t.m.Keys
      invariant Extends(old(levels.groups), levels.groups) && |imports| <= i
      invariant Planned(x, levels.groups, merged, order[..i], imports)
    {
      ghost var before := levels.groups;
      r := PlanNext(x, merged, order[..i], imports, order[i], levels, catalog, canAdd, room + |merged| - i - 1);
      if r.Err? {
        return;
      }
      PrefixStep(order, i);
      ExtendsTwice(old(levels.groups), before, levels.groups);
      imports := r.value;
    }
    assert order[..|order|] == order;
    r := Ok(imports);
  }

  // ---- What becomes of a card ----

  /** Only one import mentions a planned number, so it alone decides. */
  lemma {:induction false} MergeAllOnce(d: Option<Detail>, imports: seq<Import>, j: nat, withPIN: bool)
    requires j < |imports| && forall k :: 0 <= k < |imports| && k != j ==> imports[k].number != imports[j].number
    ensures MergeAll(d, imports, imports[j].number, withPIN)
         == Some(if d.None? then ImportedDetail(imports[j], withPIN) else MergeDetail(d.value, imports[j], withPIN))
  {
    var front := imports[..|imports| - 1];
    if j == |imports| - 1 {
      NotMentioned(d, front, imports[j].number, withPIN);
    } else {
      MergeAllOnce(d, front, j, withPIN);
    }
  }

  /** The end of an import: each chosen card is live with a level for exactly its relays and
      details from the selected entry, unless it keeps its own; the others are as before. */
  ghost predicate Applied(x: Setting, v: Records, w: Records, levels: map<OID, Group>, n: U32, s: Summary,
                          withPIN: bool) {
    if x.Chosen(n, s) then
      exists i: Import :: i.number == n && Plans(x, levels, s, i) && LiveDetail(w, n) ==
          Some(if LiveDetail(v, n).None? then ImportedDetail(i, withPIN)
               else MergeDetail(LiveDetail(v, n).value, i, withPIN))
    else LiveDetail(w, n) == LiveDetail(v, n)
  }

  lemma PlanIsApplied(x: Setting, v: Records, w: Records, levels: map<OID, Group>, merged: map<U32, Summary>,
                      numbers: seq<U32>, imports: seq<Import>,
                      n: U32, withPIN: bool)
    requires Planned(x, levels, merged, numbers, imports) && AllMerged(v, w, imports, withPIN)
    requires n != 0 && n in merged && n in numbers
    ensures Applied(x, v, w, levels, n, merged[n], withPIN)
  {
    if x.Chosen(n, merged[n]) {
      assert Mentions(imports, n);
      var j :| 0 <= j < |imports| && imports[j].number == n;
      MergeAllOnce(LiveDetail(v, n), imports, j, withPIN);
      assert Plans(x, levels, merged[n], imports[j]);
    } else {
      NotMentioned(LiveDetail(v, n), imports, n, withPIN);
    }
  }

  /** A number that no controller holds is not touched. */
  lemma OthersAreKept(x: Setting, v: Records, w: Records, levels: map<OID, Group>, merged: map<U32, Summary>,
                      numbers: seq<U32>, imports: seq<Import>,
                      n: U32, withPIN: bool)
    requires Planned(x, levels, merged, numbers, imports) && AllMerged(v, w, imports, withPIN)
    requires n != 0 && n !in merged
    ensures LiveDetail(w, n) == LiveDetail(v, n)
  {
    NotMentioned(LiveDetail(v, n), imports, n, withPIN);
  }

  /** The whole effect of an import on the live cards. */
  ghost predicate ImportApplied(x: Setting, v: Records, w: Records, levels: map<OID, Group>, merged: map<U32, Summary>,
                                withPIN: bool) {
    forall n: U32 :: n != 0 ==>
      if n in merged then Applied(x, v, w, levels, n, merged[n], withPIN) else LiveDetail(w, n) == LiveDetail(v, n)
  }

  lemma PlanApplies(x: Setting, v: Records, w: Records, levels: map<OID, Group>, merged: map<U32, Summary>,
                    numbers: seq<U32>, imports: seq<Import>, withPIN: bool)
    requires Planned(x, levels, merged, numbers, imports) && AllMerged(v, w, imports, withPIN)
    requires forall n :: n in numbers <==> n in merged
    ensures ImportApplied(x, v, w, levels, merged, withPIN)
  {
    forall n: U32 | n != 0
      ensures if n in merged then Applied(x, v, w, levels, n, merged[n], withPIN)
              else LiveDetail(w, n) == LiveDetail(v, n)
    {
      if n in merged {
        PlanIsApplied(x, v, w, levels, merged, numbers, imports, n, withPIN);
      } else {
        OthersAreKept(x, v, w, levels, merged, numbers, imports, n, withPIN);
      }
    }
  }

  /** A card that the controllers agree on is imported with the details that all of them have. */
  lemma AgreedCardIsImported(x: Setting, levels: map<OID, Group>, s: Summary, i: Import, wiring: Wiring, withPIN: bool,
                             b: U32)
    requires Plans(x, levels, s, i) && s.Supported() && Holds(x.raw, b, i.number)
    requires Summarises(x.raw, wiring, withPIN, x.raw.Keys, i.number, s)
    ensures var card := x.raw[b][i.number]; i.from == card.from && i.to == card.to && (withPIN ==> i.pin == card.pin)
  {
    SupportIsOrderFree(x.raw, wiring, withPIN, i.number, s);
    var card :|
        IsACLCard(x.raw, i.number, x.Selected(i.number, s), card)
            && i == ImportOf(i.number, card, i.group, x.Preserves(i.number));
    AgreedDetails(x.raw, withPIN, i.number, card, b);
  }
}
