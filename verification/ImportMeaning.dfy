/** What an import from the controllers does to the cards, in terms of the controllers' own lists, the
    local wiring and the caller's decisions. */
module ImportMeaning {
  import opened Common
  import opened Oid
  import opened Groups
  import opened CardRecords
  import opened CardImports
  import opened ControllerImport
  import opened ImportPlan

  /** The request: what the controllers hold, the local wiring, the caller's decisions and the doors in
      the catalog. */
  datatype Request = Request(raw: Raw, wiring: Wiring, withPIN: bool, resolutions: map<U32, Resolution>,
                             doors: set<OID>)

  /** The controller that the caller selected for a card, or 0. */
  function Selection(q: Request, n: U32): U32 {
    if n in q.resolutions then q.resolutions[n].controller else 0
  }

  /** A card is imported when some controller holds it, nothing about it is unfit, the caller does not
      skip it, and, if its entries conflict, one of the controllers that hold it is selected. */
  ghost predicate Taken(q: Request, n: U32) {
    && (exists c :: c in q.raw && n in q.raw[c]) && !Unfit(q.raw, q.wiring, n)
    && (n in q.resolutions ==> q.resolutions[n].mode != Skip)
    && (Conflicting(q.raw, q.withPIN, n) ==> Selection(q, n) in q.raw && n in q.raw[Selection(q, n)])
  }

  /** An entry from which the details may be taken: any of an agreed card, else the selected one. */
  ghost predicate Source(q: Request, n: U32, c: U32) {
    c in q.raw && n in q.raw[c] && (Conflicting(q.raw, q.withPIN, n) ==> c == Selection(q, n))
  }

  /** A live unrestricted level that opens exactly the doors which the card opens on the controllers. */
  ghost predicate LevelFor(q: Request, n: U32, level: Group) {
    && !level.deleted && !level.scheduled && !level.firstCard && level.oid != "0.5.254"
    && forall o :: (if level.oid == "0.5.255" then o in q.doors else o in level.doors && level.doors[o])
                   <==> OpensOn(q.raw, q.wiring, n, o)
  }

  /** A card keeps its own details if it is known here and the caller does not override them. */
  ghost predicate KeepsDetails(q: Request, v: Records, n: U32) {
    && (exists k :: k in v && v[k].deleted.None? && v[k].number == n)
    && !(n in q.resolutions && q.resolutions[n].mode == Override)
  }

  /** The record of an imported card. `g` is the level it was given. */
  ghost predicate RecordTaken(q: Request, v: Records, w: Records, n: U32, k: OID, g: OID) {
    && k in w && w[k].deleted.None? && w[k].number == n && !w[k].unconfigured && w[k].modified
    && w[k].Member(g) && (forall h :: h != g ==> (w[k].Member(h) <==> k in v && v[k].Member(h)))
    && (k in v ==> w[k].text == v[k].text && w[k].incorrect == v[k].incorrect)
    && (KeepsDetails(q, v, n) ==> k in v && w[k].from == v[k].from && w[k].to == v[k].to && w[k].pin == v[k].pin)
    && (!KeepsDetails(q, v, n) ==>
          forall c :: Source(q, n, c) ==>
            w[k].from == q.raw[c][n].from && w[k].to == q.raw[c][n].to
                && w[k].pin == if q.withPIN then q.raw[c][n].pin else if k in v then v[k].pin else 0)
  }

  /** A card that is taken has been imported. */
  ghost predicate IsTaken(q: Request, v: Records, w: Records, levels: map<OID, Group>, n: U32) {
    exists k, g :: g in levels && LevelFor(q, n, levels[g]) && RecordTaken(q, v, w, n, k, g)
  }

  /** The whole effect: exactly the cards taken are imported, each with a level for its doors; no other
      record changes, and none is added for any other number. */
  ghost predicate ImportMeans(q: Request, v: Records, w: Records, levels: map<OID, Group>) {
    && (forall n: U32 :: n != 0 && Taken(q, n) ==> IsTaken(q, v, w, levels, n))
    && (forall k :: k in v && !(v[k].deleted.None? && v[k].number != 0 && Taken(q, v[k].number)) ==>
          k in w && w[k] == v[k])
    && (forall k :: k in w && k !in v ==> w[k].number != 0 && Taken(q, w[k].number))
  }

  // ---- The plan ----

  lemma TakenIsChosen(q: Request, x: Setting, merged: map<U32, Summary>, n: U32)
    requires x.raw == q.raw && x.resolutions == q.resolutions
    requires ReadMeans(q.raw, q.wiring, q.withPIN, merged)
    ensures Taken(q, n) <==> n in merged && x.Chosen(n, merged[n])
  {
  }

  lemma MentionedIsTaken(q: Request, x: Setting, levels: map<OID, Group>, merged: map<U32, Summary>,
                         numbers: seq<U32>, imports: seq<Import>, n: U32)
    requires x.raw == q.raw && x.resolutions == q.resolutions
    requires ReadMeans(q.raw, q.wiring, q.withPIN, merged) && (forall m :: m in numbers <==> m in merged)
    requires Planned(x, levels, merged, numbers, imports)
    ensures Mentions(imports, n) <==> Taken(q, n)
  {
    TakenIsChosen(q, x, merged, n);
  }

  /** The details of a planned import are those of every source entry. */
  lemma PlannedDetails(q: Request, x: Setting, levels: map<OID, Group>, s: Summary, i: Import, c: U32)
    requires x.raw == q.raw && x.resolutions == q.resolutions && Taken(q, i.number)
    requires SummaryMeans(q.raw, q.wiring, q.withPIN, i.number, s) && Plans(x, levels, s, i)
    requires Source(q, i.number, c)
    ensures i.from == q.raw[c][i.number].from && i.to == q.raw[c][i.number].to
    ensures q.withPIN ==> i.pin == q.raw[c][i.number].pin
  {
    var n := i.number;
    var card :|
        IsACLCard(x.raw, n, x.Selected(n, s), card) && i == ImportOf(n, card, i.group, x.Preserves(n));
    assert Holds(x.raw, c, n);
    if Conflicting(q.raw, q.withPIN, n) {
      assert x.Selected(n, s) == Selection(q, n) == c;
      if c == 0 {
        var b :| Holds(x.raw, b, n) && card == x.raw[b][n] && forall a :: Holds(x.raw, a, n) ==> b <= a;
        assert b == 0;
      }
    } else {
      assert !NotSeen(x.raw, x.raw.Keys, n);
      var b :| Holds(x.raw, b, n) && card == x.raw[b][n];
      assert !DifferOn(q.raw, q.withPIN, n, b, c);
    }
  }

  lemma PlannedLevel(q: Request, x: Setting, levels: map<OID, Group>, s: Summary, i: Import)
    requires x.doors == q.doors && SummaryMeans(q.raw, q.wiring, q.withPIN, i.number, s) && Plans(x, levels, s, i)
    ensures i.group in levels && LevelFor(q, i.number, levels[i.group])
  {
    var level := levels[i.group];
    forall o
      ensures (if level.oid == "0.5.255" then o in q.doors else o in level.doors && level.doors[o])
              <==> OpensOn(q.raw, q.wiring, i.number, o)
    {
      assert level.Grants(o, x.doors) <==> o in s.relays;
    }
  }

  /** With one import for each number, that one decides. */
  lemma OneDecides(imports: seq<Import>, j: nat)
    requires j < |imports| && forall a, b :: 0 <= a < b < |imports| ==> imports[a].number != imports[b].number
    ensures forall i :: LastFor(imports, imports[j].number, i) <==> i == j && !imports[j].preserve
    ensures forall i :: FirstFor(imports, imports[j].number, i) ==> i == j
    ensures forall g :: Names(imports, imports[j].number, g) <==> g == imports[j].group
  {
    assert forall i :: 0 <= i < |imports| && imports[i].number == imports[j].number ==> i == j;
  }

  /** The only import of number n, with the details of every source entry. */
  ghost predicate OnlyImport(q: Request, v: Records, imports: seq<Import>, j: nat) {
    && j < |imports| && imports[j].number != 0
    && (forall a, b :: 0 <= a < b < |imports| ==> imports[a].number != imports[b].number)
    && (imports[j].preserve <==> KeepsDetails(q, v, imports[j].number))
    && (forall c :: Source(q, imports[j].number, c) ==>
          && imports[j].from == q.raw[c][imports[j].number].from && imports[j].to == q.raw[c][imports[j].number].to
          && (q.withPIN ==> imports[j].pin == q.raw[c][imports[j].number].pin))
  }

  lemma KnownTaken(q: Request, v: Records, w: Records, imports: seq<Import>, j: nat, k: OID)
    requires OnlyImport(q, v, imports, j) && k in v && k in w && v[k].deleted.None?
    requires v[k].number == imports[j].number && CardAfter(v[k], w[k], imports, q.withPIN)
    ensures RecordTaken(q, v, w, imports[j].number, k, imports[j].group)
  {
    OneDecides(imports, j);
    assert LevelsFollow(v[k].groups, w[k].groups, imports, imports[j].number);
    if !imports[j].preserve {
      assert LastFor(imports, imports[j].number, j);
    }
  }

  lemma AddedTaken(q: Request, v: Records, w: Records, imports: seq<Import>, j: nat, k: OID)
    requires OnlyImport(q, v, imports, j) && k !in v && k in w && CardAdded(w[k], k, imports, q.withPIN)
    requires w[k].number == imports[j].number && !KeepsDetails(q, v, imports[j].number)
    ensures RecordTaken(q, v, w, imports[j].number, k, imports[j].group)
  {
    OneDecides(imports, j);
    AddedDetails(w[k], k, imports, j, q.withPIN);
    assert LevelsFollow(map[], w[k].groups, imports, imports[j].number);
  }

  lemma AddedDetails(s: Record, k: OID, imports: seq<Import>, j: nat, withPIN: bool)
    requires CardAdded(s, k, imports, withPIN) && j < |imports| && s.number == imports[j].number
    requires forall a, b :: 0 <= a < b < |imports| ==> imports[a].number != imports[b].number
    ensures s.from == imports[j].from && s.to == imports[j].to && s.pin == if withPIN then imports[j].pin else 0
  {
    OneDecides(imports, j);
    var i :| FirstFor(imports, s.number, i)
             && DatesFollow(Start(imports[i], withPIN), Detail(s.from, s.to, s.pin, s.groups), imports, s.number,
                            withPIN);
    assert i == j;
    if !imports[j].preserve {
      assert LastFor(imports, s.number, j);
    }
  }

  lemma PlannedOnly(q: Request, x: Setting, v: Records, levels: map<OID, Group>, s: Summary, imports: seq<Import>,
                    j: nat)
    requires x.raw == q.raw && x.resolutions == q.resolutions && x.local == LiveNumbers(v) - {0}
    requires j < |imports| && forall a, b :: 0 <= a < b < |imports| ==> imports[a].number != imports[b].number
    requires imports[j].number != 0 && Taken(q, imports[j].number)
    requires SummaryMeans(q.raw, q.wiring, q.withPIN, imports[j].number, s) && Plans(x, levels, s, imports[j])
    ensures OnlyImport(q, v, imports, j)
  {
    var n := imports[j].number;
    assert n in LiveNumbers(v) <==> exists k :: k in v && v[k].deleted.None? && v[k].number == n;
    forall c | Source(q, n, c)
      ensures imports[j].from == q.raw[c][n].from && imports[j].to == q.raw[c][n].to
      ensures q.withPIN ==> imports[j].pin == q.raw[c][n].pin
    {
      PlannedDetails(q, x, levels, s, imports[j], c);
    }
  }

  lemma TakenRecord(q: Request, v: Records, w: Records, imports: seq<Import>, j: nat) returns (k: OID)
    requires OnlyImport(q, v, imports, j) && CardsAfter(v, w, imports, q.withPIN)
    ensures RecordTaken(q, v, w, imports[j].number, k, imports[j].group)
  {
    k :| k in w && w[k].deleted.None? && w[k].number == imports[j].number;
    assert Mentions(imports, imports[j].number);
    if k in v {
      KnownTaken(q, v, w, imports, j, k);
    } else {
      AddedTaken(q, v, w, imports, j, k);
    }
  }

  lemma TakenOne(q: Request, x: Setting, v: Records, w: Records, levels: map<OID, Group>, s: Summary,
                 imports: seq<Import>, j: nat)
    requires x == Setting(q.raw, q.resolutions, q.doors, LiveNumbers(v) - {0})
    requires j < |imports| && forall a, b :: 0 <= a < b < |imports| ==> imports[a].number != imports[b].number
    requires imports[j].number != 0 && Taken(q, imports[j].number)
    requires SummaryMeans(q.raw, q.wiring, q.withPIN, imports[j].number, s) && Plans(x, levels, s, imports[j])
    requires CardsAfter(v, w, imports, q.withPIN)
    ensures IsTaken(q, v, w, levels, imports[j].number)
  {
    PlannedOnly(q, x, v, levels, s, imports, j);
    PlannedLevel(q, x, levels, s, imports[j]);
    var k := TakenRecord(q, v, w, imports, j);
  }

  lemma OthersStay(q: Request, v: Records, w: Records, imports: seq<Import>)
    requires CardsAfter(v, w, imports, q.withPIN) && forall n: U32 :: Mentions(imports, n) <==> Taken(q, n)
    ensures forall k :: k in v && !(v[k].deleted.None? && v[k].number != 0 && Taken(q, v[k].number)) ==>
                          k in w && w[k] == v[k]
    ensures forall k :: k in w && k !in v ==> w[k].number != 0 && Taken(q, w[k].number)
  {
    forall k | k in w && k !in v ensures w[k].number != 0 && Taken(q, w[k].number) {
      assert CardAdded(w[k], k, imports, q.withPIN);
    }
  }

  /** The plan, carried out, is what the request means. */
  lemma PlanMeans(q: Request, x: Setting, v: Records, w: Records, levels: map<OID, Group>, merged: map<U32, Summary>,
                  numbers: seq<U32>, imports: seq<Import>)
    requires x == Setting(q.raw, q.resolutions, q.doors, LiveNumbers(v) - {0})
    requires ReadMeans(q.raw, q.wiring, q.withPIN, merged) && (forall m :: m in numbers <==> m in merged)
    requires Planned(x, levels, merged, numbers, imports) && CardsAfter(v, w, imports, q.withPIN)
    ensures ImportMeans(q, v, w, levels)
  {
    forall n: U32 ensures Mentions(imports, n) <==> Taken(q, n) {
      MentionedIsTaken(q, x, levels, merged, numbers, imports, n);
    }
    OthersStay(q, v, w, imports);
    forall n: U32 | n != 0 && Taken(q, n) ensures IsTaken(q, v, w, levels, n) {
      assert Mentions(imports, n);
      var j :| 0 <= j < |imports| && imports[j].number == n;
      TakenOne(q, x, v, w, levels, merged[n], imports, j);
    }
  }
}
