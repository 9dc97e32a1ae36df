/** What a list of imports makes of the cards, in terms of the list alone: which import decides a
    card's dates and PIN, which levels it ends up with, and how it is marked. */
module CardImports {
  import opened Common
  import opened Oid
  import opened CardRecords

  /** The last import of a number that does not preserve the card's details. */
  ghost predicate LastFor(imports: seq<Import>, n: U32, j: int) {
    && 0 <= j < |imports| && imports[j].number == n && !imports[j].preserve
    && forall i :: j < i < |imports| && imports[i].number == n ==> imports[i].preserve
  }

  ghost predicate FirstFor(imports: seq<Import>, n: U32, j: int) {
    && 0 <= j < |imports| && imports[j].number == n
    && forall i :: 0 <= i < j ==> imports[i].number != n
  }

  /** Dates, and the PIN when PINs matter, come from that import; without one nothing changes. */
  ghost predicate DatesFollow(before: Detail, after: Detail, imports: seq<Import>, n: U32, withPIN: bool) {
    && (forall j :: LastFor(imports, n, j) ==>
          after.from == imports[j].from && after.to == imports[j].to
              && after.pin == if withPIN then imports[j].pin else before.pin)
    && ((forall j :: !LastFor(imports, n, j)) ==>
          after.from == before.from && after.to == before.to && after.pin == before.pin)
  }

  /** Levels are added, and those named for the card are granted. */
  ghost predicate LevelsFollow(before: map<OID, bool>, after: map<OID, bool>, imports: seq<Import>, n: U32) {
    && (forall g :: g in after <==> g in before || Names(imports, n, g))
    && (forall g :: g in after ==> after[g] == ((g in before && before[g]) || Names(imports, n, g)))
  }

  lemma LastForStep(front: seq<Import>, last: Import, n: U32)
    ensures var imports := front + [last];
            forall j :: LastFor(imports, n, j) <==>
                          if last.number == n && !last.preserve then j == |front| else LastFor(front, n, j)
  {
    var imports := front + [last];
    assert imports[|front|] == last;
    assert forall i :: 0 <= i < |front| ==> imports[i] == front[i];
    forall j
      ensures LastFor(imports, n, j) <==>
                if last.number == n && !last.preserve then j == |front| else LastFor(front, n, j)
    {
      if 0 <= j < |front| && LastFor(front, n, j) && !(last.number == n && !last.preserve) {
        forall i | j < i < |imports| && imports[i].number == n ensures imports[i].preserve {
          assert i < |front| ==> front[i].preserve;
        }
      }
      if 0 <= j < |front| && LastFor(imports, n, j) {
        forall i | j < i < |front| && front[i].number == n ensures front[i].preserve {
          assert imports[i].preserve;
        }
      }
    }
  }

  lemma DatesStep(d: Detail, e: Detail, front: seq<Import>, last: Import, n: U32, withPIN: bool)
    requires DatesFollow(d, e, front, n, withPIN)
    ensures last.number == n ==> DatesFollow(d, MergeDetail(e, last, withPIN), front + [last], n, withPIN)
    ensures last.number != n ==> DatesFollow(d, e, front + [last], n, withPIN)
  {
    LastForStep(front, last, n);
    assert last.number == n && !last.preserve ==> LastFor(front + [last], n, |front|);
    if !withPIN {
      assert e.pin == d.pin by {
        if j :| LastFor(front, n, j) {}
      }
    }
  }

  lemma {:induction false} DetailsFollow(d: Detail, imports: seq<Import>, n: U32, withPIN: bool)
    ensures var r := MergeAll(Some(d), imports, n, withPIN);
            && r.Some? && DatesFollow(d, r.value, imports, n, withPIN)
            && LevelsFollow(d.groups, r.value.groups, imports, n)
  {
    MembershipsGrow(d, imports, n, withPIN);
    if imports != [] {
      var front, last := imports[..|imports| - 1], imports[|imports| - 1];
      DetailsFollow(d, front, n, withPIN);
      DatesStep(d, MergeAll(Some(d), front, n, withPIN).value, front, last, n, withPIN);
      assert imports == front + [last];
    }
  }

  /** What a new card starts from. */
  function Start(i: Import, withPIN: bool): Detail {
    Detail(i.from, i.to, if withPIN then i.pin else 0, map[])
  }

  lemma FirstForStep(front: seq<Import>, last: Import, n: U32, j: int)
    ensures FirstFor(front, n, j) ==> FirstFor(front + [last], n, j)
    ensures !Mentions(front, n) && last.number == n ==> FirstFor(front + [last], n, |front|)
  {
    var imports := front + [last];
    assert forall i :: 0 <= i < |front| ==> imports[i] == front[i];
    assert forall i :: 0 <= i < |front| && front[i].number == n ==> Mentions(front, n);
  }

  lemma {:induction false} NewDetailsFollow(imports: seq<Import>, n: U32, withPIN: bool) returns (j: int)
    requires MergeAll(None, imports, n, withPIN).Some?
    ensures FirstFor(imports, n, j)
    ensures var r := MergeAll(None, imports, n, withPIN).value;
            DatesFollow(Start(imports[j], withPIN), r, imports, n, withPIN)
  {
    var front, last := imports[..|imports| - 1], imports[|imports| - 1];
    assert imports == front + [last];
    LastForStep(front, last, n);
    if MergeAll(None, front, n, withPIN).Some? {
      j := NewDetailsFollow(front, n, withPIN);
      FirstForStep(front, last, n, j);
      DatesStep(Start(front[j], withPIN), MergeAll(None, front, n, withPIN).value, front, last, n, withPIN);
    } else {
      MergeFromNothing(front, n, withPIN);
      FirstForStep(front, last, n, 0);
      j := |front|;
      assert forall k :: !LastFor(front, n, k);
    }
  }

  lemma NewLevelsFollow(imports: seq<Import>, n: U32, withPIN: bool)
    requires MergeAll(None, imports, n, withPIN).Some?
    ensures LevelsFollow(map[], MergeAll(None, imports, n, withPIN).value.groups, imports, n)
  {
    MergeFromNothing(imports, n, withPIN);
    var j :| 0 <= j < |imports| && imports[j].number == n
             && MergeAll(None, imports, n, withPIN)
                  == MergeAll(Some(ImportedDetail(imports[j], withPIN)), imports, n, withPIN);
    MembershipsGrow(ImportedDetail(imports[j], withPIN), imports, n, withPIN);
    assert Names(imports, n, imports[j].group);
  }

  // ---- The cards ----

  /** A live card whose number is imported: only its details and marks change. */
  ghost predicate CardAfter(r: Record, s: Record, imports: seq<Import>, withPIN: bool) {
    && s == r.(from := s.from, to := s.to, pin := s.pin, groups := s.groups, unconfigured := false, modified := true)
    && DatesFollow(Detail(r.from, r.to, r.pin, r.groups), Detail(s.from, s.to, s.pin, s.groups), imports, r.number,
                   withPIN)
    && LevelsFollow(r.groups, s.groups, imports, r.number)
  }

  /** A card that the imports added: its first import creates it. */
  ghost predicate CardAdded(s: Record, oid: OID, imports: seq<Import>, withPIN: bool) {
    && NewMarks(s, oid, imports)
    && (exists j :: FirstFor(imports, s.number, j)
                    && DatesFollow(Start(imports[j], withPIN), Detail(s.from, s.to, s.pin, s.groups), imports,
                                   s.number, withPIN))
    && LevelsFollow(map[], s.groups, imports, s.number)
  }

  /** The cards after a list of imports: each card whose number is mentioned, each card added, and no
      other change. */
  ghost predicate CardsAfter(v: Records, w: Records, imports: seq<Import>, withPIN: bool) {
    && (forall k :: k in v ==>
          k in w && if v[k].deleted.None? && v[k].number != 0 && Mentions(imports, v[k].number)
                    then CardAfter(v[k], w[k], imports, withPIN) else w[k] == v[k])
    && (forall k :: k in w && k !in v ==>
          CardAdded(w[k], k, imports, withPIN)
              && forall j :: j in v && v[j].deleted.None? ==> v[j].number != w[k].number)
    && (forall j :: 0 <= j < |imports| && imports[j].number != 0 ==>
          exists k :: k in w && w[k].deleted.None? && w[k].number == imports[j].number)
  }

  lemma KnownCardAfter(v: Records, w: Records, imports: seq<Import>, withPIN: bool, k: OID)
    requires NumbersDistinct(v) && NumbersDistinct(w) && Kept(v, w) && AllMerged(v, w, imports, withPIN)
    requires k in v && v[k].Live() && v[k].number != 0 && OldMarks(v[k], w[k], imports)
    requires Mentions(imports, v[k].number)
    ensures CardAfter(v[k], w[k], imports, withPIN)
  {
    var n := v[k].number;
    assert OnlyDetails(v[k], w[k]);
    LiveDetailAt(v, k);
    LiveDetailAt(w, k);
    DetailsFollow(DetailOf(v[k]), imports, n, withPIN);
  }

  lemma NewCardAfter(v: Records, w: Records, imports: seq<Import>, withPIN: bool, k: OID)
    requires NumbersDistinct(v) && NumbersDistinct(w) && Kept(v, w) && AllMerged(v, w, imports, withPIN)
    requires k in w && k !in v && NewMarks(w[k], k, imports)
    ensures CardAdded(w[k], k, imports, withPIN)
    ensures forall j :: j in v && v[j].Live() ==> v[j].number != w[k].number
  {
    var n := w[k].number;
    forall j | j in v && v[j].Live() ensures v[j].number != n {
      assert OnlyDetails(v[j], w[j]);
    }
    LiveDetailAt(w, k);
    assert LiveDetail(v, n).None?;
    var j := NewDetailsFollow(imports, n, withPIN);
    NewLevelsFollow(imports, n, withPIN);
  }

  lemma ImportsMean(v: Records, w: Records, imports: seq<Import>, withPIN: bool)
    requires NumbersDistinct(v) && NumbersDistinct(w) && Kept(v, w)
    requires AllMerged(v, w, imports, withPIN) && MarksRight(v, w, imports)
    ensures CardsAfter(v, w, imports, withPIN)
  {
    forall k | k in v
      ensures k in w && if v[k].deleted.None? && v[k].number != 0 && Mentions(imports, v[k].number)
                        then CardAfter(v[k], w[k], imports, withPIN) else w[k] == v[k]
    {
      assert OldMarks(v[k], w[k], imports);
      if v[k].deleted.None? && v[k].number != 0 && Mentions(imports, v[k].number) {
        KnownCardAfter(v, w, imports, withPIN, k);
      }
    }
    forall k | k in w && k !in v
      ensures CardAdded(w[k], k, imports, withPIN)
      ensures forall j :: j in v && v[j].deleted.None? ==> v[j].number != w[k].number
    {
      NewCardAfter(v, w, imports, withPIN, k);
    }
    forall j | 0 <= j < |imports| && imports[j].number != 0
      ensures exists k :: k in w && w[k].deleted.None? && w[k].number == imports[j].number
    {
      EveryImportIsGranted(v, w, imports, j, withPIN);
    }
  }

  /** The outcome of a list of imports that was merged and found valid. */
  ghost predicate ImportedAs(v: Records, w: Records, imports: seq<Import>, withPIN: bool, added: nat, updated: nat) {
    ValidRecords(w) && MergedSoFar(v, w, imports, withPIN, added, updated) && CardsAfter(v, w, imports, withPIN)
  }
}
