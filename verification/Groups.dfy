/** Access levels ("groups"): which doors a level grants, and the creation of a level for
    an imported set of relays. */
module Groups {
  import opened Common
  import opened Decimal
  import opened Oid
  import opened CatalogTable

  const NO_ACCESS_OID: OID := "0.5.254"
  const ALWAYS_ACCESS_OID: OID := "0.5.255"
  const DEFAULT_NAME := "Imported controller access"

  datatype Group = Group(oid: OID, name: string, doors: map<OID, bool>, firstCard: bool, scheduled: bool,
                         deleted: bool) {
    /** The permanent 24/7 level always covers every door in the catalog. */
    function AccessDoors(catalogued: set<OID>): map<OID, bool> {
      if oid == ALWAYS_ACCESS_OID then map d | d in catalogued :: true else doors
    }

    predicate Grants(door: OID, catalogued: set<OID>) {
      door in AccessDoors(catalogued) && AccessDoors(catalogued)[door]
    }
  }

  // ---- Names ----

  predicate IsSpace(c: char) {
    c in {' ', '\t', '\n', '\r'}
  }

  function TrimLeft(s: string): string {
    if s != [] && IsSpace(s[0]) then TrimLeft(s[1..]) else s
  }

  function TrimRight(s: string): string {
    if s != [] && IsSpace(s[|s| - 1]) then TrimRight(s[..|s| - 1]) else s
  }

  function TrimSpace(s: string): string {
    TrimRight(TrimLeft(s))
  }

  function LowerChar(c: char): char {
    if 'A' <= c <= 'Z' then c + ' ' else c
  }

  function Lower(s: string): (r: string)
    ensures |r| == |s| && forall i :: 0 <= i < |s| ==> r[i] == LowerChar(s[i])
  {
    if s == [] then [] else [LowerChar(s[0])] + Lower(s[1..])
  }

  lemma {:induction false} LowerTrimLeft(s: string)
    ensures TrimLeft(Lower(s)) == Lower(TrimLeft(s))
  {
    if s != [] {
      LowerTrimLeft(s[1..]);
      assert Lower(s)[1..] == Lower(s[1..]);
    }
  }

  lemma {:induction false} LowerTrimRight(s: string)
    ensures TrimRight(Lower(s)) == Lower(TrimRight(s))
  {
    if s != [] {
      LowerTrimRight(s[..|s| - 1]);
      assert Lower(s)[..|s| - 1] == Lower(s[..|s| - 1]);
    }
  }

  /** Validation lowers and then trims; the search for a fresh name does it the other way. */
  lemma LowerThenTrim(s: string)
    ensures TrimSpace(Lower(s)) == Normalised(s)
  {
    LowerTrimLeft(s);
    LowerTrimRight(TrimLeft(s));
  }

  /** t is s without the space around it. */
  ghost predicate TrimmedTo(s: string, t: string) {
    exists i, j :: 0 <= i <= j <= |s| && IsTrim(s, i, j) && t == s[i..j]
  }

  ghost predicate IsTrim(s: string, i: int, j: int)
    requires 0 <= i <= j <= |s|
  {
    && (forall n :: 0 <= n < |s| && (n < i || j <= n) ==> s[n] in {' ', '\t', '\n', '\r'})
    && (i < j ==> s[i] !in {' ', '\t', '\n', '\r'} && s[j - 1] !in {' ', '\t', '\n', '\r'})
  }

  /** t is s with its capital letters in lower case. */
  ghost predicate LoweredTo(s: string, t: string) {
    |t| == |s| && forall n :: 0 <= n < |s| ==> if 'A' <= s[n] <= 'Z' then t[n] == s[n] + ' ' else t[n] == s[n]
  }

  lemma {:induction false} TrimLeftIs(s: string) returns (i: nat)
    ensures i <= |s| && TrimLeft(s) == s[i..] && (forall n :: 0 <= n < i ==> s[n] in {' ', '\t', '\n', '\r'})
    ensures i < |s| ==> s[i] !in {' ', '\t', '\n', '\r'}
  {
    i := 0;
    if s != [] && IsSpace(s[0]) {
      var m := TrimLeftIs(s[1..]);
      i := m + 1;
      assert s[1..][m..] == s[i..];
      assert forall n :: 1 <= n < i ==> s[n] == s[1..][n - 1];
      assert i < |s| ==> s[i] == s[1..][m];
    }
  }

  lemma {:induction false} TrimRightIs(s: string) returns (j: nat)
    ensures j <= |s| && TrimRight(s) == s[..j] && (forall n :: j <= n < |s| ==> s[n] in {' ', '\t', '\n', '\r'})
    ensures j > 0 ==> s[j - 1] !in {' ', '\t', '\n', '\r'}
  {
    j := |s|;
    if s != [] && IsSpace(s[|s| - 1]) {
      var front := s[..|s| - 1];
      j := TrimRightIs(front);
      assert front[..j] == s[..j];
      assert forall n :: j <= n < |s| - 1 ==> s[n] == front[n];
    }
  }

  lemma TrimSpaceIs(s: string)
    ensures TrimmedTo(s, TrimSpace(s))
  {
    var i := TrimLeftIs(s);
    var left := s[i..];
    var m := TrimRightIs(left);
    var j := i + m;
    assert s[i..j] == left[..m];
    forall n | 0 <= n < |s| && (n < i || j <= n) ensures s[n] in {' ', '\t', '\n', '\r'} {
      assert j <= n ==> s[n] == left[n - i];
    }
    assert m > 0 ==> s[j - 1] == left[m - 1] && s[i] == left[0];
    assert IsTrim(s, i, j);
  }

  lemma LowerIs(s: string)
    ensures LoweredTo(s, Lower(s))
  {
  }

  lemma TrimIsUnique(s: string, t: string, u: string)
    requires TrimmedTo(s, t) && TrimmedTo(s, u)
    ensures t == u
  {
    var i, j :| 0 <= i <= j <= |s| && IsTrim(s, i, j) && t == s[i..j];
    var k, l :| 0 <= k <= l <= |s| && IsTrim(s, k, l) && u == s[k..l];
    if i < j && k < l {
      assert i == k && j == l;
    }
  }

  predicate EqualFold(a: string, b: string) {
    Lower(a) == Lower(b)
  }

  /** The name under which a level must be unique. */
  function Normalised(name: string): string {
    Lower(TrimSpace(name))
  }

  ghost function LiveNames(groups: map<OID, Group>): set<string> {
    set k | k in groups && !groups[k].deleted :: Normalised(groups[k].name)
  }

  predicate Clash(g: Group, h: Group) {
    !g.deleted && !h.deleted && Normalised(g.name) != "" && Normalised(g.name) == Normalised(h.name)
  }

  /** No two live levels share a name, ignoring case and surrounding space. */
  ghost predicate NamesUnique(groups: map<OID, Group>) {
    forall j, k :: j in groups && k in groups && j != k ==> !Clash(groups[j], groups[k])
  }

  /** The n-th name tried: the base, then "base 2", "base 3", ... */
  function Candidate(base: string, n: nat): string {
    if n < 2 then base else base + " " + Dec(n)
  }

  ghost predicate Trimmed(s: string) {
    s == "" || (!IsSpace(s[0]) && !IsSpace(s[|s| - 1]))
  }

  lemma {:induction false} TrimRightTrims(s: string)
    requires s == "" || !IsSpace(s[0])
    ensures Trimmed(TrimRight(s))
  {
    if s != "" && IsSpace(s[|s| - 1]) {
      TrimRightTrims(s[..|s| - 1]);
    }
  }

  lemma {:induction false} TrimLeftTrims(s: string)
    ensures TrimLeft(s) == "" || !IsSpace(TrimLeft(s)[0])
  {
    if s != "" && IsSpace(s[0]) {
      TrimLeftTrims(s[1..]);
    }
  }

  lemma TrimSpaceTrims(s: string)
    ensures Trimmed(TrimSpace(s))
    ensures Trimmed(s) ==> TrimSpace(s) == s
  {
    TrimLeftTrims(s);
    TrimRightTrims(TrimLeft(s));
  }

  lemma CandidateIsTrimmed(base: string, n: nat)
    requires Trimmed(base) && base != ""
    ensures TrimSpace(Candidate(base, n)) == Candidate(base, n)
  {
    var c := Candidate(base, n);
    if n >= 2 {
      assert c[0] == base[0] && c[|c| - 1] == Dec(n)[|Dec(n)| - 1];
      assert IsDigit(Dec(n)[|Dec(n)| - 1]);
    }
    TrimSpaceTrims(c);
  }

  lemma NamesStayUnique(groups: map<OID, Group>, oid: OID, group: Group)
    requires oid !in groups && TrimSpace(group.name) == group.name && Lower(group.name) !in LiveNames(groups)
    ensures NamesUnique(groups) ==> NamesUnique(groups[oid := group])
  {
    forall k | k in groups && !groups[k].deleted ensures Normalised(groups[k].name) != Normalised(group.name) {
      assert Normalised(groups[k].name) in LiveNames(groups);
    }
  }

  lemma CandidatesDiffer(base: string, m: nat, n: nat)
    requires 1 <= m < n
    ensures !EqualFold(Candidate(base, m), Candidate(base, n))
  {
    var a, b := Candidate(base, m), Candidate(base, n);
    if EqualFold(a, b) {
      assert |a| == |b|;
      forall i | |base| < i < |a| ensures a[i] == b[i] {
        assert LowerChar(a[i]) == Lower(a)[i] == Lower(b)[i] == LowerChar(b[i]);
        assert IsDigit(b[i]) && IsDigit(a[i]);
      }
      assert a[|base| + 1..] == Dec(m) && b[|base| + 1..] == Dec(n);
      assert a[|base| + 1..] == b[|base| + 1..];
      DecInjective(m, n);
    }
  }

  // ---- What names are given ----

  /** The n-th name tried: the base, then "base 2", "base 3", ... */
  ghost predicate IsCandidate(base: string, n: int, name: string) {
    n >= 1 && name == if n == 1 then base else base + " " + Dec(n)
  }

  /** A live level has the name, ignoring the space around it and the case of letters. */
  ghost predicate InUse(groups: map<OID, Group>, name: string) {
    exists k, t, l :: k in groups && !groups[k].deleted && TrimmedTo(groups[k].name, t)
                      && LoweredTo(t, l) && LoweredTo(name, l)
  }

  /** The name asked for, trimmed, or else the default. */
  ghost predicate IsBase(asked: string, base: string) {
    (base != "" && TrimmedTo(asked, base)) || (TrimmedTo(asked, "") && base == "Imported controller access")
  }

  /** The first of the names tried that is not in use. */
  ghost predicate NamedFor(groups: map<OID, Group>, asked: string, name: string) {
    exists base, n :: IsBase(asked, base) && IsCandidate(base, n, name) && !InUse(groups, name)
                      && forall m, c :: 1 <= m < n && IsCandidate(base, m, c) ==> InUse(groups, c)
  }

  lemma InUseIs(groups: map<OID, Group>, name: string)
    ensures InUse(groups, name) <==> Lower(name) in LiveNames(groups)
  {
    LowerIs(name);
    if Lower(name) in LiveNames(groups) {
      var k :| k in groups && !groups[k].deleted && Normalised(groups[k].name) == Lower(name);
      TrimSpaceIs(groups[k].name);
      LowerIs(TrimSpace(groups[k].name));
      assert LoweredTo(TrimSpace(groups[k].name), Lower(name));
    }
    if InUse(groups, name) {
      var k, t, l :| k in groups && !groups[k].deleted && TrimmedTo(groups[k].name, t)
                     && LoweredTo(t, l) && LoweredTo(name, l);
      TrimSpaceIs(groups[k].name);
      TrimIsUnique(groups[k].name, t, TrimSpace(groups[k].name));
      LowerIs(t);
      assert l == Lower(t) && l == Lower(name);
    }
  }

  lemma {:induction false} TriedInUse(groups: map<OID, Group>, base: string, n: nat, m: nat)
    requires Tried(base, n) <= LiveNames(groups) && 1 <= m <= n
    ensures InUse(groups, Candidate(base, m))
  {
    if m == n {
      InUseIs(groups, Candidate(base, n));
    } else {
      TriedInUse(groups, base, n - 1, m);
    }
  }

  lemma FreshIsNamed(groups: map<OID, Group>, asked: string, name: string, n: nat)
    requires FirstFresh(BaseName(asked), n, name, LiveNames(groups))
    ensures NamedFor(groups, asked, name)
  {
    var base := BaseName(asked);
    TrimSpaceIs(asked);
    assert IsBase(asked, base) && IsCandidate(base, n, name);
    InUseIs(groups, name);
    forall m, c | 1 <= m < n && IsCandidate(base, m, c) ensures InUse(groups, c) {
      TriedInUse(groups, base, n - 1, m);
      assert c == Candidate(base, m);
    }
  }

  // ---- Matching an exact set of relays ----

  /** What the source asks of an existing level before reusing it. */
  predicate Reusable(g: Group, wanted: set<OID>, catalogued: set<OID>) {
    && !g.deleted && g.oid != NO_ACCESS_OID && !g.scheduled && !g.firstCard
    && |g.AccessDoors(catalogued)| == |wanted|
    && forall d :: d in wanted ==> g.Grants(d, catalogued)
  }

  /** An unrestricted level for exactly these relays. */
  ghost predicate GrantsExactly(g: Group, wanted: set<OID>, catalogued: set<OID>) {
    && !g.deleted && g.oid != NO_ACCESS_OID && !g.scheduled && !g.firstCard
    && forall d :: g.Grants(d, catalogued) <==> d in wanted
  }

  /** The 24/7 level opens every catalogued door, any other the doors that it holds as true. */
  ghost predicate OpensExactly(g: Group, wanted: set<OID>, catalogued: set<OID>) {
    && !g.deleted && !g.scheduled && !g.firstCard && g.oid != "0.5.254"
    && forall d :: (if g.oid == "0.5.255" then d in catalogued else d in g.doors && g.doors[d]) <==> d in wanted
  }

  lemma GrantsOpen(g: Group, wanted: set<OID>, catalogued: set<OID>)
    ensures GrantsExactly(g, wanted, catalogued) <==> OpensExactly(g, wanted, catalogued)
  {
    assert forall d :: g.Grants(d, catalogued) <==>
                         if g.oid == "0.5.255" then d in catalogued else d in g.doors && g.doors[d];
  }

  lemma SubsetOfSameSize<T>(a: set<T>, b: set<T>)
    requires a <= b && |a| == |b|
    ensures a == b
  {
    assert b == a + (b - a);
  }

  /** Counting the entries is enough: a level that grants every wanted relay and has no more
      entries than that grants nothing else. The converse fails only for a level that keeps
      an entry for a revoked door. */
  lemma ReusableGrantsExactly(g: Group, wanted: set<OID>, catalogued: set<OID>)
    ensures Reusable(g, wanted, catalogued) <==>
              && GrantsExactly(g, wanted, catalogued)
              && forall d :: d in g.AccessDoors(catalogued) ==> g.Grants(d, catalogued)
  {
    var doors := g.AccessDoors(catalogued);
    if forall d :: d in wanted ==> g.Grants(d, catalogued) {
      assert wanted <= doors.Keys;
      if |doors| == |wanted| {
        SubsetOfSameSize(wanted, doors.Keys);
      }
    }
    if GrantsExactly(g, wanted, catalogued) && forall d :: d in doors ==> g.Grants(d, catalogued) {
      assert doors.Keys == wanted;
      assert |doors| == |doors.Keys|;
    }
  }

  ghost predicate HasReusable(groups: map<OID, Group>, wanted: set<OID>, catalogued: set<OID>) {
    exists k :: k in groups && groups[k].oid == k && Reusable(groups[k], wanted, catalogued)
  }

  ghost predicate WellKeyed(groups: map<OID, Group>) {
    forall k :: k in groups ==> groups[k].oid == k
  }

  class Groups {
    var groups: map<OID, Group>

    constructor ()
      ensures groups == map[]
    {
      groups := map[];
    }

    method FindReusable(wanted: set<OID>, catalogued: set<OID>) returns (found: Option<OID>)
      requires WellKeyed(groups)
      ensures found.Some? ==> found.value in groups && Reusable(groups[found.value], wanted, catalogued)
      ensures found.None? ==> !HasReusable(groups, wanted, catalogued)
    {
      var todo := groups.Keys;
      while todo != {}
        invariant todo <= groups.Keys
        invariant forall k :: k in groups && k !in todo ==> !Reusable(groups[k], wanted, catalogued)
      {
        var k :| k in todo;
        if Reusable(groups[k], wanted, catalogued) {
          return Some(k);
        }
        todo := todo - {k};
      }
      found := None;
    }

    method IsDuplicate(candidate: string) returns (duplicate: bool)
      ensures duplicate <==> Lower(candidate) in LiveNames(groups)
    {
      duplicate := false;
      var todo := groups.Keys;
      while todo != {}
        invariant todo <= groups.Keys
        invariant !duplicate
        invariant forall k :: k in groups && k !in todo && !groups[k].deleted ==>
                    Normalised(groups[k].name) != Lower(candidate)
      {
        var k :| k in todo;
        if !groups[k].deleted && EqualFold(TrimSpace(groups[k].name), candidate) {
          return true;
        }
        todo := todo - {k};
      }
    }

    /** Each rejected candidate is a different live name, so the search ends. */
    method SearchName(base: string) returns (candidate: string, ghost n: nat)
      ensures Lower(candidate) !in LiveNames(groups)
      ensures FirstFresh(base, n, candidate, LiveNames(groups))
    {
      candidate, n := base, 1;
      var suffix := 2;
      ghost var names := LiveNames(groups);
      var duplicate := IsDuplicate(candidate);
      while duplicate
        invariant suffix == n + 1 && n >= 1
        invariant candidate == Candidate(base, n)
        invariant Tried(base, n - 1) <= names
        invariant duplicate <==> Lower(candidate) in names
        decreases |names| + 1 - n, duplicate
      {
        Rejected(base, n, names);
        candidate := base + " " + Dec(suffix);
        suffix, n := suffix + 1, n + 1;
        duplicate := IsDuplicate(candidate);
      }
    }

    method FreshName(name: string) returns (candidate: string, ghost n: nat)
      ensures FirstFresh(BaseName(name), n, candidate, LiveNames(groups)) && TrimSpace(candidate) == candidate
    {
      var base := TrimSpace(name);
      if base == "" {
        base := DEFAULT_NAME;
      }
      candidate, n := SearchName(base);
      BaseNameIsTrimmed(name);
      CandidateIsTrimmed(base, n);
    }

    method Add(catalog: Table, name: string, doors: map<OID, bool>, canAdd: bool) returns (r: Result<OID, string>)
      requires catalog.t.base == GROUPS_OID && exists n :: catalog.t.Free(n)
      modifies this, catalog
      ensures catalog.t.base == GROUPS_OID
      ensures Issued(old(catalog.t), catalog.t)
      ensures old(groups).Keys <= old(catalog.t).m.Keys ==> groups.Keys <= catalog.t.m.Keys
      ensures r.Ok? ==>
                r.value !in old(groups) && r.value != "" && r.value != NO_ACCESS_OID && r.value != ALWAYS_ACCESS_OID
                        && groups == old(groups)[r.value := Group(r.value, name, doors, false, false, false)]
      ensures r.Err? ==> groups == old(groups) && (!canAdd || exists k :: k in old(groups) && k !in old(catalog.t.m))
    {
      var oid := catalog.New();
      assert Issues(old(catalog.t), oid, catalog.t) && |oid| > 0;
      NotBuiltin(old(catalog.t), oid, catalog.t);
      if oid in groups {
        return Err("catalog returned duplicate OID");
      }
      if !canAdd {
        return Err("not authorised");
      }
      groups := groups[oid := Group(oid, name, doors, false, false, false)];
      r := Ok(oid);
    }

    /** Returns a live, unrestricted level for exactly the wanted relays, adding one under a
        fresh name only when no level can be reused. */
    method EnsureImported(catalog: Table, catalogued: set<OID>, name: string, relays: seq<OID>, canAdd: bool)
      returns (r: Result<OID, string>)
      requires WellKeyed(groups) && catalog.t.base == GROUPS_OID
      requires !HasReusable(groups, Elements(relays), catalogued) ==> exists n :: catalog.t.Free(n)
      modifies this, catalog
      ensures catalog.t.base == GROUPS_OID && (catalog.t == old(catalog.t) || Issued(old(catalog.t), catalog.t))
      ensures old(groups).Keys <= old(catalog.t).m.Keys ==> groups.Keys <= catalog.t.m.Keys
      ensures r.Ok? ==> Imported(old(groups), groups, r.value, Elements(relays), catalogued)
      ensures r.Ok? ==> OpensExactly(groups[r.value], Elements(relays), catalogued)
      ensures r.Ok? && r.value !in old(groups) ==> NamedFor(old(groups), name, groups[r.value].name)
      ensures r.Err? ==> groups == old(groups) && (!canAdd || exists k :: k in old(groups) && k !in old(catalog.t.m))
      ensures HasReusable(old(groups), Elements(relays), catalogued) ==>
                r.Ok? && groups == old(groups) && catalog.t == old(catalog.t)
    {
      var wanted := set d | d in relays;
      assert wanted == Elements(relays);
      var existing := FindReusable(wanted, catalogued);
      if existing.Some? {
        ReusableGrantsExactly(groups[existing.value], wanted, catalogued);
        GrantsOpen(groups[existing.value], wanted, catalogued);
        return Ok(existing.value);
      }
      var candidate;
      ghost var n;
      candidate, n := FreshName(name);
      r := Add(catalog, candidate, map d | d in wanted :: true, canAdd);
      if r.Ok? {
        ImportedLevel(old(groups), r.value, candidate, wanted, catalogued);
        FreshIsNamed(old(groups), name, candidate, n);
        GrantsOpen(groups[r.value], wanted, catalogued);
      }
    }

    /** A copy that edits do not reach; levels are values. */
    method Clone() returns (shadow: Groups)
      ensures fresh(shadow) && shadow.groups == groups
    {
      shadow := new Groups();
      shadow.groups := groups;
    }

    /** `invalid` are the modified levels whose own fields are not valid. */
    method Validate(invalid: set<OID>) returns (ok: bool)
      ensures ok <==> LevelsValid(groups, invalid)
    {
      var names: map<string, OID> := map[];
      var todo := groups.Keys;
      while todo != {}
        invariant todo <= groups.Keys && Checked(groups, invalid, todo, names)
      {
        var k :| k in todo;
        var g := groups[k];
        if g.deleted {
          todo := todo - {k};
          continue;
        }
        if g.oid == "" || k != g.oid || k in invalid {
          return false;
        }
        var n := TrimSpace(Lower(g.name));
        LowerThenTrim(g.name);
        if n in names && n != "" {
          assert Clash(groups[names[n]], g);
          return false;
        }
        names, todo := names[n := k], todo - {k};
      }
      ok := true;
    }
  }

  /** The levels visited are valid, and each live name leads to its level. */
  ghost predicate Checked(groups: map<OID, Group>, invalid: set<OID>, todo: set<OID>, names: map<string, OID>) {
    && (forall n :: n in names && n != "" ==>
          names[n] in groups && names[n] !in todo && !groups[names[n]].deleted
              && Normalised(groups[names[n]].name) == n)
    && (forall k :: k in groups && k !in todo && !groups[k].deleted ==>
          k != "" && groups[k].oid == k && k !in invalid
          && (Normalised(groups[k].name) != "" ==>
                Normalised(groups[k].name) in names && names[Normalised(groups[k].name)] == k))
  }

  ghost predicate LevelsValid(groups: map<OID, Group>, invalid: set<OID>) {
    && (forall k :: k in groups && !groups[k].deleted ==> k != "" && groups[k].oid == k && k !in invalid)
    && NamesUnique(groups)
  }

  /** Adding valid levels keeps the levels valid; what is added is not modified, so its own fields
      are not checked. */
  lemma LevelsStayValid(before: map<OID, Group>, after: map<OID, Group>, invalid: set<OID>)
    requires LevelsValid(before, invalid) && invalid <= before.Keys && WellKeyed(after) && NamesUnique(after)
    requires forall k :: k in before ==> k in after && after[k] == before[k]
    requires forall k :: k in after && k !in before ==> k != ""
    ensures LevelsValid(after, invalid)
  {
  }

  ghost predicate Issued(before: Tab, after: Tab) {
    exists oid :: Issues(before, oid, after)
  }

  /** Room for that many new levels, with the numbers reserved for the built-in ones to spare. */
  ghost predicate Roomy(t: Tab, room: nat) {
    t.base == GROUPS_OID && t.Bounded() && t.last + 3 * room <= MAX_UINT32
  }

  lemma IssuedKeepsRoom(before: Tab, after: Tab, room: nat)
    requires Roomy(before, room + 1)
    ensures exists n :: before.Free(n)
    ensures Issued(before, after) ==> Roomy(after, room)
  {
    FreeBelowLimit(before);
    if oid :| Issues(before, oid, after) {
      NewMovesUp(before, oid, after);
      var next: U32 := if before.last == 253 || before.last == 254 then 256 else before.last + 1;
      assert before.Free(next);
      assert Steps(before.last, after.last) <= Steps(before.last, next) <= 3;
    }
  }

  /** The state after an import that returned `oid`: a level for exactly the wanted relays,
      nothing else changed, names still unique, and the level reusable from now on. */
  ghost predicate Imported(before: map<OID, Group>, after: map<OID, Group>, oid: OID, wanted: set<OID>,
                           catalogued: set<OID>) {
    && oid in after && after[oid].oid == oid && GrantsExactly(after[oid], wanted, catalogued)
    && WellKeyed(after) && HasReusable(after, wanted, catalogued)
    && (after == before
        || (oid !in before && oid != "" && after == before[oid := after[oid]]
            && Normalised(after[oid].name) !in LiveNames(before)))
    && (NamesUnique(before) ==> NamesUnique(after))
  }

  lemma ImportedLevel(groups: map<OID, Group>, oid: OID, name: string, wanted: set<OID>, catalogued: set<OID>)
    requires WellKeyed(groups) && oid !in groups && oid != "" && oid != NO_ACCESS_OID && oid != ALWAYS_ACCESS_OID
    requires Lower(name) !in LiveNames(groups) && TrimSpace(name) == name
    ensures Imported(groups, groups[oid := Group(oid, name, map d | d in wanted :: true, false, false, false)], oid,
                     wanted, catalogued)
  {
    var doors: map<OID, bool> := map d | d in wanted :: true;
    var group := Group(oid, name, doors, false, false, false);
    var after := groups[oid := group];
    assert doors.Keys == wanted;
    ReusableGrantsExactly(group, wanted, catalogued);
    assert after[oid].oid == oid && Reusable(after[oid], wanted, catalogued);
    NamesStayUnique(groups, oid, group);
  }

  function BaseName(name: string): string {
    if TrimSpace(name) == "" then DEFAULT_NAME else TrimSpace(name)
  }

  /** The first n names tried, as they are compared. */
  function Tried(base: string, n: nat): set<string> {
    if n == 0 then {} else Tried(base, n - 1) + {Lower(Candidate(base, n))}
  }

  /** The candidate is the first one that no live level has. */
  ghost predicate FirstFresh(base: string, n: nat, candidate: string, names: set<string>) {
    n >= 1 && candidate == Candidate(base, n) && Lower(candidate) !in names && Tried(base, n - 1) <= names
  }

  lemma {:induction false} TriedMembers(base: string, n: nat, m: nat)
    requires n < m
    ensures Lower(Candidate(base, m)) !in Tried(base, n)
  {
    if n > 0 {
      TriedMembers(base, n - 1, m);
      CandidatesDiffer(base, n, m);
    }
  }

  lemma {:induction false} TriedCount(base: string, n: nat)
    ensures |Tried(base, n)| == n
  {
    if n > 0 {
      TriedCount(base, n - 1);
      TriedMembers(base, n - 1, n);
    }
  }

  lemma BaseNameIsTrimmed(name: string)
    ensures Trimmed(BaseName(name)) && BaseName(name) != ""
  {
    TrimSpaceTrims(name);
  }

  lemma Rejected(base: string, n: nat, names: set<string>)
    requires n >= 1 && Tried(base, n - 1) <= names && Lower(Candidate(base, n)) in names
    ensures Tried(base, n) <= names && n <= |names|
  {
    TriedCount(base, n);
    var rest := names - Tried(base, n);
    assert names == Tried(base, n) + rest;
  }

  lemma NotBuiltin(t: Tab, oid: OID, t': Tab)
    requires t.base == GROUPS_OID && Issues(t, oid, t')
    ensures oid != NO_ACCESS_OID && oid != ALWAYS_ACCESS_OID
  {
    assert Dec(254) == "254" && Dec(255) == "255";
    assert NO_ACCESS_OID == Child(GROUPS_OID, 254) && ALWAYS_ACCESS_OID == Child(GROUPS_OID, 255);
    if oid == Child(GROUPS_OID, 254) { ChildInjective(GROUPS_OID, 254, t'.last); }
    if oid == Child(GROUPS_OID, 255) { ChildInjective(GROUPS_OID, 255, t'.last); }
  }

  /** A second import of the same relays, under any name, adds nothing. */
  method EnsureTwice(gg: Groups, catalog: Table, catalogued: set<OID>, name: string, again: string, relays: seq<OID>)
    returns (first: Result<OID, string>, second: Result<OID, string>, after: map<OID, Group>)
    requires WellKeyed(gg.groups) && catalog.t.base == GROUPS_OID && (exists n :: catalog.t.Free(n))
    modifies gg, catalog
    ensures old(gg.groups).Keys <= old(catalog.t).m.Keys ==> first.Ok?
    ensures first.Ok? ==> second.Ok? && gg.groups == after
                          && second.value in after && GrantsExactly(after[second.value], Elements(relays), catalogued)
  {
    first := gg.EnsureImported(catalog, catalogued, name, relays, true);
    second := first;
    after := gg.groups;
    if first.Ok? {
      second := gg.EnsureImported(catalog, catalogued, again, relays, true);
    }
  }
}
