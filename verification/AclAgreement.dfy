/** The second computation of the access control list, for one card on one controller, and its
    agreement with the first. */
module AclAgreement {
  import opened Common
  import opened Oid
  import opened Groups
  import opened TimeProfiles
  import opened LevelMerge
  import opened Acl

  // ---- The second computation: one card on one controller ----

  datatype Controller = Controller(id: U32, doors: map<int, OID>) {
    function Door(d: int): OID {
      if d in doors then doors[d] else ""
    }
  }

  /** The controller's own door map agrees with the catalog's. */
  ghost predicate Consistent(site: Site, c: Controller) {
    c.id != 0 && forall d :: 1 <= d <= 4 ==> c.Door(d) == DoorAt(site.wires, Slot(c.id, d))
  }

  datatype Action = Nothing | DeleteCard | PutCard(from: int, to: int, doors: map<int, int>)

  datatype Permission = Permission(allowed: bool, profile: int)

  function PermissionOf(permissions: map<OID, Permission>, door: OID): Permission {
    if door in permissions then permissions[door] else Permission(false, 0)
  }

  ghost predicate WellFormed(permissions: map<OID, Permission>) {
    forall d :: d in permissions ==> (permissions[d].allowed <==> permissions[d].profile != 0)
  }

  /** A level has been merged into the permissions: the fold by permission record takes the
      same steps as the fold by controller entry. */
  ghost predicate LevelMerged(a: map<OID, Permission>, b: map<OID, Permission>, group: Group, profile: int,
                              catalogued: set<OID>) {
    && WellFormed(b)
    && forall d :: StepTaken(a, b, group, profile, catalogued, d)
  }

  ghost predicate StepTaken(a: map<OID, Permission>, b: map<OID, Permission>, group: Group, profile: int,
                            catalogued: set<OID>, d: OID) {
    var was := PermissionOf(a, d).profile;
    Some(PermissionOf(b, d).profile) == if group.Grants(d, catalogued) then Resolve(was, profile) else Some(was)
  }

  method MergeLevel(permissions: map<OID, Permission>, group: Group, profile: int, catalogued: set<OID>)
    returns (r: Result<map<OID, Permission>, AclError>)
    requires WellFormed(permissions) && profile != 0
    ensures r.Ok? ==> LevelMerged(permissions, r.value, group, profile, catalogued)
    ensures r.Err? ==> r.error == Conflict &&
                       exists d ::
                           group.Grants(d, catalogued) && Resolve(PermissionOf(permissions, d).profile, profile).None?
  {
    var doors := group.AccessDoors(catalogued);
    var current := permissions;
    var todo := doors.Keys;
    while todo != {}
      invariant todo <= doors.Keys && WellFormed(current)
      invariant forall d :: d in todo ==> PermissionOf(current, d) == PermissionOf(permissions, d)
      invariant forall d :: d !in todo ==> StepTaken(permissions, current, group, profile, catalogued, d)
    {
      var d :| d in todo;
      var allowed := doors[d];
      var p := PermissionOf(current, d);
      if allowed && p.allowed && p.profile != profile && p.profile != 1 && profile != 1 {
        assert group.Grants(d, catalogued) && Resolve(PermissionOf(permissions, d).profile, profile).None?;
        return Err(Conflict);
      }
      var resolved := p.profile;
      if allowed && (!p.allowed || profile == 1) {
        resolved := profile;
      }
      current := current[d := Permission(p.allowed || allowed, resolved)];
      todo := todo - {d};
    }
    r := Ok(current);
  }

  ghost function GrantingBy(site: Site, over: set<OID>, door: OID): set<int> {
    set g | g in over && g in site.groups && Profile(site.groups[g]).Some?
            && site.groups[g].Grants(door, site.catalogued) :: Profile(site.groups[g]).value
  }

  lemma GrantingByMembers(site: Site, card: Card, over: set<OID>, door: OID)
    requires over <= Members(card)
    ensures GrantingBy(site, over, door) <= Granting(site, card, door)
    ensures over == Members(card) ==> GrantingBy(site, over, door) == Granting(site, card, door)
  {
    forall p | p in GrantingBy(site, over, door) ensures p in Granting(site, card, door) {
      var g :| g in over && g in site.groups && Profile(site.groups[g]).Some?
               && site.groups[g].Grants(door, site.catalogued) && Profile(site.groups[g]).value == p;
      assert g in card.groups && Member(card, g);
    }
    if over == Members(card) {
      forall p | p in Granting(site, card, door) ensures p in GrantingBy(site, over, door) {
        var g :| g in card.groups && Member(card, g) && g in site.groups && Profile(site.groups[g]).Some?
                 && site.groups[g].Grants(door, site.catalogued) && Profile(site.groups[g]).value == p;
        assert g in over;
      }
    }
  }

  lemma GrantingByStep(site: Site, over: set<OID>, g: OID, door: OID)
    ensures GrantingBy(site, over + {g}, door) == GrantingBy(site, over, door) +
              if g in site.groups && Profile(site.groups[g]).Some? && site.groups[g].Grants(door, site.catalogued)
              then {Profile(site.groups[g]).value} else {}
    ensures 0 !in GrantingBy(site, over, door)
  {
  }

  /** The permissions hold, for every door, the merge of the levels in `over`. */
  ghost predicate Merged(site: Site, permissions: map<OID, Permission>, over: set<OID>) {
    WellFormed(permissions) && forall d :: Merges(GrantingBy(site, over, d), PermissionOf(permissions, d).profile)
  }

  lemma MergedStep(site: Site, a: map<OID, Permission>, b: map<OID, Permission>, over: set<OID>, g: OID, profile: int)
    requires Merged(site, a, over) && g in site.groups && Profile(site.groups[g]) == Some(profile)
    requires LevelMerged(a, b, site.groups[g], profile, site.catalogued)
    ensures Merged(site, b, over + {g})
  {
    forall d ensures Merges(GrantingBy(site, over + {g}, d), PermissionOf(b, d).profile) {
      assert StepTaken(a, b, site.groups[g], profile, site.catalogued, d);
      GrantingByStep(site, over, g, d);
      ResolveMerges(GrantingBy(site, over, d), PermissionOf(a, d).profile, profile);
      assert GrantingBy(site, over, d) + {} == GrantingBy(site, over, d);
    }
  }

  ghost predicate CardConflicts(site: Site, card: Card) {
    exists d :: Clashing(Granting(site, card, d))
  }

  method MergeLevels(site: Site, card: Card) returns (r: Result<map<OID, Permission>, AclError>)
    ensures r.Ok? ==> Merged(site, r.value, Members(card)) && !BadLevel(site, card)
    ensures r.Err? ==>
              if r.error == Conflict then CardConflicts(site, card) else r.error == BadProfile && BadLevel(site, card)
  {
    var current: map<OID, Permission> := map[];
    var todo := Members(card);
    ghost var done: set<OID> := {};
    forall d ensures GrantingBy(site, {}, d) == {} {}
    while todo != {}
      invariant todo + done == Members(card)
      invariant Merged(site, current, done)
      invariant forall g :: g in done && g in site.groups ==> Profile(site.groups[g]).Some?
    {
      var g :| g in todo;
      if g in site.groups {
        var profile := Profile(site.groups[g]);
        if profile.None? {
          return Err(BadProfile);
        }
        r := MergeLevel(current, site.groups[g], profile.value, site.catalogued);
        if r.Err? {
          var d :|
              site.groups[g].Grants(d, site.catalogued)
                  && Resolve(PermissionOf(current, d).profile, profile.value).None?;
          GrantingByStep(site, done, g, d);
          ResolveMerges(GrantingBy(site, done, d), PermissionOf(current, d).profile, profile.value);
          GrantingByMembers(site, card, done + {g}, d);
          assert Clashing(Granting(site, card, d));
          return;
        }
        MergedStep(site, current, r.value, done, g, profile.value);
        current := r.value;
      } else {
        forall d ensures GrantingBy(site, done + {g}, d) == GrantingBy(site, done, d) {}
      }
      todo, done := todo - {g}, done + {g};
    }
    assert done == Members(card);
    r := Ok(current);
  }

  method SetDoors(c: Controller, acl: map<int, int>, doors: seq<OID>, v: int) returns (r: map<int, int>)
    requires acl.Keys == {1, 2, 3, 4}
    ensures r.Keys == {1, 2, 3, 4}
    ensures forall d :: d in r ==> r[d] == if d in c.doors && c.doors[d] in doors then v else acl[d]
  {
    r := acl;
    for i := 0 to |doors|
      invariant r.Keys == {1, 2, 3, 4}
      invariant forall d :: d in r ==> r[d] == if d in c.doors && c.doors[d] in doors[..i] then v else acl[d]
    {
      ghost var before := r;
      for d := 1 to 5
        invariant r.Keys == {1, 2, 3, 4}
        invariant forall e :: e in r ==>
                    r[e] == if e < d && e in c.doors && c.doors[e] == doors[i] then v else before[e]
      {
        if d in c.doors && c.doors[d] == doors[i] {
          r := r[d := v];
        }
      }
    }
  }

  method ReadDoors(permissions: map<OID, Permission>, c: Controller) returns (acl: map<int, int>)
    requires WellFormed(permissions)
    ensures acl.Keys == {1, 2, 3, 4}
    ensures forall d :: d in acl ==> acl[d] == if d in c.doors then PermissionOf(permissions, c.doors[d]).profile else 0
  {
    acl := NO_DOORS;
    for d := 1 to 5
      invariant acl.Keys == {1, 2, 3, 4}
      invariant forall e :: e in acl ==>
                  acl[e] == if e < d && e in c.doors then PermissionOf(permissions, c.doors[e]).profile else 0
    {
      if d in c.doors && c.doors[d] in permissions {
        if permissions[c.doors[d]].allowed {
          acl := acl[d := permissions[c.doors[d]].profile];
        }
      }
    }
  }

  method BaseDoors(site: Site, c: Controller, card: Card) returns (r: Result<map<int, int>, AclError>)
    requires Sound(site)
    ensures r.Ok? ==> r.value.Keys == {1, 2, 3, 4}
    ensures r.Ok? ==>
              (forall d :: d in r.value ==> Merges(Granting(site, card, c.Door(d)), r.value[d]))
                  && !BadLevel(site, card)
    ensures r.Err? ==>
              if r.error == Conflict then CardConflicts(site, card) else r.error == BadProfile && BadLevel(site, card)
  {
    var permissions := MergeLevels(site, card);
    if permissions.Err? {
      return Err(permissions.error);
    }
    var acl := ReadDoors(permissions.value, c);
    forall d | d in acl ensures Merges(Granting(site, card, c.Door(d)), acl[d]) {
      NoDoorNoLevel(site, card);
      GrantingByMembers(site, card, Members(card), c.Door(d));
    }
    r := Ok(acl);
  }

  ghost predicate DoorsResolved(site: Site, rules: Rules, c: Controller, card: Card, doors: map<int, int>) {
    doors.Keys == {1, 2, 3, 4} && forall d :: 1 <= d <= 4 ==> Resolved(site, rules, card, c.Door(d), doors[d])
  }

  /** Why the doors of a card cannot be worked out. */
  ghost predicate Explains(site: Site, rules: Rules, card: Card, error: AclError) {
    match error
    case Conflict => CardConflicts(site, card)
    case BadProfile => BadLevel(site, card)
    case RuleFailure => RuleFails(rules, card)
  }

  method CardDoors(site: Site, c: Controller, card: Card, rules: Rules) returns (r: Result<map<int, int>, AclError>)
    requires Sound(site)
    requires rules.Some? && rules.value(card).Verdict? ==>
               "" !in rules.value(card).allowed && "" !in rules.value(card).forbidden
    ensures r.Ok? ==> DoorsResolved(site, rules, c, card, r.value) && !BadLevel(site, card) && !RuleFails(rules, card)
    ensures r.Err? ==> Explains(site, rules, card, r.error)
  {
    r := BaseDoors(site, c, card);
    if r.Err? {
      return;
    }
    ghost var base := r.value;
    var acl := r.value;
    if rules.Some? {
      var verdict := rules.value(card);
      if verdict.RuleError? {
        return Err(RuleFailure);
      }
      acl := SetDoors(c, acl, verdict.allowed, 1);
      acl := SetDoors(c, acl, verdict.forbidden, 0);
    }
    assert forall d :: d in acl ==> acl[d] == RuledValue(base[d], c.Door(d), card, rules);
    ghost var ruled := acl;
    if Member(card, NO_ACCESS_OID) {
      acl := NO_DOORS;
    }
    forall d | 1 <= d <= 4 ensures Resolved(site, rules, card, c.Door(d), acl[d]) {
      assert Merges(Granting(site, card, c.Door(d)), base[d]);
      assert d in ruled;
    }
    r := Ok(acl);
  }

  lemma NoDoorNoLevel(site: Site, card: Card)
    requires Sound(site)
    ensures Granting(site, card, "") == {}
  {
  }

  method Lookup(cards: map<OID, Card>, number: U32) returns (k: Option<OID>)
    ensures k.Some? ==> k.value in cards && cards[k.value].number == number != 0
    ensures k.None? && number != 0 ==> forall j :: j in cards ==> cards[j].number != number
  {
    k := None;
    if number != 0 {
      var todo := cards.Keys;
      while todo != {}
        invariant todo <= cards.Keys
        invariant forall j :: j in cards && j !in todo ==> cards[j].number != number
      {
        var j :| j in todo;
        if cards[j].number == number {
          return Some(j);
        }
        todo := todo - {j};
      }
    }
  }

  /** What is sent to a controller for a card that is live, configured and has both dates. */
  ghost predicate Sent(site: Site, rules: Rules, c: Controller, card: Card, action: Action) {
    var from, to := OrElse(card.from, site.from), OrElse(card.to, site.to);
    if card.deleted || card.unconfigured || from.None? || to.None? then action == DeleteCard
    else
      && action.PutCard? && action.from == from.value && action.to == to.value
      && DoorsResolved(site, rules, c, card, action.doors)
  }

  /** The same in terms of the records alone. */
  ghost predicate SentMeans(site: Site, rules: Rules, c: Controller, card: Card, action: Action) {
    if card.deleted || card.unconfigured || (card.from.None? && site.from.None?) || (card.to.None? && site.to.None?)
    then action == DeleteCard
    else
      && action.PutCard? && action.doors.Keys == {1, 2, 3, 4}
      && Some(action.from) == (if card.from.Some? then card.from else site.from)
      && Some(action.to) == (if card.to.Some? then card.to else site.to)
      && forall d :: 1 <= d <= 4 ==>
           if d in c.doors && c.doors[d] != "" then Means(site, rules, card, c.doors[d], action.doors[d])
           else action.doors[d] == 0
  }

  lemma DoorsMean(site: Site, rules: Rules, c: Controller, card: Card, doors: map<int, int>, d: int)
    requires Sound(site) && !BadLevel(site, card) && DoorsResolved(site, rules, c, card, doors) && 1 <= d <= 4
    requires rules.Some? && rules.value(card).Verdict? ==>
               "" !in rules.value(card).allowed && "" !in rules.value(card).forbidden
    ensures if d in c.doors && c.doors[d] != "" then Means(site, rules, card, c.doors[d], doors[d]) else doors[d] == 0
  {
    ResolvedMeans(site, rules, card, c.Door(d), doors[d]);
    if c.Door(d) == "" {
      NoDoorMeansNone(site, rules, card, doors[d]);
    }
  }

  lemma SentIsMeant(site: Site, rules: Rules, c: Controller, card: Card, action: Action)
    requires Sound(site) && !BadLevel(site, card) && Sent(site, rules, c, card, action)
    requires rules.Some? && rules.value(card).Verdict? ==>
               "" !in rules.value(card).allowed && "" !in rules.value(card).forbidden
    ensures SentMeans(site, rules, c, card, action)
  {
    if action.PutCard? {
      forall d | 1 <= d <= 4
        ensures if d in c.doors && c.doors[d] != "" then Means(site, rules, card, c.doors[d], action.doors[d])
                else action.doors[d] == 0
      {
        DoorsMean(site, rules, c, card, action.doors, d);
      }
    }
  }

  method UpdateCardPermissions(site: Site, c: Controller, number: U32, rules: Rules)
    returns (r: Result<Action, AclError>)
    requires Sound(site) && RulesKnow(site, rules)
    ensures number == 0 ==> r == Ok(Nothing)
    ensures r.Ok? && number != 0 ==>
              if exists k :: k in site.cards && site.cards[k].number == number
              then exists k ::
                  k in site.cards && site.cards[k].number == number && Sent(site, rules, c, site.cards[k], r.value)
                      && SentMeans(site, rules, c, site.cards[k], r.value)
              else r.value == DeleteCard
    ensures r.Err? ==>
              exists k ::
                  k in site.cards && site.cards[k].number == number && Explains(site, rules, site.cards[k], r.error)
  {
    if number == 0 {
      return Ok(Nothing);
    }
    var k := Lookup(site.cards, number);
    if k.None? {
      return Ok(DeleteCard);
    }
    var card := site.cards[k.value];
    RulesKnowCard(site, rules, k.value);
    var doors := CardDoors(site, c, card, rules);
    if doors.Err? {
      return Err(doors.error);
    }
    if card.deleted || card.unconfigured {
      r := Ok(DeleteCard);
    } else if card.from.None? && site.from.None? {
      r := Ok(DeleteCard);
    } else if card.to.None? && site.to.None? {
      r := Ok(DeleteCard);
    } else {
      var from, to := card.from, card.to;
      if from.None? {
        from := site.from;
      }
      if to.None? {
        to := site.to;
      }
      r := Ok(PutCard(from.value, to.value, doors.value));
    }
    assert Sent(site, rules, c, card, r.value);
    SentIsMeant(site, rules, c, card, r.value);
  }

  lemma RulesKnowCard(site: Site, rules: Rules, k: OID)
    requires Sound(site) && RulesKnow(site, rules) && k in site.cards
    ensures rules.Some? && rules.value(site.cards[k]).Verdict? ==>
              "" !in rules.value(site.cards[k]).allowed && "" !in rules.value(site.cards[k]).forbidden
  {
  }

  // ---- Agreement ----

  /** For a live, configured card whose number no other record has, on a controller whose
      door map agrees with the catalog, the full list and the single-card update give every
      door the same profile and the card the same dates. */
  lemma PathsAgree(site: Site, rules: Rules, acl: Acl, k: OID, c: Controller, action: Action)
    requires Sole(site, k) && Consistent(site, c)
    requires forall d :: 1 <= d <= 4 ==> Settled(site, rules, acl, k, Slot(c.id, d))
    requires exists j ::
               j in site.cards && site.cards[j].number == site.cards[k].number
                   && Sent(site, rules, c, site.cards[j], action)
    ensures action == DeleteCard <==>
              OrElse(site.cards[k].from, site.from).None? || OrElse(site.cards[k].to, site.to).None?
    ensures action.PutCard? ==>
              && Dates(acl, c.id, site.cards[k].number) == Some((Some(action.from), Some(action.to)))
              && action.doors.Keys == {1, 2, 3, 4}
              && forall d :: 1 <= d <= 4 ==> At(acl, Slot(c.id, d), site.cards[k].number) == Some(action.doors[d])
  {
    var card := site.cards[k];
    var j :| j in site.cards && site.cards[j].number == card.number && Sent(site, rules, c, site.cards[j], action);
    assert j == k;
    if action.PutCard? {
      assert Settled(site, rules, acl, k, Slot(c.id, 1));
      forall d | 1 <= d <= 4 ensures At(acl, Slot(c.id, d), card.number) == Some(action.doors[d]) {
        assert Settled(site, rules, acl, k, Slot(c.id, d));
        ResolvedIsUnique(site, rules, card, c.Door(d), action.doors[d], At(acl, Slot(c.id, d), card.number).value);
      }
    }
  }

  /** The whole agreement for the two methods: profiles, dates, and when the card is deleted from
      the controller instead. */
  method BothPaths(site: Site, ids: seq<U32>, c: Controller, rules: Rules, k: OID)
    returns (full: Result<Acl, AclError>, single: Result<Action, AclError>)
    requires Sound(site) && RulesKnow(site, rules)
    requires Sole(site, k) && Consistent(site, c) && c.id in ids
    ensures full.Ok? && single.Ok? ==>
              var card := site.cards[k];
              && (single.value == DeleteCard <==> OrElse(card.from, site.from).None? || OrElse(card.to, site.to).None?)
              && (single.value.PutCard? ==>
                    && Dates(full.value, c.id, card.number) == Some((Some(single.value.from), Some(single.value.to)))
                    && single.value.doors.Keys == {1, 2, 3, 4}
                    && forall d :: 1 <= d <= 4 ==>
                         At(full.value, Slot(c.id, d), card.number) == Some(single.value.doors[d]))
  {
    full := Permissions(site, ids, rules);
    single := UpdateCardPermissions(site, c, site.cards[k].number, rules);
    if full.Ok? && single.Ok? {
      PathsAgree(site, rules, full.value, k, c, single.value);
    }
  }

  // ---- Cards that share their number with deleted records ----

  /** The merge of what the card itself is granted is that of what all the records with its number
      are granted, after denial. */
  ghost predicate OwnMergeIsAll(site: Site, card: Card, door: OID) {
    exists v :: AllResolved(site, card.number, door, v) && Resolved(site, None, card, door, v)
  }

  lemma AllResolvedIsUnique(site: Site, number: U32, door: OID, v: int, w: int)
    requires AllResolved(site, number, door, v) && AllResolved(site, number, door, w)
    ensures v == w
  {
    var granting := AllGranting(site, number, door);
    var m :| Merges(granting, m) && v == if Denied(site, number) then 0 else m;
    var n :| Merges(granting, n) && w == if Denied(site, number) then 0 else n;
    MergeIsUnique(granting, m, n);
  }

  /** The two computations agree on a door exactly then. */
  lemma SharedAgreesExactly(site: Site, acl: Acl, k: OID, c: Controller, doors: map<int, int>, d: int)
    requires k in site.cards && Consistent(site, c) && 1 <= d <= 4
    requires SettledShared(site, acl, k, Slot(c.id, d)) && DoorsResolved(site, None, c, site.cards[k], doors)
    ensures At(acl, Slot(c.id, d), site.cards[k].number) == Some(doors[d]) <==>
              OwnMergeIsAll(site, site.cards[k], c.Door(d))
  {
    var card, door := site.cards[k], c.Door(d);
    var v := At(acl, Slot(c.id, d), card.number).value;
    assert AllResolved(site, card.number, door, v) && Resolved(site, None, card, door, doors[d]);
    if OwnMergeIsAll(site, card, door) {
      var w :| AllResolved(site, card.number, door, w) && Resolved(site, None, card, door, w);
      AllResolvedIsUnique(site, card.number, door, v, w);
      ResolvedIsUnique(site, None, card, door, doors[d], w);
    }
  }

  /** Without rules, for a live card that shares its number with deleted records only. The
      single-card update may find one of those instead, and then deletes the card; when it finds
      the live one, the two agree on a door if and only if the card's own merge is that of all
      the records. */
  method BothPathsShared(site: Site, ids: seq<U32>, c: Controller, k: OID)
    returns (full: Result<Acl, AclError>, single: Result<Action, AclError>)
    requires Sound(site) && SoleLive(site, k) && Consistent(site, c) && c.id in ids
    ensures full.Ok? && single.Ok? && single.value.PutCard? ==>
              && single.value.doors.Keys == {1, 2, 3, 4}
              && forall d :: 1 <= d <= 4 ==>
                   (At(full.value, Slot(c.id, d), site.cards[k].number) == Some(single.value.doors[d])
                    <==> OwnMergeIsAll(site, site.cards[k], c.Door(d)))
    ensures single.Ok? && single.value == DeleteCard ==>
              || OrElse(site.cards[k].from, site.from).None? || OrElse(site.cards[k].to, site.to).None?
              || exists j ::
                   j in site.cards && j != k && site.cards[j].number == site.cards[k].number && site.cards[j].deleted
  {
    full := Permissions(site, ids, None);
    single := UpdateCardPermissions(site, c, site.cards[k].number, None);
    if single.Ok? {
      ghost var j :|
          j in site.cards && site.cards[j].number == site.cards[k].number
              && Sent(site, None, c, site.cards[j], single.value);
      if single.value.PutCard? {
        assert j == k;
        if full.Ok? {
          forall d | 1 <= d <= 4
            ensures At(full.value, Slot(c.id, d), site.cards[k].number) == Some(single.value.doors[d])
                    <==> OwnMergeIsAll(site, site.cards[k], c.Door(d))
          {
            SharedAgreesExactly(site, full.value, k, c, single.value.doors, d);
          }
        }
      }
    }
  }

  /** A live card without levels and a deleted record with its number that has one: the deleted
      record still opens door 1 in the full list, and not in the single-card update. */
  function SharedNumberSite(): Site {
    var level: OID, door: OID := "0.5.1", "0.3.1";
    Site(map["0.4.1" := Card(1, 0, Some(1), Some(2), map[], false, false),
             "0.4.2" := Card(1, 0, Some(1), Some(2), map[level := true], true, false)],
         map[level := Group(level, "Staff", map[door := true], false, false, false)],
         {door}, {door}, map[Slot(7, 1) := door], None, None)
  }

  lemma SharedNumberDisagrees()
    ensures var site := SharedNumberSite();
            && Sound(site) && SoleLive(site, "0.4.1")
            && Consistent(site, Controller(7, map[1 := "0.3.1"])) && !OwnMergeIsAll(site, site.cards["0.4.1"], "0.3.1")
  {
    var site := SharedNumberSite();
    var live, gone, door := site.cards["0.4.1"], site.cards["0.4.2"], "0.3.1";
    assert Granting(site, live, door) == {};
    assert Profile(site.groups["0.5.1"]) == Some(1) && Member(gone, "0.5.1");
    assert 1 in Granting(site, gone, door);
    assert 1 in AllGranting(site, 1, door);
    assert !Denied(site, 1);
  }
}
