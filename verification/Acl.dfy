/** The access control list, worked out in two ways: for every card on every controller at
    once, and for one card on one controller. Both are proved against one specification. */
module Acl {
  import opened Common
  import opened Oid
  import opened Groups
  import opened TimeProfiles
  import opened LevelMerge

  /** One door channel of one controller. */
  datatype Slot = Slot(controller: U32, door: int)

  /** A date of None is Go's zero date. */
  datatype Card = Card(number: U32, pin: U32, from: Option<int>, to: Option<int>, groups: map<OID, bool>,
                       deleted: bool, unconfigured: bool)

  /** What the rule engine decides for a card. */
  datatype Verdict = RuleError | Verdict(allowed: seq<OID>, forbidden: seq<OID>)

  type Rules = Option<Card -> Verdict>

  datatype AclCard = AclCard(from: Option<int>, to: Option<int>, doors: map<int, int>)

  type Acl = map<U32, map<U32, AclCard>>

  datatype AclError = BadProfile | Conflict | RuleFailure

  /** The records both computations read: `doors` are the doors known to the system,
      `catalogued` those in the catalog, and `wires` the catalog's door of each channel. */
  datatype Site = Site(cards: map<OID, Card>, groups: map<OID, Group>, doors: set<OID>, catalogued: set<OID>,
                       wires: map<Slot, OID>, from: Option<int>, to: Option<int>)

  // ---- Specification ----

  function Profile(g: Group): Option<int> {
    AccessProfile(g.oid, g.scheduled)
  }

  predicate Member(card: Card, g: OID) {
    g in card.groups && card.groups[g]
  }

  /** The profiles of the levels that grant a card a door. */
  ghost function Granting(site: Site, card: Card, door: OID): set<int> {
    set g | g in card.groups && Member(card, g) && g in site.groups && Profile(site.groups[g]).Some?
            && site.groups[g].Grants(door, site.catalogued) :: Profile(site.groups[g]).value
  }

  function RuleValue(v: int, door: OID, verdict: Verdict): int
    requires verdict.Verdict?
  {
    if door in verdict.forbidden then 0 else if door in verdict.allowed then 1 else v
  }

  function RuledValue(v: int, door: OID, card: Card, rules: Rules): int {
    if rules.Some? && rules.value(card).Verdict? then RuleValue(v, door, rules.value(card)) else v
  }

  /** 0 if the card has the No Access level, else 0 if a rule forbids the door, else 1 if a
      rule allows it, else the merge of the levels that grant it. */
  ghost predicate Resolved(site: Site, rules: Rules, card: Card, door: OID, v: int) {
    exists m :: Merges(Granting(site, card, door), m)
                && v == if Member(card, NO_ACCESS_OID) then 0 else RuledValue(m, door, card, rules)
  }

  lemma ResolvedIsUnique(site: Site, rules: Rules, card: Card, door: OID, v: int, w: int)
    requires Resolved(site, rules, card, door, v) && Resolved(site, rules, card, door, w)
    ensures v == w
  {
    var granting := Granting(site, card, door);
    var m :| Merges(granting, m) && v == if Member(card, NO_ACCESS_OID) then 0 else RuledValue(m, door, card, rules);
    var n :| Merges(granting, n) && w == if Member(card, NO_ACCESS_OID) then 0 else RuledValue(n, door, card, rules);
    MergeIsUnique(granting, m, n);
  }

  /** A live, configured card whose number no other record has, deleted ones included. */
  ghost predicate Sole(site: Site, k: OID) {
    && k in site.cards && site.cards[k].number != 0 && !site.cards[k].deleted && !site.cards[k].unconfigured
    && forall j :: j in site.cards && j != k ==> site.cards[j].number != site.cards[k].number
  }

  function DoorAt(wires: map<Slot, OID>, s: Slot): OID {
    if s in wires then wires[s] else ""
  }

  /** A live, configured card; every other record with its number is deleted. */
  ghost predicate SoleLive(site: Site, k: OID) {
    && k in site.cards && Listed(site.cards[k])
    && forall j :: j in site.cards && j != k && site.cards[j].number == site.cards[k].number ==> site.cards[j].deleted
  }

  /** The card has a level without a valid time profile. */
  ghost predicate BadLevel(site: Site, card: Card) {
    exists g :: g in Members(card) && g in site.groups && Profile(site.groups[g]).None?
  }

  ghost predicate HasBadLevel(site: Site) {
    exists k :: k in site.cards && BadLevel(site, site.cards[k])
  }

  predicate RuleFails(rules: Rules, card: Card) {
    rules.Some? && rules.value(card).RuleError?
  }

  ghost predicate SomeRuleFails(site: Site, rules: Rules) {
    exists k :: k in site.cards && RuleFails(rules, site.cards[k])
  }

  /** Each door is assigned to at most one channel, and is known. */
  ghost predicate Sound(site: Site) {
    && "" !in site.doors && "" !in site.catalogued
    && (forall g :: g in site.groups ==> "" !in site.groups[g].doors)
    && (forall s :: s in site.wires ==>
          s.controller != 0 && 1 <= s.door <= 4 && (site.wires[s] == "" || site.wires[s] in site.doors))
    && WiredOnce(site.wires)
  }

  ghost predicate WiredOnce(wires: map<Slot, OID>) {
    forall s, t :: s in wires && t in wires && wires[s] == wires[t] != "" ==> s == t
  }

  ghost predicate KnownDoors(site: Site, doors: seq<OID>) {
    forall d :: d in doors ==> d in site.doors
  }

  /** Rules name known doors only. */
  ghost predicate RulesKnow(site: Site, rules: Rules) {
    forall k :: k in site.cards && rules.Some? && rules.value(site.cards[k]).Verdict? ==>
                  var verdict := rules.value(site.cards[k]);
                  KnownDoors(site, verdict.allowed) && KnownDoors(site, verdict.forbidden)
  }

  // ---- What a profile means, in terms of the records alone ----

  /** A level of the card opens the door: the 24/7 level opens every catalogued door, any other the
      doors that its own record holds as true. */
  ghost predicate Opens(site: Site, card: Card, g: OID, door: OID) {
    && g in card.groups && card.groups[g] && g in site.groups
    && if site.groups[g].oid == "0.5.255" then door in site.catalogued
       else door in site.groups[g].doors && site.groups[g].doors[door]
  }

  ghost predicate OpensAlways(site: Site, card: Card, g: OID, door: OID) {
    Opens(site, card, g, door) && !site.groups[g].scheduled
  }

  /** Membership of level "0.5.254" closes every door; after it a rule that forbids the door counts,
      then one that allows it, then the levels: 0 exactly when none opens the door, 1 exactly when
      an unscheduled one does, and otherwise the time profile that all those that open it have. */
  ghost predicate Means(site: Site, rules: Rules, card: Card, door: OID, v: int) {
    var verdict := if rules.Some? then rules.value(card) else RuleError;
    if "0.5.254" in card.groups && card.groups["0.5.254"] then v == 0
    else if verdict.Verdict? && door in verdict.forbidden then v == 0
    else if verdict.Verdict? && door in verdict.allowed then v == 1
    else
      && (v != 0 <==> exists g :: Opens(site, card, g, door))
      && (v == 1 <==> exists g :: OpensAlways(site, card, g, door))
      && (forall g :: Opens(site, card, g, door) && v != 1 ==> TimeProfileID(site.groups[g].oid) == Some(v))
  }

  lemma GrantingOpens(site: Site, card: Card, door: OID)
    requires !BadLevel(site, card)
    ensures forall g :: Opens(site, card, g, door) ==>
                          Profile(site.groups[g]).Some? && Profile(site.groups[g]).value in Granting(site, card, door)
    ensures forall p :: p in Granting(site, card, door) ==>
                          exists g :: Opens(site, card, g, door) && Profile(site.groups[g]) == Some(p)
  {
    forall g | Opens(site, card, g, door)
      ensures Profile(site.groups[g]).Some? && Profile(site.groups[g]).value in Granting(site, card, door)
    {
      assert g in Members(card);
    }
    forall p | p in Granting(site, card, door)
      ensures exists g :: Opens(site, card, g, door) && Profile(site.groups[g]) == Some(p)
    {
      var g :| g in card.groups && Member(card, g) && g in site.groups && Profile(site.groups[g]) == Some(p)
               && site.groups[g].Grants(door, site.catalogued);
      assert Opens(site, card, g, door);
    }
  }

  /** The merge of the levels, in those terms. */
  lemma MergeMeans(site: Site, card: Card, door: OID, v: int)
    requires !BadLevel(site, card) && Merges(Granting(site, card, door), v)
    ensures v != 0 <==> exists g :: Opens(site, card, g, door)
    ensures v == 1 <==> exists g :: OpensAlways(site, card, g, door)
    ensures forall g :: Opens(site, card, g, door) && v != 1 ==> TimeProfileID(site.groups[g].oid) == Some(v)
  {
    var granting := Granting(site, card, door);
    GrantingOpens(site, card, door);
    assert 0 !in granting;
    if v != 0 {
      assert v in granting;
      var g :| Opens(site, card, g, door) && Profile(site.groups[g]) == Some(v);
      assert v == 1 ==> OpensAlways(site, card, g, door);
    }
    forall g | Opens(site, card, g, door)
      ensures v != 0 && (!site.groups[g].scheduled ==> v == 1)
      ensures v != 1 ==> TimeProfileID(site.groups[g].oid) == Some(v)
    {
      var p := Profile(site.groups[g]).value;
      assert p in granting;
    }
  }

  lemma ResolvedMeans(site: Site, rules: Rules, card: Card, door: OID, v: int)
    requires !BadLevel(site, card) && Resolved(site, rules, card, door, v)
    ensures Means(site, rules, card, door, v)
  {
    var m :| Merges(Granting(site, card, door), m)
             && v == if Member(card, NO_ACCESS_OID) then 0 else RuledValue(m, door, card, rules);
    MergeMeans(site, card, door, m);
  }

  /** Without rules: the 24/7 level opens every catalogued door, whatever its own record lists; a
      card with one level of another identifier gets through exactly the doors which that record
      holds as true; and the No Access level closes all. */
  lemma LevelsSay(site: Site, card: Card, g: OID, door: OID, v: int)
    requires Means(site, None, card, door, v)
    requires g in card.groups && card.groups[g] && g in site.groups && site.groups[g].oid == g
    ensures g == "0.5.254" ==> v == 0
    ensures g == "0.5.255" && !site.groups[g].scheduled && door in site.catalogued ==>
              v == 1 || ("0.5.254" in card.groups && card.groups["0.5.254"])
    ensures g != "0.5.254" && g != "0.5.255" && (forall h :: h in card.groups && card.groups[h] ==> h == g) ==>
              (v != 0 <==> door in site.groups[g].doors && site.groups[g].doors[door])
  {
    if !("0.5.254" in card.groups && card.groups["0.5.254"]) {
      if g == "0.5.255" && !site.groups[g].scheduled && door in site.catalogued {
        assert OpensAlways(site, card, g, door);
      } else if g != "0.5.255" && forall h :: h in card.groups && card.groups[h] ==> h == g {
        assert Opens(site, card, g, door) <==> door in site.groups[g].doors && site.groups[g].doors[door];
        assert forall h :: Opens(site, card, h, door) ==> h == g;
      }
    }
  }

  // ---- Reading and writing one entry ----

  function At(acl: Acl, s: Slot, card: U32): Option<int> {
    if s.controller in acl && card in acl[s.controller] && s.door in acl[s.controller][card].doors
    then Some(acl[s.controller][card].doors[s.door]) else None
  }

  function Set(acl: Acl, s: Slot, card: U32, v: int): Acl
    requires At(acl, s, card).Some?
  {
    var entry := acl[s.controller][card];
    acl[s.controller := acl[s.controller][card := entry.(doors := entry.doors[s.door := v])]]
  }

  lemma SetAt(acl: Acl, s: Slot, card: U32, v: int)
    requires At(acl, s, card).Some?
    ensures forall t, n :: At(Set(acl, s, card, v), t, n) == if t == s && n == card then Some(v) else At(acl, t, n)
    ensures SameDates(acl, Set(acl, s, card, v))
  {
  }

  function Dates(acl: Acl, controller: U32, card: U32): Option<(Option<int>, Option<int>)> {
    if controller in acl && card in acl[controller]
    then Some((acl[controller][card].from, acl[controller][card].to)) else None
  }

  ghost predicate SameDates(a: Acl, b: Acl) {
    forall c, n :: Dates(a, c, n) == Dates(b, c, n)
  }

  /** Entries belong to numbered cards on numbered controllers, doors 1 to 4. */
  ghost predicate Regular(acl: Acl) {
    forall s, n :: At(acl, s, n).Some? ==> n > 0 && s.controller > 0 && 1 <= s.door <= 4
  }

  /** One entry changes, if it is there at all. */
  ghost predicate Updated(a: Acl, b: Acl, s: Slot, card: U32, f: int -> Option<int>) {
    forall t, n :: At(b, t, n) == if t == s && n == card && At(a, t, n).Some? then f(At(a, t, n).value) else At(a, t, n)
  }

  function Grant(acl: Acl, card: U32, s: Slot, profile: int): Option<Acl> {
    if card > 0 && s.controller > 0 && 1 <= s.door <= 4 && At(acl, s, card).Some? then
      var current := At(acl, s, card).value;
      if current != 0 && current != profile && current != 1 && profile != 1 then None
      else if current == 0 || profile == 1 then Some(Set(acl, s, card, profile))
      else Some(acl)
    else Some(acl)
  }

  function Revoke(acl: Acl, card: U32, s: Slot): Acl {
    if card > 0 && s.controller > 0 && 1 <= s.door <= 4 && At(acl, s, card).Some? then Set(acl, s, card, 0) else acl
  }

  lemma GrantAt(acl: Acl, card: U32, s: Slot, profile: int)
    requires Regular(acl)
    ensures var r := Grant(acl, card, s, profile);
            && (r.None? <==> At(acl, s, card).Some? && Resolve(At(acl, s, card).value, profile).None?)
            && (r.Some? ==> Regular(r.value) && SameDates(acl, r.value))
            && (r.Some? ==> Updated(acl, r.value, s, card, v => Resolve(v, profile)))
  {
    if At(acl, s, card).Some? {
      SetAt(acl, s, card, profile);
    }
  }

  lemma RevokeAt(acl: Acl, card: U32, s: Slot)
    requires Regular(acl)
    ensures Regular(Revoke(acl, card, s)) && SameDates(acl, Revoke(acl, card, s))
    ensures Updated(acl, Revoke(acl, card, s), s, card, _ => Some(0))
  {
    if At(acl, s, card).Some? {
      SetAt(acl, s, card, 0);
    }
  }

  // ---- The catalog's reverse lookup ----

  ghost predicate IsSlotOf(wires: map<Slot, OID>, door: OID, s: Slot) {
    if s in wires && wires[s] == door then true else door !in wires.Values && s == Slot(0, 0)
  }

  method GetDoorDeviceID(wires: map<Slot, OID>, door: OID) returns (id: U32)
    ensures (exists s :: s in wires && wires[s] == door && id == s.controller) || (door !in wires.Values && id == 0)
  {
    if s :| s in wires && wires[s] == door {
      id := s.controller;
    } else {
      id := 0;
    }
  }

  method GetDoorDeviceDoor(wires: map<Slot, OID>, door: OID) returns (channel: int)
    ensures (exists s :: s in wires && wires[s] == door && channel == s.door) || (door !in wires.Values && channel == 0)
  {
    if s :| s in wires && wires[s] == door {
      channel := s.door;
    } else {
      channel := 0;
    }
  }

  /** The two lookups search an unordered map separately; they agree because each door is
      assigned to one channel. */
  method GetDoorSlot(wires: map<Slot, OID>, door: OID) returns (s: Slot)
    requires WiredOnce(wires) && door != ""
    ensures IsSlotOf(wires, door, s)
  {
    var id := GetDoorDeviceID(wires, door);
    var channel := GetDoorDeviceDoor(wires, door);
    s := Slot(id, channel);
  }

  // ---- Levels ----

  /** A record of one grant: card number, door and profile. */
  datatype Granted = Granted(number: U32, door: OID, profile: int)

  ghost function ProfilesAt(granted: set<Granted>, number: U32, door: OID): set<int> {
    set x | x in granted && x.number == number && x.door == door :: x.profile
  }

  /** Every entry is the merge of what has been granted for its card and door. */
  ghost predicate Reflects(acl: Acl, granted: set<Granted>, wires: map<Slot, OID>) {
    && Regular(acl)
    && (forall x :: x in granted ==> x.profile != 0)
    && forall s, n :: At(acl, s, n).Some? ==> Merges(ProfilesAt(granted, n, DoorAt(wires, s)), At(acl, s, n).value)
  }

  ghost predicate SameEntries(a: Acl, b: Acl) {
    forall s, n :: At(a, s, n).Some? <==> At(b, s, n).Some?
  }

  lemma ProfilesGrow(granted: set<Granted>, x: Granted, number: U32, door: OID)
    ensures ProfilesAt(granted + {x}, number, door) ==
              if x.number == number && x.door == door then ProfilesAt(granted, number, door) + {x.profile}
              else ProfilesAt(granted, number, door)
  {
  }

  lemma GrantStep(acl: Acl, granted: set<Granted>, wires: map<Slot, OID>, x: Granted, s: Slot)
    requires Reflects(acl, granted, wires) && WiredOnce(wires)
    requires x.door != "" && x.profile != 0 && IsSlotOf(wires, x.door, s)
    ensures var r := Grant(acl, x.number, s, x.profile);
            && (r.Some? ==>
                  Reflects(r.value, granted + {x}, wires) && SameEntries(acl, r.value) && SameDates(acl, r.value))
            && (r.None? ==> Clashing(ProfilesAt(granted + {x}, x.number, x.door)))
  {
    var r := Grant(acl, x.number, s, x.profile);
    GrantAt(acl, x.number, s, x.profile);
    forall t, n | At(acl, t, n).Some?
      ensures r.Some? ==> Merges(ProfilesAt(granted + {x}, n, DoorAt(wires, t)), At(r.value, t, n).value)
      ensures r.None? && t == s && n == x.number ==> Clashing(ProfilesAt(granted + {x}, x.number, x.door))
    {
      var profiles := ProfilesAt(granted, n, DoorAt(wires, t));
      ProfilesGrow(granted, x, n, DoorAt(wires, t));
      if DoorAt(wires, t) == x.door && n == x.number {
        assert t in wires && t == s;
        ResolveMerges(profiles, At(acl, t, n).value, x.profile);
      } else {
        assert t != s || n != x.number by {
          if t == s { assert s in wires; }
        }
      }
    }
  }

  // ---- Granting levels ----

  /** The grants of one level to a card number, through those of its doors that are in `over`. */
  ghost function DoorGrants(site: Site, number: U32, group: Group, profile: int, over: set<OID>): set<Granted> {
    set d | d in over && d in site.doors && group.Grants(d, site.catalogued) :: Granted(number, d, profile)
  }

  ghost function GroupGrants(site: Site, number: U32, g: OID): set<Granted> {
    if g in site.groups && Profile(site.groups[g]).Some?
    then DoorGrants(site, number, site.groups[g], Profile(site.groups[g]).value, site.doors) else {}
  }

  ghost function CardGrants(site: Site, card: Card, over: set<OID>): set<Granted> {
    set g, x | g in over && x in GroupGrants(site, card.number, g) :: x
  }

  function Members(card: Card): set<OID> {
    set g | g in card.groups && card.groups[g]
  }

  ghost function ListGrants(site: Site, cards: seq<Card>): set<Granted> {
    if cards == [] then {}
    else
      var last := cards[|cards| - 1];
      ListGrants(site, cards[..|cards| - 1]) + CardGrants(site, last, Members(last))
  }

  /** Some record with the number belongs to a level that grants the door. */
  ghost predicate Grantable(site: Site, x: Granted) {
    exists k, g :: k in site.cards && g in Members(site.cards[k]) && x in GroupGrants(site, site.cards[k].number, g)
  }

  /** Two different time profiles grant the same door to the same card number. */
  ghost predicate HasConflict(site: Site) {
    exists x, y :: Grantable(site, x) && Grantable(site, y) && x.number == y.number && x.door == y.door
                   && x.profile != y.profile && Timed(x.profile) && Timed(y.profile)
  }

  ghost predicate AllGrantable(site: Site, granted: set<Granted>) {
    forall x :: x in granted ==> Grantable(site, x)
  }

  lemma ConflictFound(site: Site, granted: set<Granted>, number: U32, door: OID)
    requires AllGrantable(site, granted) && Clashing(ProfilesAt(granted, number, door))
    ensures HasConflict(site)
  {
    var profiles := ProfilesAt(granted, number, door);
    var p, q :| p in profiles && q in profiles && p != q && Timed(p) && Timed(q);
    assert Granted(number, door, p) in granted && Granted(number, door, q) in granted;
  }

  /** What a granting step hands on: the entries reflect the larger set of grants. */
  ghost predicate Advanced(site: Site, before: Acl, after: Acl, granted: set<Granted>) {
    Reflects(after, granted, site.wires) && AllGrantable(site, granted) && SameEntries(before, after)
        && SameDates(before, after)
  }

  lemma AdvancedTwice(site: Site, a: Acl, b: Acl, c: Acl, during: set<Granted>, after: set<Granted>)
    requires Advanced(site, a, b, during) && Advanced(site, b, c, after)
    ensures Advanced(site, a, c, after)
  {
  }

  lemma DoorGrantsStep(site: Site, granted: set<Granted>, number: U32, group: Group, profile: int, over: set<OID>,
                       d: OID)
    ensures var now := granted + DoorGrants(site, number, group, profile, over);
            granted + DoorGrants(site, number, group, profile, over + {d}) ==
              if d in site.doors && group.Grants(d, site.catalogued) then now + {Granted(number, d, profile)} else now
    ensures granted + DoorGrants(site, number, group, profile, over + {d})
              <= granted + DoorGrants(site, number, group, profile, site.doors)
  {
    var x := Granted(number, d, profile);
    var more := if d in site.doors && group.Grants(d, site.catalogued) then {x} else {};
    assert DoorGrants(site, number, group, profile, over + {d})
        == DoorGrants(site, number, group, profile, over) + more;
  }

  lemma DoorGrantsAll(site: Site, number: U32, group: Group, profile: int, over: set<OID>)
    ensures group.AccessDoors(site.catalogued).Keys <= over ==>
              DoorGrants(site, number, group, profile, over) == DoorGrants(site, number, group, profile, site.doors)
  {
  }

  /** One door of a level: a step of the innermost loop. */
  method GrantDoor(site: Site, acl: Acl, number: U32, d: OID, profile: int, ghost granted: set<Granted>)
    returns (r: Result<Acl, AclError>)
    requires Sound(site) && Reflects(acl, granted, site.wires) && profile != 0 && d in site.doors
    requires AllGrantable(site, granted + {Granted(number, d, profile)})
    ensures r.Ok? ==> Advanced(site, acl, r.value, granted + {Granted(number, d, profile)})
    ensures r.Err? ==> r.error == Conflict && HasConflict(site)
  {
    var s := GetDoorSlot(site.wires, d);
    GrantStep(acl, granted, site.wires, Granted(number, d, profile), s);
    var next := Grant(acl, number, s, profile);
    if next.None? {
      ConflictFound(site, granted + {Granted(number, d, profile)}, number, d);
      return Err(Conflict);
    }
    r := Ok(next.value);
  }

  method GrantDoors(site: Site, acl: Acl, number: U32, group: Group, profile: int, ghost granted: set<Granted>)
    returns (r: Result<Acl, AclError>)
    requires Sound(site) && Reflects(acl, granted, site.wires) && profile != 0
    requires AllGrantable(site, granted + DoorGrants(site, number, group, profile, site.doors))
    ensures r.Ok? ==> Advanced(site, acl, r.value, granted + DoorGrants(site, number, group, profile, site.doors))
    ensures r.Err? ==> r.error == Conflict && HasConflict(site)
  {
    var doors := group.AccessDoors(site.catalogued);
    var current := acl;
    var todo := doors.Keys;
    ghost var done: set<OID> := {};
    assert granted + DoorGrants(site, number, group, profile, {}) == granted;
    while todo != {}
      invariant todo + done == doors.Keys
      invariant Advanced(site, acl, current, granted + DoorGrants(site, number, group, profile, done))
    {
      var d :| d in todo;
      ghost var now := granted + DoorGrants(site, number, group, profile, done);
      DoorGrantsStep(site, granted, number, group, profile, done, d);
      todo, done := todo - {d}, done + {d};
      ghost var next := granted + DoorGrants(site, number, group, profile, done);
      if d in site.doors && doors[d] {
        assert next == now + {Granted(number, d, profile)};
        r := GrantDoor(site, current, number, d, profile, now);
        if r.Err? {
          return;
        }
        AdvancedTwice(site, acl, current, r.value, now, next);
        current := r.value;
      } else {
        assert next == now;
      }
    }
    DoorGrantsAll(site, number, group, profile, done);
    r := Ok(current);
  }

  lemma CardGrantsStep(site: Site, card: Card, over: set<OID>, g: OID)
    ensures CardGrants(site, card, over + {g}) == CardGrants(site, card, over) + GroupGrants(site, card.number, g)
  {
  }

  lemma CardGrantable(site: Site, k: OID, over: set<OID>)
    requires k in site.cards && over <= Members(site.cards[k])
    ensures AllGrantable(site, CardGrants(site, site.cards[k], over))
  {
  }

  /** All the levels of one card record, in whatever order its map yields them. */
  method GrantLevels(site: Site, acl: Acl, ghost k: OID, card: Card, ghost granted: set<Granted>)
    returns (r: Result<Acl, AclError>)
    requires Sound(site) && k in site.cards && card == site.cards[k]
    requires Reflects(acl, granted, site.wires) && AllGrantable(site, granted)
    ensures r.Ok? ==>
              Advanced(site, acl, r.value, granted + CardGrants(site, card, Members(card))) && !BadLevel(site, card)
    ensures r.Err? ==> if r.error == Conflict then HasConflict(site) else r.error == BadProfile && BadLevel(site, card)
  {
    var current := acl;
    var todo := Members(card);
    ghost var done: set<OID> := {};
    assert granted + CardGrants(site, card, {}) == granted;
    while todo != {}
      invariant todo + done == Members(card)
      invariant Advanced(site, acl, current, granted + CardGrants(site, card, done))
      invariant forall g :: g in done && g in site.groups ==> Profile(site.groups[g]).Some?
    {
      var g :| g in todo;
      ghost var now := granted + CardGrants(site, card, done);
      CardGrantsStep(site, card, done, g);
      CardGrantable(site, k, done + {g});
      assert granted + CardGrants(site, card, done + {g}) == now + GroupGrants(site, card.number, g);
      if g in site.groups {
        var profile := Profile(site.groups[g]);
        if profile.None? {
          return Err(BadProfile);
        }
        r := GrantDoors(site, current, card.number, site.groups[g], profile.value, now);
        if r.Err? {
          return;
        }
        AdvancedTwice(site, acl, current, r.value, now, now + GroupGrants(site, card.number, g));
        current := r.value;
      } else {
        assert now + {} == now;
      }
      todo, done := todo - {g}, done + {g};
    }
    assert done == Members(card);
    r := Ok(current);
  }

  // ---- The whole list ----

  /** A list of the card records in some order: every record once. */
  ghost predicate Lists(cards: map<OID, Card>, list: seq<Card>, keys: seq<OID>) {
    && |keys| == |list| && Distinct(keys)
    && (forall k :: k in cards <==> k in keys)
    && forall i :: 0 <= i < |list| ==> keys[i] in cards && list[i] == cards[keys[i]]
  }

  method List(cards: map<OID, Card>) returns (list: seq<Card>, ghost keys: seq<OID>)
    ensures Lists(cards, list, keys)
  {
    list, keys := [], [];
    var todo := cards.Keys;
    while todo != {}
      invariant todo <= cards.Keys
      invariant |keys| == |list| && Distinct(keys)
      invariant forall k :: k in cards && k !in todo <==> k in keys
      invariant forall i :: 0 <= i < |list| ==> keys[i] in cards && list[i] == cards[keys[i]]
    {
      var k :| k in todo;
      list, keys, todo := list + [cards[k]], keys + [k], todo - {k};
    }
  }

  lemma SoleInList(site: Site, list: seq<Card>, keys: seq<OID>, i: nat, j: nat)
    requires Lists(site.cards, list, keys) && i < |list| && j < |list| && i != j && Sole(site, keys[i])
    ensures list[j].number != list[i].number
  {
    assert keys[i] != keys[j];
  }

  const NO_DOORS: map<int, int> := map[1 := 0, 2 := 0, 3 := 0, 4 := 0]

  predicate Listed(card: Card) {
    card.number != 0 && !card.unconfigured && !card.deleted
  }

  method InitialEntries(list: seq<Card>) returns (entries: map<U32, AclCard>)
    ensures forall n :: n in entries ==> n != 0 && entries[n].doors == NO_DOORS
    ensures forall i :: 0 <= i < |list| && Listed(list[i]) ==> list[i].number in entries
    ensures forall n :: n in entries ==> exists i :: 0 <= i < |list| && Listed(list[i]) && list[i].number == n
                                                     && entries[n] == AclCard(list[i].from, list[i].to, NO_DOORS)
  {
    entries := map[];
    for i := 0 to |list|
      invariant forall n :: n in entries ==> n != 0 && entries[n].doors == NO_DOORS
      invariant forall j :: 0 <= j < i && Listed(list[j]) ==> list[j].number in entries
      invariant forall n :: n in entries ==> exists j :: 0 <= j < i && Listed(list[j]) && list[j].number == n
                                                         && entries[n] == AclCard(list[j].from, list[j].to, NO_DOORS)
    {
      if Listed(list[i]) {
        entries := entries[list[i].number := AclCard(list[i].from, list[i].to, NO_DOORS)];
      }
    }
  }

  /** Every listed card on every controller, with no access as yet. */
  method InitialAcl(site: Site, controllers: seq<U32>, list: seq<Card>, ghost keys: seq<OID>) returns (acl: Acl)
    requires Lists(site.cards, list, keys)
    ensures Reflects(acl, {}, site.wires)
    ensures forall k, c :: SoleLive(site, k) && c in controllers && c != 0 ==>
              Dates(acl, c, site.cards[k].number) == Some((site.cards[k].from, site.cards[k].to))
    ensures forall k, s: Slot ::
              SoleLive(site, k) && s.controller in controllers && s.controller != 0 && 1 <= s.door <= 4 ==>
              At(acl, s, site.cards[k].number).Some?
  {
    var entries := InitialEntries(list);
    acl := map c | c in controllers && c != 0 :: entries;
    BlankReflects(acl, controllers, entries, site.wires);
    forall k | SoleLive(site, k) ensures SoleEntry(entries, site.cards[k]) {
      EntryOfSole(site, list, keys, entries, k);
    }
  }

  lemma BlankReflects(acl: Acl, controllers: seq<U32>, entries: map<U32, AclCard>, wires: map<Slot, OID>)
    requires acl == map c | c in controllers && c != 0 :: entries
    requires forall n :: n in entries ==> n != 0 && entries[n].doors == NO_DOORS
    ensures Reflects(acl, {}, wires)
    ensures forall s, n :: At(acl, s, n) ==
              if s.controller in controllers && s.controller != 0 && n in entries && 1 <= s.door <= 4
              then Some(0) else None
  {
    forall s, n: U32 ensures At(acl, s, n) ==
              if s.controller in controllers && s.controller != 0 && n in entries && 1 <= s.door <= 4
              then Some(0) else None
    {
      if s.controller in acl && n in entries {
        assert acl[s.controller][n].doors == NO_DOORS;
        assert s.door in NO_DOORS <==> 1 <= s.door <= 4;
      }
    }
    forall s, n | At(acl, s, n).Some? ensures ProfilesAt({}, n, DoorAt(wires, s)) == {} {}
  }

  predicate SoleEntry(entries: map<U32, AclCard>, card: Card) {
    card.number in entries && entries[card.number] == AclCard(card.from, card.to, NO_DOORS)
  }

  lemma EntryOfSole(site: Site, list: seq<Card>, keys: seq<OID>, entries: map<U32, AclCard>, k: OID)
    requires Lists(site.cards, list, keys) && SoleLive(site, k)
    requires forall i :: 0 <= i < |list| && Listed(list[i]) ==> list[i].number in entries
    requires forall n :: n in entries ==> exists i :: 0 <= i < |list| && Listed(list[i]) && list[i].number == n
                                                      && entries[n] == AclCard(list[i].from, list[i].to, NO_DOORS)
    ensures SoleEntry(entries, site.cards[k])
  {
    var i :| 0 <= i < |keys| && keys[i] == k;
    assert list[i] == site.cards[k] && Listed(list[i]);
    var n := list[i].number;
    var j :|
        0 <= j < |list| && Listed(list[j]) && list[j].number == n
            && entries[n] == AclCard(list[j].from, list[j].to, NO_DOORS);
    assert list[j] == site.cards[keys[j]];
  }

  method GrantAll(site: Site, acl: Acl, list: seq<Card>, ghost keys: seq<OID>) returns (r: Result<Acl, AclError>)
    requires Sound(site) && Lists(site.cards, list, keys) && Reflects(acl, {}, site.wires)
    ensures r.Ok? ==> Advanced(site, acl, r.value, ListGrants(site, list)) && !HasBadLevel(site)
    ensures r.Err? ==> if r.error == Conflict then HasConflict(site) else r.error == BadProfile && HasBadLevel(site)
  {
    var current := acl;
    var i := 0;
    while i < |list|
      invariant 0 <= i <= |list|
      invariant Advanced(site, acl, current, ListGrants(site, list[..i]))
      invariant forall j :: 0 <= j < i ==> !BadLevel(site, list[j])
    {
      assert list[..i + 1][..i] == list[..i];
      r := GrantLevels(site, current, keys[i], list[i], ListGrants(site, list[..i]));
      if r.Err? {
        return;
      }
      AdvancedTwice(site, acl, current, r.value, ListGrants(site, list[..i]), ListGrants(site, list[..i + 1]));
      current := r.value;
      i := i + 1;
    }
    assert list[..i] == list;
    r := Ok(current);
  }

  /** The profiles that all the records with one number, deleted ones included, get for a door. */
  ghost function NumberGranting(site: Site, list: seq<Card>, number: U32, door: OID): set<int> {
    if list == [] then {}
    else
      var last := list[|list| - 1];
      NumberGranting(site, list[..|list| - 1], number, door)
      + if last.number == number then Granting(site, last, door) else {}
  }

  lemma {:induction false} GrantsOfNumber(site: Site, list: seq<Card>, number: U32, door: OID)
    requires Sound(site) && (door == "" || door in site.doors)
    ensures ProfilesAt(ListGrants(site, list), number, door) == NumberGranting(site, list, number, door)
  {
    if list != [] {
      var n := |list| - 1;
      GrantsOfNumber(site, list[..n], number, door);
      var grants := CardGrants(site, list[n], Members(list[n]));
      ProfilesUnion(ListGrants(site, list[..n]), grants, number, door);
      if list[n].number == number {
        GrantsOfCard(site, list[n], door);
      } else {
        assert ProfilesAt(grants, number, door) == {};
      }
    }
  }

  lemma {:induction false} NumberGrantingSole(site: Site, list: seq<Card>, number: U32, door: OID, i: int)
    requires forall j :: 0 <= j < |list| && j != i ==> list[j].number != number
    requires 0 <= i < |list| ==> list[i].number == number
    ensures NumberGranting(site, list, number, door) == if 0 <= i < |list| then Granting(site, list[i], door) else {}
  {
    if list != [] {
      NumberGrantingSole(site, list[..|list| - 1], number, door, i);
    }
  }

  /** A deleted record that shares a live card's number lends its levels to the live card in
      the full list, but not in the single-card update of the live card. */
  lemma DeletedRecordLendsLevels(site: Site, live: Card, gone: Card, door: OID)
    requires Sound(site) && door in site.doors && gone.deleted && live.number == gone.number
    requires Granting(site, live, door) == {} && Granting(site, gone, door) == {UNRESTRICTED}
    ensures Merges(ProfilesAt(ListGrants(site, [live, gone]), live.number, door), 1)
    ensures Merges(Granting(site, live, door), 0)
  {
    GrantsOfNumber(site, [live, gone], live.number, door);
    assert [live, gone][..1] == [live] && [live][..0] == [];
    assert NumberGranting(site, [live], live.number, door) == {};
    assert NumberGranting(site, [live, gone], live.number, door) == {UNRESTRICTED};
  }

  lemma ProfilesUnion(a: set<Granted>, b: set<Granted>, number: U32, door: OID)
    ensures ProfilesAt(a + b, number, door) == ProfilesAt(a, number, door) + ProfilesAt(b, number, door)
  {
  }

  lemma GrantsOfCard(site: Site, card: Card, door: OID)
    requires Sound(site) && (door == "" || door in site.doors)
    ensures ProfilesAt(CardGrants(site, card, Members(card)), card.number, door) == Granting(site, card, door)
  {
    var grants := CardGrants(site, card, Members(card));
    forall p | p in Granting(site, card, door) ensures p in ProfilesAt(grants, card.number, door) {
      var g :| g in card.groups && Member(card, g) && g in site.groups && Profile(site.groups[g]).Some?
               && site.groups[g].Grants(door, site.catalogued) && Profile(site.groups[g]).value == p;
      assert door in site.doors;
      assert Granted(card.number, door, p) in GroupGrants(site, card.number, g);
      assert g in Members(card);
    }
    forall p | p in ProfilesAt(grants, card.number, door) ensures p in Granting(site, card, door) {
      var g :| g in Members(card) && Granted(card.number, door, p) in GroupGrants(site, card.number, g);
      assert Member(card, g) && site.groups[g].Grants(door, site.catalogued);
    }
  }

  // ---- Default dates, rules and denial ----

  function OrElse(date: Option<int>, default: Option<int>): Option<int> {
    if date.Some? then date else default
  }

  /** Missing dates are filled in; a number that was not listed gets an entry without doors. */
  ghost predicate Filled(site: Site, l: map<U32, AclCard>, m: map<U32, AclCard>, list: seq<Card>) {
    && (forall n :: n in l ==> n in m && m[n].doors == l[n].doors)
    && (forall n :: n in m && n !in l ==> m[n].doors == map[])
    && forall i :: 0 <= i < |list| && list[i].number in l ==>
         var e := l[list[i].number];
         m[list[i].number] == e.(from := OrElse(e.from, site.from), to := OrElse(e.to, site.to))
  }

  method DefaultEntries(site: Site, l: map<U32, AclCard>, list: seq<Card>) returns (m: map<U32, AclCard>)
    ensures Filled(site, l, m, list)
  {
    m := l;
    for i := 0 to |list|
      invariant forall n :: n in l ==> n in m && m[n].doors == l[n].doors
      invariant forall n :: n in m && n !in l ==> m[n].doors == map[]
      invariant forall n :: n in l ==>
                  m[n] == l[n] || m[n] == l[n].(from := OrElse(l[n].from, site.from), to := OrElse(l[n].to, site.to))
      invariant forall j :: 0 <= j < i && list[j].number in l ==>
                  var e := l[list[j].number];
                  m[list[j].number] == e.(from := OrElse(e.from, site.from), to := OrElse(e.to, site.to))
    {
      var card := if list[i].number in m then m[list[i].number] else AclCard(None, None, map[]);
      if card.from.None? {
        card := card.(from := site.from);
      }
      if card.to.None? {
        card := card.(to := site.to);
      }
      m := m[list[i].number := card];
    }
  }

  /** The default-date pass leaves every door as it was. */
  ghost predicate DatesFilled(site: Site, acl: Acl, r: Acl, list: seq<Card>) {
    && (forall s, n :: At(r, s, n) == At(acl, s, n))
    && forall c, i :: 0 <= i < |list| && Dates(acl, c, list[i].number).Some? ==>
         var (from, to) := Dates(acl, c, list[i].number).value;
         Dates(r, c, list[i].number) == Some((OrElse(from, site.from), OrElse(to, site.to)))
  }

  lemma FilledDates(site: Site, acl: Acl, r: Acl, list: seq<Card>)
    requires r.Keys == acl.Keys && forall c :: c in acl ==> Filled(site, acl[c], r[c], list)
    ensures DatesFilled(site, acl, r, list)
  {
    forall s, n: U32 ensures At(r, s, n) == At(acl, s, n) {
      if s.controller in acl {
        assert Filled(site, acl[s.controller], r[s.controller], list);
      }
    }
  }

  method DefaultDates(site: Site, acl: Acl, list: seq<Card>) returns (r: Acl)
    ensures DatesFilled(site, acl, r, list)
  {
    r := acl;
    var todo := acl.Keys;
    while todo != {}
      invariant todo <= acl.Keys == r.Keys
      invariant forall c :: c in todo ==> r[c] == acl[c]
      invariant forall c :: c in acl && c !in todo ==> Filled(site, acl[c], r[c], list)
    {
      var c :| c in todo;
      var m := DefaultEntries(site, r[c], list);
      r, todo := r[c := m], todo - {c};
    }
    FilledDates(site, acl, r, list);
  }

  /** Every entry of one card number is changed by f; nothing else is. */
  ghost predicate Mapped(a: Acl, b: Acl, number: U32, wires: map<Slot, OID>, f: (int, OID) -> int) {
    && SameDates(a, b)
    && forall s, n ::
         At(b, s, n) == if n == number && At(a, s, n).Some?
                        then Some(f(At(a, s, n).value, DoorAt(wires, s))) else At(a, s, n)
  }

  method AllowDoors(site: Site, acl: Acl, number: U32, allowed: seq<OID>) returns (r: Acl)
    requires Sound(site) && Regular(acl) && KnownDoors(site, allowed)
    ensures Regular(r) && Mapped(acl, r, number, site.wires, (v, d) => if d in allowed then 1 else v)
  {
    r := acl;
    for i := 0 to |allowed|
      invariant Regular(r) && Mapped(acl, r, number, site.wires, (v, d) => if d in allowed[..i] then 1 else v)
    {
      var s := GetDoorSlot(site.wires, allowed[i]);
      GrantAt(r, number, s, 1);
      var next := Grant(r, number, s, 1);
      OneDoor(site, acl, r, next.value, number, allowed, i, s, 1);
      r := next.value;
    }
    assert allowed[..|allowed|] == allowed;
  }

  lemma OneDoor(site: Site, acl: Acl, a: Acl, b: Acl, number: U32, doors: seq<OID>, i: nat, s: Slot, w: int)
    requires Sound(site) && i < |doors| && doors[i] in site.doors && IsSlotOf(site.wires, doors[i], s)
    requires Regular(acl) && Mapped(acl, a, number, site.wires, (v, d) => if d in doors[..i] then w else v)
    requires SameDates(a, b) && Updated(a, b, s, number, _ => Some(w))
    ensures Mapped(acl, b, number, site.wires, (v, d) => if d in doors[..i + 1] then w else v)
  {
    assert doors[..i + 1] == doors[..i] + [doors[i]];
    forall t, n: U32
      ensures At(b, t, n) == if n == number && At(acl, t, n).Some?
                             then Some(if DoorAt(site.wires, t) in doors[..i + 1] then w else At(acl, t, n).value)
                             else At(acl, t, n)
    {
      if n == number && At(acl, t, n).Some? {
        if DoorAt(site.wires, t) == doors[i] {
          assert t in site.wires && t == s;
        }
      }
    }
  }

  method ForbidDoors(site: Site, acl: Acl, number: U32, forbidden: seq<OID>) returns (r: Acl)
    requires Sound(site) && Regular(acl) && KnownDoors(site, forbidden)
    ensures Regular(r) && Mapped(acl, r, number, site.wires, (v, d) => if d in forbidden then 0 else v)
  {
    r := acl;
    for i := 0 to |forbidden|
      invariant Regular(r) && Mapped(acl, r, number, site.wires, (v, d) => if d in forbidden[..i] then 0 else v)
    {
      var s := GetDoorSlot(site.wires, forbidden[i]);
      RevokeAt(r, number, s);
      OneDoor(site, acl, r, Revoke(r, number, s), number, forbidden, i, s, 0);
      r := Revoke(r, number, s);
    }
    assert forbidden[..|forbidden|] == forbidden;
  }

  method ApplyVerdict(site: Site, acl: Acl, number: U32, verdict: Verdict) returns (r: Acl)
    requires Sound(site) && Regular(acl) && verdict.Verdict?
    requires KnownDoors(site, verdict.allowed) && KnownDoors(site, verdict.forbidden)
    ensures Regular(r)
              && Mapped(acl, r, number, site.wires, (v, d) requires verdict.Verdict? => RuleValue(v, d, verdict))
  {
    r := AllowDoors(site, acl, number, verdict.allowed);
    r := ForbidDoors(site, r, number, verdict.forbidden);
  }

  /** The entries of the first i records' cards have been changed, one record at a time. For a
      card whose number no other record has, that is one change. */
  ghost predicate MappedSoFar(site: Site, before: Acl, after: Acl, list: seq<Card>, keys: seq<OID>, i: nat,
                              f: (Card, int, OID) -> int)
    requires |keys| == |list|
  {
    && Regular(after) && SameDates(before, after)
    && (forall j, s: Slot :: 0 <= j < i && j < |list| && Sole(site, keys[j]) && At(before, s, list[j].number).Some? ==>
          At(after, s, list[j].number) == Some(f(list[j], At(before, s, list[j].number).value, DoorAt(site.wires, s))))
    && (forall j, s: Slot :: i <= j < |list| && Sole(site, keys[j]) && At(before, s, list[j].number).Some? ==>
          At(after, s, list[j].number) == At(before, s, list[j].number))
  }

  lemma MappedStep(site: Site, before: Acl, a: Acl, b: Acl, list: seq<Card>, keys: seq<OID>, i: nat,
                   f: (Card, int, OID) -> int, g: (int, OID) -> int)
    requires Lists(site.cards, list, keys) && i < |list| && MappedSoFar(site, before, a, list, keys, i, f)
    requires Regular(b) && Mapped(a, b, list[i].number, site.wires, g)
    requires forall v, d :: g(v, d) == f(list[i], v, d)
    ensures MappedSoFar(site, before, b, list, keys, i + 1, f)
  {
    forall j, s: Slot | 0 <= j < i + 1 && Sole(site, keys[j]) && At(before, s, list[j].number).Some?
      ensures At(b, s, list[j].number) == Some(f(list[j], At(before, s, list[j].number).value, DoorAt(site.wires, s)))
    {
      if j < i {
        SoleInList(site, list, keys, j, i);
      } else {
        var v, d := At(before, s, list[i].number).value, DoorAt(site.wires, s);
        assert At(a, s, list[i].number) == At(before, s, list[i].number);
        assert At(b, s, list[i].number) == Some(g(v, d));
        assert g(v, d) == f(list[i], v, d);
      }
    }
    forall j, s: Slot | i + 1 <= j < |list| && Sole(site, keys[j]) && At(before, s, list[j].number).Some?
      ensures At(b, s, list[j].number) == At(before, s, list[j].number)
    {
      SoleInList(site, list, keys, j, i);
    }
  }

  lemma MappedSkip(site: Site, before: Acl, a: Acl, list: seq<Card>, keys: seq<OID>, i: nat, f: (Card, int, OID) -> int)
    requires |keys| == |list| && i < |list| && MappedSoFar(site, before, a, list, keys, i, f)
    requires forall v, d :: f(list[i], v, d) == v
    ensures MappedSoFar(site, before, a, list, keys, i + 1, f)
  {
    forall j, s: Slot | 0 <= j < i + 1 && Sole(site, keys[j]) && At(before, s, list[j].number).Some?
      ensures At(a, s, list[j].number) == Some(f(list[j], At(before, s, list[j].number).value, DoorAt(site.wires, s)))
    {
      if j == i {
        var v, d := At(before, s, list[i].number).value, DoorAt(site.wires, s);
        assert At(a, s, list[i].number) == Some(v) && f(list[i], v, d) == v;
      }
    }
  }

  function RuleMap(rules: Rules): (Card, int, OID) -> int {
    (card, v, d) => RuledValue(v, d, card, rules)
  }

  method ApplyRules(site: Site, acl: Acl, list: seq<Card>, rules: Rules, ghost keys: seq<OID>)
    returns (r: Result<Acl, AclError>)
    requires Sound(site) && Regular(acl) && Lists(site.cards, list, keys) && RulesKnow(site, rules)
    ensures r.Ok? ==> MappedSoFar(site, acl, r.value, list, keys, |list|, RuleMap(rules)) && !SomeRuleFails(site, rules)
    ensures r.Err? ==> r.error == RuleFailure && SomeRuleFails(site, rules)
    ensures rules.None? ==> r == Ok(acl)
  {
    var current := acl;
    var i := 0;
    while i < |list|
      invariant 0 <= i <= |list|
      invariant MappedSoFar(site, acl, current, list, keys, i, RuleMap(rules))
      invariant forall j :: 0 <= j < i ==> !RuleFails(rules, list[j])
      invariant rules.None? ==> current == acl
    {
      if rules.Some? {
        var verdict := rules.value(list[i]);
        if verdict.RuleError? {
          assert RuleFails(rules, site.cards[keys[i]]);
          return Err(RuleFailure);
        }
        var next := ApplyVerdict(site, current, list[i].number, verdict);
        MappedStep(site, acl, current, next, list, keys, i, RuleMap(rules),
                   (v, d) requires verdict.Verdict? => RuleValue(v, d, verdict));
        current := next;
      } else {
        MappedSkip(site, acl, current, list, keys, i, RuleMap(rules));
      }
      i := i + 1;
    }
    r := Ok(current);
  }

  method DenyCard(site: Site, acl: Acl, number: U32) returns (r: Acl)
    requires Regular(acl)
    ensures Regular(r) && Mapped(acl, r, number, site.wires, (v, d) => 0)
  {
    r := acl;
    var todo := acl.Keys;
    while todo != {}
      invariant todo <= acl.Keys
      invariant Regular(r) && SameDates(acl, r)
      invariant forall s, n :: At(r, s, n) ==
                  if n == number && At(acl, s, n).Some? && s.controller !in todo then Some(0) else At(acl, s, n)
    {
      var c :| c in todo;
      ghost var before := r;
      for door := 1 to 5
        invariant Regular(r) && SameDates(acl, r)
        invariant forall s, n :: At(r, s, n) ==
                    if n == number && At(acl, s, n).Some?
                       && (s.controller !in todo || (s.controller == c && s.door < door))
                    then Some(0) else At(acl, s, n)
      {
        RevokeAt(r, number, Slot(c, door));
        r := Revoke(r, number, Slot(c, door));
      }
      todo := todo - {c};
    }
  }

  /** Some record with the number, deleted or not, has the No Access level. */
  ghost predicate DeniedIn(list: seq<Card>, number: U32) {
    exists i :: 0 <= i < |list| && list[i].number == number && Member(list[i], NO_ACCESS_OID)
  }

  lemma DeniedStep(list: seq<Card>, i: nat, number: U32)
    requires i < |list|
    ensures DeniedIn(list[..i + 1], number) <==>
              DeniedIn(list[..i], number) || (list[i].number == number && Member(list[i], NO_ACCESS_OID))
  {
    if DeniedIn(list[..i], number) {
      var j :| 0 <= j < i && list[..i][j].number == number && Member(list[..i][j], NO_ACCESS_OID);
      assert list[..i + 1][j] == list[j];
    }
    if DeniedIn(list[..i + 1], number) {
      var j :| 0 <= j <= i && list[..i + 1][j].number == number && Member(list[..i + 1][j], NO_ACCESS_OID);
      assert j < i ==> list[..i][j] == list[j];
    }
    assert list[..i + 1][i] == list[i];
  }

  /** What denial makes of every entry. */
  ghost predicate DeniedSoFar(before: Acl, after: Acl, list: seq<Card>) {
    forall s, n :: At(after, s, n) == if DeniedIn(list, n) && At(before, s, n).Some? then Some(0) else At(before, s, n)
  }

  /** One record's denial. */
  ghost predicate DenialOf(site: Site, a: Acl, b: Acl, card: Card) {
    if Member(card, NO_ACCESS_OID) then Mapped(a, b, card.number, site.wires, (v, d) => 0) else b == a
  }

  lemma DeniedNext(site: Site, acl: Acl, a: Acl, b: Acl, list: seq<Card>, i: nat)
    requires i < |list| && DeniedSoFar(acl, a, list[..i])
    requires DenialOf(site, a, b, list[i])
    ensures DeniedSoFar(acl, b, list[..i + 1])
  {
    forall s, n: U32
      ensures At(b, s, n) == if DeniedIn(list[..i + 1], n) && At(acl, s, n).Some? then Some(0) else At(acl, s, n)
    {
      DeniedStep(list, i, n);
    }
  }

  method DenyAll(site: Site, acl: Acl, list: seq<Card>, ghost keys: seq<OID>) returns (r: Acl)
    requires Regular(acl) && Lists(site.cards, list, keys)
    ensures MappedSoFar(site, acl, r, list, keys, |list|, DenyMap()) && DeniedSoFar(acl, r, list)
  {
    r := acl;
    var i := 0;
    while i < |list|
      invariant 0 <= i <= |list|
      invariant MappedSoFar(site, acl, r, list, keys, i, DenyMap()) && DeniedSoFar(acl, r, list[..i])
    {
      ghost var before := r;
      if Member(list[i], NO_ACCESS_OID) {
        var next := DenyCard(site, r, list[i].number);
        MappedStep(site, acl, r, next, list, keys, i, DenyMap(), (v, d) => 0);
        r := next;
      } else {
        MappedSkip(site, acl, r, list, keys, i, DenyMap());
      }
      DeniedNext(site, acl, before, r, list, i);
      i := i + 1;
    }
    assert list[..i] == list;
  }

  function DenyMap(): (Card, int, OID) -> int {
    (card, v, d) => if Member(card, NO_ACCESS_OID) then 0 else v
  }

  // ---- The first computation: every card on every controller ----

  /** What the whole list says about a card whose number no other record has. */
  ghost predicate Settled(site: Site, rules: Rules, acl: Acl, k: OID, s: Slot)
    requires k in site.cards
  {
    var card := site.cards[k];
    && At(acl, s, card.number).Some?
    && Resolved(site, rules, card, DoorAt(site.wires, s), At(acl, s, card.number).value)
    && Dates(acl, s.controller, card.number) == Some((OrElse(card.from, site.from), OrElse(card.to, site.to)))
  }

  /** The same in terms of the records alone: the list has an entry for the card, with the profile
      that its levels and the rules mean for the wired door, none for a channel without a door, and
      the card's own dates where it has them. */
  ghost predicate EntryMeans(site: Site, rules: Rules, acl: Acl, k: OID, s: Slot)
    requires k in site.cards
  {
    var card := site.cards[k];
    && s.controller in acl && card.number in acl[s.controller] && s.door in acl[s.controller][card.number].doors
    && var entry := acl[s.controller][card.number];
    && entry.from == (if card.from.Some? then card.from else site.from)
    && entry.to == (if card.to.Some? then card.to else site.to)
    && if s in site.wires && site.wires[s] != "" then Means(site, rules, card, site.wires[s], entry.doors[s.door])
       else entry.doors[s.door] == 0
  }

  lemma SettledMeans(site: Site, rules: Rules, acl: Acl, k: OID, s: Slot)
    requires Sound(site) && RulesKnow(site, rules) && !HasBadLevel(site)
    requires k in site.cards && Settled(site, rules, acl, k, s)
    ensures EntryMeans(site, rules, acl, k, s)
  {
    var card, door := site.cards[k], DoorAt(site.wires, s);
    var v := At(acl, s, card.number).value;
    assert !BadLevel(site, card);
    ResolvedMeans(site, rules, card, door, v);
    if door == "" {
      NoDoorMeansNone(site, rules, card, v);
    }
  }

  lemma NoDoorMeansNone(site: Site, rules: Rules, card: Card, v: int)
    requires Sound(site) && Means(site, rules, card, "", v)
    requires rules.Some? && rules.value(card).Verdict? ==>
               "" !in rules.value(card).allowed && "" !in rules.value(card).forbidden
    ensures v == 0
  {
    assert forall g :: !Opens(site, card, g, "");
  }

  /** The profiles that all the records with one number, deleted ones included, get for a door. */
  ghost function AllGranting(site: Site, number: U32, door: OID): set<int> {
    set k, p | k in site.cards && site.cards[k].number == number && p in Granting(site, site.cards[k], door) :: p
  }

  /** Some record with the number, deleted or not, has the No Access level. */
  ghost predicate Denied(site: Site, number: U32) {
    exists k :: k in site.cards && site.cards[k].number == number && Member(site.cards[k], NO_ACCESS_OID)
  }

  /** What the whole list says, without rules, about a live card that shares its number with
      deleted records only: the merge of what all of them are granted. */
  ghost predicate SettledShared(site: Site, acl: Acl, k: OID, s: Slot)
    requires k in site.cards
  {
    var card := site.cards[k];
    && At(acl, s, card.number).Some?
    && AllResolved(site, card.number, DoorAt(site.wires, s), At(acl, s, card.number).value)
    && Dates(acl, s.controller, card.number) == Some((OrElse(card.from, site.from), OrElse(card.to, site.to)))
  }

  ghost predicate AllResolved(site: Site, number: U32, door: OID, v: int) {
    exists m :: Merges(AllGranting(site, number, door), m) && v == if Denied(site, number) then 0 else m
  }

  lemma {:induction false} NumberGrantingMember(site: Site, list: seq<Card>, number: U32, door: OID, p: int)
    ensures p in NumberGranting(site, list, number, door) <==>
              exists i :: 0 <= i < |list| && list[i].number == number && p in Granting(site, list[i], door)
  {
    if list != [] {
      var n := |list| - 1;
      var front := list[..n];
      NumberGrantingMember(site, front, number, door, p);
      assert forall i :: 0 <= i < n ==> front[i] == list[i];
      if i :| 0 <= i < |list| && list[i].number == number && p in Granting(site, list[i], door) && i < n {
        assert front[i].number == number && p in Granting(site, front[i], door);
      }
    }
  }

  lemma AllGrantingIs(site: Site, list: seq<Card>, keys: seq<OID>, number: U32, door: OID)
    requires Lists(site.cards, list, keys)
    ensures NumberGranting(site, list, number, door) == AllGranting(site, number, door)
    ensures DeniedIn(list, number) <==> Denied(site, number)
  {
    forall p ensures p in NumberGranting(site, list, number, door) <==> p in AllGranting(site, number, door) {
      NumberGrantingMember(site, list, number, door, p);
      if p in AllGranting(site, number, door) {
        var k :| k in site.cards && site.cards[k].number == number && p in Granting(site, site.cards[k], door);
        var i :| 0 <= i < |keys| && keys[i] == k;
        assert list[i] == site.cards[k];
      }
    }
    if Denied(site, number) {
      var k :| k in site.cards && site.cards[k].number == number && Member(site.cards[k], NO_ACCESS_OID);
      var i :| 0 <= i < |keys| && keys[i] == k;
      assert list[i] == site.cards[k];
    }
  }

  lemma SettledSharedAt(site: Site, acl: Acl, granted: Acl, dated: Acl, final: Acl, list: seq<Card>, keys: seq<OID>,
                        i: nat, s: Slot)
    requires Sound(site) && Lists(site.cards, list, keys) && i < |list|
    requires At(acl, s, list[i].number).Some?
               && Dates(acl, s.controller, list[i].number) == Some((list[i].from, list[i].to))
    requires Advanced(site, acl, granted, ListGrants(site, list))
    requires DatesFilled(site, granted, dated, list)
    requires DeniedSoFar(dated, final, list) && SameDates(dated, final)
    ensures SettledShared(site, final, keys[i], s)
  {
    var n, door := list[i].number, DoorAt(site.wires, s);
    assert At(granted, s, n).Some?;
    var m := At(granted, s, n).value;
    GrantsOfNumber(site, list, n, door);
    AllGrantingIs(site, list, keys, n, door);
    assert Merges(AllGranting(site, n, door), m);
    assert At(dated, s, n) == Some(m);
    assert At(final, s, n) == Some(if Denied(site, n) then 0 else m);
    assert Dates(granted, s.controller, n) == Some((list[i].from, list[i].to));
  }

  /** Why the whole list cannot be worked out. */
  ghost predicate SiteExplains(site: Site, rules: Rules, error: AclError) {
    match error
    case Conflict => HasConflict(site)
    case BadProfile => HasBadLevel(site)
    case RuleFailure => SomeRuleFails(site, rules)
  }

  method Permissions(site: Site, controllers: seq<U32>, rules: Rules) returns (r: Result<Acl, AclError>)
    requires Sound(site) && RulesKnow(site, rules)
    ensures r.Ok? ==>
              forall k, s: Slot ::
                  Sole(site, k) && s.controller in controllers && s.controller != 0 && 1 <= s.door <= 4 ==>
                        Settled(site, rules, r.value, k, s) && EntryMeans(site, rules, r.value, k, s)
    ensures r.Ok? && rules.None? ==>
              forall k, s: Slot ::
                  SoleLive(site, k) && s.controller in controllers && s.controller != 0 && 1 <= s.door <= 4 ==>
                SettledShared(site, r.value, k, s)
    ensures r.Ok? ==> !HasBadLevel(site) && !SomeRuleFails(site, rules)
    ensures r.Err? ==> SiteExplains(site, rules, r.error)
  {
    var list;
    ghost var keys;
    list, keys := List(site.cards);
    var acl := InitialAcl(site, controllers, list, keys);
    r := GrantAll(site, acl, list, keys);
    if r.Err? {
      return;
    }
    var granted := r.value;
    var dated := DefaultDates(site, granted, list);
    assert Regular(dated) by {
      assert forall s, n :: At(dated, s, n).Some? ==> At(granted, s, n).Some?;
    }
    r := ApplyRules(site, dated, list, rules, keys);
    if r.Err? {
      return;
    }
    var final := DenyAll(site, r.value, list, keys);
    forall k, s: Slot | Sole(site, k) && s.controller in controllers && s.controller != 0 && 1 <= s.door <= 4
      ensures Settled(site, rules, final, k, s) && EntryMeans(site, rules, final, k, s)
    {
      var i :| 0 <= i < |keys| && keys[i] == k;
      SettledAt(site, rules, acl, granted, dated, r.value, final, list, keys, i, s);
      SettledMeans(site, rules, final, k, s);
    }
    if rules.None? {
      forall k, s: Slot | SoleLive(site, k) && s.controller in controllers && s.controller != 0 && 1 <= s.door <= 4
        ensures SettledShared(site, final, k, s)
      {
        var i :| 0 <= i < |keys| && keys[i] == k;
        SettledSharedAt(site, acl, granted, dated, final, list, keys, i, s);
      }
    }
    r := Ok(final);
  }

  lemma SettledAt(site: Site, rules: Rules, acl: Acl, granted: Acl, dated: Acl, ruled: Acl, final: Acl, list: seq<Card>,
                  keys: seq<OID>, i: nat, s: Slot)
    requires Sound(site) && Lists(site.cards, list, keys) && i < |list| && Sole(site, keys[i])
    requires At(acl, s, list[i].number).Some?
               && Dates(acl, s.controller, list[i].number) == Some((list[i].from, list[i].to))
    requires Advanced(site, acl, granted, ListGrants(site, list))
    requires DatesFilled(site, granted, dated, list)
    requires MappedSoFar(site, dated, ruled, list, keys, |list|, RuleMap(rules))
    requires MappedSoFar(site, ruled, final, list, keys, |list|, DenyMap())
    ensures Settled(site, rules, final, keys[i], s)
  {
    var card, n, door := list[i], list[i].number, DoorAt(site.wires, s);
    assert At(granted, s, n).Some?;
    var m := At(granted, s, n).value;
    forall j | 0 <= j < |list| && j != i ensures list[j].number != n {
      SoleInList(site, list, keys, i, j);
    }
    GrantsOfNumber(site, list, n, door);
    NumberGrantingSole(site, list, n, door, i);
    assert Merges(Granting(site, card, door), m);
    assert At(dated, s, n) == Some(m);
    assert At(ruled, s, n) == Some(RuledValue(m, door, card, rules));
    assert At(final, s, n) == Some(DenyMap()(card, RuledValue(m, door, card, rules), door));
    assert Dates(final, s.controller, n) == Dates(dated, s.controller, n);
    assert Dates(granted, s.controller, n) == Some((card.from, card.to));
  }
}
