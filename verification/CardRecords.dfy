/** Credentials as values: what may be observed of a card record, what an edit or an import
    does to it, and when a set of records is valid. */
module CardRecords {
  import opened Common
  import opened Decimal
  import opened Oid
  import opened Groups

  const CARD_NAME := ".1"
  const CARD_NUMBER := ".2"
  const CARD_FROM := ".3"
  const CARD_TO := ".4"
  const CARD_GROUPS := ".5"
  const CARD_PIN := ".6"
  const CARD_KIND := ".7"
  const CARD_MANAGEMENT_GROUP := ".8"
  const CARD_LABEL := ".9"

  /** The fields that are text. */
  datatype Text = Text(name: string, managementGroup: string, labelText: string, kind: string)

  const NO_TEXT := Text("", "", "", "")

  /** Dates of None are Go's zero date; `deleted` is the time of deletion. */
  datatype Record = Record(oid: OID, number: U32, text: Text, pin: U32, from: Option<int>, to: Option<int>,
                           groups: map<OID, bool>, incorrect: bool, unconfigured: bool, modified: bool,
                           deleted: Option<int>) {
    predicate Live() {
      deleted.None?
    }

    predicate Member(g: OID) {
      g in groups && groups[g]
    }

    /** A modified record must have a name or a number. */
    predicate WellFormed() {
      TrimSpace(text.name) != "" || number != 0 || !modified
    }
  }

  type Records = map<OID, Record>

  ghost predicate Keyed(v: Records) {
    forall k :: k in v ==> v[k].oid == k
  }

  /** Nonzero numbers of live cards are pairwise distinct. */
  ghost predicate NumbersDistinct(v: Records) {
    forall j, k :: j in v && k in v && v[j].Live() && v[k].Live() && v[j].number == v[k].number != 0 ==> j == k
  }

  ghost predicate ValidRecords(v: Records) {
    && (forall k :: k in v && v[k].Live() ==> k != "" && v[k].oid == k && v[k].WellFormed())
    && NumbersDistinct(v)
  }

  ghost function LiveNumbers(v: Records): set<U32> {
    set k | k in v && v[k].Live() :: v[k].number
  }

  ghost function UnconfiguredNumbers(v: Records): set<U32> {
    set k | k in v && v[k].Live() && v[k].unconfigured :: v[k].number
  }

  ghost function ConfiguredNumbers(v: Records): set<U32> {
    set k | k in v && v[k].Live() && !v[k].unconfigured :: v[k].number
  }

  // ---- Edits ----

  /** What an edit needs to know: the catalogued access levels, and the dates it can parse. */
  datatype Env = Env(levels: set<OID>, dates: map<string, int>)

  predicate HasDigit(s: string) {
    exists i :: 0 <= i < |s| && IsDigit(s[i])
  }

  /** A value without any digit is ignored, unless it is empty, which clears the field. */
  datatype Parsed = Bad | Ignored | Number(n: nat)

  function ParseField(value: string, limit: nat): (r: Parsed)
    requires limit > 0
    ensures r.Number? ==> r.n < limit
  {
    if HasDigit(value) then
      if !AllDigits(value) then Bad
      else
        match ParseUint(value, limit)
        case None => Bad
        case Some(n) => Number(n)
    else if value == "" then Number(0)
    else Ignored
  }

  datatype Field =
    | NameField
    | ManagementGroupField
    | LabelField
    | NumberField
    | PinField
    | FromField
    | ToField
    | KindField
    | GroupField(gid: Option<string>)
    | OtherField
  {
    predicate IsText() {
      NameField? || ManagementGroupField? || LabelField? || KindField?
    }
  }

  /** Which field of the card an identifier addresses. */
  function FieldOf(card: OID, oid: OID): Field {
    if oid == Append(card, CARD_NAME) then NameField
    else if oid == Append(card, CARD_MANAGEMENT_GROUP) then ManagementGroupField
    else if oid == Append(card, CARD_LABEL) then LabelField
    else if oid == Append(card, CARD_NUMBER) then NumberField
    else if oid == Append(card, CARD_PIN) then PinField
    else if oid == Append(card, CARD_FROM) then FromField
    else if oid == Append(card, CARD_TO) then ToField
    else if oid == Append(card, CARD_KIND) then KindField
    else if Contains(Append(card, CARD_GROUPS), oid) then GroupField(LastNumber(oid))
    else OtherField
  }

  const KINDS: set<string> := {"card", "rf-remote", "keypad-code"}

  function KindOf(value: string): string {
    TrimSpace(Lower(value))
  }

  /** The record after setting one field; None is an error that changes nothing. */
  function SetField(r: Record, field: Field, value: string, env: Env): Option<Record> {
    var touched := r.(incorrect := false, unconfigured := false);
    var edited := touched.(modified := true);
    if !r.Live() then None
    else
      match field
      case NameField => Some(edited.(text := r.text.(name := TrimSpace(value))))
      case ManagementGroupField => Some(edited.(text := r.text.(managementGroup := TrimSpace(value))))
      case LabelField => Some(edited.(text := r.text.(labelText := TrimSpace(value))))
      case KindField => if KindOf(value) in KINDS then Some(edited.(text := r.text.(kind := KindOf(value)))) else None
      case NumberField =>
        (match ParseField(value, 0x1_0000_0000)
         case Bad => None
         case Ignored => Some(touched)
         case Number(n) => Some(edited.(number := n)))
      case PinField =>
        (match ParseField(value, 1_000_000)
         case Bad => None
         case Ignored => Some(touched)
         case Number(n) => Some(edited.(pin := n)))
      case FromField =>
        if value in env.dates then Some(edited.(from := Some(env.dates[value])))
        else if value == "" then Some(edited.(from := None)) else None
      case ToField =>
        if value in env.dates then Some(edited.(to := Some(env.dates[value])))
        else if value == "" then Some(edited.(to := None)) else None
      case GroupField(None) => Some(touched)
      case GroupField(Some(gid)) =>
        var g := Append(GROUPS_OID, gid);
        if g in env.levels then Some(edited.(groups := r.groups[g := value == "true"])) else None
      case OtherField => Some(touched)
  }

  function GroupsField(card: OID, g: nat): OID {
    Append(Append(card, CARD_GROUPS), Dec(g))
  }

  lemma DigitsHaveNoDot(n: nat)
    ensures SingleDots(Dec(n)) && Dec(n)[0] != '.' && HasDigit(Dec(n))
  {
    assert forall i :: 0 <= i < |Dec(n)| ==> IsDigit(Dec(n)[i]);
    assert IsDigit(Dec(n)[0]);
  }

  lemma OwnField(card: OID, suffix: string)
    requires Normal(card) && |suffix| == 2 && suffix[0] == '.' && suffix[1] != '.'
    ensures var f := Append(card, suffix); |f| == |card| + 2 && f[|card| + 1] == suffix[1] && f == card + suffix
  {
    AppendIs(card, suffix);
  }

  /** A card's own field identifiers are told apart... */
  lemma FieldsAreTold(card: OID)
    requires Normal(card)
    ensures FieldOf(card, Append(card, CARD_NAME)) == NameField
              && FieldOf(card, Append(card, CARD_NUMBER)) == NumberField
    ensures FieldOf(card, Append(card, CARD_PIN)) == PinField && FieldOf(card, Append(card, CARD_KIND)) == KindField
    ensures FieldOf(card, Append(card, CARD_MANAGEMENT_GROUP)) == ManagementGroupField
    ensures FieldOf(card, Append(card, CARD_LABEL)) == LabelField
    ensures FieldOf(card, Append(card, CARD_FROM)) == FromField && FieldOf(card, Append(card, CARD_TO)) == ToField
  {
    OwnField(card, CARD_NAME);
    OwnField(card, CARD_NUMBER);
    OwnField(card, CARD_PIN);
    OwnField(card, CARD_FROM);
    OwnField(card, CARD_TO);
    OwnField(card, CARD_KIND);
    OwnField(card, CARD_LABEL);
    OwnField(card, CARD_MANAGEMENT_GROUP);
  }

  lemma GroupsFieldIs(card: OID, g: nat)
    requires Normal(card)
    ensures GroupsField(card, g) == card + CARD_GROUPS + "." + Dec(g)
  {
    AppendIs(card, CARD_GROUPS);
    DigitsHaveNoDot(g);
    AppendIs(card + CARD_GROUPS, Dec(g));
  }

  /** ...and those of its memberships name a level. */
  lemma MembershipsAreTold(card: OID, g: nat)
    requires Normal(card)
    ensures FieldOf(card, GroupsField(card, g)) == GroupField(Some(Dec(g))) && Contains(card, GroupsField(card, g))
  {
    var field, groups := GroupsField(card, g), card + CARD_GROUPS;
    GroupsFieldIs(card, g);
    LastNumberOfChild(groups, g);
    assert field == Child(groups, g) && |field| > |groups|;
    assert field[..|groups| + 1] == groups + ".";
    assert field[..|card| + 1] == card + ".";
    NotPlain(card, field);
  }

  /** A longer identifier is none of the plain fields. */
  lemma NotPlain(card: OID, field: OID)
    requires Normal(card) && |field| > |card| + 2
    ensures field != Append(card, CARD_NAME) && field != Append(card, CARD_NUMBER) && field != Append(card, CARD_PIN)
    ensures field != Append(card, CARD_KIND) && field != Append(card, CARD_LABEL)
    ensures field != Append(card, CARD_MANAGEMENT_GROUP)
    ensures field != Append(card, CARD_FROM) && field != Append(card, CARD_TO)
              && Append(card, CARD_GROUPS) == card + CARD_GROUPS
  {
    OwnField(card, CARD_NAME);
    OwnField(card, CARD_NUMBER);
    OwnField(card, CARD_PIN);
    OwnField(card, CARD_FROM);
    OwnField(card, CARD_TO);
    OwnField(card, CARD_KIND);
    OwnField(card, CARD_LABEL);
    OwnField(card, CARD_MANAGEMENT_GROUP);
    OwnField(card, CARD_GROUPS);
  }

  /** What an edit of a live card's number or memberships does: the number is the one printed in
      the value, and exactly one membership is granted or revoked. */
  lemma EditsReachTheirField(r: Record, n: U32, g: nat, value: string, env: Env)
    requires r.Live() && Normal(r.oid)
    ensures var e := SetField(r, FieldOf(r.oid, Append(r.oid, CARD_NUMBER)), Dec(n), env);
            e.Some? && e.value == r.(number := n, incorrect := false, unconfigured := false, modified := true)
    ensures var level := Append(GROUPS_OID, Dec(g));
              var e := SetField(r, FieldOf(r.oid, GroupsField(r.oid, g)), value, env);
            && (e.Some? <==> level in env.levels)
            && (e.Some? ==> (e.value.Member(level) <==> value == "true")
                            && forall h :: h != level ==> (e.value.Member(h) <==> r.Member(h)))
  {
    FieldsAreTold(r.oid);
    MembershipsAreTold(r.oid, g);
    DigitsHaveNoDot(n);
    ValueOfDec(n);
  }

  // ---- Imports from controllers ----

  datatype Import = Import(number: U32, pin: U32, from: Option<int>, to: Option<int>, group: OID, preserve: bool)

  /** What an import may change of the card with a given number. */
  datatype Detail = Detail(from: Option<int>, to: Option<int>, pin: U32, groups: map<OID, bool>)

  function DetailOf(r: Record): Detail {
    Detail(r.from, r.to, r.pin, r.groups)
  }

  /** The live card with a number, if there is one. */
  ghost function LiveDetail(v: Records, n: U32): Option<Detail> {
    if k :| k in v && v[k].Live() && v[k].number == n then Some(DetailOf(v[k])) else None
  }

  lemma LiveDetailAt(v: Records, k: OID)
    requires NumbersDistinct(v) && k in v && v[k].Live() && v[k].number != 0
    ensures LiveDetail(v, v[k].number) == Some(DetailOf(v[k]))
  {
  }

  function ImportedDetail(i: Import, withPIN: bool): Detail {
    Detail(i.from, i.to, if withPIN then i.pin else 0, map[i.group := true])
  }

  function MergeDetail(d: Detail, i: Import, withPIN: bool): Detail {
    var dated := if i.preserve then d else d.(from := i.from, to := i.to, pin := if withPIN then i.pin else d.pin);
    dated.(groups := d.groups[i.group := true])
  }

  function MergeRecord(r: Record, i: Import, withPIN: bool): Record {
    var d := MergeDetail(DetailOf(r), i, withPIN);
    r.(from := d.from, to := d.to, pin := d.pin, groups := d.groups, unconfigured := false, modified := true)
  }

  /** The card with number n after a list of imports. */
  function MergeAll(d: Option<Detail>, imports: seq<Import>, n: U32, withPIN: bool): Option<Detail> {
    if imports == [] then d
    else
      var before := MergeAll(d, imports[..|imports| - 1], n, withPIN);
      var i := imports[|imports| - 1];
      if i.number != n then before
      else if before.None? then Some(ImportedDetail(i, withPIN))
      else Some(MergeDetail(before.value, i, withPIN))
  }

  /** The first import decides as if it had been merged into what it created. */
  lemma {:induction false} MergeFromNothing(imports: seq<Import>, n: U32, withPIN: bool)
    ensures MergeAll(None, imports, n, withPIN).None? <==> forall j :: 0 <= j < |imports| ==> imports[j].number != n
    ensures MergeAll(None, imports, n, withPIN).Some? ==>
              exists j :: 0 <= j < |imports| && imports[j].number == n
                          && MergeAll(None, imports, n, withPIN)
                               == MergeAll(Some(ImportedDetail(imports[j], withPIN)), imports, n, withPIN)
  {
    if imports != [] {
      var front, last := imports[..|imports| - 1], imports[|imports| - 1];
      MergeFromNothing(front, n, withPIN);
      if MergeAll(None, front, n, withPIN).Some? {
        var j :| 0 <= j < |front| && front[j].number == n
                 && MergeAll(None, front, n, withPIN)
                      == MergeAll(Some(ImportedDetail(front[j], withPIN)), front, n, withPIN);
        assert imports[j] == front[j];
      } else if last.number == n {
        assert forall j :: 0 <= j < |front| ==> front[j] == imports[j];
        NotMentioned(Some(ImportedDetail(last, withPIN)), front, n, withPIN);
        assert map[last.group := true][last.group := true] == map[last.group := true];
        assert imports[|imports| - 1].number == n;
      } else {
        assert forall j :: 0 <= j < |front| ==> front[j] == imports[j];
      }
    }
  }

  lemma {:induction false} NotMentioned(d: Option<Detail>, imports: seq<Import>, n: U32, withPIN: bool)
    requires forall j :: 0 <= j < |imports| ==> imports[j].number != n
    ensures MergeAll(d, imports, n, withPIN) == d
  {
    if imports != [] {
      NotMentioned(d, imports[..|imports| - 1], n, withPIN);
    }
  }

  // ---- One import over all records ----

  ghost predicate HasLive(v: Records, n: U32) {
    exists k :: k in v && v[k].Live() && v[k].number == n
  }

  function ImportedRecord(oid: OID, i: Import, withPIN: bool): Record {
    var d := ImportedDetail(i, withPIN);
    var text := Text("Imported credential " + Dec(i.number), "", "", "card");
    Record(oid, i.number, text, d.pin, d.from, d.to, d.groups, false, false, true, None)
  }

  /** A live card with the number is merged into; without one a card is added. */
  ghost predicate Merged(v: Records, w: Records, i: Import, withPIN: bool) {
    if HasLive(v, i.number) then
      exists k :: k in v && v[k].Live() && v[k].number == i.number && w == v[k := MergeRecord(v[k], i, withPIN)]
    else
      exists oid :: oid !in v && oid != "" && w == v[oid := ImportedRecord(oid, i, withPIN)]
  }

  /** No record is lost, and nothing but details and marks of live ones has changed. */
  ghost predicate Kept(v: Records, w: Records) {
    forall k :: k in v ==> k in w && (if v[k].Live() then OnlyDetails(v[k], w[k]) else w[k] == v[k])
  }

  predicate OnlyDetails(r: Record, s: Record) {
    && s == r.(from := s.from, to := s.to, pin := s.pin, groups := s.groups,
               unconfigured := s.unconfigured, modified := s.modified)
    && forall g :: g in r.groups ==> g in s.groups && (r.groups[g] ==> s.groups[g])
  }

  lemma KeptTwice(u: Records, v: Records, w: Records)
    requires Kept(u, v) && Kept(v, w)
    ensures Kept(u, w)
  {
    forall k | k in u && u[k].Live() ensures OnlyDetails(u[k], w[k]) {
      assert OnlyDetails(u[k], v[k]) && OnlyDetails(v[k], w[k]);
    }
  }

  lemma MergedKeeps(v: Records, w: Records, i: Import, withPIN: bool)
    requires Keyed(v) && NumbersDistinct(v) && i.number != 0 && Merged(v, w, i, withPIN)
    ensures Keyed(w) && NumbersDistinct(w) && Kept(v, w)
  {
    if HasLive(v, i.number) {
      var k :| k in v && v[k].Live() && v[k].number == i.number && w == v[k := MergeRecord(v[k], i, withPIN)];
      assert OnlyDetails(v[k], w[k]);
      forall j | j in v && v[j].Live() ensures OnlyDetails(v[j], w[j]) {
      }
    } else {
      var oid :| oid !in v && oid != "" && w == v[oid := ImportedRecord(oid, i, withPIN)];
      forall j | j in v && v[j].Live() ensures OnlyDetails(v[j], w[j]) {
      }
    }
  }

  lemma MergedIsValid(v: Records, w: Records, i: Import, withPIN: bool)
    requires Keyed(v) && i.number != 0 && ValidRecords(v) && Merged(v, w, i, withPIN)
    ensures ValidRecords(w)
  {
    MergedKeeps(v, w, i, withPIN);
  }

  /** Only the card with the imported number changes, as one more import in the list says. */
  lemma MergedDetail(v: Records, w: Records, i: Import, n: U32, withPIN: bool)
    requires NumbersDistinct(v) && NumbersDistinct(w) && n != 0 && Merged(v, w, i, withPIN)
    ensures LiveDetail(w, n) == if i.number != n then LiveDetail(v, n)
                                else if LiveDetail(v, n).None? then Some(ImportedDetail(i, withPIN))
                                else Some(MergeDetail(LiveDetail(v, n).value, i, withPIN))
  {
    if HasLive(v, i.number) {
      var k :| k in v && v[k].Live() && v[k].number == i.number && w == v[k := MergeRecord(v[k], i, withPIN)];
      if i.number == n {
        LiveDetailAt(v, k);
        LiveDetailAt(w, k);
      } else if HasLive(v, n) {
        var j :| j in v && v[j].Live() && v[j].number == n;
        LiveDetailAt(v, j);
        LiveDetailAt(w, j);
      }
    } else {
      var oid :| oid !in v && oid != "" && w == v[oid := ImportedRecord(oid, i, withPIN)];
      if i.number == n {
        LiveDetailAt(w, oid);
      } else if HasLive(v, n) {
        var j :| j in v && v[j].Live() && v[j].number == n;
        LiveDetailAt(v, j);
        LiveDetailAt(w, j);
      }
    }
  }

  /** Every number ends up as the list of imports says. */
  ghost predicate AllMerged(v: Records, w: Records, imports: seq<Import>, withPIN: bool) {
    forall n: U32 :: n != 0 ==> LiveDetail(w, n) == MergeAll(LiveDetail(v, n), imports, n, withPIN)
  }

  ghost predicate Mentions(imports: seq<Import>, n: U32) {
    exists j :: 0 <= j < |imports| && imports[j].number == n
  }

  lemma MentionsStep(imports: seq<Import>, i: Import)
    ensures forall n :: Mentions(imports + [i], n) <==> Mentions(imports, n) || n == i.number
  {
    var more := imports + [i];
    assert more[|imports|].number == i.number;
    forall n | Mentions(imports, n) ensures Mentions(more, n) {
      var j :| 0 <= j < |imports| && imports[j].number == n;
      assert more[j].number == n;
    }
  }

  /** A card whose number is imported counts as configured and as modified; any other record is as
      it was. */
  ghost predicate OldMarks(r: Record, s: Record, imports: seq<Import>) {
    if r.deleted.None? && r.number != 0 && Mentions(imports, r.number) then !s.unconfigured && s.modified else s == r
  }

  /** A new card is named after its number and is of the plain kind. */
  ghost predicate NewMarks(s: Record, oid: OID, imports: seq<Import>) {
    && s.oid == oid && s.deleted.None? && s.number != 0 && Mentions(imports, s.number)
    && s.text == Text("Imported credential " + Dec(s.number), "", "", "card")
    && !s.incorrect && !s.unconfigured && s.modified
  }

  ghost predicate MarksRight(v: Records, w: Records, imports: seq<Import>) {
    && (forall k :: k in v ==> k in w && OldMarks(v[k], w[k], imports))
    && (forall k :: k in w && k !in v ==> NewMarks(w[k], k, imports))
  }

  /** What one import does to the marks. */
  ghost predicate OneMarked(v: Records, w: Records, n: U32) {
    && (forall k :: k in v ==>
          k in w && if v[k].Live() && v[k].number == n then !w[k].unconfigured && w[k].modified else w[k] == v[k])
    && (forall k :: k in w && k !in v ==>
          && w[k].oid == k && w[k].deleted.None? && w[k].number == n
          && w[k].text == Text("Imported credential " + Dec(n), "", "", "card")
          && !w[k].incorrect && !w[k].unconfigured && w[k].modified)
  }

  lemma MarksMore(u: Records, v: Records, w: Records, imports: seq<Import>, i: Import)
    requires i.number != 0 && Kept(u, v) && MarksRight(u, v, imports) && OneMarked(v, w, i.number) && Kept(v, w)
    ensures MarksRight(u, w, imports + [i])
  {
    MentionsStep(imports, i);
    forall k | k in u ensures OldMarks(u[k], w[k], imports + [i]) {
      assert OldMarks(u[k], v[k], imports);
      assert u[k].Live() ==> OnlyDetails(u[k], v[k]);
    }
    forall k | k in w && k !in u ensures NewMarks(w[k], k, imports + [i]) {
      if k in v {
        assert NewMarks(v[k], k, imports);
        assert OnlyDetails(v[k], w[k]);
      }
    }
  }

  lemma MergedMarks(v: Records, w: Records, i: Import, withPIN: bool)
    requires NumbersDistinct(v) && i.number != 0 && Merged(v, w, i, withPIN)
    ensures OneMarked(v, w, i.number)
  {
    if HasLive(v, i.number) {
      var x :| x in v && v[x].Live() && v[x].number == i.number && w == v[x := MergeRecord(v[x], i, withPIN)];
      assert forall k :: k in w ==> k in v;
    } else {
      var oid :| oid !in v && oid != "" && w == v[oid := ImportedRecord(oid, i, withPIN)];
      assert forall k :: k in w && k !in v ==> k == oid;
    }
  }

  lemma MarksStep(u: Records, v: Records, w: Records, imports: seq<Import>, j: nat, withPIN: bool)
    requires NumbersDistinct(v) && j < |imports| && imports[j].number != 0 && Merged(v, w, imports[j], withPIN)
    requires Kept(u, v) && MarksRight(u, v, imports[..j]) && Kept(v, w)
    ensures MarksRight(u, w, imports[..j + 1])
  {
    MergedMarks(v, w, imports[j], withPIN);
    assert imports[..j + 1] == imports[..j] + [imports[j]];
    MarksMore(u, v, w, imports[..j], imports[j]);
  }

  lemma MarksSkip(u: Records, v: Records, imports: seq<Import>, j: nat)
    requires j < |imports| && imports[j].number == 0 && MarksRight(u, v, imports[..j])
    ensures MarksRight(u, v, imports[..j + 1])
  {
    assert imports[..j + 1] == imports[..j] + [imports[j]];
    MentionsStep(imports[..j], imports[j]);
  }

  /** How many imports have a number. */
  function Numbered(imports: seq<Import>): nat {
    if imports == [] then 0
    else
      var n := |imports| - 1;
      Numbered(imports[..n]) + if imports[n].number != 0 then 1 else 0
  }

  ghost predicate MergedSoFar(v: Records, w: Records, imports: seq<Import>, withPIN: bool, added: nat, updated: nat) {
    && Kept(v, w) && AllMerged(v, w, imports, withPIN)
    && added + updated == Numbered(imports) && |w| == |v| + added && (ValidRecords(v) ==> ValidRecords(w))
    && (AllLive(v, imports) ==> added == 0) && MarksRight(v, w, imports)
  }

  /** Every imported number is already live. */
  ghost predicate AllLive(v: Records, imports: seq<Import>) {
    forall j :: 0 <= j < |imports| && imports[j].number != 0 ==> HasLive(v, imports[j].number)
  }

  lemma AllLiveStep(u: Records, v: Records, imports: seq<Import>, j: nat)
    requires j < |imports| && Kept(u, v) && AllLive(u, imports[..j + 1])
    ensures AllLive(u, imports[..j]) && (imports[j].number != 0 ==> HasLive(v, imports[j].number))
  {
    forall i | 0 <= i < j && imports[..j][i].number != 0 ensures HasLive(u, imports[..j][i].number) {
      assert imports[..j][i] == imports[..j + 1][i];
    }
    assert imports[..j + 1][j] == imports[j];
    if imports[j].number != 0 {
      var k :| k in u && u[k].Live() && u[k].number == imports[j].number;
      assert OnlyDetails(u[k], v[k]);
    }
  }

  lemma NothingMerged(v: Records, withPIN: bool)
    ensures MergedSoFar(v, v, [], withPIN, 0, 0)
  {
    assert forall k :: k in v ==> OnlyDetails(v[k], v[k]);
  }

  lemma SkipStep(v: Records, w: Records, imports: seq<Import>, j: nat, withPIN: bool, added: nat, updated: nat)
    requires j < |imports| && imports[j].number == 0 && MergedSoFar(v, w, imports[..j], withPIN, added, updated)
    ensures MergedSoFar(v, w, imports[..j + 1], withPIN, added, updated)
  {
    MarksSkip(v, w, imports, j);
    assert imports[..j + 1][..j] == imports[..j];
    if AllLive(v, imports[..j + 1]) {
      AllLiveStep(v, w, imports, j);
    }
  }

  lemma DetailStep(u: Records, v: Records, w: Records, imports: seq<Import>, j: nat, withPIN: bool)
    requires NumbersDistinct(v) && NumbersDistinct(w)
    requires j < |imports| && Merged(v, w, imports[j], withPIN) && AllMerged(u, v, imports[..j], withPIN)
    ensures AllMerged(u, w, imports[..j + 1], withPIN)
  {
    assert imports[..j + 1][..j] == imports[..j];
    forall n: U32 | n != 0 ensures LiveDetail(w, n) == MergeAll(LiveDetail(u, n), imports[..j + 1], n, withPIN) {
      MergedDetail(v, w, imports[j], n, withPIN);
    }
  }

  lemma CountStep(v: Records, w: Records, imports: seq<Import>, j: nat, withPIN: bool)
    requires j < |imports| && imports[j].number != 0 && Merged(v, w, imports[j], withPIN)
    ensures Numbered(imports[..j + 1]) == Numbered(imports[..j]) + 1
    ensures |w| == |v| + if HasLive(v, imports[j].number) then 0 else 1
  {
    assert imports[..j + 1][..j] == imports[..j];
  }

  lemma MergeStep(u: Records, v: Records, w: Records, imports: seq<Import>, j: nat, withPIN: bool, added: nat,
                  updated: nat, isNew: bool)
    requires Keyed(v) && NumbersDistinct(v) && j < |imports| && (isNew <==> !HasLive(v, imports[j].number))
    requires imports[j].number != 0 && Merged(v, w, imports[j], withPIN)
    requires MergedSoFar(u, v, imports[..j], withPIN, added, updated)
    ensures NumbersDistinct(w)
    ensures MergedSoFar(u, w, imports[..j + 1], withPIN,
                        if isNew then added + 1 else added, if isNew then updated else updated + 1)
  {
    MergedKeeps(v, w, imports[j], withPIN);
    DetailStep(u, v, w, imports, j, withPIN);
    MarksStep(u, v, w, imports, j, withPIN);
    KeptTwice(u, v, w);
    if ValidRecords(v) {
      MergedIsValid(v, w, imports[j], withPIN);
    }
    if AllLive(u, imports[..j + 1]) {
      AllLiveStep(u, v, imports, j);
    }
    CountStep(v, w, imports, j, withPIN);
  }

  /** Some import grants the card with number n the level g. */
  ghost predicate Names(imports: seq<Import>, n: U32, g: OID) {
    exists j :: 0 <= j < |imports| && imports[j].number == n && imports[j].group == g
  }

  lemma NamesStep(imports: seq<Import>, n: U32, g: OID)
    requires imports != []
    ensures var last := imports[|imports| - 1];
            Names(imports, n, g) <==> Names(imports[..|imports| - 1], n, g) || (last.number == n && last.group == g)
  {
    var front := imports[..|imports| - 1];
    if Names(front, n, g) {
      var j :| 0 <= j < |front| && front[j].number == n && front[j].group == g;
      assert imports[j].number == n && imports[j].group == g;
    }
    if Names(imports, n, g) {
      var j :| 0 <= j < |imports| && imports[j].number == n && imports[j].group == g;
      assert j < |front| ==> front[j].number == n && front[j].group == g;
    }
  }

  /** Memberships only grow, and every group named for the card is granted. */
  lemma {:induction false} MembershipsGrow(d: Detail, imports: seq<Import>, n: U32, withPIN: bool)
    ensures var r := MergeAll(Some(d), imports, n, withPIN);
            && r.Some?
            && (forall g :: g in r.value.groups <==> g in d.groups || Names(imports, n, g))
            && (forall g :: g in r.value.groups ==>
                  r.value.groups[g] == ((g in d.groups && d.groups[g]) || Names(imports, n, g)))
  {
    if imports != [] {
      MembershipsGrow(d, imports[..|imports| - 1], n, withPIN);
      forall g: OID
        ensures var last := imports[|imports| - 1];
                Names(imports, n, g) <==> Names(imports[..|imports| - 1], n, g) || (last.number == n && last.group == g)
      {
        NamesStep(imports, n, g);
      }
    }
  }

  /** Dates and PIN come from the last import that does not preserve them, if there is one. */
  lemma {:induction false} LastImportDecides(d: Detail, e: Detail, imports: seq<Import>, n: U32, withPIN: bool)
    ensures var r, s := MergeAll(Some(d), imports, n, withPIN), MergeAll(Some(e), imports, n, withPIN);
            && r.Some? && s.Some?
            && ((forall j :: 0 <= j < |imports| && imports[j].number == n ==> imports[j].preserve) ==>
                  r.value.from == d.from && r.value.to == d.to && r.value.pin == d.pin)
            && ((exists j :: 0 <= j < |imports| && imports[j].number == n && !imports[j].preserve) ==>
                  r.value.from == s.value.from && r.value.to == s.value.to && (withPIN ==> r.value.pin == s.value.pin))
            && (!withPIN ==> r.value.pin == d.pin)
  {
    if imports != [] {
      var front, last := imports[..|imports| - 1], imports[|imports| - 1];
      LastImportDecides(d, e, front, n, withPIN);
      assert forall j :: 0 <= j < |front| ==> front[j] == imports[j];
      if last.number != n || last.preserve {
        if j :| 0 <= j < |imports| && imports[j].number == n && !imports[j].preserve {
          assert front[j].number == n && !front[j].preserve;
        }
      }
    }
  }

  /** Importing the same list again changes nothing. */
  lemma MergeIsIdempotent(d: Option<Detail>, imports: seq<Import>, n: U32, withPIN: bool)
    ensures MergeAll(MergeAll(d, imports, n, withPIN), imports, n, withPIN) == MergeAll(d, imports, n, withPIN)
  {
    if d.None? {
      MergeFromNothing(imports, n, withPIN);
      if MergeAll(None, imports, n, withPIN).Some? {
        var j :| 0 <= j < |imports| && imports[j].number == n
                 && MergeAll(None, imports, n, withPIN)
                      == MergeAll(Some(ImportedDetail(imports[j], withPIN)), imports, n, withPIN);
        MergeTwice(ImportedDetail(imports[j], withPIN), imports, n, withPIN);
      }
    } else {
      MergeTwice(d.value, imports, n, withPIN);
    }
  }

  lemma MergeTwice(d: Detail, imports: seq<Import>, n: U32, withPIN: bool)
    ensures MergeAll(MergeAll(Some(d), imports, n, withPIN), imports, n, withPIN)
              == MergeAll(Some(d), imports, n, withPIN)
  {
    MembershipsGrow(d, imports, n, withPIN);
    var once := MergeAll(Some(d), imports, n, withPIN);
    MembershipsGrow(once.value, imports, n, withPIN);
    LastImportDecides(once.value, d, imports, n, withPIN);
    LastImportDecides(d, d, imports, n, withPIN);
    var twice := MergeAll(once, imports, n, withPIN);
    assert twice.value.groups == once.value.groups;
  }

  lemma LiveDetailOf(v: Records, n: U32)
    requires LiveDetail(v, n).Some?
    ensures exists k :: k in v && v[k].Live() && v[k].number == n && DetailOf(v[k]) == LiveDetail(v, n).value
  {
  }

  /** Every imported number ends up live, and the card with it has the imported level. */
  lemma EveryImportIsGranted(v: Records, w: Records, imports: seq<Import>, j: nat, withPIN: bool)
    requires NumbersDistinct(w) && AllMerged(v, w, imports, withPIN) && j < |imports| && imports[j].number != 0
    ensures exists k :: k in w && w[k].Live() && w[k].number == imports[j].number && w[k].Member(imports[j].group)
  {
    var n, g := imports[j].number, imports[j].group;
    assert Names(imports, n, g);
    var before := LiveDetail(v, n);
    if before.None? {
      MergeFromNothing(imports, n, withPIN);
      var i :| 0 <= i < |imports| && imports[i].number == n
               && MergeAll(None, imports, n, withPIN)
                    == MergeAll(Some(ImportedDetail(imports[i], withPIN)), imports, n, withPIN);
      MembershipsGrow(ImportedDetail(imports[i], withPIN), imports, n, withPIN);
    } else {
      MembershipsGrow(before.value, imports, n, withPIN);
    }
    LiveDetailOf(w, n);
  }

  ghost predicate SameDetails(v: Records, w: Records) {
    forall n: U32 :: n != 0 ==> LiveDetail(w, n) == LiveDetail(v, n)
  }

  /** Importing the same list a second time finds every number live, adds no card and changes
      no detail. */
  lemma SecondImport(u: Records, v: Records, w: Records, imports: seq<Import>, withPIN: bool,
                     added: nat, updated: nat, added': nat, updated': nat)
    requires NumbersDistinct(v)
    requires MergedSoFar(u, v, imports, withPIN, added, updated)
               && MergedSoFar(v, w, imports, withPIN, added', updated')
    ensures added' == 0 && v.Keys == w.Keys && SameDetails(v, w)
  {
    forall j | 0 <= j < |imports| && imports[j].number != 0 ensures HasLive(v, imports[j].number) {
      EveryImportIsGranted(u, v, imports, j, withPIN);
    }
    assert AllLive(v, imports);
    SubsetOfSameSize(v.Keys, w.Keys);
    forall n: U32 | n != 0 ensures LiveDetail(w, n) == LiveDetail(v, n) {
      MergeIsIdempotent(LiveDetail(u, n), imports, n, withPIN);
    }
  }

  // ---- Discovery of unknown cards ----

  /** A card found on a controller that is not known here. */
  function FoundRecord(oid: OID, n: U32): Record {
    Record(oid, n, NO_TEXT, 0, None, None, map[], false, true, false, None)
  }

  function AddRecords(v: Records, oids: seq<OID>, numbers: seq<U32>): Records
    requires |oids| == |numbers|
  {
    if oids == [] then v
    else
      var n := |oids| - 1;
      AddRecords(v, oids[..n], numbers[..n])[oids[n] := FoundRecord(oids[n], numbers[n])]
  }

  lemma AddRecordsStep(v: Records, oids: seq<OID>, numbers: seq<U32>, i: nat, oid: OID)
    requires |oids| == i < |numbers|
    ensures AddRecords(v, oids + [oid], numbers[..i + 1])
              == AddRecords(v, oids, numbers[..i])[oid := FoundRecord(oid, numbers[i])]
  {
    assert numbers[..i + 1][..i] == numbers[..i] && (oids + [oid])[..i] == oids;
  }

  lemma {:induction false} AddRecordsSpec(v: Records, oids: seq<OID>, numbers: seq<U32>)
    requires |oids| == |numbers| && Distinct(oids) && forall o :: o in oids ==> o !in v
    ensures var w := AddRecords(v, oids, numbers);
            && (forall k :: k in w <==> k in v || k in oids)
            && (forall k :: k in v ==> w[k] == v[k])
            && forall i :: 0 <= i < |oids| ==> w[oids[i]] == FoundRecord(oids[i], numbers[i])
  {
    if oids != [] {
      var n := |oids| - 1;
      var front, last := oids[..n], oids[n];
      assert oids == front + [last];
      assert forall o :: o in oids <==> o in front || o == last;
      AddRecordsSpec(v, front, numbers[..n]);
    }
  }

  /** The records after a scan removed some and found others. */
  function AfterFound(v: Records, remove: set<OID>, oids: seq<OID>, add: seq<U32>): Records
    requires |oids| == |add|
  {
    AddRecords(v - remove, oids, add)
  }

  /** Every live unconfigured record that was not found is removed; nothing configured is,
      and nothing live that was found. */
  ghost predicate Removable(v: Records, found: seq<U32>, remove: set<OID>) {
    && remove <= v.Keys
    && (forall k :: k in remove ==> v[k].unconfigured && (v[k].Live() ==> v[k].number !in found))
    && (forall k :: k in v && v[k].unconfigured && v[k].Live() && v[k].number !in found ==> k in remove)
  }

  /** Discovery keeps numbers distinct, leaves every configured record as it was, and makes
      the live unconfigured numbers exactly those found that are not configured. */
  lemma FoundIsExact(v: Records, found: seq<U32>, remove: set<OID>, oids: seq<OID>, add: seq<U32>)
    requires Keyed(v) && NumbersDistinct(v) && Distinct(found) && 0 !in found
    requires Removable(v, found, remove)
    requires Distinct(add) && Elements(add) == Elements(found) - LiveNumbers(v)
    requires |oids| == |add| && Distinct(oids) && forall o :: o in oids ==> o !in v
    ensures var w := AfterFound(v, remove, oids, add);
            && Keyed(w) && NumbersDistinct(w)
            && (forall k :: k in v && !v[k].unconfigured ==> k in w && w[k] == v[k])
            && UnconfiguredNumbers(w) == Elements(found) - ConfiguredNumbers(v)
  {
    var u := v - remove;
    var w := AfterFound(v, remove, oids, add);
    AddRecordsSpec(u, oids, add);
    forall i | 0 <= i < |add| ensures add[i] in found && add[i] !in LiveNumbers(v) {
      assert add[i] in Elements(add);
    }
    forall k | k in u && v[k].Live() ensures v[k].number in LiveNumbers(v) {}
    forall n | n in UnconfiguredNumbers(w) ensures n in Elements(found) - ConfiguredNumbers(v) {
      var k :| k in w && w[k].Live() && w[k].unconfigured && w[k].number == n;
      if k in u {
        assert n in found;
      }
    }
    forall n | n in Elements(found) - ConfiguredNumbers(v) ensures n in UnconfiguredNumbers(w) {
      if n in LiveNumbers(v) {
        var k :| k in v && v[k].Live() && v[k].number == n;
        assert v[k].unconfigured && k !in remove && k in w;
      } else {
        assert n in Elements(add);
        var i :| 0 <= i < |add| && add[i] == n;
        assert oids[i] in w && w[oids[i]].Live();
      }
    }
  }

  /** What discovery does to each record: a new one is blank but for its number, which was found and
      not live, and its mark; of the others only unconfigured ones go, and of those that are live
      exactly those not found. */
  ghost predicate Discovered(v: Records, w: Records, found: seq<U32>) {
    && (forall k :: k in w && k !in v ==>
          && w[k] == Record(k, w[k].number, Text("", "", "", ""), 0, None, None, map[], false, true, false, None)
          && w[k].number in found && forall j :: j in v && v[j].deleted.None? ==> v[j].number != w[k].number)
    && (forall k :: k in v && k in w ==> w[k] == v[k])
    && (forall k :: k in v && !v[k].unconfigured ==> k in w)
    && (forall k :: k in v && v[k].unconfigured && v[k].deleted.None? ==> (k in w <==> v[k].number in found))
  }

  lemma FoundMeans(v: Records, found: seq<U32>, remove: set<OID>, oids: seq<OID>, add: seq<U32>)
    requires Removable(v, found, remove) && Elements(add) == Elements(found) - LiveNumbers(v)
    requires |oids| == |add| && Distinct(oids) && forall o :: o in oids ==> o !in v
    ensures Discovered(v, AfterFound(v, remove, oids, add), found)
  {
    var w := AfterFound(v, remove, oids, add);
    AddRecordsSpec(v - remove, oids, add);
    forall k | k in w && k !in v
      ensures w[k] == Record(k, w[k].number, Text("", "", "", ""), 0, None, None, map[], false, true, false, None)
      ensures w[k].number in found && forall j :: j in v && v[j].deleted.None? ==> v[j].number != w[k].number
    {
      var i :| 0 <= i < |oids| && oids[i] == k;
      assert add[i] in Elements(add);
      assert w[k] == FoundRecord(k, add[i]);
    }
  }
}
