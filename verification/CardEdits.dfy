/** What an edit means: for each field of a card, which values it accepts and what it then holds, in
    terms of the identifiers and the text of the request. */
module CardEdits {
  import opened Common
  import opened Decimal
  import opened Oid
  import opened Groups
  import opened CardRecords

  // ---- Numbers ----

  ghost predicate SomeDigit(value: string) {
    exists i :: 0 <= i < |value| && '0' <= value[i] <= '9'
  }

  /** A decimal number below the limit. */
  ghost predicate IsNumber(value: string, limit: nat) {
    value != "" && (forall i :: 0 <= i < |value| ==> '0' <= value[i] <= '9') && Value(value) < limit
  }

  /** A value is refused when it has a digit and is no number below the limit. */
  ghost predicate NotANumber(value: string, limit: nat) {
    SomeDigit(value) && !IsNumber(value, limit)
  }

  lemma ParseFieldIs(value: string, limit: nat)
    requires limit > 0
    ensures ParseField(value, limit) == if NotANumber(value, limit) then Bad
                                        else if IsNumber(value, limit) then Number(Value(value))
                                        else if value == "" then Number(0) else Ignored
  {
    assert SomeDigit(value) <==> HasDigit(value);
    assert AllDigits(value) <==> forall i :: 0 <= i < |value| ==> '0' <= value[i] <= '9';
    if IsNumber(value, limit) {
      assert '0' <= value[0] <= '9';
    }
  }

  // ---- Fields ----

  /** The identifier lies below the card's ".5" and ends in the number of the level. */
  ghost predicate IsMembership(oid: OID, field: OID, level: OID) {
    oid + ".5." <= field && exists digits :: EndsIn(field, digits) && level == "0.5." + digits
  }

  ghost predicate EndsIn(field: OID, digits: string) {
    && digits != "" && (forall i :: 0 <= i < |digits| ==> '0' <= digits[i] <= '9')
    && |field| > |digits| && field[|field| - |digits| - 1] == '.' && field[|field| - |digits|..] == digits
  }

  ghost predicate IsKind(value: string, kind: string) {
    kind in {"card", "rf-remote", "keypad-code"} && exists lower :: LoweredTo(value, lower) && TrimmedTo(lower, kind)
  }

  ghost predicate NoDate(value: string, env: Env) {
    value !in env.dates && value != ""
  }

  /** Why an edit of a card is refused. */
  ghost predicate Unacceptable(r: Record, field: OID, value: string, env: Env) {
    || r.deleted.Some?
    || (field == r.oid + ".2" && NotANumber(value, 0x1_0000_0000))
    || (field == r.oid + ".3" && NoDate(value, env))
    || (field == r.oid + ".4" && NoDate(value, env))
    || (field == r.oid + ".6" && NotANumber(value, 1_000_000))
    || (field == r.oid + ".7" && forall kind :: !IsKind(value, kind))
    || (exists level :: IsMembership(r.oid, field, level) && level !in env.levels)
  }

  /** The number a field holds afterwards; a value that is neither empty nor has a digit leaves it. */
  ghost predicate NumberSet(before: int, after: int, value: string) {
    if value == "" then after == 0 else if SomeDigit(value) then AllDigits(value) && after == Value(value)
    else after == before
  }

  ghost predicate DateSet(after: Option<int>, value: string, env: Env) {
    if value in env.dates then after == Some(env.dates[value]) else value == "" && after == None
  }

  /** What an edit makes of a card: the one field that the identifier names has changed to what the
      value says, and the marks are cleared. Any other identifier, and a number or PIN without any
      digit, only clears the marks. */
  ghost predicate FieldEdited(r: Record, s: Record, field: OID, value: string, env: Env) {
    && s.oid == r.oid && s.deleted == r.deleted && !s.incorrect && !s.unconfigured
    && (if field == r.oid + ".1" then TrimmedTo(value, s.text.name) else s.text.name == r.text.name)
    && (if field == r.oid + ".2" then NumberSet(r.number, s.number, value) else s.number == r.number)
    && (if field == r.oid + ".3" then DateSet(s.from, value, env) else s.from == r.from)
    && (if field == r.oid + ".4" then DateSet(s.to, value, env) else s.to == r.to)
    && (if field == r.oid + ".6" then NumberSet(r.pin, s.pin, value) else s.pin == r.pin)
    && (if field == r.oid + ".7" then IsKind(value, s.text.kind) else s.text.kind == r.text.kind)
    && (if field == r.oid + ".8" then TrimmedTo(value, s.text.managementGroup)
        else s.text.managementGroup == r.text.managementGroup)
    && (if field == r.oid + ".9" then TrimmedTo(value, s.text.labelText) else s.text.labelText == r.text.labelText)
    && (forall level :: IsMembership(r.oid, field, level) ==> s.groups == r.groups[level := value == "true"])
    && ((forall level :: !IsMembership(r.oid, field, level)) ==> s.groups == r.groups)
    && s.modified == (r.modified || Written(r.oid, field, value))
  }

  /** Whether the edit writes anything but the marks. */
  ghost predicate Written(oid: OID, field: OID, value: string) {
    || field in {oid + ".1", oid + ".3", oid + ".4", oid + ".7", oid + ".8", oid + ".9"}
    || (field in {oid + ".2", oid + ".6"} && (value == "" || SomeDigit(value)))
    || exists level :: IsMembership(oid, field, level)
  }

  // ---- Which field an identifier names ----

  lemma PlainField(oid: OID, suffix: string)
    requires Normal(oid) && |suffix| == 2 && suffix[0] == '.' && suffix[1] != '.'
    ensures Append(oid, suffix) == oid + suffix
  {
    AppendIs(oid, suffix);
  }

  lemma PlainFields(oid: OID)
    requires Normal(oid)
    ensures Append(oid, CARD_NAME) == oid + ".1" && Append(oid, CARD_NUMBER) == oid + ".2"
    ensures Append(oid, CARD_FROM) == oid + ".3" && Append(oid, CARD_TO) == oid + ".4"
    ensures Append(oid, CARD_GROUPS) == oid + ".5" && Append(oid, CARD_PIN) == oid + ".6"
    ensures Append(oid, CARD_KIND) == oid + ".7" && Append(oid, CARD_MANAGEMENT_GROUP) == oid + ".8"
    ensures Append(oid, CARD_LABEL) == oid + ".9"
  {
    PlainField(oid, CARD_NAME);
    PlainField(oid, CARD_NUMBER);
    PlainField(oid, CARD_FROM);
    PlainField(oid, CARD_TO);
    PlainField(oid, CARD_GROUPS);
    PlainField(oid, CARD_PIN);
    PlainField(oid, CARD_KIND);
    PlainField(oid, CARD_MANAGEMENT_GROUP);
    PlainField(oid, CARD_LABEL);
  }

  lemma {:induction false} LastNumberEnds(s: string)
    ensures LastNumber(s).Some? ==> EndsIn(s, LastNumber(s).value)
    ensures forall digits :: EndsIn(s, digits) ==> LastNumber(s) == Some(digits)
  {
    if |s| >= 2 {
      var rest := s[1..];
      LastNumberEnds(rest);
      forall digits | EndsIn(s, digits) ensures LastNumber(s) == Some(digits) {
        if |digits| == |s| - 1 {
          assert digits == rest;
        } else {
          EndsLater(s, digits);
        }
      }
      if !(s[0] == '.' && AllDigits(rest)) && LastNumber(rest).Some? {
        var digits := LastNumber(rest).value;
        assert s[|s| - |digits|..] == rest[|rest| - |digits|..];
      }
    }
  }

  lemma EndsLater(s: string, digits: string)
    requires EndsIn(s, digits) && |digits| < |s| - 1
    ensures EndsIn(s[1..], digits) && !AllDigits(s[1..])
  {
    var rest := s[1..];
    assert rest[|rest| - |digits| - 1] == '.';
    assert rest[|rest| - |digits|..] == s[|s| - |digits|..];
  }

  lemma LevelOf(digits: string)
    requires digits != "" && AllDigits(digits)
    ensures Append(GROUPS_OID, digits) == "0.5." + digits
  {
    AppendIs(GROUPS_OID, digits);
    assert GROUPS_OID + "." == "0.5.";
  }

  lemma Memberships(oid: OID, field: OID)
    requires Normal(oid) && oid + ".5." <= field
    ensures LastNumber(field).None? ==> forall level :: !IsMembership(oid, field, level)
    ensures LastNumber(field).Some? ==>
              forall level :: IsMembership(oid, field, level) <==> level == Append(GROUPS_OID, LastNumber(field).value)
  {
    LastNumberEnds(field);
    if LastNumber(field).Some? {
      LevelOf(LastNumber(field).value);
    }
  }

  /** The field that an identifier names, by its suffix. */
  lemma FieldOfIs(oid: OID, field: OID)
    requires Normal(oid)
    ensures FieldOf(oid, field) == if field == oid + ".1" then NameField
                                   else if field == oid + ".2" then NumberField
                                   else if field == oid + ".3" then FromField
                                   else if field == oid + ".4" then ToField
                                   else if field == oid + ".6" then PinField
                                   else if field == oid + ".7" then KindField
                                   else if field == oid + ".8" then ManagementGroupField
                                   else if field == oid + ".9" then LabelField
                                   else if oid + ".5." <= field then GroupField(LastNumber(field))
                                   else OtherField
  {
    PlainFields(oid);
    Suffixes(oid);
    assert oid + ".5" + "." == oid + ".5.";
    assert Contains(oid + ".5", field) <==> oid + ".5." <= field;
  }

  lemma Suffixes(oid: OID)
    ensures forall s, t :: |s| == |t| == 2 && s != t ==> oid + s != oid + t
  {
    forall s: string, t: string | |s| == |t| == 2 && s != t ensures oid + s != oid + t {
      assert (oid + s)[|oid|..] == s && (oid + t)[|oid|..] == t;
    }
  }

  /** The same, the other way round. */
  lemma FieldIs(oid: OID, field: OID)
    requires Normal(oid)
    ensures FieldOf(oid, field).NameField? <==> field == oid + ".1"
    ensures FieldOf(oid, field).NumberField? <==> field == oid + ".2"
    ensures FieldOf(oid, field).FromField? <==> field == oid + ".3"
    ensures FieldOf(oid, field).ToField? <==> field == oid + ".4"
    ensures FieldOf(oid, field).PinField? <==> field == oid + ".6"
    ensures FieldOf(oid, field).KindField? <==> field == oid + ".7"
    ensures FieldOf(oid, field).ManagementGroupField? <==> field == oid + ".8"
    ensures FieldOf(oid, field).LabelField? <==> field == oid + ".9"
  {
    FieldOfIs(oid, field);
    Suffixes(oid);
  }

  ghost predicate NoMembership(oid: OID, field: OID) {
    forall level :: !IsMembership(oid, field, level)
  }

  lemma MembershipIs(oid: OID, field: OID)
    requires Normal(oid)
    ensures var f := FieldOf(oid, field);
            if f.GroupField? && f.gid.Some?
            then forall level :: IsMembership(oid, field, level) <==> level == Append(GROUPS_OID, f.gid.value)
            else NoMembership(oid, field)
  {
    FieldOfIs(oid, field);
    if oid + ".5." <= field {
      Memberships(oid, field);
      forall s | s in {".1", ".2", ".3", ".4", ".6", ".7", ".8", ".9"} ensures field != oid + s {}
    }
  }

  lemma KindIs(value: string)
    ensures KindOf(value) in KINDS ==> IsKind(value, KindOf(value))
    ensures KindOf(value) !in KINDS ==> forall kind :: !IsKind(value, kind)
  {
    LowerIs(value);
    TrimSpaceIs(Lower(value));
    forall kind | IsKind(value, kind) ensures kind == KindOf(value) {
      var lower :| LoweredTo(value, lower) && TrimmedTo(lower, kind);
      assert lower == Lower(value);
      TrimIsUnique(lower, kind, TrimSpace(lower));
    }
  }

  lemma TextSet(r: Record, s: Record, field: Field, value: string, env: Env)
    requires field.IsText() && SetField(r, field, value, env) == Some(s)
    ensures s == r.(text := s.text, incorrect := false, unconfigured := false, modified := true)
    ensures if field == NameField then TrimmedTo(value, s.text.name) else s.text.name == r.text.name
    ensures if field == ManagementGroupField then TrimmedTo(value, s.text.managementGroup)
            else s.text.managementGroup == r.text.managementGroup
    ensures if field == LabelField then TrimmedTo(value, s.text.labelText) else s.text.labelText == r.text.labelText
    ensures if field == KindField then IsKind(value, s.text.kind) else s.text.kind == r.text.kind
  {
    TrimSpaceIs(value);
    KindIs(value);
  }

  /** The same in terms of the field that an identifier names. */
  ghost predicate EditedAs(r: Record, s: Record, f: Field, value: string, env: Env) {
    && s.oid == r.oid && s.deleted == r.deleted && !s.incorrect && !s.unconfigured
    && (if f.NameField? then TrimmedTo(value, s.text.name) else s.text.name == r.text.name)
    && (if f.NumberField? then NumberSet(r.number, s.number, value) else s.number == r.number)
    && (if f.FromField? then DateSet(s.from, value, env) else s.from == r.from)
    && (if f.ToField? then DateSet(s.to, value, env) else s.to == r.to)
    && (if f.PinField? then NumberSet(r.pin, s.pin, value) else s.pin == r.pin)
    && (if f.KindField? then IsKind(value, s.text.kind) else s.text.kind == r.text.kind)
    && (if f.ManagementGroupField? then TrimmedTo(value, s.text.managementGroup)
        else s.text.managementGroup == r.text.managementGroup)
    && (if f.LabelField? then TrimmedTo(value, s.text.labelText) else s.text.labelText == r.text.labelText)
    && s.groups == (if f.GroupField? && f.gid.Some? then r.groups[Append(GROUPS_OID, f.gid.value) := value == "true"]
                    else r.groups)
    && s.modified == (r.modified || Writes(f, value))
  }

  ghost predicate Writes(f: Field, value: string) {
    || f.IsText() || f.FromField? || f.ToField? || (f.GroupField? && f.gid.Some?)
    || ((f.NumberField? || f.PinField?) && (value == "" || SomeDigit(value)))
  }

  lemma SetFieldEdits(r: Record, s: Record, f: Field, value: string, env: Env)
    requires SetField(r, f, value, env) == Some(s)
    ensures EditedAs(r, s, f, value, env)
  {
    if f.IsText() {
      TextSet(r, s, f, value, env);
    } else if f.NumberField? {
      ParseFieldIs(value, 0x1_0000_0000);
    } else if f.PinField? {
      ParseFieldIs(value, 1_000_000);
    }
  }

  lemma WritesIs(oid: OID, field: OID, value: string)
    requires Normal(oid)
    ensures Writes(FieldOf(oid, field), value) <==> Written(oid, field, value)
  {
    var f := FieldOf(oid, field);
    FieldIs(oid, field);
    MembershipIs(oid, field);
    if f.GroupField? && f.gid.Some? {
      assert IsMembership(oid, field, Append(GROUPS_OID, f.gid.value));
    }
  }

  /** An accepted edit does what its identifier and value say. */
  lemma SetFieldMeans(r: Record, s: Record, field: OID, value: string, env: Env)
    requires Normal(r.oid) && SetField(r, FieldOf(r.oid, field), value, env) == Some(s)
    ensures FieldEdited(r, s, field, value, env)
  {
    var f := FieldOf(r.oid, field);
    SetFieldEdits(r, s, f, value, env);
    WritesIs(r.oid, field, value);
    FieldIs(r.oid, field);
    GroupsEdited(r, s, field, value, env);
  }

  lemma GroupsEdited(r: Record, s: Record, field: OID, value: string, env: Env)
    requires Normal(r.oid) && EditedAs(r, s, FieldOf(r.oid, field), value, env)
    ensures forall level :: IsMembership(r.oid, field, level) ==> s.groups == r.groups[level := value == "true"]
    ensures (forall level :: !IsMembership(r.oid, field, level)) ==> s.groups == r.groups
  {
    var f := FieldOf(r.oid, field);
    MembershipIs(r.oid, field);
    if f.GroupField? && f.gid.Some? {
      assert IsMembership(r.oid, field, Append(GROUPS_OID, f.gid.value));
    }
  }

  /** Why an edit of a field is refused. */
  ghost predicate RefusedAs(r: Record, f: Field, value: string, env: Env) {
    || r.deleted.Some?
    || (f.NumberField? && NotANumber(value, 0x1_0000_0000))
    || ((f.FromField? || f.ToField?) && NoDate(value, env))
    || (f.PinField? && NotANumber(value, 1_000_000))
    || (f.KindField? && forall kind :: !IsKind(value, kind))
    || (f.GroupField? && f.gid.Some? && Append(GROUPS_OID, f.gid.value) !in env.levels)
  }

  lemma SetFieldRefuses(r: Record, f: Field, value: string, env: Env)
    ensures SetField(r, f, value, env) == None <==> RefusedAs(r, f, value, env)
  {
    if f.NumberField? {
      ParseFieldIs(value, 0x1_0000_0000);
    } else if f.PinField? {
      ParseFieldIs(value, 1_000_000);
    } else if f.KindField? {
      KindIs(value);
    }
  }

  /** An edit is refused for one of the reasons listed, and never without one. */
  lemma RefusedExactly(r: Record, field: OID, value: string, env: Env)
    requires Normal(r.oid)
    ensures SetField(r, FieldOf(r.oid, field), value, env) == None <==> Unacceptable(r, field, value, env)
  {
    var f := FieldOf(r.oid, field);
    SetFieldRefuses(r, f, value, env);
    FieldIs(r.oid, field);
    MembershipIs(r.oid, field);
    if f.GroupField? && f.gid.Some? {
      assert IsMembership(r.oid, field, Append(GROUPS_OID, f.gid.value));
    }
  }

  // ---- On a store ----

  /** What one edit does to the records: nothing unless some card contains the field. */
  ghost predicate Updated(v: Records, w: Records, field: OID, value: string, env: Env) {
    || (w == v && forall k :: k in v ==> !Contains(k, field))
    || exists k ::
         k in v && Contains(k, field) && k in w && SetField(v[k], FieldOf(k, field), value, env) == Some(w[k])
             && w == v[k := w[k]]
  }

  ghost predicate Refused(v: Records, field: OID, value: string, env: Env) {
    exists k :: k in v && Contains(k, field) && SetField(v[k], FieldOf(k, field), value, env) == None
  }

  /** The field belongs to card k and to no other. */
  ghost predicate Owns(v: Records, k: OID, field: OID) {
    && k in v && v[k].oid == k && Normal(k) && k + "." <= field
    && forall j :: j in v && j + "." <= field ==> j == k
  }

  /** An edit that succeeds changes the card that owns the field, as its value says, and no other. */
  lemma UpdateMeans(v: Records, w: Records, k: OID, field: OID, value: string, env: Env)
    requires Owns(v, k, field) && Updated(v, w, field, value, env)
    ensures k in w && w == v[k := w[k]] && FieldEdited(v[k], w[k], field, value, env)
    ensures !Unacceptable(v[k], field, value, env)
  {
    assert Contains(k, field);
    assert forall j :: j in v && Contains(j, field) ==> j + "." <= field;
    SetFieldMeans(v[k], w[k], field, value, env);
    RefusedExactly(v[k], field, value, env);
  }

  /** What an edit of the card that owns a field comes to: an authorised one succeeds exactly when the
      card is live and the value acceptable, and does what the value says; without authority no more
      than the marks is cleared; no other card changes. */
  ghost predicate EditOutcome(v: Records, w: Records, k: OID, field: OID, value: string, env: Env, authorised: bool,
                              ok: bool)
    requires k in v
  {
    && k in w && w == v[k := w[k]]
    && (authorised ==> (ok <==> !Unacceptable(v[k], field, value, env)))
    && (ok ==> FieldEdited(v[k], w[k], field, value, env))
    && (ok && !authorised ==> w[k] == v[k].(incorrect := false, unconfigured := false))
    && (!ok ==> w == v)
  }

  lemma RefusalMeans(v: Records, k: OID, field: OID, value: string, env: Env)
    requires Owns(v, k, field)
    ensures Refused(v, field, value, env) <==> Unacceptable(v[k], field, value, env)
  {
    assert Contains(k, field);
    assert forall j :: j in v && Contains(j, field) ==> j + "." <= field;
    RefusedExactly(v[k], field, value, env);
  }

  /** The identifiers that the catalog prints are such that every field has at most one owner. */
  lemma PrintedOwns(v: Records, k: OID, n: nat, field: OID)
    requires k in v && v[k].oid == k && k == Child(CARDS_OID, n) && k + "." <= field
    requires forall j :: j in v ==> exists m: nat :: j == Child(CARDS_OID, m)
    ensures Owns(v, k, field)
  {
    forall j | j in v && j + "." <= field ensures j == k {
      var m: nat :| j == Child(CARDS_OID, m);
      assert Contains(Child(CARDS_OID, m), field) && Contains(Child(CARDS_OID, n), field);
      RoutingIsUnique(CARDS_OID, m, n, field);
    }
    ChildIsNormal(n);
  }

  lemma ChildIsNormal(n: nat)
    ensures Normal(Child(CARDS_OID, n))
  {
    DottedIsNormal(CARDS_OID, Dec(n));
  }

  lemma DottedIsNormal(base: OID, digits: string)
    requires Normal(base) && digits != "" && AllDigits(digits)
    ensures Normal(base + "." + digits)
  {
    var s := base + "." + digits;
    forall i | 0 < i < |s| ensures s[i] == '.' ==> s[i - 1] != '.' {
      if i > |base| {
        assert s[i] == digits[i - |base| - 1];
        assert IsDigit(s[i]);
      }
    }
    assert s[|s| - 1] == digits[|digits| - 1];
  }
}
