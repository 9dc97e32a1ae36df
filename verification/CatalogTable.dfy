/** Allocation of object identifiers: one table for each kind of record, and a keyed table
    for events. */
module CatalogTable {
  import opened Common
  import opened Decimal
  import opened Oid

  /** The number that an identifier of a table is put under. */
  function NumberOf(base: OID, oid: OID): Option<U32> {
    if !HasPrefix(oid, base) then None
    else
      match FirstNumber(TrimPrefix(oid, base))
      case None => None
      case Some(digits) => ParseUint(digits, 0x1_0000_0000)
  }

  /** The digits behind the first dot that a digit follows. */
  ghost predicate FirstDigits(s: string, i: int, j: int) {
    && 0 <= i && i + 1 < j <= |s| && s[i] == '.' && (forall n :: i < n < j ==> '0' <= s[n] <= '9')
    && (j < |s| ==> !('0' <= s[j] <= '9'))
    && forall n :: 0 <= n < i && s[n] == '.' ==> !('0' <= s[n + 1] <= '9')
  }

  lemma {:induction false} LeadingDigitsEnd(s: string) returns (j: nat)
    ensures j <= |s| && LeadingDigits(s) == s[..j] && (forall n :: 0 <= n < j ==> IsDigit(s[n]))
    ensures j < |s| ==> !IsDigit(s[j])
  {
    j := 0;
    if s != [] && IsDigit(s[0]) {
      var k := LeadingDigitsEnd(s[1..]);
      j := k + 1;
      assert s[..j] == [s[0]] + s[1..][..k];
      assert forall n :: 1 <= n < j ==> s[n] == s[1..][n - 1];
      assert j < |s| ==> s[j] == s[1..][k];
    }
  }

  lemma FirstDigitsHere(s: string, k: nat)
    requires |s| >= 2 && s[0] == '.' && IsDigit(s[1]) && k <= |s| - 1 && LeadingDigits(s[1..]) == s[1..][..k]
    requires (forall n :: 0 <= n < k ==> IsDigit(s[1..][n])) && (k < |s| - 1 ==> !IsDigit(s[1..][k]))
    ensures FirstDigits(s, 0, k + 1) && LeadingDigits(s[1..]) == s[1..k + 1]
  {
    assert s[1..][..k] == s[1..k + 1];
    assert forall n :: 1 <= n < |s| ==> s[n] == s[1..][n - 1];
    assert LeadingDigits(s[1..])[0] == s[1];
  }

  lemma FirstDigitsLater(s: string, a: nat, b: nat)
    requires |s| >= 2 && !(s[0] == '.' && IsDigit(s[1])) && FirstDigits(s[1..], a, b)
    ensures FirstDigits(s, a + 1, b + 1) && s[a + 2..b + 1] == s[1..][a + 1..b]
  {
    var rest := s[1..];
    assert forall n :: 1 <= n < |s| ==> s[n] == rest[n - 1];
    forall n | 0 <= n < a + 1 && s[n] == '.' ensures !('0' <= s[n + 1] <= '9') {
      assert n > 0 ==> rest[n - 1] == '.';
    }
  }

  ghost predicate NoNumber(s: string) {
    forall n :: 0 <= n < |s| - 1 && s[n] == '.' ==> !('0' <= s[n + 1] <= '9')
  }

  lemma NoNumberLater(s: string)
    requires |s| >= 2 && !(s[0] == '.' && IsDigit(s[1])) && NoNumber(s[1..])
    ensures NoNumber(s)
  {
    var rest := s[1..];
    forall n | 0 <= n < |s| - 1 && s[n] == '.' ensures !('0' <= s[n + 1] <= '9') {
      assert n > 0 ==> rest[n - 1] == '.' && rest[n] == s[n + 1];
    }
  }

  lemma {:induction false} FirstNumberIs(s: string) returns (i: nat, j: nat)
    ensures FirstNumber(s).Some? ==> FirstDigits(s, i, j) && FirstNumber(s).value == s[i + 1..j]
    ensures FirstNumber(s).None? ==> NoNumber(s)
  {
    i, j := 0, 0;
    if |s| >= 2 {
      if s[0] == '.' && IsDigit(s[1]) {
        var k := LeadingDigitsEnd(s[1..]);
        FirstDigitsHere(s, k);
        j := k + 1;
      } else {
        i, j := FirstNumberIs(s[1..]);
        if FirstNumber(s).Some? {
          FirstDigitsLater(s, i, j);
        } else {
          NoNumberLater(s);
        }
        i, j := i + 1, j + 1;
      }
    }
  }

  /** What the table makes of an identifier: it must start with the base, have a dot with a digit
      behind it in the rest, and the digits behind the first such dot must be a 32-bit number. */
  lemma NumberMeans(base: OID, oid: OID) returns (i: nat, j: nat)
    ensures NumberOf(base, oid).Some? ==>
              base <= oid && FirstDigits(oid[|base|..], i, j) && AllDigits(oid[|base|..][i + 1..j])
              && NumberOf(base, oid) == Some(Value(oid[|base|..][i + 1..j]))
    ensures NumberOf(base, oid).None? ==>
              || !(base <= oid)
              || NoNumber(oid[|base|..])
              || (FirstDigits(oid[|base|..], i, j) && AllDigits(oid[|base|..][i + 1..j])
                  && Value(oid[|base|..][i + 1..j]) >= 0x1_0000_0000)
  {
    i, j := 0, 0;
    if base <= oid {
      var rest := oid[|base|..];
      assert oid[..|base|] == base && TrimPrefix(oid, base) == rest;
      i, j := FirstNumberIs(rest);
    }
  }

  /** Reading the number of a printed identifier gives it back. */
  lemma NumberOfChild(base: OID, n: U32)
    ensures NumberOf(base, Child(base, n)) == Some(n)
  {
    FirstNumberOfChild(base, n);
    ValueOfDec(n);
    assert Child(base, n)[..|base|] == base;
  }

  /** A table's state; each identifier is mapped to its deleted mark and never removed. */
  datatype Tab = Tab(base: OID, m: map<OID, bool>, last: U32) {
    predicate Reserved(n: U32) {
      base == GROUPS_OID && (n == 254 || n == 255)
    }

    predicate Free(n: U32) {
      !Reserved(n) && Child(base, n) !in m
    }

    /** Every identifier of the form base.n is at or below the high-water mark. */
    ghost predicate Bounded() {
      forall n: U32 :: Child(base, n) in m ==> n <= last || Reserved(n)
    }

    function Put(oid: OID): Option<Tab> {
      match NumberOf(base, oid)
      case None => None
      case Some(v) => Some(this.(m := m[oid := false], last := if v > last && !Reserved(v) then v else last))
    }

    function Delete(oid: OID): Tab {
      if oid in m then this.(m := m[oid := true]) else this
    }
  }

  /** No identifier is forgotten, and none that was known changes its deleted mark. */
  ghost predicate StillMarked(before: Tab, after: Tab) {
    forall k :: k in before.m ==> k in after.m && after.m[k] == before.m[k]
  }

  /** How many increments of an unsigned counter lead from one value to another. */
  function Steps(from: U32, to: U32): (k: int)
    ensures 1 <= k <= 0x1_0000_0000
  {
    if to > from then to - from else to - from + 0x1_0000_0000
  }

  /** The identifier returned is new and is the first free one after the high-water mark. */
  ghost predicate Issues(before: Tab, oid: OID, after: Tab) {
    && after == before.(m := before.m[oid := false], last := after.last)
    && before.Free(after.last) && oid == Child(before.base, after.last)
    && forall n: U32 :: before.Free(n) ==> Steps(before.last, after.last) <= Steps(before.last, n)
  }

  class Table {
    var t: Tab

    constructor (base: OID)
      ensures t == Tab(base, map[], 0)
    {
      t := Tab(base, map[], 0);
    }

    /** The search wraps around with the counter, so it ends exactly when a free identifier
        exists at all. */
    method New() returns (oid: OID)
      requires exists n :: t.Free(n)
      modifies this
      ensures Issues(old(t), oid, t)
      ensures oid !in old(t).m
    {
      ghost var goal: U32 :| t.Free(goal);
      var suffix := t.last;
      ghost var k := 0;
      while true
        invariant 0 <= k < Steps(t.last, goal)
        invariant suffix == if t.last + k <= MAX_UINT32 then t.last + k else t.last + k - 0x1_0000_0000
        invariant forall n :: t.Free(n) ==> k < Steps(t.last, n)
        invariant t == old(t)
        decreases Steps(t.last, goal) - k
      {
        suffix := Add32(suffix, 1);
        k := k + 1;
        assert Steps(t.last, suffix) == k;
        oid := Child(t.base, suffix);
        if !t.Reserved(suffix) && oid !in t.m {
          t := t.(m := t.m[oid := false], last := suffix);
          return;
        }
        assert !t.Free(suffix);
        StepsInjective(t.last, suffix);
      }
    }

    /** An identifier outside the table, without a number, or out of range is a panic. */
    method Put(oid: OID) returns (ok: bool)
      modifies this
      ensures ok <==> old(t).Put(oid).Some?
      ensures t == if ok then old(t).Put(oid).value else old(t)
    {
      if !HasPrefix(oid, t.base) {
        return false;
      }
      var digits := FirstNumber(TrimPrefix(oid, t.base));
      if digits.None? {
        return false;
      }
      var index := ParseUint(digits.value, 0x1_0000_0000);
      if index.None? {
        return false;
      }
      var v := index.value;
      var m := t.m[oid := false];
      t := t.(m := m);
      if v > t.last && !(t.base == GROUPS_OID && (v == 254 || v == 255)) {
        t := t.(last := v);
      }
      ok := true;
    }

    method Delete(oid: OID)
      modifies this
      ensures t == old(t).Delete(oid)
    {
      if oid in t.m {
        t := t.(m := t.m[oid := true]);
      }
    }
  }

  lemma StepsInjective(from: U32, a: U32)
    ensures forall b: U32 :: Steps(from, a) == Steps(from, b) ==> a == b
  {
  }

  /** Putting an identifier that the table printed reads its number back. */
  lemma PutOfPrinted(t: Tab, n: U32)
    ensures t.Put(Child(t.base, n)).Some?
    ensures var t' := t.Put(Child(t.base, n)).value;
            && t'.base == t.base
            && t'.m == t.m[Child(t.base, n) := false]
            && t'.last == if n > t.last && !t.Reserved(n) then n else t.last
  {
    NumberOfChild(t.base, n);
  }

  /** Below the limit the next number, or the first after the reserved pair, is free: New
      moves the high-water mark up. */
  lemma NewMovesUp(t: Tab, oid: OID, t': Tab)
    requires t.Bounded() && t.last < MAX_UINT32 && Issues(t, oid, t')
    ensures t'.last > t.last && t'.Bounded()
  {
    var next: U32 := if t.base == GROUPS_OID && (t.last == 253 || t.last == 254) then 256 else t.last + 1;
    assert t.Free(next);
    forall n: U32 | Child(t'.base, n) in t'.m ensures n <= t'.last || t'.Reserved(n) {
      if Child(t'.base, n) == oid {
        ChildInjective(t.base, n, t'.last);
      }
    }
  }

  lemma FreeBelowLimit(t: Tab)
    requires t.Bounded() && t.last < MAX_UINT32
    ensures exists n :: t.Free(n)
  {
    var next: U32 := if t.base == GROUPS_OID && (t.last == 253 || t.last == 254) then 256 else t.last + 1;
    assert t.Free(next);
  }

  /** Whatever is put, printed by the table or not. */
  lemma PutKeepsBounded(t: Tab, oid: OID)
    requires t.Bounded() && t.Put(oid).Some?
    ensures t.Put(oid).value.Bounded() && t.Put(oid).value.last >= t.last
  {
    var t' := t.Put(oid).value;
    forall k: U32 | Child(t'.base, k) in t'.m ensures k <= t'.last || t'.Reserved(k) {
      if Child(t.base, k) == oid {
        NumberOfChild(t.base, k);
      }
    }
  }

  // ---- Whole runs ----

  datatype Op = OpNew(oid: OID) | OpPut(oid: OID) | OpDelete(oid: OID)

  /** The identifier that an operation brings into use. */
  function Used(op: Op): Option<OID> {
    if op.OpDelete? then None else Some(op.oid)
  }

  ghost predicate Step(t: Tab, op: Op, t': Tab) {
    match op
    case OpNew(oid) => Issues(t, oid, t')
    case OpPut(oid) => t.Put(oid) == Some(t')
    case OpDelete(oid) => t' == t.Delete(oid)
  }

  ghost predicate Run(states: seq<Tab>, ops: seq<Op>) {
    |states| == |ops| + 1 && forall i :: 0 <= i < |ops| ==> Step(states[i], ops[i], states[i + 1])
  }

  /** The counter has not wrapped: New was never called at its limit. */
  ghost predicate BelowLimit(states: seq<Tab>, ops: seq<Op>) {
    |states| == |ops| + 1 && forall i :: 0 <= i < |ops| && ops[i].OpNew? ==> states[i].last < MAX_UINT32
  }

  /** Identifiers are never forgotten, even after the counter has wrapped. */
  lemma {:induction false} RunRemembers(states: seq<Tab>, ops: seq<Op>, i: nat, j: nat)
    requires Run(states, ops) && i <= j < |states|
    ensures states[j].base == states[i].base && states[i].m.Keys <= states[j].m.Keys
    decreases j
  {
    if i < j {
      RunRemembers(states, ops, i, j - 1);
      assert Step(states[j - 1], ops[j - 1], states[j]);
    }
  }

  /** Until the counter wraps the high-water mark never goes down. */
  lemma {:induction false} RunKeeps(states: seq<Tab>, ops: seq<Op>, i: nat, j: nat)
    requires Run(states, ops) && BelowLimit(states, ops) && states[0].Bounded() && i <= j < |states|
    ensures states[j].Bounded() && states[j].base == states[i].base
    ensures states[i].last <= states[j].last && states[i].m.Keys <= states[j].m.Keys
    decreases j
  {
    if j > 0 {
      RunKeeps(states, ops, 0, j - 1);
      if i < j {
        RunKeeps(states, ops, i, j - 1);
      }
      StepKeeps(states[j - 1], ops[j - 1], states[j]);
    }
  }

  lemma StepKeeps(t: Tab, op: Op, t': Tab)
    requires t.Bounded() && Step(t, op, t') && (op.OpNew? ==> t.last < MAX_UINT32)
    ensures t'.Bounded() && t'.base == t.base && t.last <= t'.last && t.m.Keys <= t'.m.Keys
  {
    match op
    case OpNew(oid) => NewMovesUp(t, oid, t');
    case OpPut(oid) => PutKeepsBounded(t, oid);
    case OpDelete(_) =>
  }

  /** Over every run, whatever is put and even after the counter has wrapped, an identifier
      issued by New was never issued or put before, deleted or not, and is never one of the two
      reserved for the built-in access levels. */
  lemma IssuedOnce(states: seq<Tab>, ops: seq<Op>, i: nat, j: nat)
    requires Run(states, ops) && i < j < |ops| && ops[j].OpNew?
    ensures Used(ops[i]) != Some(ops[j].oid)
    ensures states[j].base == GROUPS_OID ==>
              ops[j].oid != Child(GROUPS_OID, 254) && ops[j].oid != Child(GROUPS_OID, 255)
  {
    assert Step(states[i], ops[i], states[i + 1]);
    RunRemembers(states, ops, i + 1, j);
    assert Step(states[j], ops[j], states[j + 1]);
    if ops[j].oid == Child(GROUPS_OID, 254) && states[j].base == GROUPS_OID {
      ChildInjective(GROUPS_OID, 254, states[j + 1].last);
    }
    if ops[j].oid == Child(GROUPS_OID, 255) && states[j].base == GROUPS_OID {
      ChildInjective(GROUPS_OID, 255, states[j + 1].last);
    }
  }

  // ---- Events: an identifier for each (controller, index) key ----

  /** Distinct keys have distinct identifiers, and those printed from numbers are no higher than
      the mark. */
  ghost predicate Faithful<Key(!new)>(base: OID, m: map<Key, OID>, last: U32) {
    && (forall k, n: U32 :: k in m && m[k] == Child(base, n) ==> n <= last)
    && (forall j, k :: j in m && k in m && m[j] == m[k] ==> j == k)
  }

  lemma NewIsFaithful<Key(!new)>(base: OID, m: map<Key, OID>, last: U32, key: Key)
    requires Faithful(base, m, last) && last < MAX_UINT32 && key !in m
    ensures Faithful(base, m[key := Child(base, last + 1)], last + 1)
  {
    var m' := m[key := Child(base, last + 1)];
    forall k, n: U32 | k in m' && m'[k] == Child(base, n) ensures n <= last + 1 && (k == key || n <= last) {
      if k == key {
        ChildInjective(base, n, last + 1);
      } else {
        assert m[k] == Child(base, n);
      }
    }
    var next: U32 := last + 1;
    assert m'[key] == Child(base, next);
  }

  /** A key put under a new identifier keeps the mapping one to one exactly when no other key has
      that identifier. */
  lemma PutIsFaithful<Key(!new)>(base: OID, m: map<Key, OID>, last: U32, key: Key, oid: OID, v: U32)
    requires Faithful(base, m, last) && key !in m && NumberOf(base, oid) == Some(v)
    ensures Faithful(base, m[key := oid], if v > last then v else last) <==> oid !in m.Values
  {
    var m' := m[key := oid];
    var last': U32 := if v > last then v else last;
    if oid in m.Values {
      var k :| k in m && m[k] == oid;
      assert k in m' && key in m' && m'[k] == m'[key];
    } else {
      forall k, n: U32 | k in m' && m'[k] == Child(base, n) ensures n <= last' {
        if k == key {
          NumberOfChild(base, n);
        } else {
          assert m[k] == Child(base, n);
        }
      }
      forall j, k | j in m' && k in m' && m'[j] == m'[k] ensures j == k {
        assert j != key ==> m[j] in m.Values;
        assert k != key ==> m[k] in m.Values;
      }
    }
  }

  class EventTable<Key(==, !new)> {
    const base: OID
    var m: map<Key, OID>
    var last: U32

    constructor (base: OID)
      ensures this.base == base && m == map[] && last == 0
    {
      this.base, m, last := base, map[], 0;
    }

    /** A key keeps its first identifier for ever; a new key gets the next one, and the
        mapping stays one to one until the counter wraps. */
    method New(key: Key) returns (oid: OID)
      modifies this
      ensures key in m && m[key] == oid && m.Keys == old(m.Keys) + {key}
      ensures forall k :: k in old(m) ==> m[k] == old(m)[k]
      ensures key in old(m) ==> m == old(m) && last == old(last)
      ensures Faithful(base, old(m), old(last)) && old(last) < MAX_UINT32 ==> Faithful(base, m, last)
    {
      if key in m {
        return m[key];
      }
      var suffix := Add32(last, 1);
      oid := Child(base, suffix);
      if Faithful(base, m, last) && last < MAX_UINT32 {
        NewIsFaithful(base, m, last, key);
      }
      m := m[key := oid];
      last := suffix;
    }

    /** An identifier outside the table, another one than the key already has, or one without a
        number in range is a panic. A new key keeps the mapping one to one exactly when no other
        key has its identifier. */
    method Put(oid: OID, key: Key) returns (ok: bool)
      modifies this
      ensures ok <==> HasPrefix(oid, base) && if key in old(m) then old(m)[key] == oid else NumberOf(base, oid).Some?
      ensures m == if ok then old(m)[key := oid] else old(m)
      ensures last == if ok && key !in old(m) && NumberOf(base, oid).value > old(last)
                      then NumberOf(base, oid).value else old(last)
      ensures ok && key !in old(m) && Faithful(base, old(m), old(last)) ==>
                (Faithful(base, m, last) <==> oid !in old(m).Values)
    {
      if !HasPrefix(oid, base) {
        return false;
      }
      if key in m {
        return m[key] == oid;
      }
      var digits := FirstNumber(TrimPrefix(oid, base));
      if digits.None? {
        return false;
      }
      var index := ParseUint(digits.value, 0x1_0000_0000);
      if index.None? {
        return false;
      }
      var v: U32 := index.value;
      if Faithful(base, m, last) {
        PutIsFaithful(base, m, last, key, oid, v);
      }
      m := m[key := oid];
      if v > last {
        last := v;
      }
      ok := true;
    }
  }
}
