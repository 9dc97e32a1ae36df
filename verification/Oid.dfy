/** Object identifiers: dotted strings of decimal numbers, compared and extended as text. */
module Oid {
  import opened Common
  import opened Decimal

  type OID = string

  const CARDS_OID: OID := "0.4"
  const GROUPS_OID: OID := "0.5"

  /** Replaces every run of dots by one dot. */
  function Collapse(s: string): string {
    if |s| < 2 then s
    else if s[0] == '.' && s[1] == '.' then Collapse(s[1..])
    else [s[0]] + Collapse(s[1..])
  }

  function Append(oid: OID, suffix: string): OID {
    Collapse(oid + "." + suffix)
  }

  predicate HasPrefix(s: string, prefix: string) {
    |prefix| <= |s| && s[..|prefix|] == prefix
  }

  predicate HasSuffix(s: string, suffix: string) {
    |suffix| <= |s| && s[|s| - |suffix|..] == suffix
  }

  predicate Contains(oid: OID, o: OID) {
    HasPrefix(o, oid + ".")
  }

  function Trim(oid: OID, suffix: string): OID {
    if HasSuffix(oid, suffix) then oid[..|oid| - |suffix|] else oid
  }

  function TrimPrefix(s: string, prefix: string): string {
    if HasPrefix(s, prefix) then s[|prefix|..] else s
  }

  // ---- Numbers inside identifiers ----

  function LeadingDigits(s: string): (r: string)
    ensures AllDigits(r)
  {
    if s == [] || !IsDigit(s[0]) then [] else [s[0]] + LeadingDigits(s[1..])
  }

  /** The capture of the first match of `\.([0-9]+)`. */
  function FirstNumber(s: string): (r: Option<string>)
    ensures r.Some? ==> AllDigits(r.value)
  {
    if |s| < 2 then None
    else if s[0] == '.' && IsDigit(s[1]) then Some(LeadingDigits(s[1..]))
    else FirstNumber(s[1..])
  }

  /** The capture of the match of `\.([0-9]+)$`. */
  function LastNumber(s: string): (r: Option<string>)
    ensures r.Some? ==> AllDigits(r.value)
  {
    if |s| < 2 then None
    else if s[0] == '.' && AllDigits(s[1..]) then Some(s[1..])
    else LastNumber(s[1..])
  }

  function Child(base: OID, n: nat): OID {
    base + "." + Dec(n)
  }

  lemma {:induction false} LeadingDigitsAll(s: string)
    requires AllDigits(s)
    ensures LeadingDigits(s) == s
  {
    if s != [] {
      LeadingDigitsAll(s[1..]);
    }
  }

  lemma FirstNumberOfChild(base: OID, n: nat)
    ensures FirstNumber(TrimPrefix(Child(base, n), base)) == Some(Dec(n))
  {
    assert TrimPrefix(Child(base, n), base) == "." + Dec(n);
    assert ("." + Dec(n))[1..] == Dec(n);
    LeadingDigitsAll(Dec(n));
  }

  lemma {:induction false} LastNumberOfChild(base: OID, n: nat)
    ensures LastNumber(Child(base, n)) == Some(Dec(n))
  {
    var s := Child(base, n);
    if base == [] {
      assert s[1..] == Dec(n);
    } else {
      assert s[|base|] == '.' && s[1..][|base| - 1] == '.';
      assert !AllDigits(s[1..]);
      assert s[1..] == Child(base[1..], n);
      LastNumberOfChild(base[1..], n);
    }
  }

  lemma ChildInjective(base: OID, a: nat, b: nat)
    requires Child(base, a) == Child(base, b)
    ensures a == b
  {
    assert Child(base, a)[|base| + 1..] == Dec(a);
    assert Child(base, b)[|base| + 1..] == Dec(b);
    DecInjective(a, b);
  }

  // ---- Routing ----

  /** No two dots in a row. */
  ghost predicate SingleDots(s: string) {
    forall i :: 0 < i < |s| && s[i] == '.' ==> s[i - 1] != '.'
  }

  ghost predicate Normal(oid: OID) {
    SingleDots(oid) && oid != [] && oid[|oid| - 1] != '.'
  }

  lemma {:induction false} CollapseNormal(s: string)
    requires SingleDots(s)
    ensures Collapse(s) == s
  {
    if |s| >= 2 {
      CollapseNormal(s[1..]);
    }
  }

  lemma {:induction false} CollapseTail(a: string, b: string)
    requires SingleDots(a) && a != [] && a[|a| - 1] != '.'
    ensures Collapse(a + b) == a + Collapse(b)
  {
    var s := a + b;
    if |a| == 1 {
      assert s[1..] == b;
      if b == [] {
        assert s == a;
      }
    } else {
      assert s[1..] == a[1..] + b;
      CollapseTail(a[1..], b);
      assert !(s[0] == '.' && s[1] == '.');
      assert [a[0]] + (a[1..] + Collapse(b)) == a + Collapse(b);
    }
  }

  /** Appending a field suffix inserts exactly one dot, whether or not the suffix has one. */
  lemma AppendIs(oid: OID, suffix: string)
    requires Normal(oid) && SingleDots(suffix) && suffix != []
    ensures Append(oid, suffix) == if suffix[0] == '.' then oid + suffix else oid + "." + suffix
  {
    var tail := "." + suffix;
    assert oid + "." + suffix == oid + tail;
    CollapseTail(oid, tail);
    assert tail[1..] == suffix;
    if suffix[0] == '.' {
      assert tail[0] == '.' && tail[1] == '.';
      assert Collapse(tail) == Collapse(suffix);
      CollapseNormal(suffix);
    } else {
      assert forall i :: 1 <= i < |tail| ==> tail[i] == suffix[i - 1];
      CollapseNormal(tail);
    }
  }

  /** A record contains each of its own field identifiers. */
  lemma ContainsOwnField(oid: OID, suffix: string)
    requires Normal(oid) && SingleDots(suffix) && suffix != []
    ensures Contains(oid, Append(oid, suffix))
  {
    AppendIs(oid, suffix);
    var s := Append(oid, suffix);
    assert s[..|oid| + 1] == oid + ".";
  }

  /** Trimming a suffix undoes appending it exactly when the suffix starts with its dot;
      otherwise the dot that Append inserted stays behind. */
  lemma TrimUndoesAppend(oid: OID, suffix: string)
    requires Normal(oid) && SingleDots(suffix) && suffix != []
    ensures Trim(Append(oid, suffix), suffix) == oid <==> suffix[0] == '.'
  {
    AppendIs(oid, suffix);
    var s := Append(oid, suffix);
    if suffix[0] == '.' {
      assert s[|s| - |suffix|..] == suffix;
      assert s[..|s| - |suffix|] == oid;
    } else {
      assert s[|s| - |suffix|..] == suffix;
      assert |Trim(s, suffix)| == |oid| + 1;
    }
  }

  /** Among records with different numbers at most one contains a given field identifier,
      so the first match over an unordered map is the only match. */
  lemma RoutingIsUnique(base: OID, a: nat, b: nat, field: OID)
    requires Contains(Child(base, a), field) && Contains(Child(base, b), field)
    ensures a == b
  {
    var p, q := Child(base, a) + ".", Child(base, b) + ".";
    if |p| <= |q| {
      PrefixesAgree(base, a, b, field);
    } else {
      PrefixesAgree(base, b, a, field);
    }
  }

  lemma PrefixesAgree(base: OID, a: nat, b: nat, field: OID)
    requires Contains(Child(base, a), field) && Contains(Child(base, b), field)
    requires |Dec(a)| <= |Dec(b)|
    ensures a == b
  {
    var p, q := Child(base, a) + ".", Child(base, b) + ".";
    var k := |p| - 1;
    assert field[..|p|] == p && field[..|q|] == q;
    assert forall i :: 0 <= i < |Dec(b)| ==> q[|base| + 1 + i] == Dec(b)[i];
    assert q[k] == field[k] == p[k] == '.';
    assert k == |base| + 1 + |Dec(a)|;
    assert |Dec(a)| == |Dec(b)|;
    assert p == q;
    assert Child(base, a) == p[..k] == q[..k] == Child(base, b);
    ChildInjective(base, a, b);
  }
}
