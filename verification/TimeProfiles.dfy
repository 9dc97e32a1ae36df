/** The controller time-profile slot of a scheduled access level. */
module TimeProfiles {
  import opened Common
  import opened Decimal
  import opened Oid

  const NO_ACCESS: int := 0
  const UNRESTRICTED: int := 1

  /** The slot is 255 - n for an identifier that ends in .n with 1 <= n <= 253. */
  function TimeProfileID(oid: OID): (r: Option<int>)
    ensures r.Some? ==> 2 <= r.value <= 254
  {
    match LastNumber(oid)
    case None => None
    case Some(digits) =>
      match ParseUint(digits, 256)
      case None => None
      case Some(n) => if n < 1 || n > 253 then None else Some(255 - n)
  }

  function AccessProfile(oid: OID, scheduled: bool): (r: Option<int>)
    ensures r.Some? ==> r.value != NO_ACCESS
    ensures r.Some? ==> (r.value == UNRESTRICTED <==> !scheduled)
  {
    if scheduled then TimeProfileID(oid) else Some(UNRESTRICTED)
  }

  lemma SlotOfPrinted(base: OID, n: nat)
    ensures TimeProfileID(Child(base, n)) == if 1 <= n <= 253 then Some(255 - n) else None
  {
    LastNumberOfChild(base, n);
    ValueOfDec(n);
  }

  /** Two scheduled levels with catalogued identifiers share a profile number exactly when
      they are the same level, and no slot is "none" or "always": a conflict between profile
      numbers is a conflict between levels. */
  lemma SlotsIdentifyLevels(base: OID, a: nat, b: nat)
    requires TimeProfileID(Child(base, a)).Some? && TimeProfileID(Child(base, b)).Some?
    ensures TimeProfileID(Child(base, a)) == TimeProfileID(Child(base, b)) <==> Child(base, a) == Child(base, b)
    ensures 1 <= a <= 253 && TimeProfileID(Child(base, a)).value !in {NO_ACCESS, UNRESTRICTED}
  {
    SlotOfPrinted(base, a);
    SlotOfPrinted(base, b);
    if Child(base, a) == Child(base, b) {
      ChildInjective(base, a, b);
    }
  }
}
