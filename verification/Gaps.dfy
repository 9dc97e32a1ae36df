/** Finding the events a controller holds but the server does not: the gaps in an
    ascending list of event indices. */
module Gaps {
  import opened Common

  datatype Interval = Interval(from: U32, to: U32) {
    predicate Contains(v: U32) {
      from <= v && to >= v
    }
  }

  ghost predicate Ascending(l: seq<U32>) {
    forall i, j :: 0 <= i < j < |l| ==> l[i] < l[j]
  }

  ghost predicate Covered(intervals: seq<Interval>, v: U32) {
    exists k :: 0 <= k < |intervals| && intervals[k].Contains(v)
  }

  ghost predicate Disjoint(intervals: seq<Interval>) {
    forall j, k, v: U32 :: 0 <= j < k < |intervals| ==> !(intervals[j].Contains(v) && intervals[k].Contains(v))
  }

  ghost predicate Nonempty(intervals: seq<Interval>) {
    forall k :: 0 <= k < |intervals| ==> intervals[k].from <= intervals[k].to
  }

  // ---- The simple form: walk the list and compare neighbours ----

  function Holes(l: seq<U32>): seq<Interval>
    requires Ascending(l)
  {
    if |l| < 2 then []
    else if l[1] - l[0] == 1 then Holes(l[1..])
    else [Interval(l[0] as int + 1, l[1] - 1)] + Holes(l[1..])
  }

  /** The part of the holes that a budget pays for; a negative budget is unlimited. */
  function Taken(holes: seq<Interval>, budget: int): (r: seq<Interval>) {
    if budget < 0 || |holes| <= budget then holes else holes[..budget]
  }

  /** The open-ended interval above the list and, if there is room, the one below it. */
  function Outer(l: seq<U32>): seq<Interval> {
    var first := if l == [] then 0 else l[0];
    var last := if l == [] then 0 else l[|l| - 1];
    [Interval(Add32(last, 1), MAX_UINT32)] + if first > 1 then [Interval(1, first - 1)] else []
  }

  /** Everything reported for one controller. */
  function Report(l: seq<U32>, budget: int): seq<Interval>
    requires Ascending(l)
  {
    Outer(l) + Taken(Holes(l), budget)
  }

  // ---- The fast form: repeated binary search for the end of a consecutive run ----

  /** sort.Search over the prefix-is-consecutive predicate of the source. */
  method RunLength(slice: seq<U32>) returns (ix: nat)
    requires Ascending(slice) && slice != []
    ensures 1 <= ix <= |slice|
    ensures forall i :: 0 <= i < ix ==> slice[i] == slice[0] + i
    ensures ix < |slice| ==> 1 < slice[ix] as int - slice[ix - 1]
  {
    RunIsMonotone(slice);
    var lo, hi := 0, |slice|;
    while lo < hi
      invariant 0 <= lo <= hi <= |slice|
      invariant forall i :: 0 <= i < lo ==> slice[i] == Add32(slice[0], ToU32(i))
      invariant forall i :: hi <= i < |slice| ==> slice[i] != Add32(slice[0], ToU32(i))
    {
      var h := (lo + hi) / 2;
      if slice[h] == Add32(slice[0], ToU32(h)) {
        lo := h + 1;
      } else {
        hi := h;
      }
    }
    ix := lo;
  }

  /** The search predicate cannot overflow and, once true, stays true. */
  lemma {:induction false} RunIsMonotone(slice: seq<U32>)
    requires Ascending(slice) && slice != []
    ensures forall i :: 0 <= i < |slice| ==> slice[0] + i <= slice[i] && Add32(slice[0], ToU32(i)) == slice[0] + i
    ensures forall i, j :: 0 <= i <= j < |slice| && slice[j] == Add32(slice[0], ToU32(j)) ==>
              slice[i] == Add32(slice[0], ToU32(i))
  {
    forall i, j | 0 <= i <= j < |slice| ensures slice[i] + (j - i) <= slice[j] {
      Spread(slice, i, j);
    }
    forall i | 0 <= i < |slice| ensures slice[0] + i <= slice[i] && Add32(slice[0], ToU32(i)) == slice[0] + i {
      assert slice[0] + (i - 0) <= slice[i];
    }
  }

  lemma {:induction false} Spread(l: seq<U32>, i: nat, j: nat)
    requires Ascending(l) && i <= j < |l|
    ensures l[i] + (j - i) <= l[j]
    decreases j - i
  {
    if i < j {
      Spread(l, i, j - 1);
    }
  }

  lemma {:induction false} HolesAfterRun(slice: seq<U32>, ix: nat)
    requires Ascending(slice) && 1 <= ix <= |slice|
    requires forall i :: 0 <= i < ix ==> slice[i] == slice[0] + i
    requires ix < |slice| ==> 1 < slice[ix] as int - slice[ix - 1]
    ensures Holes(slice) == if ix == |slice|
              then [] else [Interval(slice[ix - 1] as int + 1, slice[ix] - 1)] + Holes(slice[ix..])
    decreases ix
  {
    if ix > 1 {
      var rest := slice[1..];
      assert forall i :: 0 <= i < |rest| ==> rest[i] == slice[i + 1];
      assert rest[ix - 1..] == slice[ix..];
      HolesAfterRun(rest, ix - 1);
      assert slice[1] == slice[0] + 1;
      assert Holes(slice) == Holes(rest);
    }
  }

  lemma TakenStep(found: seq<Interval>, hole: Interval, rest: seq<Interval>, budget: int)
    requires budget != 0
    ensures found + Taken([hole] + rest, budget) == (found + [hole]) + Taken(rest, budget - 1)
  {
    assert Taken([hole] + rest, budget) == [hole] + Taken(rest, budget - 1);
  }

  method InnerGaps(list: seq<U32>, budget: int) returns (found: seq<Interval>, left: int)
    requires Ascending(list)
    ensures found == Taken(Holes(list), budget)
    ensures left == budget - |found|
  {
    found := [];
    left := budget;
    var slice := list;
    while |slice| > 0 && left != 0
      invariant Ascending(slice)
      invariant found + Taken(Holes(slice), left) == Taken(Holes(list), budget)
      invariant left == budget - |found|
      invariant budget >= 0 ==> left >= 0
    {
      var ix := RunLength(slice);
      HolesAfterRun(slice, ix);
      if ix != |slice| {
        TakenStep(found, Interval(slice[ix - 1] as int + 1, slice[ix] - 1), Holes(slice[ix..]), left);
        found := found + [Interval(slice[ix - 1] as int + 1, slice[ix] - 1)];
        left := left - 1;
      }
      slice := slice[ix..];
    }
  }

  // ---- What the report means ----

  /** The holes are nonempty, lie strictly inside the list and follow each other. */
  lemma {:induction false} HolesOrdered(l: seq<U32>)
    requires Ascending(l)
    ensures Nonempty(Holes(l))
    ensures forall k :: 0 <= k < |Holes(l)| ==> l != [] && l[0] < Holes(l)[k].from && Holes(l)[k].to < l[|l| - 1]
    ensures forall j, k :: 0 <= j < k < |Holes(l)| ==> Holes(l)[j].to < Holes(l)[k].from
  {
    if |l| >= 2 {
      HolesOrdered(l[1..]);
      assert l[1..][0] == l[1] && l[1..][|l| - 2] == l[|l| - 1];
    }
  }

  /** Within the list's span they cover exactly what it skips. */
  lemma {:induction false} HolesCover(l: seq<U32>, v: U32)
    requires Ascending(l) && l != [] && l[0] <= v <= l[|l| - 1]
    ensures Covered(Holes(l), v) <==> v !in l
  {
    if |l| >= 2 {
      var rest := l[1..];
      assert l == [l[0]] + rest;
      assert rest[0] == l[1] && rest[|rest| - 1] == l[|l| - 1];
      HolesOrdered(rest);
      if v < l[1] {
        assert v !in rest;
        assert !Covered(Holes(rest), v);
      } else {
        HolesCover(rest, v);
      }
      if l[1] - l[0] != 1 {
        var hole := Interval(l[0] as int + 1, l[1] - 1);
        HeadCovers([hole], Holes(rest), v);
        assert Covered([hole], v) <==> [hole][0].Contains(v);
      }
    }
  }

  lemma HolesExact(l: seq<U32>)
    requires Ascending(l)
    ensures Nonempty(Holes(l))
    ensures forall k :: 0 <= k < |Holes(l)| ==> l != [] && l[0] < Holes(l)[k].from && Holes(l)[k].to < l[|l| - 1]
    ensures forall j, k :: 0 <= j < k < |Holes(l)| ==> Holes(l)[j].to < Holes(l)[k].from
    ensures forall v: U32 :: l != [] && l[0] <= v <= l[|l| - 1] ==> (Covered(Holes(l), v) <==> v !in l)
  {
    HolesOrdered(l);
    forall v: U32 | l != [] && l[0] <= v <= l[|l| - 1] ensures Covered(Holes(l), v) <==> v !in l {
      HolesCover(l, v);
    }
  }

  lemma HeadCovers(head: seq<Interval>, rest: seq<Interval>, v: U32)
    ensures Covered(head + rest, v) <==> Covered(head, v) || Covered(rest, v)
  {
    var all := head + rest;
    if Covered(head, v) {
      var k :| 0 <= k < |head| && head[k].Contains(v);
      assert all[k].Contains(v);
    }
    if Covered(rest, v) {
      var k :| 0 <= k < |rest| && rest[k].Contains(v);
      assert all[|head| + k].Contains(v);
    }
  }

  /** With an unlimited budget the report is the exact complement of the held indices
      over 1..2^32-1 if and only if the largest possible index is not held: holding it
      makes `last + 1` wrap to zero, and the first interval then covers everything. */
  lemma ReportIsComplement(l: seq<U32>, budget: int)
    requires Ascending(l) && budget < 0
    ensures (forall v: U32 :: 1 <= v ==> (Covered(Report(l, budget), v) <==> v !in l)) <==> MAX_UINT32 !in l
  {
    HolesExact(l);
    if MAX_UINT32 in l {
      var k :| 0 <= k < |l| && l[k] == MAX_UINT32;
      assert l[|l| - 1] == MAX_UINT32;
      assert Report(l, budget)[0] == Interval(0, MAX_UINT32);
      assert Report(l, budget)[0].Contains(MAX_UINT32);
      assert Covered(Report(l, budget), MAX_UINT32);
    } else {
      forall v: U32 | 1 <= v ensures Covered(Report(l, budget), v) <==> v !in l {
        HeadCovers(Outer(l), Holes(l), v);
        OuterExact(l, v);
      }
    }
  }

  lemma OuterExact(l: seq<U32>, v: U32)
    requires Ascending(l) && MAX_UINT32 !in l && 1 <= v
    ensures Covered(Outer(l), v) <==> l == [] || v < l[0] || l[|l| - 1] < v
    ensures Covered(Outer(l), v) ==> v !in l
  {
    var o := Outer(l);
    if l != [] {
      assert l[|l| - 1] in l;
      if v > l[|l| - 1] { assert o[0].Contains(v); }
      if v < l[0] { assert o[1].Contains(v); }
    } else {
      assert o[0].Contains(v);
    }
  }

  lemma HeldElsewhere(l: seq<U32>, budget: int, v: U32)
    requires Ascending(l) && MAX_UINT32 !in l
    requires Covered(Report(l, budget), v)
    ensures 1 <= v && v !in l
  {
    var o, t := Outer(l), Taken(Holes(l), budget);
    HolesExact(l);
    HeadCovers(o, t, v);
    if l != [] {
      assert l[|l| - 1] in l;
    }
    if Covered(t, v) {
      var k :| 0 <= k < |t| && t[k].Contains(v);
      assert Holes(l)[k].Contains(v);
    } else {
      OuterExact(l, v);
    }
  }

  /** Whatever the budget, the intervals are nonempty, pairwise disjoint and miss every
      held index; a budget of at least zero bounds the number of inner gaps. */
  lemma ReportIsSound(l: seq<U32>, budget: int)
    requires Ascending(l) && MAX_UINT32 !in l
    ensures Nonempty(Report(l, budget)) && Disjoint(Report(l, budget))
    ensures forall v: U32 :: Covered(Report(l, budget), v) ==> 1 <= v && v !in l
    ensures budget >= 0 ==> |Report(l, budget)| <= |Outer(l)| + budget
  {
    HolesExact(l);
    var t := Taken(Holes(l), budget);
    if l != [] {
      assert l[|l| - 1] in l;
    }
    assert forall k :: 0 <= k < |t| ==> t[k] == Holes(l)[k];
    forall v: U32 | Covered(Report(l, budget), v) ensures 1 <= v && v !in l {
      HeldElsewhere(l, budget, v);
    }
  }
}
