/** Which missing events a report reveals. Holes below the controller's first event are never
    filled but are paid for first, so they can screen what is missing in its range. */
module Screening {
  import opened Common
  import opened Gaps
  import opened EventStore
  import opened EventFetch

  predicate InRange(d: Device, x: int) {
    d.first <= x <= d.last
  }

  ghost function Range(d: Device): set<U32> {
    set x: U32 | d.first <= x <= d.last && InRange(d, x)
  }

  /** A later index is held, no further than x. */
  ghost predicate Followed(held: set<U32>, u: int, x: int) {
    exists w :: w in held && u < w <= x
  }

  ghost predicate Ends(held: set<U32>, u: int) {
    forall w :: w in held ==> w != u + 1
  }

  /** The held indices with a hole after them that ends below x: one for each such hole. */
  ghost function HolesBelow(held: set<U32>, x: int): set<U32> {
    set u | u in held && Ends(held, u) && Followed(held, u, x)
  }

  ghost predicate Above(held: set<U32>, v: int) {
    forall u :: u in held ==> u < v
  }

  ghost predicate Below(held: set<U32>, v: int) {
    forall u :: u in held ==> v < u
  }

  /** What a report reveals: what lies outside the held indices, and the holes between them that
      the budget pays for. */
  ghost predicate Revealed(held: set<U32>, budget: int, v: int) {
    v !in held && (Above(held, v) || Below(held, v) || budget < 0 || |HolesBelow(held, v)| < budget)
  }

  lemma HolesBelowStep(held: set<U32>, low: U32, next: U32, v: U32)
    requires low in held && next in held && low < next <= v
    requires forall u :: u in held ==> u == low || u >= next
    ensures HolesBelow(held, v) == HolesBelow(held - {low}, v) + if next - low == 1 then {} else {low}
  {
    var tail := held - {low};
    forall u | u in tail ensures u in HolesBelow(held, v) <==> u in HolesBelow(tail, v) {
      assert low < next <= u;
      if Ends(tail, u) {
        forall w | w in held ensures w != u + 1 {
          assert w == low || w in tail;
        }
        assert Ends(held, u);
      }
      if Followed(held, u, v) {
        var w :| w in held && u < w <= v;
        assert w in tail;
      }
    }
    assert Followed(held, low, v);
  }

  lemma Shortened(l: seq<U32>, held: set<U32>)
    requires Lists(l, held) && |l| >= 2
    ensures Lists(l[1..], held - {l[0]}) && l[0] in held && l[1] in held
    ensures forall u :: u in held ==> u == l[0] || u >= l[1]
  {
    assert l == [l[0]] + l[1..];
  }

  /** The budget pays for the holes in order, so a missing index between held ones is revealed
      exactly when fewer holes than that lie below it. */
  lemma {:induction false} TakenCovers(l: seq<U32>, held: set<U32>, budget: int, v: U32)
    requires Lists(l, held) && |l| >= 2 && l[0] < v < l[|l| - 1] && v !in l
    ensures Covered(Taken(Holes(l), budget), v) <==> budget < 0 || |HolesBelow(held, v)| < budget
  {
    Shortened(l, held);
    var rest := l[1..];
    var head := if l[1] - l[0] == 1 then [] else [Interval(l[0] as int + 1, l[1] - 1)];
    assert Holes(l) == head + Holes(rest);
    if v < l[1] {
      FirstHole(l, budget, v);
      assert HolesBelow(held, v) == {};
    } else {
      TakenCovers(rest, held - {l[0]}, if head == [] then budget else budget - 1, v);
      HolesBelowStep(held, l[0], l[1], v);
      if head != [] {
        LaterHole(head[0], Holes(rest), budget, v);
      }
    }
  }

  /** One held index for each hole. */
  lemma {:induction false} HolesCount(l: seq<U32>, held: set<U32>)
    requires Lists(l, held)
    ensures |Holes(l)| == |HolesBelow(held, MAX_UINT32)|
  {
    if |l| >= 2 {
      Shortened(l, held);
      HolesCount(l[1..], held - {l[0]});
      HolesBelowStep(held, l[0], l[1], MAX_UINT32);
    } else {
      assert HolesBelow(held, MAX_UINT32) == {};
    }
  }

  lemma FirstHole(l: seq<U32>, budget: int, v: U32)
    requires Ascending(l) && |l| >= 2 && l[0] < v < l[1]
    ensures Covered(Taken(Holes(l), budget), v) <==> budget != 0
  {
    assert Holes(l)[0] == Interval(l[0] as int + 1, l[1] - 1);
    if budget != 0 {
      assert Taken(Holes(l), budget)[0].Contains(v);
    }
  }

  lemma LaterHole(hole: Interval, rest: seq<Interval>, budget: int, v: U32)
    requires !hole.Contains(v)
    ensures Covered(Taken([hole] + rest, budget), v) <==> budget != 0 && Covered(Taken(rest, budget - 1), v)
  {
    if budget != 0 {
      assert Taken([hole] + rest, budget) == [hole] + Taken(rest, budget - 1);
      HeadCovers([hole], Taken(rest, budget - 1), v);
    }
  }

  /** The report covers exactly what it is said to reveal. */
  lemma ReportReveals(l: seq<U32>, held: set<U32>, budget: int, v: U32)
    requires Lists(l, held) && MAX_UINT32 !in held && 1 <= v
    ensures Covered(Report(l, budget), v) <==> Revealed(held, budget, v)
  {
    HeadCovers(Outer(l), Taken(Holes(l), budget), v);
    OuterExact(l, v);
    ReportIsSound(l, budget);
    if l != [] {
      assert l[0] in l && l[|l| - 1] in l;
      if v !in l && l[0] < v < l[|l| - 1] {
        TakenCovers(l, held, budget, v);
      } else {
        HolesExact(l);
      }
    }
  }

  /** An interval concerns the controller exactly when it meets its range. */
  lemma ConcernsRange(d: Device, intervals: seq<Interval>)
    requires d.first <= d.last && Nonempty(intervals)
    ensures Concerns(d, intervals) <==> exists v: U32 :: InRange(d, v) && Covered(intervals, v)
  {
    if Concerns(d, intervals) {
      var k :| 0 <= k < |intervals| && Relevant(d, intervals[k]);
      var i := intervals[k];
      var v := if i.Contains(d.last) then d.last else if i.Contains(d.first) then d.first else i.from;
      assert i.Contains(v) && InRange(d, v);
    }
    if v: U32 :| InRange(d, v) && Covered(intervals, v) {
      var k :| 0 <= k < |intervals| && intervals[k].Contains(v);
      assert Relevant(d, intervals[k]);
    }
  }

  // ---- When a controller is asked for nothing ----

  /** Both ends of the range lie among the held indices, and the holes below the range use up
      the budget. */
  ghost predicate Screened(held: set<U32>, d: Device, budget: int) {
    && (exists u :: u in held && u <= d.first) && (exists w :: w in held && w >= d.last)
    && 0 <= budget <= |HolesBelow(held, d.first)|
  }

  lemma HolesBelowGrow(held: set<U32>, x: int, y: int)
    requires x <= y
    ensures HolesBelow(held, x) <= HolesBelow(held, y) && |HolesBelow(held, x)| <= |HolesBelow(held, y)|
  {
    forall u | u in HolesBelow(held, x) ensures u in HolesBelow(held, y) {
      var w :| w in held && u < w <= x;
      assert Followed(held, u, y);
    }
    SubsetSize(HolesBelow(held, x), HolesBelow(held, y));
  }

  /** Up to the first missing index of the range there is no further hole. */
  lemma HolesToFirstMissing(held: set<U32>, d: Device, v: U32)
    requires InRange(d, v) && v !in held && forall w: U32 :: d.first <= w < v ==> w in held
    ensures HolesBelow(held, v) == HolesBelow(held, d.first)
  {
    HolesBelowGrow(held, d.first, v);
    forall u | u in HolesBelow(held, v) ensures u in HolesBelow(held, d.first) {
      var w :| w in held && u < w <= v;
      assert u + 1 != w && w != v;
      var next: U32 := u + 1;
      assert next !in held;
      assert next < d.first;
      assert Followed(held, u, d.first) by {
        if w > d.first {
          assert d.first in held && u < d.first;
        }
      }
    }
  }

  lemma FirstMissing(held: set<U32>, d: Device, from: U32) returns (v: U32)
    requires !(Range(d) <= held) && d.first <= from <= d.last
    requires forall w: U32 :: d.first <= w < from ==> w in held
    ensures InRange(d, v) && v !in held && forall w: U32 :: d.first <= w < v ==> w in held
    decreases d.last - from
  {
    if from !in held {
      v := from;
    } else {
      var x :| x in Range(d) && x !in held;
      assert InRange(d, x) && x > from;
      v := FirstMissing(held, d, from + 1);
    }
  }

  /** The report concerns the controller exactly when something in its range is not held and is
      not screened by holes below the range. */
  lemma QuietExactly(held: set<U32>, l: seq<U32>, d: Device, budget: int)
    requires 1 <= d.first <= d.last && Lists(l, held) && MAX_UINT32 !in held
    ensures !Concerns(d, Report(l, budget)) <==> Range(d) <= held || Screened(held, d, budget)
  {
    ReportIsSound(l, budget);
    ConcernsRange(d, Report(l, budget));
    if Screened(held, d, budget) {
      forall v: U32 | InRange(d, v) ensures !Covered(Report(l, budget), v) {
        ReportReveals(l, held, budget, v);
        HolesBelowGrow(held, d.first, v);
        assert Revealed(held, budget, v) ==> !Above(held, v) && !Below(held, v);
      }
    } else if !(Range(d) <= held) {
      var v := FirstMissing(held, d, d.first);
      HolesToFirstMissing(held, d, v);
      NotScreened(held, d, budget, v);
      var seen := if Revealed(held, budget, v) then v else if Revealed(held, budget, d.first) then d.first else d.last;
      ReportReveals(l, held, budget, seen);
      assert InRange(d, seen);
    } else {
      forall v: U32 | InRange(d, v) ensures !Covered(Report(l, budget), v) {
        assert v in Range(d);
      }
    }
  }

  lemma NotScreened(held: set<U32>, d: Device, budget: int, v: U32)
    requires InRange(d, v) && v !in held && HolesBelow(held, v) == HolesBelow(held, d.first)
               && !Screened(held, d, budget)
    ensures Revealed(held, budget, v) || Revealed(held, budget, d.first) || Revealed(held, budget, d.last)
  {
    if forall u :: u in held ==> u > d.first {
      assert Below(held, d.first);
    } else if forall u :: u in held ==> u < d.last {
      assert Above(held, d.last);
    }
  }
}
