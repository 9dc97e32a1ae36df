/** For one controller: exactly when rounds of requests complete its events, as a condition on
    what is held at the start. */
module Convergence {
  import opened Common
  import opened Gaps
  import opened EventStore
  import opened EventFetch
  import opened Screening

  /** What the next round asks for above everything held: at most MAX events. */
  ghost function Tail(held: set<U32>, d: Device): set<U32> {
    set v | v in Range(d) && v > d.last - MAX && Above(held, v)
  }

  /** What is then still missing. */
  ghost function Left(held: set<U32>, d: Device): set<U32> {
    Range(d) - held - Tail(held, d)
  }

  /** The holes wholly below the range, once its first event is held. No round fills them. */
  ghost function HolesUnder(held: set<U32>, d: Device): nat {
    |HolesBelow(held + Range(d), d.first)|
  }

  /** Nothing is left, or only events from the first one up. */
  ghost predicate Initial(left: set<U32>, d: Device) {
    forall v, w: U32 :: v in left && d.first <= w <= v ==> w in left
  }

  /** The budget exceeds the holes under the range; or it equals them, the topmost of them still
      runs on into the range, and nothing but the rest of that one is left; or nothing is left. */
  ghost predicate Converges(held: set<U32>, d: Device, gaps: int) {
    || gaps < 0 || HolesUnder(held, d) < gaps
    || (if gaps == HolesUnder(held, d) && Open(held, d) then Initial(Left(held, d), d) else Left(held, d) == {})
  }

  ghost predicate Open(held: set<U32>, d: Device) {
    forall u :: u in held ==> u != d.first - 1
  }

  lemma HolesUnderRange(held: set<U32>, d: Device, u: U32)
    requires d.first <= d.last && u in HolesBelow(held + Range(d), d.first)
    ensures u in held && u + 1 < d.first && Ends(held, u)
  {
    assert InRange(d, d.first) && d.first in Range(d);
    var w :| w in held + Range(d) && u < w <= d.first;
    assert d.first in held + Range(d);
  }

  lemma UnderRange(held: set<U32>, d: Device, u: U32)
    requires d.first <= d.last && u in held && u + 1 < d.first && Ends(held, u)
    ensures u in HolesBelow(held + Range(d), d.first)
  {
    var all := held + Range(d);
    assert InRange(d, d.first) && d.first in all;
    assert Followed(all, u, d.first);
    forall w | w in all ensures w != u + 1 {
      if w !in held { assert InRange(d, w); }
    }
  }

  lemma Highest(held: set<U32>, x: int, from: U32) returns (u: U32)
    requires from in held && from < x
    ensures u in held && u < x && forall w :: w in held && w < x ==> w <= u
    decreases x - from
  {
    if w :| w in held && from < w < x {
      u := Highest(held, x, w);
    } else {
      u := from;
    }
  }

  lemma HolesBelowUnder(held: set<U32>, d: Device)
    requires d.first <= d.last
    ensures HolesBelow(held, d.first) <= HolesBelow(held + Range(d), d.first)
    ensures |HolesBelow(held, d.first)| <= HolesUnder(held, d)
  {
    forall u | u in HolesBelow(held, d.first) ensures u in HolesBelow(held + Range(d), d.first) {
      var w :| w in held && u < w <= d.first;
      assert w != u + 1;
      UnderRange(held, d, u);
    }
    SubsetSize(HolesBelow(held, d.first), HolesBelow(held + Range(d), d.first));
  }

  lemma OneLess(a: set<U32>, b: set<U32>, x: U32)
    requires a <= b && x in b && x !in a
    ensures |a| < |b|
  {
    SubsetSize(a, b - {x});
  }

  lemma TopEnds(held: set<U32>, x: int, u: U32)
    requires u < x && forall w :: w in held && w < x ==> w <= u
    requires forall w :: w in held ==> w != x
    ensures !Followed(held, u, x) && (u + 1 < x ==> Ends(held, u))
  {
  }

  /** A hole that runs on into the range counts only once the first event is held. */
  lemma OneMoreUnder(held: set<U32>, d: Device, u0: U32)
    requires d.first <= d.last && Open(held, d) && d.first !in held && u0 in held && u0 <= d.first
    ensures |HolesBelow(held, d.first)| < HolesUnder(held, d)
  {
    HolesBelowUnder(held, d);
    var u := Highest(held, d.first, u0);
    TopEnds(held, d.first, u);
    UnderRange(held, d, u);
    OneLess(HolesBelow(held, d.first), HolesBelow(held + Range(d), d.first), u);
  }

  /** While the condition holds and something is missing, the controller is asked. */
  lemma ConvergingIsNotScreened(held: set<U32>, d: Device, gaps: int)
    requires 1 <= d.first <= d.last && Converges(held, d, gaps) && !(Range(d) <= held)
    ensures !Screened(held, d, gaps)
  {
    HolesBelowUnder(held, d);
    if Screened(held, d, gaps) {
      NoTail(held, d);
      var v :| v in Range(d) && v !in held;
      assert v in Left(held, d) && d.first <= v;
      assert gaps == HolesUnder(held, d) && Open(held, d) && Initial(Left(held, d), d);
      assert d.first in Left(held, d);
      var u0 :| u0 in held && u0 <= d.first;
      OneMoreUnder(held, d, u0);
    }
  }

  lemma NoTail(held: set<U32>, d: Device)
    requires exists w :: w in held && w >= d.last
    ensures Tail(held, d) == {} && Left(held, d) == Range(d) - held
  {
  }

  // ---- What a round asks for ----

  lemma {:induction false} RequestsAt(d: Device, intervals: seq<Interval>, k: nat) returns (asked: nat)
    requires Disjoint(intervals) && k < |intervals|
    ensures k == 0 ==> asked == 0
    ensures forall v: U32 :: intervals[k].Contains(v) ==>
              (v in Requests(d, intervals) <==> v in Batch(d, intervals[k], asked))
  {
    var n := |intervals| - 1;
    var front := intervals[..n];
    var sent := Requests(d, front);
    var batch := Batch(d, intervals[n], |sent|);
    assert Disjoint(front);
    if k == n {
      asked := |sent|;
      RequestsSound(d, front);
      assert forall j :: 0 <= j < n ==> front[j] == intervals[j];
      assert forall v: U32 :: intervals[k].Contains(v) ==> !Covered(front, v);
    } else {
      asked := RequestsAt(d, front, k);
      BatchSound(d, intervals[n], |sent|);
      forall v: U32 | intervals[k].Contains(v) ensures v !in batch {
        assert !intervals[n].Contains(v);
      }
    }
  }

  /** The requests for an interval that reaches down to the first event go down from its top. */
  lemma BatchIsUpper(d: Device, i: Interval, asked: nat, v: U32, w: U32)
    requires i.Contains(d.first) && i.Contains(w) && v <= w <= d.last && v in Batch(d, i, asked)
    ensures w in Batch(d, i, asked)
  {
    var b := Batch(d, i, asked);
    assert b[0] - w >= 0;
    assert b[b[0] - w] == w;
  }

  /** Everything asked for is revealed and in range. */
  lemma AskedIsRevealed(held: set<U32>, l: seq<U32>, d: Device, budget: int, v: U32)
    requires Lists(l, held) && MAX_UINT32 !in held && 1 <= d.first
    requires v in Requests(d, Report(l, budget))
    ensures InRange(d, v) && Revealed(held, budget, v)
  {
    RequestsSound(d, Report(l, budget));
    ReportReveals(l, held, budget, v);
  }

  /** Above everything held, exactly the tail is asked for. */
  lemma TailIsAsked(held: set<U32>, l: seq<U32>, d: Device, budget: int, v: U32)
    requires Lists(l, held) && MAX_UINT32 !in held && 1 <= d.first <= d.last < MAX_UINT32
    requires InRange(d, v) && Above(held, v)
    ensures v in Requests(d, Report(l, budget)) <==> v in Tail(held, d)
  {
    var r := Report(l, budget);
    ReportIsSound(l, budget);
    var asked := RequestsAt(d, r, 0);
    if l != [] {
      assert l[|l| - 1] in l;
    }
    assert r[0] == Outer(l)[0] && r[0].Contains(v) && r[0].Contains(d.last);
    var b := Batch(d, r[0], 0);
    if v > d.last - MAX {
      assert b[d.last - v] == v;
    }
  }

  /** A hole reaches down and up to a held index. */
  lemma {:induction false} HolesReach(l: seq<U32>, k: nat)
    requires Ascending(l) && k < |Holes(l)|
    ensures var h := Holes(l)[k]; 1 <= h.from && h.from - 1 in l && h.to < MAX_UINT32 && h.to + 1 in l
    decreases |l|
  {
    var head := if l[1] - l[0] == 1 then 0 else 1;
    if k >= head {
      HolesReach(l[1..], k - head);
    }
  }

  /** An interval of the report reaches every index from which nothing held separates it. */
  lemma ReportReaches(held: set<U32>, l: seq<U32>, budget: int, k: nat, v: U32, w: U32)
    requires Lists(l, held) && MAX_UINT32 !in held && k < |Report(l, budget)| && Report(l, budget)[k].Contains(v)
    requires 1 <= w && (forall u :: u in held ==> !(v <= u <= w) && !(w <= u <= v))
    ensures Report(l, budget)[k].Contains(w)
  {
    var o := Outer(l);
    var i := Report(l, budget)[k];
    if l != [] {
      assert l[0] in l && l[|l| - 1] in l;
    }
    if k >= |o| {
      assert i == Holes(l)[k - |o|];
      HolesReach(l, k - |o|);
    }
  }

  /** What is asked for in a hole that holds the first event is its upper part. */
  lemma AskedIsUpper(held: set<U32>, l: seq<U32>, d: Device, budget: int, v: U32, w: U32)
    requires Lists(l, held) && MAX_UINT32 !in held && 1 <= d.first
    requires v in Requests(d, Report(l, budget)) && v <= w <= d.last
    requires forall u :: u in held ==> !(d.first <= u <= w)
    ensures w in Requests(d, Report(l, budget))
  {
    var r := Report(l, budget);
    AskedIsRevealed(held, l, d, budget, v);
    ReportIsSound(l, budget);
    RequestsSound(d, r);
    var k :| 0 <= k < |r| && r[k].Contains(v);
    ReportReaches(held, l, budget, k, v, w);
    ReportReaches(held, l, budget, k, v, d.first);
    var asked := RequestsAt(d, r, k);
    BatchIsUpper(d, r[k], asked, v, w);
  }

  // ---- What the budget reveals between held indices ----

  /** Nothing held separates it from the first event. */
  ghost predicate Reaches(held: set<U32>, d: Device, v: int) {
    forall u :: u in held ==> !(d.first <= u <= v)
  }

  lemma UnderIsBelow(held: set<U32>, d: Device, v: U32, y: U32)
    requires InRange(d, v) && y in held && d.first - 1 <= y <= v
    ensures HolesUnder(held, d) <= |HolesBelow(held, v)|
  {
    var under := HolesBelow(held + Range(d), d.first);
    forall u | u in under ensures u in HolesBelow(held, v) {
      HolesUnderRange(held, d, u);
      assert Followed(held, u, v);
    }
    SubsetSize(under, HolesBelow(held, v));
  }

  lemma UnderIsNearlyBelow(held: set<U32>, d: Device, v: U32, y: U32)
    requires InRange(d, v) && y in held && y <= v && Reaches(held, d, v)
    ensures HolesUnder(held, d) <= |HolesBelow(held, v)| + 1
  {
    var under := HolesBelow(held + Range(d), d.first);
    var top := Highest(held, d.first, y);
    forall u | u in under && u != top ensures u in HolesBelow(held, v) {
      HolesUnderRange(held, d, u);
      assert u < top <= v;
      assert Followed(held, u, v);
    }
    assert under - {top} <= HolesBelow(held, v);
    SubsetSize(under - {top}, HolesBelow(held, v));
  }

  lemma NoneUnder(held: set<U32>, d: Device)
    requires d.first <= d.last && Below(held, d.first)
    ensures HolesUnder(held, d) == 0
  {
    forall u | u in HolesBelow(held + Range(d), d.first) ensures false {
      HolesUnderRange(held, d, u);
    }
    assert HolesBelow(held + Range(d), d.first) == {};
  }

  /** With no more budget than holes under the range, only a hole that runs on into the range
      can be revealed, and only with that budget exactly. */
  lemma RevealedReaches(held: set<U32>, d: Device, budget: int, v: U32)
    requires InRange(d, v) && Revealed(held, budget, v) && !Above(held, v) && 0 <= budget <= HolesUnder(held, d)
    ensures Reaches(held, d, v) && Open(held, d) && budget == HolesUnder(held, d)
  {
    if Below(held, v) {
      NoneUnder(held, d);
    } else {
      if y :| y in held && d.first - 1 <= y <= v {
        UnderIsBelow(held, d, v, y);
      }
      var y :| y in held && y <= v;
      UnderIsNearlyBelow(held, d, v, y);
    }
  }

  // ---- One round ----

  ghost function Asked(l: seq<U32>, d: Device, budget: int): set<U32>
    requires Ascending(l)
  {
    Elements(Requests(d, Report(l, budget)))
  }

  /** After a round the top of the range is held. */
  lemma LeftAfter(held: set<U32>, l: seq<U32>, d: Device, budget: int)
    requires Lists(l, held) && MAX_UINT32 !in held && 1 <= d.first <= d.last < MAX_UINT32
    ensures var asked := Asked(l, d, budget);
            asked <= Range(d) && Left(held + asked, d) == Range(d) - held - asked
  {
    var asked := Asked(l, d, budget);
    forall v | v in asked ensures v in Range(d) {
      AskedIsRevealed(held, l, d, budget, v);
    }
    if Above(held, d.last) {
      TailIsAsked(held, l, d, budget, d.last);
      assert d.last in Range(d) && d.last in Tail(held, d) && d.last in asked;
    }
    assert exists w :: w in held + asked && w >= d.last;
    NoTail(held + asked, d);
  }

  /** With no hole that the budget reaches, only the tail is asked for. */
  lemma OnlyTail(held: set<U32>, l: seq<U32>, d: Device, budget: int)
    requires Lists(l, held) && MAX_UINT32 !in held && 1 <= d.first <= d.last < MAX_UINT32
    requires 0 <= budget <= HolesUnder(held, d) && !(budget == HolesUnder(held, d) && Open(held, d))
    ensures Asked(l, d, budget) == Tail(held, d)
  {
    var asked := Asked(l, d, budget);
    forall v: U32 | v in asked ensures v in Tail(held, d) {
      AskedIsRevealed(held, l, d, budget, v);
      if Above(held, v) {
        TailIsAsked(held, l, d, budget, v);
      } else {
        RevealedReaches(held, d, budget, v);
      }
    }
    forall v: U32 | v in Tail(held, d) ensures v in asked {
      assert InRange(d, v);
      TailIsAsked(held, l, d, budget, v);
    }
  }

  /** In the hole that runs on into the range, what is left after a round starts at the first
      event if and only if what was left before it did. */
  lemma StaysInitial(held: set<U32>, l: seq<U32>, d: Device, budget: int)
    requires Lists(l, held) && MAX_UINT32 !in held && 1 <= d.first <= d.last < MAX_UINT32
    requires budget == HolesUnder(held, d) && Open(held, d)
    ensures Initial(Left(held, d), d) <==> Initial(Left(held + Asked(l, d, budget), d), d)
  {
    var asked := Asked(l, d, budget);
    var before, after := Left(held, d), Left(held + asked, d);
    LeftAfter(held, l, d, budget);
    if Initial(before, d) {
      forall v, w: U32 | v in after && d.first <= w <= v ensures w in after {
        StillLeft(held, l, d, budget, v, w);
      }
    }
    if Initial(after, d) {
      forall v, w: U32 | v in before && d.first <= w <= v ensures w in before {
        WasLeft(held, l, d, budget, v, w);
      }
    }
  }

  lemma LeftIs(held: set<U32>, l: seq<U32>, d: Device, budget: int, v: U32)
    requires Lists(l, held) && MAX_UINT32 !in held && 1 <= d.first <= d.last < MAX_UINT32
    ensures v in Left(held, d) && Above(held, v) ==> v !in Asked(l, d, budget)
    ensures v in Asked(l, d, budget) && !Above(held, v) ==> v in Left(held, d)
    ensures v in Left(held, d) && v !in Asked(l, d, budget) <==> v in Left(held + Asked(l, d, budget), d)
  {
    LeftAfter(held, l, d, budget);
    if v in Range(d) && v !in held {
      assert InRange(d, v);
      if Above(held, v) {
        TailIsAsked(held, l, d, budget, v);
      }
    }
    if v in Asked(l, d, budget) {
      AskedIsRevealed(held, l, d, budget, v);
    }
  }

  lemma InitialReaches(held: set<U32>, d: Device, v: U32)
    requires Initial(Left(held, d), d) && v in Left(held, d)
    ensures Reaches(held, d, v) && InRange(d, v)
  {
    forall u | u in held ensures !(d.first <= u <= v) {
      assert d.first <= u <= v ==> u in Left(held, d);
    }
    assert v in Range(d);
  }

  lemma StillLeft(held: set<U32>, l: seq<U32>, d: Device, budget: int, v: U32, w: U32)
    requires Lists(l, held) && MAX_UINT32 !in held && 1 <= d.first <= d.last < MAX_UINT32
    requires Initial(Left(held, d), d) && v in Left(held + Asked(l, d, budget), d) && d.first <= w <= v
    ensures w in Left(held + Asked(l, d, budget), d)
  {
    LeftIs(held, l, d, budget, v);
    LeftIs(held, l, d, budget, w);
    if w in Asked(l, d, budget) {
      InitialReaches(held, d, v);
      AskedIsUpper(held, l, d, budget, w, v);
    }
  }

  lemma WasLeft(held: set<U32>, l: seq<U32>, d: Device, budget: int, v: U32, w: U32)
    requires Lists(l, held) && MAX_UINT32 !in held && 1 <= d.first <= d.last < MAX_UINT32
    requires budget == HolesUnder(held, d) && Open(held, d)
    requires Initial(Left(held + Asked(l, d, budget), d), d) && v in Left(held, d) && d.first <= w <= v
    ensures w in Left(held, d)
  {
    LeftIs(held, l, d, budget, v);
    LeftIs(held, l, d, budget, w);
    if v in Asked(l, d, budget) {
      AskedIsRevealed(held, l, d, budget, v);
      RevealedReaches(held, d, budget, v);
      var u :| u in held && u >= v;
      assert w !in held && w in Range(d) by { assert InRange(d, w); }
      assert !Above(held, w);
    }
  }

  /** A round keeps the condition, and keeps its negation. */
  lemma ConvergesIsKept(held: set<U32>, l: seq<U32>, d: Device, gaps: int)
    requires Lists(l, held) && MAX_UINT32 !in held && 1 <= d.first <= d.last < MAX_UINT32
    ensures Converges(held + Asked(l, d, gaps), d, gaps) <==> Converges(held, d, gaps)
  {
    var after := held + Asked(l, d, gaps);
    LeftAfter(held, l, d, gaps);
    assert after + Range(d) == held + Range(d);
    assert forall u :: u in after && u !in held ==> u >= d.first by {
      assert forall u :: u in Range(d) ==> InRange(d, u);
    }
    assert Open(after, d) <==> Open(held, d);
    if 0 <= gaps <= HolesUnder(held, d) {
      if gaps == HolesUnder(held, d) && Open(held, d) {
        StaysInitial(held, l, d, gaps);
      } else {
        OnlyTail(held, l, d, gaps);
        assert Left(after, d) == Left(held, d);
      }
    }
  }
}
