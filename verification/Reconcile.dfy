/** Rounds of the event reconciliation protocol: work out what is missing, fetch a batch
    from each controller, store it, repeat. */
module Reconcile {
  import opened Common
  import opened Gaps
  import opened EventStore
  import opened EventFetch
  import opened Screening
  import opened Convergence

  // ---- Assumptions about the controllers ----

  /** The controller holds first..last, starting at 1 or later and leaving room for
      `last + 1`, and answers every request in that range with the event asked for. */
  ghost predicate Responsive(d: Device) {
    && 1 <= d.first <= d.last < MAX_UINT32
    && forall i: U32 :: d.first <= i <= d.last ==>
         i in d.replies && (match d.replies[i] case Found(e) => e.index == i case Absent => true case Failed => false)
  }

  ghost predicate Steady(fleet: seq<Device>) {
    && (forall i :: 0 <= i < |fleet| ==> Responsive(fleet[i]))
    && (forall i, j :: 0 <= i < j < |fleet| ==> fleet[i].id != fleet[j].id)
  }

  /** How many of the controller's events are not in the held set. */
  ghost function Outstanding(held: set<U32>, d: Device): nat {
    |Range(d) - held|
  }

  /** What the server holds of each controller's events. */
  ghost function HeldBy(events: map<EventKey, Event>, fleet: seq<Device>): (r: seq<set<U32>>)
    ensures |r| == |fleet|
  {
    if fleet == [] then [] else [Held(events, fleet[0].id)] + HeldBy(events, fleet[1..])
  }

  lemma {:induction false} HeldByAt(events: map<EventKey, Event>, fleet: seq<Device>)
    ensures forall i :: 0 <= i < |fleet| ==> HeldBy(events, fleet)[i] == Held(events, fleet[i].id)
  {
    if fleet != [] {
      HeldByAt(events, fleet[1..]);
    }
  }

  /** The largest possible index, after which the report would wrap, is not held. */
  ghost predicate Unwrapped(held: seq<set<U32>>) {
    forall i :: 0 <= i < |held| ==> MAX_UINT32 !in held[i]
  }

  ghost function TotalOutstanding(held: seq<set<U32>>, fleet: seq<Device>): nat
    requires |held| == |fleet|
  {
    if fleet == [] then 0 else Outstanding(held[0], fleet[0]) + TotalOutstanding(held[1..], fleet[1..])
  }

  // ---- One controller's report ----

  /** Some hole that the budget pays for meets the controller's range. */
  ghost predicate HoleMeets(d: Device, holes: seq<Interval>) {
    exists k :: 0 <= k < |holes| && holes[k].from <= d.last && d.first <= holes[k].to
  }

  lemma ConcernsSplit(d: Device, a: seq<Interval>, b: seq<Interval>)
    ensures Concerns(d, a + b) <==> Concerns(d, a) || Concerns(d, b)
  {
    var all := a + b;
    if Concerns(d, a) {
      var k :| 0 <= k < |a| && Relevant(d, a[k]);
      assert Relevant(d, all[k]);
    }
    if Concerns(d, b) {
      var k :| 0 <= k < |b| && Relevant(d, b[k]);
      assert Relevant(d, all[|a| + k]);
    }
  }

  lemma ConcernsOuter(l: seq<U32>, d: Device)
    requires 1 <= d.first <= d.last && Ascending(l) && MAX_UINT32 !in l
    ensures Concerns(d, Outer(l)) <==> l == [] || d.first < l[0] || l[|l| - 1] < d.last
  {
    var o := Outer(l);
    assert l != [] ==> l[0] in l && l[|l| - 1] in l;
    if l == [] || l[|l| - 1] < d.last {
      assert o[0].Contains(d.last);
    } else if d.first < l[0] {
      assert o[1].Contains(d.first);
    }
  }

  lemma ConcernsHoles(d: Device, holes: seq<Interval>)
    requires d.first <= d.last && Nonempty(holes)
    ensures Concerns(d, holes) <==> HoleMeets(d, holes)
  {
    if HoleMeets(d, holes) {
      var k :| 0 <= k < |holes| && holes[k].from <= d.last && d.first <= holes[k].to;
      assert Relevant(d, holes[k]);
    }
  }

  lemma TakenNonempty(l: seq<U32>, budget: int)
    requires Ascending(l)
    ensures Nonempty(Taken(Holes(l), budget))
  {
    HolesOrdered(l);
    var t := Taken(Holes(l), budget);
    assert forall k :: 0 <= k < |t| ==> t[k] == Holes(l)[k];
  }

  /** The report concerns the controller exactly when its range reaches below or above what is
      held, or meets a hole that the budget pays for. */
  lemma ReportRelevant(l: seq<U32>, d: Device, budget: int)
    requires 1 <= d.first <= d.last && Ascending(l) && MAX_UINT32 !in l
    ensures Concerns(d, Report(l, budget)) <==>
              l == [] || d.first < l[0] || l[|l| - 1] < d.last || HoleMeets(d, Taken(Holes(l), budget))
  {
    TakenNonempty(l, budget);
    ConcernsSplit(d, Outer(l), Taken(Holes(l), budget));
    ConcernsOuter(l, d);
    ConcernsHoles(d, Taken(Holes(l), budget));
  }

  /** Nothing is missing exactly when both end points are held and no hole meets the range. */
  lemma CompleteList(l: seq<U32>, d: Device)
    requires d.first <= d.last && Ascending(l)
    ensures (forall x: U32 :: d.first <= x <= d.last ==> x in l) <==>
              d.first in l && d.last in l && !HoleMeets(d, Holes(l))
  {
    HolesExact(l);
    if HoleMeets(d, Holes(l)) {
      var k :| 0 <= k < |Holes(l)| && Holes(l)[k].from <= d.last && d.first <= Holes(l)[k].to;
      var x: U32 := Max(d.first, Holes(l)[k].from);
      assert Holes(l)[k].Contains(x);
      assert Covered(Holes(l), x);
    } else if d.first in l && d.last in l {
      assert l[0] in l && l[0] <= d.first && d.last <= l[|l| - 1];
      forall x: U32 | d.first <= x <= d.last ensures x in l {
        assert Covered(Holes(l), x) <==> x !in l;
      }
    }
  }

  /** A batch asks only for events in range that are not held, each once, and asks for
      something exactly when the report concerns the controller. */
  lemma BatchIsNew(l: seq<U32>, d: Device, budget: int)
    requires 1 <= d.first <= d.last && Ascending(l) && MAX_UINT32 !in l
    ensures var rs := Requests(d, Report(l, budget));
            && Distinct(rs)
            && (forall r :: r in rs ==> d.first <= r <= d.last && r !in l)
            && (rs != [] <==> Concerns(d, Report(l, budget)))
  {
    ReportIsSound(l, budget);
    RequestsSound(d, Report(l, budget));
    RequestsProgress(d, Report(l, budget));
  }

  // ---- The shared budget ----

  /** What is left of the gap budget when the i-th controller's turn comes. */
  function BudgetAt(index: map<U32, seq<U32>>, gaps: int, controllers: seq<U32>, i: nat): int
    requires Indexed(index) && i <= |controllers|
    decreases i
  {
    if i == 0 then gaps
    else
      var before := BudgetAt(index, gaps, controllers, i - 1);
      before - |Taken(Holes(ListOf(index, controllers[i - 1])), before)|
  }

  /** Each controller's share of the plan is its report for the budget it is left with. */
  lemma {:induction false} PlanAt(index: map<U32, seq<U32>>, gaps: int, controllers: seq<U32>,
                                  planned: map<U32, seq<Interval>>, i: nat)
    requires Indexed(index) && Distinct(controllers) && i < |controllers|
    requires forall c :: c in controllers ==> c !in planned
    ensures var plan := Plan(index, gaps, controllers, planned);
            controllers[i] in plan
                && plan[controllers[i]] == Report(ListOf(index, controllers[i]), BudgetAt(index, gaps, controllers, i))
    decreases |controllers|
  {
    var c, rest := controllers[0], controllers[1..];
    var planned' := Append(planned, c, Report(ListOf(index, c), gaps));
    var left := BudgetAt(index, gaps, controllers, 1);
    PlanStep(index, gaps, controllers, planned);
    assert forall j :: 0 <= j < |rest| ==> rest[j] == controllers[j + 1];
    assert c !in rest;
    if i == 0 {
      PlanKeeps(index, left, rest, planned', c);
    } else {
      PlanAt(index, left, rest, planned', i - 1);
      BudgetShift(index, gaps, controllers, i);
    }
  }

  lemma PlanStep(index: map<U32, seq<U32>>, gaps: int, controllers: seq<U32>, planned: map<U32, seq<Interval>>)
    requires Indexed(index) && controllers != []
    ensures var c := controllers[0];
            var report := Report(ListOf(index, c), gaps);
            && Plan(index, gaps, controllers, planned)
               == Plan(index, BudgetAt(index, gaps, controllers, 1), controllers[1..], Append(planned, c, report))
            && (c !in planned ==> Append(planned, c, report)[c] == report)
            && BudgetAt(index, gaps, controllers, 0) == gaps
  {
    var report := Report(ListOf(index, controllers[0]), gaps);
    assert [] + report == report;
    assert BudgetAt(index, gaps, controllers, 0) == gaps;
  }

  lemma {:induction false} PlanKeeps(index: map<U32, seq<U32>>, gaps: int, controllers: seq<U32>,
                                     planned: map<U32, seq<Interval>>, c: U32)
    requires Indexed(index) && c in planned && c !in controllers
    ensures var plan := Plan(index, gaps, controllers, planned);
            c in plan && plan[c] == planned[c]
    decreases |controllers|
  {
    if controllers != [] {
      var l := ListOf(index, controllers[0]);
      PlanKeeps(index, gaps - |Taken(Holes(l), gaps)|, controllers[1..],
                Append(planned, controllers[0], Report(l, gaps)), c);
    }
  }

  lemma {:induction false} BudgetShift(index: map<U32, seq<U32>>, gaps: int, controllers: seq<U32>, i: nat)
    requires Indexed(index) && 1 <= i <= |controllers|
    ensures BudgetAt(index, gaps, controllers, i)
              == BudgetAt(index, BudgetAt(index, gaps, controllers, 1), controllers[1..], i - 1)
    decreases i
  {
    if i > 1 {
      BudgetShift(index, gaps, controllers, i - 1);
      assert controllers[1..][i - 2] == controllers[i - 1];
    }
  }

  /** A budget of g pays for at most g inner gaps over the whole call; it stays untouched
      until a controller with a gap is reached. */
  lemma {:induction false} BudgetBounds(index: map<U32, seq<U32>>, gaps: int, controllers: seq<U32>, i: nat)
    requires Indexed(index) && i <= |controllers|
    ensures gaps >= 0 ==> 0 <= BudgetAt(index, gaps, controllers, i) <= gaps
    ensures gaps < 0 ==> BudgetAt(index, gaps, controllers, i) <= gaps
    ensures (forall j :: 0 <= j < i ==> Holes(ListOf(index, controllers[j])) == []) ==>
              BudgetAt(index, gaps, controllers, i) == gaps
    decreases i
  {
    if i > 0 {
      BudgetBounds(index, gaps, controllers, i - 1);
    }
  }

  /** With an unlimited budget every controller's intervals are the exact complement of its
      held indices, if and only if it does not hold the largest index. */
  lemma MissingIsComplement(events: map<EventKey, Event>, index: map<U32, seq<U32>>, gaps: int, controllers: seq<U32>,
                            i: nat)
    requires IndexOf(index, events) && Distinct(controllers) && i < |controllers| && gaps < 0
    ensures var c := controllers[i];
            var plan := Plan(index, gaps, controllers, map[]);
            && c in plan
            && ((forall v: U32 :: 1 <= v ==> (Covered(plan[c], v) <==> v !in Held(events, c))) <==>
                  MAX_UINT32 !in Held(events, c))
  {
    var c := controllers[i];
    var l := ListOf(index, c);
    PlanAt(index, gaps, controllers, map[], i);
    BudgetBounds(index, gaps, controllers, i);
    ReportIsComplement(l, BudgetAt(index, gaps, controllers, i));
    ListIsHeld(events, index, c);
  }

  lemma ListIsHeld(events: map<EventKey, Event>, index: map<U32, seq<U32>>, c: U32)
    requires IndexOf(index, events)
    ensures Lists(ListOf(index, c), Held(events, c))
  {
    if c !in index {
      assert c !in Devices(events);
      assert Held(events, c) == {};
    }
  }

  // ---- One controller's turn ----

  lemma {:induction false} AnswersHeld(d: Device, rs: seq<U32>)
    requires Responsive(d) && forall r :: r in rs ==> d.first <= r <= d.last
    ensures KeysOf(Answers(d, rs)) == set r | r in rs :: EventKey(d.id, r)
  {
    if rs != [] {
      var n := |rs| - 1;
      assert rs == rs[..n] + [rs[n]];
      assert rs[n] in rs && forall r :: r in rs[..n] ==> r in rs;
      AnswersHeld(d, rs[..n]);
      var before, after := Answers(d, rs[..n]), Answers(d, rs);
      var e := after[|after| - 1];
      assert after == before + [e] && EventKey(e.deviceID, e.index) == EventKey(d.id, rs[n]);
      KeysOfAppend(before, e);
    }
  }

  lemma KeysOfAppend(events: seq<DeviceEvent>, e: DeviceEvent)
    ensures KeysOf(events + [e]) == KeysOf(events) + {EventKey(e.deviceID, e.index)}
  {
    var all := events + [e];
    forall k | k in KeysOf(events) ensures k in KeysOf(all) {
      var i :| 0 <= i < |events| && k == EventKey(events[i].deviceID, events[i].index);
      assert all[i] == events[i];
    }
    assert all[|events|] == e;
  }

  /** Storing a batch adds exactly the events asked for, to that controller only. */
  lemma HeldAfter(events: map<EventKey, Event>, d: Device, rs: seq<U32>, lookup: DeviceEvent -> Names)
    requires Responsive(d) && forall r :: r in rs ==> d.first <= r <= d.last
    ensures var events' := StoreAll(events, Answers(d, rs), lookup);
            && Held(events', d.id) == Held(events, d.id) + Elements(rs)
            && (forall c :: c != d.id ==> Held(events', c) == Held(events, c))
            && (forall k :: k in events ==> k in events' && events'[k] == events[k])
            && (rs == [] ==> events' == events)
  {
    var events' := StoreAll(events, Answers(d, rs), lookup);
    StoreAllAdds(events, Answers(d, rs), lookup);
    AnswersHeld(d, rs);
    assert events'.Keys == events.Keys + set r | r in rs :: EventKey(d.id, r);
    forall r | r in rs ensures r in Held(events', d.id) {
      assert EventKey(d.id, r) in events';
    }
    forall r | r in Held(events, d.id) ensures r in Held(events', d.id) {
      assert EventKey(d.id, r) in events;
      assert EventKey(d.id, r) in events';
    }
    forall c | c != d.id ensures Held(events', c) == Held(events, c) {
      forall x | x in Held(events, c) ensures x in Held(events', c) {
        assert EventKey(c, x) in events';
      }
    }
  }

  /** What a turn asks of a controller, and the status it publishes: Ok exactly when nothing in
      range was missing, or when what was missing was screened by holes below the range. */
  ghost predicate TurnOutcome(held: set<U32>, d: Device, budget: int, asked: seq<U32>, status: Status) {
    && Distinct(asked)
    && (forall r :: r in asked ==> InRange(d, r) && r !in held)
    && (status == StatusOk <==> asked == [])
    && (status == StatusOk <==> Outstanding(held, d) == 0 || Screened(held, d, budget))
  }

  /** A false Ok, exactly: both ends of the range lie among the held indices, and the holes below
      the range are at least as many as the budget left for the controller. */
  lemma TurnIsSound(held: set<U32>, l: seq<U32>, d: Device, budget: int, status: Status)
    requires 1 <= d.first <= d.last && MAX_UINT32 !in held && Lists(l, held)
    requires status == StatusOk <==> !Concerns(d, Report(l, budget))
    ensures TurnOutcome(held, d, budget, Requests(d, Report(l, budget)), status)
  {
    BatchIsNew(l, d, budget);
    QuietExactly(held, l, d, budget);
    OutstandingZero(held, d);
  }

  lemma OutstandingZero(held: set<U32>, d: Device)
    ensures Outstanding(held, d) == 0 <==> Range(d) <= held
    ensures Range(d) <= held <==> forall x: U32 :: InRange(d, x) ==> x in held
  {
    var gone := Range(d) - held;
    if gone == {} {
      forall x | x in Range(d) ensures x in held {
        assert x !in gone;
      }
    } else {
      var x :| x in gone;
    }
    assert forall x :: x in Range(d) ==> InRange(d, x);
    assert forall x: U32 :: InRange(d, x) ==> x in Range(d);
  }

  lemma OutstandingDrops(held: set<U32>, d: Device, asked: seq<U32>)
    requires Distinct(asked) && forall r :: r in asked ==> InRange(d, r) && r !in held
    ensures Outstanding(held + Elements(asked), d) == Outstanding(held, d) - |asked|
  {
    var gone := Range(d) - held;
    assert Elements(asked) <= gone;
    assert Range(d) - (held + Elements(asked)) == gone - Elements(asked);
    DistinctCount(asked);
  }

  ghost predicate Keeps(before: map<EventKey, Event>, after: map<EventKey, Event>) {
    forall k :: k in before ==> k in after && after[k] == before[k]
  }

  /** A turn changes one controller's held set only, by what it asked for. */
  ghost predicate Grows(before: map<EventKey, Event>, after: map<EventKey, Event>, d: Device, asked: seq<U32>) {
    && Held(after, d.id) == Held(before, d.id) + Elements(asked)
    && (forall c :: c != d.id ==> Held(after, c) == Held(before, c))
    && Keeps(before, after)
    && (asked == [] ==> after == before)
  }

  /** Every event that was not held before is some controller's own answer to the request for it,
      with the names looked up for it. */
  ghost predicate Sourced(before: map<EventKey, Event>, after: map<EventKey, Event>, fleet: seq<Device>,
                          lookup: DeviceEvent -> Names) {
    forall k :: k in after && k !in before ==>
                  && after[k].names == lookup(after[k].record)
                  && exists i :: 0 <= i < |fleet| && fleet[i].id == k.deviceID
                                 && IsReply(fleet[i], k.index, after[k].record)
  }

  lemma ReplyIsFor(d: Device, r: U32, e: DeviceEvent)
    requires Responsive(d) && d.first <= r <= d.last && IsReply(d, r, e)
    ensures e.deviceID == d.id && e.index == r
  {
    assert r in d.replies;
  }

  lemma StoredAreSourced(before: map<EventKey, Event>, after: map<EventKey, Event>, fleet: seq<Device>, i: nat,
                         recent: seq<DeviceEvent>, lookup: DeviceEvent -> Names)
    requires i < |fleet| && StoredFirst(before, after, recent, lookup)
    requires forall j :: 0 <= j < |recent| ==>
               recent[j].deviceID == fleet[i].id && IsReply(fleet[i], recent[j].index, recent[j])
    ensures Sourced(before, after, fleet, lookup)
  {
    forall k | k in after && k !in before
      ensures after[k].names == lookup(after[k].record)
      ensures fleet[i].id == k.deviceID && IsReply(fleet[i], k.index, after[k].record)
    {
      var j :| 0 <= j < |recent| && FirstFor(recent, j, k) && after[k] == Event(recent[j], lookup(recent[j]));
    }
  }

  lemma TurnIsSourced(before: map<EventKey, Event>, after: map<EventKey, Event>, fleet: seq<Device>, i: nat,
                      asked: seq<U32>, recent: seq<DeviceEvent>, at: seq<int>, lookup: DeviceEvent -> Names)
    requires i < |fleet| && Responsive(fleet[i])
    requires forall r :: r in asked ==> fleet[i].first <= r <= fleet[i].last
    requires RepliesTo(fleet[i], asked, recent, at) && StoredFirst(before, after, recent, lookup)
    ensures Sourced(before, after, fleet, lookup)
  {
    forall j | 0 <= j < |recent|
      ensures recent[j].deviceID == fleet[i].id && IsReply(fleet[i], recent[j].index, recent[j])
    {
      assert asked[at[j]] in asked && IsReply(fleet[i], asked[at[j]], recent[j]);
      ReplyIsFor(fleet[i], asked[at[j]], recent[j]);
    }
    StoredAreSourced(before, after, fleet, i, recent, lookup);
  }

  lemma SourcedTwice(a: map<EventKey, Event>, b: map<EventKey, Event>, c: map<EventKey, Event>, fleet: seq<Device>,
                     lookup: DeviceEvent -> Names)
    requires Sourced(a, b, fleet, lookup) && Sourced(b, c, fleet, lookup) && Keeps(b, c)
    ensures Sourced(a, c, fleet, lookup)
  {
  }

  method Turn(store: Events, d: Device, intervals: seq<Interval>, lookup: DeviceEvent -> Names,
              ghost held: set<U32>, ghost l: seq<U32>, ghost budget: int, ghost fleet: seq<Device>, ghost i: nat)
    returns (status: Status, ghost asked: seq<U32>)
    requires store.Valid() && Responsive(d) && MAX_UINT32 !in held && i < |fleet| && fleet[i] == d
    requires Lists(l, held) && intervals == Report(l, budget)
    modifies store
    ensures store.Valid()
    ensures TurnOutcome(held, d, budget, asked, status) && asked == Requests(d, intervals)
    ensures Grows(old(store.events), store.events, d, asked)
    ensures Sourced(old(store.events), store.events, fleet, lookup)
  {
    var events;
    ghost var at;
    status, events, at := GetEvents(d, intervals);
    asked := Requests(d, intervals);
    RequestsSound(d, intervals);
    TurnIsSound(held, l, d, budget, status);
    HeldAfter(store.events, d, asked, lookup);
    store.Received(events, lookup);
    TurnIsSourced(old(store.events), store.events, fleet, i, asked, events, at, lookup);
  }

  // ---- A round ----

  function Ids(fleet: seq<Device>): (r: seq<U32>)
    ensures |r| == |fleet|
  {
    if fleet == [] then [] else [fleet[0].id] + Ids(fleet[1..])
  }

  lemma {:induction false} IdsAt(fleet: seq<Device>)
    ensures forall i :: 0 <= i < |fleet| ==> Ids(fleet)[i] == fleet[i].id
  {
    if fleet != [] {
      IdsAt(fleet[1..]);
    }
  }

  /** The held sets after the first |asked| turns. */
  ghost predicate Grown(before: seq<set<U32>>, after: seq<set<U32>>, asked: seq<seq<U32>>) {
    && |asked| <= |before| == |after|
    && (forall i :: 0 <= i < |asked| ==> after[i] == before[i] + Elements(asked[i]))
    && (forall i :: |asked| <= i < |before| ==> after[i] == before[i])
  }

  /** Every turn so far had the outcome described above, for the budget left to it. */
  ghost predicate Outcomes(before: seq<set<U32>>, fleet: seq<Device>, budgets: seq<int>, asked: seq<seq<U32>>,
                           statuses: seq<Status>) {
    && |statuses| == |asked| == |budgets| <= |fleet| == |before|
    && forall i :: 0 <= i < |asked| ==> TurnOutcome(before[i], fleet[i], budgets[i], asked[i], statuses[i])
  }

  ghost predicate Budgets(index: map<U32, seq<U32>>, gaps: int, controllers: seq<U32>, budgets: seq<int>)
    requires Indexed(index)
  {
    |budgets| <= |controllers| && forall i :: 0 <= i < |budgets| ==> budgets[i] == BudgetAt(index, gaps, controllers, i)
  }

  /** The requests that the index calls for. */
  function CalledFor(index: map<U32, seq<U32>>, fleet: seq<Device>, budgets: seq<int>): seq<seq<U32>>
    requires Indexed(index) && |budgets| <= |fleet|
  {
    if budgets == [] then []
    else
      var n := |budgets| - 1;
      CalledFor(index, fleet, budgets[..n]) + [Requests(fleet[n], Report(ListOf(index, fleet[n].id), budgets[n]))]
  }

  /** What has been done after the turns of the first |statuses| controllers. */
  ghost predicate RoundSoFar(before: map<EventKey, Event>, after: map<EventKey, Event>, fleet: seq<Device>,
                             budgets: seq<int>, asked: seq<seq<U32>>, statuses: seq<Status>)
  {
    && Grown(HeldBy(before, fleet), HeldBy(after, fleet), asked)
    && Outcomes(HeldBy(before, fleet), fleet, budgets, asked, statuses)
    && Keeps(before, after)
    && ((forall i :: 0 <= i < |asked| ==> asked[i] == []) ==> after == before)
  }

  lemma RoundStep(before: map<EventKey, Event>, during: map<EventKey, Event>, after: map<EventKey, Event>,
                  fleet: seq<Device>,
                  budgets: seq<int>, asked: seq<seq<U32>>, statuses: seq<Status>,
                  budget: int, batch: seq<U32>, status: Status)
    requires RoundSoFar(before, during, fleet, budgets, asked, statuses) && |asked| < |fleet| && Steady(fleet)
    requires TurnOutcome(Held(before, fleet[|asked|].id), fleet[|asked|], budget, batch, status)
    requires Grows(during, after, fleet[|asked|], batch)
    ensures RoundSoFar(before, after, fleet, budgets + [budget], asked + [batch], statuses + [status])
  {
    HeldByAt(before, fleet);
    GrownStep(HeldBy(before, fleet), during, after, fleet, asked, batch);
    OutcomesStep(HeldBy(before, fleet), fleet, budgets, asked, statuses, budget, batch, status);
    NothingAsked(asked, batch);
  }

  lemma NothingAsked(asked: seq<seq<U32>>, batch: seq<U32>)
    ensures (forall i :: 0 <= i < |asked + [batch]| ==> (asked + [batch])[i] == []) ==>
              batch == [] && forall i :: 0 <= i < |asked| ==> asked[i] == []
  {
    assert (asked + [batch])[|asked|] == batch;
    assert forall i :: 0 <= i < |asked| ==> (asked + [batch])[i] == asked[i];
  }

  lemma OutcomesStep(was: seq<set<U32>>, fleet: seq<Device>, budgets: seq<int>, asked: seq<seq<U32>>,
                     statuses: seq<Status>,
                     budget: int, batch: seq<U32>, status: Status)
    requires Outcomes(was, fleet, budgets, asked, statuses) && |asked| < |fleet|
    requires TurnOutcome(was[|asked|], fleet[|asked|], budget, batch, status)
    ensures Outcomes(was, fleet, budgets + [budget], asked + [batch], statuses + [status])
  {
  }

  lemma GrownStep(was: seq<set<U32>>, during: map<EventKey, Event>, after: map<EventKey, Event>, fleet: seq<Device>,
                  asked: seq<seq<U32>>, batch: seq<U32>)
    requires Grown(was, HeldBy(during, fleet), asked) && |asked| < |fleet| && Steady(fleet)
    requires Grows(during, after, fleet[|asked|], batch)
    ensures Grown(was, HeldBy(after, fleet), asked + [batch])
  {
    HeldByAt(during, fleet);
    HeldByAt(after, fleet);
  }

  lemma BudgetsStep(index: map<U32, seq<U32>>, gaps: int, controllers: seq<U32>, budgets: seq<int>, budget: int)
    requires Indexed(index) && |budgets| < |controllers|
    requires Budgets(index, gaps, controllers, budgets) && budget == BudgetAt(index, gaps, controllers, |budgets|)
    ensures Budgets(index, gaps, controllers, budgets + [budget])
  {
  }

  lemma CalledForStep(index: map<U32, seq<U32>>, fleet: seq<Device>, budgets: seq<int>, budget: int)
    requires Indexed(index) && |budgets| < |fleet|
    ensures CalledFor(index, fleet, budgets + [budget])
              == CalledFor(index, fleet, budgets)
                 + [Requests(fleet[|budgets|], Report(ListOf(index, fleet[|budgets|].id), budget))]
  {
    assert (budgets + [budget])[..|budgets|] == budgets;
  }

  /** Each controller's entry in the plan is its report for its held list and its budget. */
  lemma TurnReady(events: map<EventKey, Event>, index: map<U32, seq<U32>>, gaps: int, fleet: seq<Device>, i: nat)
    returns (l: seq<U32>, budget: int)
    requires IndexOf(index, events) && Steady(fleet) && i < |fleet|
    ensures var d := fleet[i];
            var plan := Plan(index, gaps, Ids(fleet), map[]);
            && Lists(l, Held(events, d.id))
            && l == ListOf(index, d.id)
            && budget == BudgetAt(index, gaps, Ids(fleet), i)
            && d.id in plan && plan[d.id] == Report(l, budget)
  {
    var d := fleet[i];
    IdsAt(fleet);
    HeldByAt(events, fleet);
    l, budget := ListOf(index, d.id), BudgetAt(index, gaps, Ids(fleet), i);
    PlanAt(index, gaps, Ids(fleet), map[], i);
    ListIsHeld(events, index, d.id);
  }

  method Round(store: Events, fleet: seq<Device>, gaps: int, lookup: DeviceEvent -> Names)
    returns (statuses: seq<Status>, ghost index: map<U32, seq<U32>>, ghost budgets: seq<int>,
             ghost asked: seq<seq<U32>>)
    requires store.Valid() && Steady(fleet) && Unwrapped(HeldBy(store.events, fleet))
    modifies store
    ensures store.Valid()
    ensures |statuses| == |fleet|
    ensures IndexOf(index, old(store.events)) && Budgets(index, gaps, Ids(fleet), budgets)
    ensures RoundSoFar(old(store.events), store.events, fleet, budgets, asked, statuses)
    ensures |budgets| == |fleet| && asked == CalledFor(index, fleet, budgets)
    ensures Sourced(old(store.events), store.events, fleet, lookup)
  {
    statuses, budgets, asked := [], [], [];
    ghost var before := store.events;
    HeldByAt(before, fleet);
    var missing := store.Missing(gaps, Ids(fleet));
    index := store.index;
    assert Grown(HeldBy(before, fleet), HeldBy(before, fleet), asked);
    while |statuses| < |fleet|
      invariant store.Valid()
      invariant Budgets(index, gaps, Ids(fleet), budgets)
      invariant RoundSoFar(before, store.events, fleet, budgets, asked, statuses)
      invariant asked == CalledFor(index, fleet, budgets)
      invariant Sourced(before, store.events, fleet, lookup)
      decreases |fleet| - |statuses|
    {
      var d := fleet[|statuses|];
      ghost var during := store.events;
      ghost var l, budget := TurnReady(before, index, gaps, fleet, |statuses|);
      var status;
      ghost var batch;
      status, batch := Turn(store, d, missing[d.id], lookup, Held(before, d.id), l, budget, fleet,
                             |statuses|);
      SourcedTwice(before, during, store.events, fleet, lookup);
      BudgetsStep(index, gaps, Ids(fleet), budgets, budget);
      CalledForStep(index, fleet, budgets, budget);
      RoundStep(before, during, store.events, fleet, budgets, asked, statuses, budget, batch, status);
      budgets, asked, statuses := budgets + [budget], asked + [batch], statuses + [status];
    }
  }

  // ---- Holes that no round fills ----

  /** The holes that remain when the controller's whole range is held. */
  ghost function StrayHoles(held: set<U32>, d: Device): nat {
    |HolesBelow(held + Range(d), MAX_UINT32)|
  }

  ghost function StrayUpTo(held: seq<set<U32>>, fleet: seq<Device>, i: nat): nat
    requires i <= |held| == |fleet|
  {
    if i == 0 then 0 else StrayUpTo(held, fleet, i - 1) + StrayHoles(held[i - 1], fleet[i - 1])
  }

  /** The shared budget exceeds all the holes that no round fills. A store that holds nothing
      outside the controllers' ranges has none. */
  ghost predicate Ample(held: seq<set<U32>>, fleet: seq<Device>, gaps: int)
    requires |held| == |fleet|
  {
    gaps < 0 || StrayUpTo(held, fleet, |fleet|) < gaps
  }

  lemma {:induction false} StrayGrows(held: seq<set<U32>>, fleet: seq<Device>, i: nat, j: nat)
    requires i <= j <= |held| == |fleet|
    ensures StrayUpTo(held, fleet, i) <= StrayUpTo(held, fleet, j)
    decreases j
  {
    if i < j {
      StrayGrows(held, fleet, i, j - 1);
      assert StrayUpTo(held, fleet, j) == StrayUpTo(held, fleet, j - 1) + StrayHoles(held[j - 1], fleet[j - 1]);
    }
  }

  lemma {:induction false} StrayIsKept(was: seq<set<U32>>, now: seq<set<U32>>, fleet: seq<Device>, i: nat)
    requires i <= |was| == |now| == |fleet|
    requires forall k :: 0 <= k < |fleet| ==> now[k] + Range(fleet[k]) == was[k] + Range(fleet[k])
    ensures StrayUpTo(now, fleet, i) == StrayUpTo(was, fleet, i)
  {
    if i > 0 {
      StrayIsKept(was, now, fleet, i - 1);
    }
  }

  lemma {:induction false} NoStray(held: seq<set<U32>>, fleet: seq<Device>, i: nat)
    requires i <= |held| == |fleet|
    requires forall k :: 0 <= k < |fleet| ==> fleet[k].first <= fleet[k].last && held[k] <= Range(fleet[k])
    ensures StrayUpTo(held, fleet, i) == 0
  {
    if i > 0 {
      NoStray(held, fleet, i - 1);
      var d := fleet[i - 1];
      assert held[i - 1] + Range(d) == Range(d);
      RangeIsWhole(d);
    }
  }

  lemma RangeIsWhole(d: Device)
    requires d.first <= d.last
    ensures HolesBelow(Range(d), MAX_UINT32) == {}
  {
    forall u | u in Range(d) ensures u !in HolesBelow(Range(d), MAX_UINT32) {
      assert InRange(d, u);
      if u < d.last {
        var next: U32 := u + 1;
        assert InRange(d, next) && next in Range(d);
      } else {
        assert forall w :: w in Range(d) ==> InRange(d, w);
      }
    }
  }

  /** Every hole of a complete controller is a stray one. */
  lemma CompleteStray(events: map<EventKey, Event>, index: map<U32, seq<U32>>, fleet: seq<Device>, j: nat)
    requires IndexOf(index, events) && j < |fleet| && Range(fleet[j]) <= HeldBy(events, fleet)[j]
    ensures |Holes(ListOf(index, Ids(fleet)[j]))| == StrayHoles(HeldBy(events, fleet)[j], fleet[j])
  {
    var d, held := fleet[j], HeldBy(events, fleet)[j];
    IdsAt(fleet);
    HeldByAt(events, fleet);
    ListIsHeld(events, index, d.id);
    HolesCount(ListOf(index, d.id), held);
    assert held + Range(d) == held;
  }

  /** Controllers that are complete leave at least the budget less their stray holes. */
  lemma {:induction false} BudgetLeft(events: map<EventKey, Event>, index: map<U32, seq<U32>>, gaps: int,
                                      fleet: seq<Device>, i: nat)
    requires IndexOf(index, events) && gaps >= 0 && i <= |fleet|
    requires forall j :: 0 <= j < i ==> Range(fleet[j]) <= HeldBy(events, fleet)[j]
    ensures BudgetAt(index, gaps, Ids(fleet), i) >= gaps - StrayUpTo(HeldBy(events, fleet), fleet, i)
    decreases i
  {
    if i > 0 {
      BudgetLeft(events, index, gaps, fleet, i - 1);
      CompleteStray(events, index, fleet, i - 1);
      var before := BudgetAt(index, gaps, Ids(fleet), i - 1);
      var holes := Holes(ListOf(index, Ids(fleet)[i - 1]));
      assert |Taken(holes, before)| <= |holes|;
    }
  }

  /** The first incomplete controller still has more budget than stray holes of its own. */
  lemma BudgetAtTurn(events: map<EventKey, Event>, index: map<U32, seq<U32>>, gaps: int, fleet: seq<Device>, j: nat)
    requires IndexOf(index, events) && j < |fleet| && Ample(HeldBy(events, fleet), fleet, gaps)
    requires forall m :: 0 <= m < j ==> Range(fleet[m]) <= HeldBy(events, fleet)[m]
    ensures var b := BudgetAt(index, gaps, Ids(fleet), j);
            b < 0 || StrayHoles(HeldBy(events, fleet)[j], fleet[j]) < b
  {
    if gaps < 0 {
      BudgetBounds(index, gaps, Ids(fleet), j);
    } else {
      BudgetLeft(events, index, gaps, fleet, j);
      StrayGrows(HeldBy(events, fleet), fleet, j + 1, |fleet|);
    }
  }

  lemma FirstIncomplete(held: seq<set<U32>>, fleet: seq<Device>, from: nat, i: nat) returns (j: nat)
    requires from <= i < |held| == |fleet| && !(Range(fleet[i]) <= held[i])
    requires forall m :: 0 <= m < from ==> Range(fleet[m]) <= held[m]
    ensures j < |fleet| && !(Range(fleet[j]) <= held[j]) && forall m :: 0 <= m < j ==> Range(fleet[m]) <= held[m]
    decreases i - from
  {
    if Range(fleet[from]) <= held[from] {
      j := FirstIncomplete(held, fleet, from + 1, i);
    } else {
      j := from;
    }
  }

  /** A controller with missing events whose turn comes with budget to spare is not screened. */
  lemma NotScreenedWith(held: set<U32>, d: Device, budget: int)
    requires d.first <= d.last && (budget < 0 || StrayHoles(held, d) < budget)
    ensures !Screened(held, d, budget)
  {
    HolesBelowUnder(held, d);
    if d.first <= MAX_UINT32 {
      HolesBelowGrow(held + Range(d), d.first, MAX_UINT32);
    }
  }

  // ---- Convergence ----

  /** While anything is outstanding and the budget exceeds the stray holes, some controller is
      asked for an event: the first incomplete one. */
  lemma SomethingIsAsked(before: map<EventKey, Event>, index: map<U32, seq<U32>>, gaps: int, fleet: seq<Device>,
                         budgets: seq<int>, asked: seq<seq<U32>>, statuses: seq<Status>, i: nat)
    returns (j: nat)
    requires IndexOf(index, before) && Steady(fleet) && Ample(HeldBy(before, fleet), fleet, gaps)
    requires Budgets(index, gaps, Ids(fleet), budgets)
    requires Outcomes(HeldBy(before, fleet), fleet, budgets, asked, statuses) && |statuses| == |fleet|
    requires i < |fleet| && Outstanding(HeldBy(before, fleet)[i], fleet[i]) > 0
    ensures j < |fleet| && asked[j] != []
  {
    var was := HeldBy(before, fleet);
    OutstandingZero(was[i], fleet[i]);
    j := FirstIncomplete(was, fleet, 0, i);
    OutstandingZero(was[j], fleet[j]);
    assert TurnOutcome(was[j], fleet[j], budgets[j], asked[j], statuses[j]);
    BudgetAtTurn(before, index, gaps, fleet, j);
    NotScreenedWith(was[j], fleet[j], budgets[j]);
  }

  lemma {:induction false} TotalDrops(before: seq<set<U32>>, after: seq<set<U32>>, fleet: seq<Device>)
    requires |before| == |after| == |fleet|
    requires forall i :: 0 <= i < |fleet| ==> Outstanding(after[i], fleet[i]) <= Outstanding(before[i], fleet[i])
    ensures TotalOutstanding(after, fleet) <= TotalOutstanding(before, fleet)
    ensures (exists i :: 0 <= i < |fleet| && Outstanding(after[i], fleet[i]) < Outstanding(before[i], fleet[i])) ==>
              TotalOutstanding(after, fleet) < TotalOutstanding(before, fleet)
  {
    if fleet != [] {
      assert forall i :: 1 <= i < |fleet| ==>
               fleet[i] == fleet[1..][i - 1] && before[i] == before[1..][i - 1] && after[i] == after[1..][i - 1];
      TotalDrops(before[1..], after[1..], fleet[1..]);
    }
  }

  lemma {:induction false} TotalZero(held: seq<set<U32>>, fleet: seq<Device>)
    requires |held| == |fleet|
    ensures TotalOutstanding(held, fleet) == 0 <==> forall i :: 0 <= i < |fleet| ==> Outstanding(held[i], fleet[i]) == 0
  {
    if fleet != [] {
      TotalZero(held[1..], fleet[1..]);
      assert forall i :: 1 <= i < |fleet| ==> fleet[i] == fleet[1..][i - 1] && held[i] == held[1..][i - 1];
    }
  }

  ghost predicate AllOk(statuses: seq<Status>) {
    forall i :: 0 <= i < |statuses| ==> statuses[i] == StatusOk
  }

  /** Progress: a round that reads Ok throughout changes nothing; any other strictly reduces what
      is outstanding. With a budget above the stray holes it reads Ok throughout only when
      nothing is outstanding. */
  lemma RoundProgress(before: map<EventKey, Event>, after: map<EventKey, Event>, index: map<U32, seq<U32>>, gaps: int,
                      fleet: seq<Device>,
                      budgets: seq<int>, asked: seq<seq<U32>>, statuses: seq<Status>)
    requires IndexOf(index, before) && Steady(fleet) && Unwrapped(HeldBy(before, fleet))
    requires Budgets(index, gaps, Ids(fleet), budgets)
    requires RoundSoFar(before, after, fleet, budgets, asked, statuses) && |statuses| == |fleet|
    ensures var was, now := HeldBy(before, fleet), HeldBy(after, fleet);
            && Unwrapped(now) && (Ample(now, fleet, gaps) <==> Ample(was, fleet, gaps))
            && (AllOk(statuses) ==> after == before)
            && (!AllOk(statuses) ==> TotalOutstanding(now, fleet) < TotalOutstanding(was, fleet))
            && (Ample(was, fleet, gaps) ==> (AllOk(statuses) <==> TotalOutstanding(was, fleet) == 0))
  {
    var was, now := HeldBy(before, fleet), HeldBy(after, fleet);
    AllDrop(was, now, fleet, budgets, asked, statuses);
    TotalDrops(was, now, fleet);
    TotalZero(was, fleet);
    StrayIsKept(was, now, fleet, |fleet|);
    QuietRound(was, fleet, budgets, asked, statuses);
    if TotalOutstanding(was, fleet) > 0 && Ample(was, fleet, gaps) {
      var i :| 0 <= i < |fleet| && Outstanding(was[i], fleet[i]) != 0;
      var j := SomethingIsAsked(before, index, gaps, fleet, budgets, asked, statuses, i);
    }
  }

  lemma QuietRound(was: seq<set<U32>>, fleet: seq<Device>, budgets: seq<int>, asked: seq<seq<U32>>,
                   statuses: seq<Status>)
    requires Outcomes(was, fleet, budgets, asked, statuses)
    ensures AllOk(statuses) <==> forall i :: 0 <= i < |asked| ==> asked[i] == []
    ensures (forall i :: 0 <= i < |asked| ==> Outstanding(was[i], fleet[i]) == 0) ==> AllOk(statuses)
  {
    assert forall i :: 0 <= i < |asked| ==> TurnOutcome(was[i], fleet[i], budgets[i], asked[i], statuses[i]);
  }

  lemma AllDrop(was: seq<set<U32>>, now: seq<set<U32>>, fleet: seq<Device>, budgets: seq<int>, asked: seq<seq<U32>>,
                statuses: seq<Status>)
    requires Grown(was, now, asked) && Outcomes(was, fleet, budgets, asked, statuses) && |asked| == |fleet|
    requires Unwrapped(was) && Steady(fleet)
    ensures Unwrapped(now)
    ensures forall i :: 0 <= i < |fleet| ==> now[i] + Range(fleet[i]) == was[i] + Range(fleet[i])
    ensures forall i :: 0 <= i < |fleet| ==> Outstanding(now[i], fleet[i]) == Outstanding(was[i], fleet[i]) - |asked[i]|
  {
    forall i | 0 <= i < |fleet|
      ensures Outstanding(now[i], fleet[i]) == Outstanding(was[i], fleet[i]) - |asked[i]|
      ensures now[i] + Range(fleet[i]) == was[i] + Range(fleet[i]) && MAX_UINT32 !in now[i]
    {
      assert TurnOutcome(was[i], fleet[i], budgets[i], asked[i], statuses[i]);
      OutstandingDrops(was[i], fleet[i], asked[i]);
      assert forall r :: r in Elements(asked[i]) ==> r in Range(fleet[i]);
      assert Responsive(fleet[i]);
    }
  }

  ghost predicate Complete(events: map<EventKey, Event>, fleet: seq<Device>) {
    forall i, x: U32 :: 0 <= i < |fleet| && InRange(fleet[i], x) ==> x in Held(events, fleet[i].id)
  }

  ghost function StillMissing(events: map<EventKey, Event>, fleet: seq<Device>): nat {
    TotalOutstanding(HeldBy(events, fleet), fleet)
  }

  method ProgressingRound(store: Events, fleet: seq<Device>, gaps: int, lookup: DeviceEvent -> Names)
    returns (statuses: seq<Status>)
    requires store.Valid() && Steady(fleet) && Unwrapped(HeldBy(store.events, fleet))
    modifies store
    ensures store.Valid() && Unwrapped(HeldBy(store.events, fleet))
    ensures KeptAndSourced(old(store.events), store.events, fleet, lookup)
    ensures Ample(HeldBy(store.events, fleet), fleet, gaps) <==> Ample(HeldBy(old(store.events), fleet), fleet, gaps)
    ensures AllOk(statuses) ==> store.events == old(store.events)
    ensures !AllOk(statuses) ==> StillMissing(store.events, fleet) < StillMissing(old(store.events), fleet)
    ensures Ample(HeldBy(old(store.events), fleet), fleet, gaps) ==>
              (AllOk(statuses) <==> StillMissing(old(store.events), fleet) == 0)
  {
    ghost var before := store.events;
    ghost var index, budgets, asked;
    statuses, index, budgets, asked := Round(store, fleet, gaps, lookup);
    RoundProgress(before, store.events, index, gaps, fleet, budgets, asked, statuses);
  }

  /** The budget is one counter for all the controllers, not one for each: here the first
      controller uses it up, and the second reads Ok although its event 2 is missing. */
  lemma SharedBudgetStarves(d: Device)
    requires d.id == 2 && d.first == 1 && d.last == 3
    ensures var index: map<U32, seq<U32>> := map[1 := [1, 3, 5, 7], 2 := [1, 3]];
            && Indexed(index)
            && BudgetAt(index, 2, [1, 2], 1) == 0
            && !Concerns(d, Report(index[2], 0))
            && Outstanding({1, 3}, d) > 0 && Screened({1, 3}, d, 0)
  {
    var a: seq<U32> := [1, 3, 5, 7];
    var index: map<U32, seq<U32>> := map[1 := a, 2 := [1, 3]];
    assert a[1..] == [3, 5, 7] && a[1..][1..] == [5, 7] && a[1..][1..][1..] == [7];
    assert Holes(a[1..][1..]) == [Interval(6, 6)];
    assert Holes(a[1..]) == [Interval(4, 4), Interval(6, 6)];
    assert Holes(a) == [Interval(2, 2), Interval(4, 4), Interval(6, 6)];
    assert BudgetAt(index, 2, [1, 2], 0) == 2;
    assert Report(index[2], 0) == [Interval(4, MAX_UINT32)];
    assert InRange(d, 2);
    assert 2 in Range(d) - {1, 3};
  }

  ghost predicate KeptAndSourced(before: map<EventKey, Event>, after: map<EventKey, Event>, fleet: seq<Device>,
                                 lookup: DeviceEvent -> Names) {
    Keeps(before, after) && Sourced(before, after, fleet, lookup)
  }

  lemma KeptTwice(a: map<EventKey, Event>, b: map<EventKey, Event>, c: map<EventKey, Event>, fleet: seq<Device>,
                  lookup: DeviceEvent -> Names)
    requires KeptAndSourced(a, b, fleet, lookup) && KeptAndSourced(b, c, fleet, lookup)
    ensures KeptAndSourced(a, c, fleet, lookup)
  {
    SourcedTwice(a, b, c, fleet, lookup);
  }

  /** Convergence: with a shared budget above the stray holes, n rounds leave at most the initial
      number of missing events less n, so that number of rounds completes every controller;
      events once stored are never lost or changed. */
  method Reconcile(store: Events, fleet: seq<Device>, gaps: int, lookup: DeviceEvent -> Names, n: nat)
    requires store.Valid() && Steady(fleet) && Unwrapped(HeldBy(store.events, fleet))
    requires Ample(HeldBy(store.events, fleet), fleet, gaps)
    modifies store
    ensures store.Valid() && Unwrapped(HeldBy(store.events, fleet))
    ensures StillMissing(store.events, fleet) <= Max(0, StillMissing(old(store.events), fleet) - n)
    ensures n >= StillMissing(old(store.events), fleet) ==> Complete(store.events, fleet)
    ensures KeptAndSourced(old(store.events), store.events, fleet, lookup)
  {
    ghost var before := store.events;
    for k := 0 to n
      invariant store.Valid() && Unwrapped(HeldBy(store.events, fleet))
                  && Ample(HeldBy(store.events, fleet), fleet, gaps)
      invariant StillMissing(store.events, fleet) <= Max(0, StillMissing(before, fleet) - k)
      invariant KeptAndSourced(before, store.events, fleet, lookup)
    {
      ghost var during := store.events;
      var statuses := ProgressingRound(store, fleet, gaps, lookup);
      KeptTwice(before, during, store.events, fleet, lookup);
    }
    NothingOutstanding(store.events, fleet);
  }

  lemma NothingOutstanding(events: map<EventKey, Event>, fleet: seq<Device>)
    requires Steady(fleet)
    ensures StillMissing(events, fleet) == 0 <==> Complete(events, fleet)
  {
    TotalZero(HeldBy(events, fleet), fleet);
    HeldByAt(events, fleet);
    forall i | 0 <= i < |fleet|
      ensures Outstanding(HeldBy(events, fleet)[i], fleet[i]) == 0
              <==> forall x: U32 :: InRange(fleet[i], x) ==> x in Held(events, fleet[i].id)
    {
      OutstandingZero(Held(events, fleet[i].id), fleet[i]);
    }
  }
  // ---- One controller, whatever is held and whatever the budget ----

  /** The only controller has the whole budget. */
  lemma OneAsked(index: map<U32, seq<U32>>, gaps: int, d: Device, budgets: seq<int>, asked: seq<seq<U32>>)
    requires Indexed(index) && |budgets| == 1 && Budgets(index, gaps, Ids([d]), budgets)
    requires asked == CalledFor(index, [d], budgets)
    ensures budgets == [gaps] && asked == [Requests(d, Report(ListOf(index, d.id), gaps))]
  {
    assert budgets[0] == BudgetAt(index, gaps, Ids([d]), 0) == gaps;
    assert budgets == [] + [gaps];
    CalledForStep(index, [d], [], gaps);
  }

  lemma OneRound(before: map<EventKey, Event>, after: map<EventKey, Event>, index: map<U32, seq<U32>>, gaps: int,
                 d: Device, budgets: seq<int>, asked: seq<seq<U32>>, statuses: seq<Status>)
    requires IndexOf(index, before) && Responsive(d) && MAX_UINT32 !in Held(before, d.id)
    requires budgets == [gaps] && asked == [Requests(d, Report(ListOf(index, d.id), gaps))]
    requires RoundSoFar(before, after, [d], budgets, asked, statuses) && |statuses| == 1
    ensures var was, now := Held(before, d.id), Held(after, d.id);
            && (statuses[0] == StatusOk <==> Range(d) <= was || Screened(was, d, gaps))
            && (Converges(now, d, gaps) <==> Converges(was, d, gaps))
  {
    var was := Held(before, d.id);
    HeldByAt(before, [d]);
    HeldByAt(after, [d]);
    assert TurnOutcome(HeldBy(before, [d])[0], [d][0], budgets[0], asked[0], statuses[0]);
    OutstandingZero(was, d);
    ListIsHeld(before, index, d.id);
    ConvergesIsKept(was, ListOf(index, d.id), d, gaps);
  }

  /** What one round makes of one controller's events. */
  ghost predicate OneOutcome(before: map<EventKey, Event>, after: map<EventKey, Event>, d: Device, gaps: int,
                             status: Status) {
    && Keeps(before, after) && MAX_UINT32 !in Held(after, d.id)
    && (status == StatusOk <==> Range(d) <= Held(before, d.id) || Screened(Held(before, d.id), d, gaps))
    && (Converges(Held(after, d.id), d, gaps) <==> Converges(Held(before, d.id), d, gaps))
    && (if status == StatusOk then after == before else StillMissing(after, [d]) < StillMissing(before, [d]))
  }

  lemma OneProgress(before: map<EventKey, Event>, after: map<EventKey, Event>, index: map<U32, seq<U32>>, gaps: int,
                    d: Device, budgets: seq<int>, asked: seq<seq<U32>>, statuses: seq<Status>)
    requires IndexOf(index, before) && Responsive(d) && MAX_UINT32 !in Held(before, d.id)
    requires Budgets(index, gaps, Ids([d]), budgets)
    requires RoundSoFar(before, after, [d], budgets, asked, statuses) && |statuses| == 1
    ensures Keeps(before, after) && MAX_UINT32 !in Held(after, d.id)
    ensures if statuses[0] == StatusOk then after == before
            else StillMissing(after, [d]) < StillMissing(before, [d])
  {
    HeldByAt(before, [d]);
    RoundProgress(before, after, index, gaps, [d], budgets, asked, statuses);
    HeldByAt(after, [d]);
    assert AllOk(statuses) <==> statuses[0] == StatusOk;
  }

  lemma OneRoundOutcome(before: map<EventKey, Event>, after: map<EventKey, Event>, index: map<U32, seq<U32>>, gaps: int,
                        d: Device, budgets: seq<int>, asked: seq<seq<U32>>, statuses: seq<Status>)
    requires IndexOf(index, before) && Responsive(d) && MAX_UINT32 !in Held(before, d.id)
    requires |budgets| == 1 && Budgets(index, gaps, Ids([d]), budgets) && asked == CalledFor(index, [d], budgets)
    requires RoundSoFar(before, after, [d], budgets, asked, statuses) && |statuses| == 1
    ensures OneOutcome(before, after, d, gaps, statuses[0])
  {
    OneAsked(index, gaps, d, budgets, asked);
    OneRound(before, after, index, gaps, d, budgets, asked, statuses);
    OneProgress(before, after, index, gaps, d, budgets, asked, statuses);
  }

  /** One round for one controller, whatever is held and whatever the budget. */
  method RoundOfOne(store: Events, d: Device, gaps: int, lookup: DeviceEvent -> Names) returns (status: Status)
    requires store.Valid() && Responsive(d) && MAX_UINT32 !in Held(store.events, d.id)
    modifies store
    ensures store.Valid() && OneOutcome(old(store.events), store.events, d, gaps, status)
    ensures Sourced(old(store.events), store.events, [d], lookup)
  {
    ghost var before := store.events;
    HeldByAt(before, [d]);
    ghost var index, budgets, asked;
    var statuses;
    statuses, index, budgets, asked := Round(store, [d], gaps, lookup);
    OneRoundOutcome(before, store.events, index, gaps, d, budgets, asked, statuses);
    status := statuses[0];
  }

  /** After k rounds for one controller. */
  ghost predicate OneSoFar(before: map<EventKey, Event>, now: map<EventKey, Event>, d: Device, gaps: int, k: nat) {
    && Keeps(before, now)
    && (Converges(Held(now, d.id), d, gaps) <==> Converges(Held(before, d.id), d, gaps))
    && (Converges(Held(before, d.id), d, gaps) ==>
          StillMissing(now, [d]) == 0 || StillMissing(now, [d]) + k <= StillMissing(before, [d]))
  }

  lemma OneStep(before: map<EventKey, Event>, during: map<EventKey, Event>, now: map<EventKey, Event>, d: Device,
                gaps: int, k: nat, status: Status)
    requires Responsive(d) && OneSoFar(before, during, d, gaps, k) && OneOutcome(during, now, d, gaps, status)
    ensures OneSoFar(before, now, d, gaps, k + 1)
  {
    if Converges(Held(before, d.id), d, gaps) {
      ConvergingRound(during, d, gaps, status);
    }
  }

  /** The condition is exact: whatever is held and whatever the budget, enough rounds complete the
      controller if and only if the condition holds at the start; if it does not, no number of
      rounds does. */
  method ReconcileOne(store: Events, d: Device, gaps: int, lookup: DeviceEvent -> Names, n: nat)
    requires store.Valid() && Responsive(d) && MAX_UINT32 !in Held(store.events, d.id)
    modifies store
    ensures store.Valid() && Keeps(old(store.events), store.events)
    ensures Sourced(old(store.events), store.events, [d], lookup)
    ensures Converges(Held(old(store.events), d.id), d, gaps) && n >= Outstanding(Held(old(store.events), d.id), d) ==>
              Complete(store.events, [d])
    ensures !Converges(Held(old(store.events), d.id), d, gaps) ==> !Complete(store.events, [d])
  {
    ghost var before := store.events;
    for k := 0 to n
      invariant store.Valid() && MAX_UINT32 !in Held(store.events, d.id)
      invariant OneSoFar(before, store.events, d, gaps, k)
      invariant Sourced(before, store.events, [d], lookup)
    {
      ghost var during := store.events;
      var status := RoundOfOne(store, d, gaps, lookup);
      OneStep(before, during, store.events, d, gaps, k, status);
      SourcedTwice(before, during, store.events, [d], lookup);
    }
    StillMissingOne(before, d);
    OneComplete(store.events, d, gaps);
  }

  lemma StillMissingOne(events: map<EventKey, Event>, d: Device)
    ensures StillMissing(events, [d]) == Outstanding(Held(events, d.id), d)
  {
    HeldByAt(events, [d]);
    assert TotalOutstanding(HeldBy(events, [d])[1..], [d][1..]) == 0;
  }

  lemma ConvergingRound(events: map<EventKey, Event>, d: Device, gaps: int, status: Status)
    requires Responsive(d) && Converges(Held(events, d.id), d, gaps)
    requires status == StatusOk <==> Range(d) <= Held(events, d.id) || Screened(Held(events, d.id), d, gaps)
    ensures status == StatusOk <==> StillMissing(events, [d]) == 0
  {
    StillMissingOne(events, d);
    OutstandingZero(Held(events, d.id), d);
    if !(Range(d) <= Held(events, d.id)) {
      ConvergingIsNotScreened(Held(events, d.id), d, gaps);
    }
  }

  lemma OneComplete(events: map<EventKey, Event>, d: Device, gaps: int)
    requires Responsive(d)
    ensures StillMissing(events, [d]) == 0 <==> Complete(events, [d])
    ensures Complete(events, [d]) ==> Converges(Held(events, d.id), d, gaps)
  {
    NothingOutstanding(events, [d]);
    StillMissingOne(events, d);
    OutstandingZero(Held(events, d.id), d);
  }

  /** After the controller's log has rolled over: both units of budget go on holes below its first
      event, the status reads Ok with nine events missing, and no number of rounds fetches them. */
  lemma RolledOverLogStarves(d: Device)
    requires d.first == 10 && d.last == 20
    ensures var l: seq<U32> := [1, 3, 5, 10, 20];
            && Ascending(l) && !Concerns(d, Report(l, 2))
            && InRange(d, 11) && 11 !in l && !Converges(Elements(l), d, 2)
  {
    var l: seq<U32> := [1, 3, 5, 10, 20];
    var held := Elements(l);
    FiveHeld(l);
    ThreeHoles(held, d);
    QuietExactly(held, l, d, 2);
    StaysStarved(held, d);
  }

  lemma StaysStarved(held: set<U32>, d: Device)
    requires d.first == 10 && d.last == 20 && held == {1, 3, 5, 10, 20}
    ensures InRange(d, 11) && 11 !in held && !Converges(held, d, 2)
  {
    ThreeHoles(held, d);
    ElevenIsLeft(held, d);
    DoesNotConverge(held, d, 2);
  }

  lemma DoesNotConverge(held: set<U32>, d: Device, gaps: int)
    requires d.first <= d.last && 0 <= gaps < |HolesBelow(held, d.first)| && Left(held, d) != {}
    ensures !Converges(held, d, gaps)
  {
    HolesBelowUnder(held, d);
  }

  lemma FiveHeld(l: seq<U32>)
    requires l == [1, 3, 5, 10, 20]
    ensures Lists(l, Elements(l)) && Elements(l) == {1, 3, 5, 10, 20}
  {
    assert Ascending(l);
    assert forall x: U32 :: x in l <==> x in {1, 3, 5, 10, 20};
  }

  lemma ElevenIsLeft(held: set<U32>, d: Device)
    requires d.first == 10 && d.last == 20 && held == {1, 3, 5, 10, 20}
    ensures Left(held, d) != {}
  {
    var eleven: U32 := 11;
    assert InRange(d, eleven) && eleven in Range(d);
    assert 20 in held && !Above(held, eleven);
    assert eleven in Left(held, d);
  }

  lemma ThreeHoles(held: set<U32>, d: Device)
    requires d.first == 10 && d.last == 20 && held == {1, 3, 5, 10, 20}
    ensures |HolesBelow(held, 10)| >= 3 && Screened(held, d, 2)
  {
    assert Followed(held, 1, 10) && Followed(held, 3, 10) && Followed(held, 5, 10) by {
      assert 10 in held;
    }
    var three: set<U32> := {1, 3, 5};
    assert three <= HolesBelow(held, 10);
    SubsetSize(three, HolesBelow(held, 10));
    assert 1 in held && 20 in held;
  }
}
