/** Retrieving a bounded batch of the missing events from one controller. */
module EventFetch {
  import opened Common
  import opened Gaps
  import opened EventStore

  /** Number of events after which the two descending branches stop asking. */
  const MAX: int := 100

  datatype Status = StatusOk | StatusIncomplete

  /** A controller's answer to one request: no answer, no such event, or an event. */
  datatype Reply = Failed | Absent | Found(event: DeviceEvent)

  /** A controller as seen during one batch: the range of events it holds, and its answers
      (no answer for an index that is not listed). */
  datatype Device = Device(id: U32, first: U32, last: U32, replies: map<U32, Reply>)

  predicate Relevant(d: Device, i: Interval) {
    i.Contains(d.last) || i.Contains(d.first) || (i.from >= d.first && i.to <= d.last)
  }

  ghost predicate Concerns(d: Device, intervals: seq<Interval>) {
    exists k :: 0 <= k < |intervals| && Relevant(d, intervals[k])
  }

  /** The events collected so far, after one more request. */
  function Collect(d: Device, events: seq<DeviceEvent>, index: U32): seq<DeviceEvent> {
    match if index in d.replies then d.replies[index] else Failed
    case Failed => events
    case Absent => events + [DeviceEvent(d.id, index, 0, 0, 0, 0, 0, false, 0)]
    case Found(e) => events + [e.(deviceID := d.id)]
  }

  function Answers(d: Device, indices: seq<U32>): seq<DeviceEvent> {
    if indices == [] then [] else Collect(d, Answers(d, indices[..|indices| - 1]), indices[|indices| - 1])
  }

  // ---- What a batch holds ----

  /** What is handed on for request r: the controller's own event with every field as it was
      answered, or a blank one when the controller says that it has none. */
  ghost predicate IsReply(d: Device, r: U32, e: DeviceEvent) {
    r in d.replies &&
    match d.replies[r]
    case Failed => false
    case Absent => e == DeviceEvent(d.id, r, 0, 0, 0, 0, 0, false, 0)
    case Found(f) =>
      && e.deviceID == d.id && e.index == f.index && e.timestamp == f.timestamp && e.kind == f.kind
      && e.door == f.door && e.direction == f.direction && e.card == f.card && e.granted == f.granted
      && e.reason == f.reason
  }

  /** One event for each request that was answered and no other, in the order of the requests;
      `at` are the positions of those requests. */
  ghost predicate RepliesTo(d: Device, rs: seq<U32>, events: seq<DeviceEvent>, at: seq<int>) {
    && |at| == |events|
    && (forall i :: 0 <= i < |at| ==> 0 <= at[i] < |rs| && IsReply(d, rs[at[i]], events[i]))
    && (forall i, j :: 0 <= i < j < |at| ==> at[i] < at[j])
    && (forall p :: 0 <= p < |rs| && rs[p] in d.replies && !d.replies[rs[p]].Failed? ==> p in at)
  }

  lemma {:induction false} AnswersAreReplies(d: Device, rs: seq<U32>) returns (at: seq<int>)
    ensures RepliesTo(d, rs, Answers(d, rs), at)
  {
    at := [];
    if rs != [] {
      var n := |rs| - 1;
      var before := AnswersAreReplies(d, rs[..n]);
      at := before;
      if rs[n] in d.replies && !d.replies[rs[n]].Failed? {
        at := before + [n];
        assert at[|before|] == n;
      }
      forall p | 0 <= p < |rs| && rs[p] in d.replies && !d.replies[rs[p]].Failed? ensures p in at {
        if p < n {
          assert rs[..n][p] == rs[p] && p in before;
        }
      }
    }
  }

  // ---- Which events are asked for ----

  /** The n indices hi, hi - 1, ... */
  function Down(hi: U32, n: nat): (r: seq<U32>)
    requires n <= hi + 1
    ensures |r| == n && forall k :: 0 <= k < n ==> r[k] == hi - k
  {
    if n == 0 then [] else Down(hi, n - 1) + [hi - (n - 1)]
  }

  /** The n indices lo, lo + 1, ... */
  function Up(lo: U32, n: nat): (r: seq<U32>)
    requires lo + n <= 0x1_0000_0000
    ensures |r| == n && forall k :: 0 <= k < n ==> r[k] == lo + k
  {
    if n == 0 then [] else Up(lo, n - 1) + [lo + (n - 1)]
  }

  function Span(lo: U32, hi: U32): (n: nat)
    ensures lo + n <= 0x1_0000_0000
  {
    if hi < lo then 0 else hi - lo + 1
  }

  /** How many of hi, hi - 1, ... lo are asked for after `asked` earlier requests. */
  function Capped(hi: U32, lo: U32, asked: nat): (n: nat)
    ensures n <= hi + 1
  {
    Max(0, Min(MAX - asked, Span(lo, hi)))
  }

  /** The requests made for one interval after `asked` earlier ones. */
  function Batch(d: Device, i: Interval, asked: nat): seq<U32> {
    if i.Contains(d.last) then Down(d.last, Capped(d.last, Max(i.from, d.first), asked))
    else if i.Contains(d.first) then Down(Min(i.to, d.last), Capped(Min(i.to, d.last), d.first, asked))
    else if i.from >= d.first && i.to <= d.last then Up(i.from, Span(i.from, i.to))
    else []
  }

  /** All the requests made: each interval's batch depends on how many went before. */
  function Requests(d: Device, intervals: seq<Interval>): seq<U32> {
    if intervals == [] then []
    else
      var sent := Requests(d, intervals[..|intervals| - 1]);
      sent + Batch(d, intervals[|intervals| - 1], |sent|)
  }

  // ---- The loops ----

  lemma DownStep(d: Device, sent: seq<U32>, hi: U32, n: nat)
    requires n <= hi
    ensures Answers(d, sent + Down(hi, n + 1)) == Collect(d, Answers(d, sent + Down(hi, n)), hi - n)
  {
    var next := sent + Down(hi, n + 1);
    assert next[..|next| - 1] == sent + Down(hi, n);
  }

  lemma UpStep(d: Device, sent: seq<U32>, lo: U32, n: nat)
    requires lo + n <= MAX_UINT32
    ensures Answers(d, sent + Up(lo, n + 1)) == Collect(d, Answers(d, sent + Up(lo, n)), lo + n)
  {
    var next := sent + Up(lo, n + 1);
    assert next[..|next| - 1] == sent + Up(lo, n);
  }

  /** Asks for hi, hi - 1, ...; the break at zero keeps the unsigned index from wrapping. */
  method FetchDown(d: Device, hi: U32, lo: U32, ghost sent: seq<U32>, asked: nat, events: seq<DeviceEvent>)
    returns (count: nat, fetched: seq<DeviceEvent>)
    requires events == Answers(d, sent)
    ensures count == asked + Capped(hi, lo, asked)
    ensures fetched == Answers(d, sent + Down(hi, Capped(hi, lo, asked)))
  {
    count, fetched := asked, events;
    var index := hi;
    ghost var n: nat := 0;
    assert sent + Down(hi, 0) == sent;
    while index >= lo && count < MAX
      invariant n <= Capped(hi, lo, asked)
      invariant count == asked + n && index == hi - n
      invariant fetched == Answers(d, sent + Down(hi, n))
      decreases index
    {
      DownStep(d, sent, hi, n);
      fetched := Collect(d, fetched, index);
      count, n := count + 1, n + 1;
      if index == 0 {
        break;
      }
      index := Sub32(index, 1);
    }
    assert n == Capped(hi, lo, asked);
  }

  /** Asks for lo, lo + 1, ... hi; the caller's guard keeps the unsigned index from wrapping. */
  method FetchUp(d: Device, lo: U32, hi: U32, ghost sent: seq<U32>, asked: nat, events: seq<DeviceEvent>)
    returns (count: nat, fetched: seq<DeviceEvent>)
    requires lo <= hi ==> hi < MAX_UINT32
    requires events == Answers(d, sent)
    ensures count == asked + Span(lo, hi)
    ensures fetched == Answers(d, sent + Up(lo, Span(lo, hi)))
  {
    count, fetched := asked, events;
    var index := lo;
    ghost var n: nat := 0;
    assert sent + Up(lo, 0) == sent;
    while index <= hi
      invariant n <= Span(lo, hi)
      invariant count == asked + n && index == lo + n
      invariant fetched == Answers(d, sent + Up(lo, n))
      decreases hi - index
    {
      UpStep(d, sent, lo, n);
      fetched := Collect(d, fetched, index);
      count, n := count + 1, n + 1;
      index := Add32(index, 1);
    }
    assert n == Span(lo, hi);
  }

  method FetchInterval(d: Device, i: Interval, ghost sent: seq<U32>, asked: nat, events: seq<DeviceEvent>)
    returns (count: nat, fetched: seq<DeviceEvent>)
    requires events == Answers(d, sent)
    ensures count == asked + |Batch(d, i, asked)|
    ensures fetched == Answers(d, sent + Batch(d, i, asked))
  {
    if i.Contains(d.last) {
      count, fetched := FetchDown(d, d.last, Max(i.from, d.first), sent, asked, events);
    } else if i.Contains(d.first) {
      count, fetched := FetchDown(d, Min(i.to, d.last), d.first, sent, asked, events);
    } else if i.from >= d.first && i.to <= d.last {
      count, fetched := FetchUp(d, i.from, i.to, sent, asked, events);
    } else {
      count, fetched := asked, events;
      assert sent + [] == sent;
    }
  }

  method EventsStatus(d: Device, intervals: seq<Interval>) returns (status: Status)
    ensures status == StatusIncomplete <==> Concerns(d, intervals)
  {
    status := StatusOk;
    var k := 0;
    while k < |intervals|
      invariant 0 <= k <= |intervals|
      invariant status == StatusOk && forall n :: 0 <= n < k ==> !Relevant(d, intervals[n])
    {
      if Relevant(d, intervals[k]) {
        status := StatusIncomplete;
        break;
      }
      k := k + 1;
    }
  }

  lemma RequestsStep(d: Device, intervals: seq<Interval>, k: nat)
    requires k < |intervals|
    ensures var sent := Requests(d, intervals[..k]);
            Requests(d, intervals[..k + 1]) == sent + Batch(d, intervals[k], |sent|)
  {
    assert intervals[..k + 1][..k] == intervals[..k];
  }

  method FetchAll(d: Device, intervals: seq<Interval>) returns (events: seq<DeviceEvent>)
    ensures events == Answers(d, Requests(d, intervals))
  {
    var count: nat, k := 0, 0;
    events := [];
    while k < |intervals|
      invariant 0 <= k <= |intervals|
      invariant count == |Requests(d, intervals[..k])|
      invariant events == Answers(d, Requests(d, intervals[..k]))
    {
      RequestsStep(d, intervals, k);
      count, events := FetchInterval(d, intervals[k], Requests(d, intervals[..k]), count, events);
      k := k + 1;
    }
    assert intervals[..k] == intervals;
  }

  method GetEvents(d: Device, intervals: seq<Interval>)
    returns (status: Status, events: seq<DeviceEvent>, ghost at: seq<int>)
    ensures status == StatusIncomplete <==> Concerns(d, intervals)
    ensures events == Answers(d, Requests(d, intervals))
    ensures RepliesTo(d, Requests(d, intervals), events, at)
  {
    status := EventsStatus(d, intervals);
    events := FetchAll(d, intervals);
    at := AnswersAreReplies(d, Requests(d, intervals));
  }

  // ---- What is asked for ----

  /** The first two branches never take the count past MAX; the third is not capped. */
  lemma BatchSound(d: Device, i: Interval, asked: nat)
    ensures Distinct(Batch(d, i, asked))
    ensures forall r :: r in Batch(d, i, asked) ==> d.first <= r <= d.last && i.Contains(r)
    ensures i.Contains(d.last) || i.Contains(d.first) ==> asked + |Batch(d, i, asked)| <= Max(asked, MAX)
    ensures !i.Contains(d.last) && !i.Contains(d.first) && d.first <= i.from <= i.to <= d.last ==>
              forall r: U32 :: i.Contains(r) ==> r in Batch(d, i, asked)
  {
    if !i.Contains(d.last) && !i.Contains(d.first) && d.first <= i.from <= i.to <= d.last {
      forall r: U32 | i.Contains(r) ensures r in Batch(d, i, asked) {
        assert Batch(d, i, asked)[r - i.from] == r;
      }
    }
  }

  /** Every request is for an event in the controller's range and in one of the intervals,
      and, when the intervals are disjoint, no event is asked for twice. */
  lemma {:induction false} RequestsSound(d: Device, intervals: seq<Interval>)
    ensures forall r :: r in Requests(d, intervals) ==> d.first <= r <= d.last && Covered(intervals, r)
    ensures Disjoint(intervals) ==> Distinct(Requests(d, intervals))
  {
    if intervals != [] {
      var n := |intervals| - 1;
      var sent := Requests(d, intervals[..n]);
      var batch := Batch(d, intervals[n], |sent|);
      RequestsSound(d, intervals[..n]);
      BatchSound(d, intervals[n], |sent|);
      forall r | r in sent ensures exists k :: 0 <= k < n && intervals[k].Contains(r) {
        var k :| 0 <= k < |intervals[..n]| && intervals[..n][k].Contains(r);
        assert intervals[k].Contains(r);
      }
      forall r | r in batch ensures intervals[n].Contains(r) {}
      if Disjoint(intervals) {
        assert Disjoint(intervals[..n]);
        assert forall a, b :: a in sent && b in batch ==> a != b;
        DistinctConcat(sent, batch);
      }
    }
  }

  lemma DistinctConcat<T(!new)>(a: seq<T>, b: seq<T>)
    requires Distinct(a) && Distinct(b)
    requires forall x, y :: x in a && y in b ==> x != y
    ensures Distinct(a + b)
  {
    forall i, j | 0 <= i < j < |a + b| ensures (a + b)[i] != (a + b)[j] {
      if i < |a| <= j {
        assert (a + b)[i] in a && (a + b)[j] in b;
      }
    }
  }

  lemma BatchProgress(d: Device, i: Interval)
    requires d.first <= d.last && i.from <= i.to
    ensures Batch(d, i, 0) != [] <==> Relevant(d, i)
  {
  }

  lemma ConcernsStep(d: Device, intervals: seq<Interval>)
    requires intervals != []
    ensures Concerns(d, intervals) <==>
              Concerns(d, intervals[..|intervals| - 1]) || Relevant(d, intervals[|intervals| - 1])
  {
    var front := intervals[..|intervals| - 1];
    assert forall k :: 0 <= k < |front| ==> front[k] == intervals[k];
    if Concerns(d, front) {
      var k :| 0 <= k < |front| && Relevant(d, front[k]);
      assert Relevant(d, intervals[k]);
    }
  }

  /** Something is asked for whenever some nonempty interval concerns the controller. */
  lemma {:induction false} RequestsProgress(d: Device, intervals: seq<Interval>)
    requires d.first <= d.last && Nonempty(intervals)
    ensures Requests(d, intervals) != [] <==> Concerns(d, intervals)
  {
    if intervals != [] {
      var n := |intervals| - 1;
      RequestsProgress(d, intervals[..n]);
      ConcernsStep(d, intervals);
      BatchProgress(d, intervals[n]);
    }
  }
}
