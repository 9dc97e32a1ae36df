/** The server's sparse set of controller events, with its two caches: the sorted event
    indices of each controller, and the page index in descending order of timestamp. */
module EventStore {
  import opened Common
  import opened Gaps
  import opened Sorting

  datatype EventKey = EventKey(deviceID: U32, index: U32)

  /** Timestamps are counted in nanoseconds. */
  datatype DeviceEvent = DeviceEvent(deviceID: U32, index: U32, timestamp: int, kind: int, door: int, direction: int,
                                     card: U32, granted: bool, reason: int)

  datatype Names = Names(device: string, door: string, card: string)

  datatype Event = Event(record: DeviceEvent, names: Names)

  datatype ObjectKey = ObjectKey(key: EventKey, timestamp: int)

  const SECOND: int := 1_000_000_000

  /** time.Round(time.Second): halfway values round up. */
  function RoundToSecond(t: int): int {
    (t + SECOND / 2) / SECOND * SECOND
  }

  /** A whole number of seconds, off by at most half of one. */
  lemma RoundedIsNear(t: int)
    ensures RoundToSecond(t) % SECOND == 0 && t - SECOND / 2 < RoundToSecond(t) <= t + SECOND / 2
  {
    var n := (t + SECOND / 2) / SECOND;
    assert n * SECOND <= t + SECOND / 2 < n * SECOND + SECOND;
    assert n * SECOND % SECOND == 0;
  }

  // ---- What the caches should hold ----

  function Held(events: map<EventKey, Event>, device: U32): set<U32> {
    set k | k in events && k.deviceID == device :: k.index
  }

  function Devices(events: map<EventKey, Event>): set<U32> {
    set k | k in events :: k.deviceID
  }

  ghost predicate Lists(l: seq<U32>, s: set<U32>) {
    Ascending(l) && forall x: U32 :: x in l <==> x in s
  }

  /** There is only one ascending list of a set, so a cached list is as good as a new one. */
  lemma {:induction false} ListingIsUnique(a: seq<U32>, b: seq<U32>)
    requires Ascending(a) && Ascending(b)
    requires forall x: U32 :: x in a <==> x in b
    ensures a == b
  {
    if b != [] {
      assert b[0] in a;
    }
    if a != [] {
      assert a[0] in b;
      assert b[0] in a;
      assert a[0] == b[0];
      forall x: U32 ensures x in a[1..] <==> x in b[1..] {
        if x in a[1..] { assert x in b && x != b[0]; }
        if x in b[1..] { assert x in a && x != a[0]; }
      }
      ListingIsUnique(a[1..], b[1..]);
    }
  }

  /** A clean index cache: for each controller exactly its held indices, strictly ascending. */
  ghost predicate IndexOf(index: map<U32, seq<U32>>, events: map<EventKey, Event>) {
    index.Keys == Devices(events) && forall d :: d in index ==> Lists(index[d], Held(events, d))
  }

  lemma IndexIsUnique(a: map<U32, seq<U32>>, b: map<U32, seq<U32>>, events: map<EventKey, Event>)
    requires IndexOf(a, events) && IndexOf(b, events)
    ensures a == b
  {
    forall d | d in a ensures a[d] == b[d] {
      assert d in b;
      ListingIsUnique(a[d], b[d]);
    }
  }

  function PageKey(events: map<EventKey, Event>, k: EventKey): ObjectKey
    requires k in events
  {
    ObjectKey(k, RoundToSecond(events[k].record.timestamp))
  }

  /** A clean object cache: every event exactly once, latest first. */
  ghost predicate PagesOf(pages: seq<ObjectKey>, events: map<EventKey, Event>) {
    && multiset(pages) == multiset(set k | k in events :: PageKey(events, k))
    && forall i, j :: 0 <= i < j < |pages| ==> pages[i].timestamp >= pages[j].timestamp
  }

  ghost predicate WellKeyed(events: map<EventKey, Event>) {
    forall k :: k in events ==> k == EventKey(events[k].record.deviceID, events[k].record.index)
  }

  // ---- What the operations compute ----

  function ListOf(index: map<U32, seq<U32>>, device: U32): seq<U32> {
    if device in index then index[device] else []
  }

  function Append(m: map<U32, seq<Interval>>, c: U32, intervals: seq<Interval>): map<U32, seq<Interval>> {
    m[c := (if c in m then m[c] else []) + intervals]
  }

  ghost predicate Indexed(index: map<U32, seq<U32>>) {
    forall d :: d in index ==> Ascending(index[d])
  }

  /** The missing intervals of each controller; one gap budget is shared by all of them. */
  function Plan(index: map<U32, seq<U32>>, gaps: int, controllers: seq<U32>, planned: map<U32, seq<Interval>>)
    : map<U32, seq<Interval>>
    requires Indexed(index)
    decreases |controllers|
  {
    if controllers == [] then planned
    else
      var l := ListOf(index, controllers[0]);
      var inner := Taken(Holes(l), gaps);
      Plan(index, gaps - |inner|, controllers[1..], Append(planned, controllers[0], Report(l, gaps)))
  }

  function KeyOf(e: Event): EventKey {
    EventKey(e.record.deviceID, e.record.index)
  }

  /** Events are added up to the first duplicate key. */
  function LoadAll(events: map<EventKey, Event>, saved: seq<Event>): (map<EventKey, Event>, bool)
    decreases |saved|
  {
    if saved == [] then (events, true)
    else if KeyOf(saved[0]) in events then (events, false)
    else LoadAll(events[KeyOf(saved[0]) := saved[0]], saved[1..])
  }

  /** No saved key is repeated or already held. */
  ghost predicate NewKeys(keys: set<EventKey>, saved: seq<Event>) {
    && (forall i :: 0 <= i < |saved| ==> KeyOf(saved[i]) !in keys)
    && (forall i, j :: 0 <= i < j < |saved| ==> KeyOf(saved[i]) != KeyOf(saved[j]))
  }

  lemma NewKeysStep(keys: set<EventKey>, saved: seq<Event>)
    requires saved != []
    ensures var k := KeyOf(saved[0]);
            NewKeys(keys, saved) <==> k !in keys && NewKeys(keys + {k}, saved[1..])
  {
    var k, rest := KeyOf(saved[0]), saved[1..];
    assert forall i :: 1 <= i < |saved| ==> saved[i] == rest[i - 1];
    if k !in keys && NewKeys(keys + {k}, rest) {
      forall i | 1 <= i < |saved| ensures KeyOf(saved[i]) != k && KeyOf(saved[i]) !in keys {
        assert KeyOf(rest[i - 1]) !in keys + {k};
      }
      forall i, j | 1 <= i < j < |saved| ensures KeyOf(saved[i]) != KeyOf(saved[j]) {
        assert KeyOf(rest[i - 1]) != KeyOf(rest[j - 1]);
      }
    }
  }

  /** A load succeeds exactly when no saved key is repeated or already held. */
  lemma {:induction false} LoadSucceeds(events: map<EventKey, Event>, saved: seq<Event>)
    ensures LoadAll(events, saved).1 <==> NewKeys(events.Keys, saved)
    decreases |saved|
  {
    if saved != [] {
      var k := KeyOf(saved[0]);
      NewKeysStep(events.Keys, saved);
      if k !in events {
        LoadSucceeds(events[k := saved[0]], saved[1..]);
        assert events[k := saved[0]].Keys == events.Keys + {k};
      }
    }
  }

  /** The first n saved events have been added, each as it was saved and under its own controller
      and index, and nothing else. */
  ghost predicate LoadedUpTo(before: map<EventKey, Event>, after: map<EventKey, Event>, saved: seq<Event>, n: nat) {
    && n <= |saved|
    && (forall k :: k in before ==> k in after && after[k] == before[k])
    && (forall i :: 0 <= i < n ==>
          var k := EventKey(saved[i].record.deviceID, saved[i].record.index);
          k !in before && k in after && after[k] == saved[i])
    && (forall k :: k in after && k !in before ==> exists i :: 0 <= i < n && after[k] == saved[i])
  }

  /** What a load leaves: all of the saved events, or those before the first whose controller and
      index are held by then. */
  lemma {:induction false} LoadIsPrefix(events: map<EventKey, Event>, saved: seq<Event>) returns (n: nat)
    ensures LoadedUpTo(events, LoadAll(events, saved).0, saved, n)
    ensures LoadAll(events, saved).1 <==> n == |saved|
    ensures n < |saved| ==>
              EventKey(saved[n].record.deviceID, saved[n].record.index) in LoadAll(events, saved).0
    decreases |saved|
  {
    if saved == [] || KeyOf(saved[0]) in events {
      n := 0;
    } else {
      var k, rest := KeyOf(saved[0]), saved[1..];
      var next := events[k := saved[0]];
      var m := LoadIsPrefix(next, rest);
      n := m + 1;
      var loaded := LoadAll(events, saved).0;
      assert loaded == LoadAll(next, rest).0;
      assert k in next && loaded[k] == saved[0];
      forall i | 0 <= i < n
        ensures var x := EventKey(saved[i].record.deviceID, saved[i].record.index);
                x !in events && x in loaded && loaded[x] == saved[i]
      {
        assert i > 0 ==> saved[i] == rest[i - 1];
      }
      forall x | x in loaded && x !in events ensures exists i :: 0 <= i < n && loaded[x] == saved[i] {
        if x == k {
          assert loaded[x] == saved[0];
        } else {
          var i :| 0 <= i < m && loaded[x] == rest[i];
          assert loaded[x] == saved[i + 1];
        }
      }
      forall x | x in events ensures x in loaded && loaded[x] == events[x] {
        assert x in next;
      }
    }
  }

  lemma {:induction false} LoadKeeps(events: map<EventKey, Event>, saved: seq<Event>)
    ensures var loaded := LoadAll(events, saved).0;
            && events.Keys <= loaded.Keys
            && (forall k :: k in events ==> loaded[k] == events[k])
            && (WellKeyed(events) ==> WellKeyed(loaded))
    decreases |saved|
  {
    if saved != [] && KeyOf(saved[0]) !in events {
      LoadKeeps(events[KeyOf(saved[0]) := saved[0]], saved[1..]);
    }
  }

  /** A load adds nothing exactly when there is nothing to load or the first key is held. */
  lemma LoadAdds(events: map<EventKey, Event>, saved: seq<Event>)
    ensures LoadAll(events, saved).0 == events <==> saved == [] || KeyOf(saved[0]) in events
  {
    if saved != [] && KeyOf(saved[0]) !in events {
      LoadKeeps(events[KeyOf(saved[0]) := saved[0]], saved[1..]);
      assert KeyOf(saved[0]) in LoadAll(events, saved).0;
    }
  }

  /** An index or a page list cannot be right for two sets of events that differ in a key. */
  lemma CachesDetermineKeys(index: map<U32, seq<U32>>, pages: seq<ObjectKey>, a: map<EventKey, Event>, b: map<EventKey,
                            Event>)
    requires (IndexOf(index, a) && IndexOf(index, b)) || (PagesOf(pages, a) && PagesOf(pages, b))
    ensures a.Keys == b.Keys
  {
    if IndexOf(index, a) && IndexOf(index, b) {
      IndexHolds(index, a);
      IndexHolds(index, b);
    } else {
      PagesHold(pages, a);
      PagesHold(pages, b);
    }
  }

  lemma IndexHolds(index: map<U32, seq<U32>>, events: map<EventKey, Event>)
    requires IndexOf(index, events)
    ensures forall k :: k in events <==> k.deviceID in index && k.index in index[k.deviceID]
  {
    forall k: EventKey | k.deviceID in index && k.index in index[k.deviceID] ensures k in events {
      assert k.index in Held(events, k.deviceID);
    }
    forall k | k in events ensures k.deviceID in index && k.index in index[k.deviceID] {
      assert k.index in Held(events, k.deviceID);
    }
  }

  function Store(events: map<EventKey, Event>, e: DeviceEvent, lookup: DeviceEvent -> Names): map<EventKey, Event> {
    var k := EventKey(e.deviceID, e.index);
    if k in events then events else events[k := Event(e, lookup(e))]
  }

  function StoreAll(events: map<EventKey, Event>, recent: seq<DeviceEvent>, lookup: DeviceEvent -> Names)
    : map<EventKey, Event>
    decreases |recent|
  {
    if recent == [] then events
    else StoreAll(Store(events, recent[0], lookup), recent[1..], lookup)
  }

  ghost function KeysOf(recent: seq<DeviceEvent>): set<EventKey> {
    set i | 0 <= i < |recent| :: EventKey(recent[i].deviceID, recent[i].index)
  }

  /** Receiving a batch adds exactly its keys and never touches an event already held. */
  lemma {:induction false} StoreAllAdds(events: map<EventKey, Event>, recent: seq<DeviceEvent>,
                                        lookup: DeviceEvent -> Names)
    ensures StoreAll(events, recent, lookup).Keys == events.Keys + KeysOf(recent)
    ensures forall k :: k in events ==> StoreAll(events, recent, lookup)[k] == events[k]
    ensures WellKeyed(events) ==> WellKeyed(StoreAll(events, recent, lookup))
    decreases |recent|
  {
    if recent != [] {
      var k := EventKey(recent[0].deviceID, recent[0].index);
      StoreAllAdds(Store(events, recent[0], lookup), recent[1..], lookup);
      assert KeysOf(recent) == {k} + KeysOf(recent[1..]) by {
        forall x | x in KeysOf(recent) ensures x == k || x in KeysOf(recent[1..]) {
          var i :| 0 <= i < |recent| && x == EventKey(recent[i].deviceID, recent[i].index);
          if i > 0 { assert recent[1..][i - 1] == recent[i]; }
        }
      }
    }
  }

  method MissingFrom(list: seq<U32>, gaps: int) returns (intervals: seq<Interval>, left: int)
    requires Ascending(list)
    ensures intervals == Report(list, gaps)
    ensures left == gaps - |Taken(Holes(list), gaps)|
  {
    var first, last := 0, 0;
    if |list| > 0 {
      first, last := list[0], list[|list| - 1];
    }
    intervals := [Interval(Add32(last, 1), MAX_UINT32)];
    if first > 1 {
      intervals := intervals + [Interval(1, first - 1)];
    }
    var inner;
    inner, left := InnerGaps(list, gaps);
    intervals := intervals + inner;
  }

  /** Nothing held has changed; every other event is the first of the batch for its controller and
      index, as received and with the names looked up for it. */
  ghost predicate StoredFirst(before: map<EventKey, Event>, after: map<EventKey, Event>, recent: seq<DeviceEvent>,
                              lookup: DeviceEvent -> Names) {
    && (forall k :: k in before ==> k in after && after[k] == before[k])
    && (forall i :: 0 <= i < |recent| ==> EventKey(recent[i].deviceID, recent[i].index) in after)
    && (forall k :: k in after && k !in before ==>
          exists i :: 0 <= i < |recent| && FirstFor(recent, i, k) && after[k] == Event(recent[i], lookup(recent[i])))
  }

  ghost predicate FirstFor(recent: seq<DeviceEvent>, i: nat, k: EventKey)
    requires i < |recent|
  {
    && recent[i].deviceID == k.deviceID && recent[i].index == k.index
    && forall j :: 0 <= j < i ==> recent[j].deviceID != k.deviceID || recent[j].index != k.index
  }

  lemma {:induction false} StoreAllStores(events: map<EventKey, Event>, recent: seq<DeviceEvent>,
                                          lookup: DeviceEvent -> Names)
    ensures StoredFirst(events, StoreAll(events, recent, lookup), recent, lookup)
    decreases |recent|
  {
    if recent != [] {
      var rest, k0 := recent[1..], EventKey(recent[0].deviceID, recent[0].index);
      var next := Store(events, recent[0], lookup);
      var after := StoreAll(events, recent, lookup);
      StoreAllStores(next, rest, lookup);
      assert k0 in next && after == StoreAll(next, rest, lookup);
      forall i | 0 <= i < |recent| ensures EventKey(recent[i].deviceID, recent[i].index) in after {
        assert i > 0 ==> recent[i] == rest[i - 1];
      }
      forall k | k in after && k !in events
        ensures exists i :: 0 <= i < |recent| && FirstFor(recent, i, k)
                            && after[k] == Event(recent[i], lookup(recent[i]))
      {
        if k == k0 {
          assert FirstFor(recent, 0, k) && after[k] == next[k];
        } else {
          var i :| 0 <= i < |rest| && FirstFor(rest, i, k) && after[k] == Event(rest[i], lookup(rest[i]));
          FirstForNext(recent, i, k);
        }
      }
    }
  }

  lemma FirstForNext(recent: seq<DeviceEvent>, i: nat, k: EventKey)
    requires i + 1 < |recent| && FirstFor(recent[1..], i, k)
    requires k != EventKey(recent[0].deviceID, recent[0].index)
    ensures FirstFor(recent, i + 1, k)
  {
    forall j | 0 <= j < i + 1 ensures recent[j].deviceID != k.deviceID || recent[j].index != k.index {
      assert j > 0 ==> recent[j] == recent[1..][j - 1];
    }
  }

  class Events {
    var events: map<EventKey, Event>
    var index: map<U32, seq<U32>>
    var indexDirty: bool
    var pages: seq<ObjectKey>
    var pagesDirty: bool

    ghost predicate Valid()
      reads this
    {
      && WellKeyed(events)
      && (!indexDirty ==> IndexOf(index, events))
      && (!pagesDirty ==> PagesOf(pages, events))
    }

    constructor ()
      ensures Valid() && events == map[]
    {
      events, index, pages := map[], map[], [];
      indexDirty, pagesDirty := true, true;
    }

    /** Adds the saved events. A duplicate key abandons the load half way, with the events
        before it kept and the caches not marked: from then on a clean cache is coherent
        if and only if the very first saved key was already held. */
    method Load(saved: seq<Event>) returns (ok: bool, ghost n: nat)
      requires Valid()
      modifies this
      ensures (events, ok) == LoadAll(old(events), saved)
      ensures LoadedUpTo(old(events), events, saved, n) && (ok <==> n == |saved|)
      ensures !ok ==> EventKey(saved[n].record.deviceID, saved[n].record.index) in events
      ensures ok ==> Valid() && indexDirty && pagesDirty
      ensures !ok ==> indexDirty == old(indexDirty) && pagesDirty == old(pagesDirty)
      ensures !ok ==>
                saved != [] && (Valid() <==> (old(indexDirty) && old(pagesDirty)) || KeyOf(saved[0]) in old(events))
    {
      var i := 0;
      LoadKeeps(events, saved);
      LoadAdds(events, saved);
      n := LoadIsPrefix(events, saved);
      while i < |saved|
        modifies `events
        invariant 0 <= i <= |saved|
        invariant LoadAll(events, saved[i..]) == LoadAll(old(events), saved)
      {
        var k := KeyOf(saved[i]);
        if k in events {
          if Valid() && !(indexDirty && pagesDirty) {
            CachesDetermineKeys(index, pages, old(events), events);
          }
          ok := false;
          return;
        }
        assert saved[i..][1..] == saved[i + 1..];
        events := events[k := saved[i]];
        i := i + 1;
      }
      indexDirty := true;
      pagesDirty := true;
      ok := true;
    }

    method Received(recent: seq<DeviceEvent>, lookup: DeviceEvent -> Names)
      requires Valid()
      modifies this
      ensures Valid() && indexDirty && pagesDirty
      ensures events == StoreAll(old(events), recent, lookup)
      ensures StoredFirst(old(events), events, recent, lookup)
    {
      StoreAllStores(events, recent, lookup);
      var i := 0;
      while i < |recent|
        invariant 0 <= i <= |recent|
        invariant WellKeyed(events)
        invariant StoreAll(events, recent[i..], lookup) == StoreAll(old(events), recent, lookup)
      {
        var e := recent[i];
        var k := EventKey(e.deviceID, e.index);
        assert recent[i..][1..] == recent[i + 1..];
        if k !in events {
          events := events[k := Event(e, lookup(e))];
        }
        i := i + 1;
      }
      indexDirty := true;
      pagesDirty := true;
    }

    /** Collects each controller's indices in whatever order the map yields them. */
    method CollectIndices() returns (m: map<U32, seq<U32>>)
      requires WellKeyed(events)
      ensures m.Keys == Devices(events)
      ensures forall d :: d in m ==> multiset(m[d]) == multiset(Held(events, d))
    {
      m := map[];
      var todo := events.Keys;
      ghost var done: map<EventKey, Event> := map[];
      while todo != {}
        invariant todo <= events.Keys
        invariant done.Keys == events.Keys - todo
        invariant m.Keys == Devices(done)
        invariant forall d :: d in m ==> multiset(m[d]) == multiset(Held(done, d))
      {
        var k :| k in todo;
        var e := events[k].record;
        HeldGrows(done, k, events[k]);
        m := m[e.deviceID := ListOf(m, e.deviceID) + [e.index]];
        done := done[k := events[k]];
        todo := todo - {k};
      }
      HeldByKeys(done, events);
    }

    method BuildIndex() returns (m: map<U32, seq<U32>>)
      requires WellKeyed(events)
      ensures IndexOf(m, events)
    {
      m := CollectIndices();
      var unsorted := m.Keys;
      while unsorted != {}
        invariant unsorted <= m.Keys == Devices(events)
        invariant forall d :: d in unsorted ==> multiset(m[d]) == multiset(Held(events, d))
        invariant forall d :: d in m && d !in unsorted ==> Lists(m[d], Held(events, d))
      {
        var d :| d in unsorted;
        SortedListing(m[d], Held(events, d));
        m := m[d := SortBy(m[d], x => x)];
        unsorted := unsorted - {d};
      }
    }

    method Refresh()
      requires Valid()
      modifies `index, `indexDirty
      ensures Valid() && !indexDirty
    {
      if indexDirty {
        index := BuildIndex();
        indexDirty := false;
      }
    }

    /** The missing intervals computed from the cache are those of a freshly built index. */
    method Missing(gaps: int, controllers: seq<U32>) returns (missing: map<U32, seq<Interval>>)
      requires Valid()
      modifies `index, `indexDirty
      ensures Valid() && !indexDirty && Indexed(index)
      ensures missing == Plan(index, gaps, controllers, map[])
    {
      Refresh();
      missing := map[];
      var left := gaps;
      var i := 0;
      while i < |controllers|
        modifies {}
        invariant 0 <= i <= |controllers|
        invariant Plan(index, left, controllers[i..], missing) == Plan(index, gaps, controllers, map[])
      {
        var c := controllers[i];
        assert controllers[i..][1..] == controllers[i + 1..];
        var intervals;
        intervals, left := MissingFrom(ListOf(index, c), left);
        missing := Append(missing, c, intervals);
        i := i + 1;
      }
    }

    method BuildPages() returns (keys: seq<ObjectKey>)
      ensures PagesOf(keys, events)
    {
      keys := [];
      var todo := events.Keys;
      while todo != {}
        invariant todo <= events.Keys
        invariant multiset(keys) == multiset(set k | k in events && k !in todo :: PageKey(events, k))
      {
        var k :| k in todo;
        ghost var before := set x | x in events && x !in todo :: PageKey(events, x);
        todo := todo - {k};
        keys := keys + [PageKey(events, k)];
        assert (set x | x in events && x !in todo :: PageKey(events, x)) == before + {PageKey(events, k)};
      }
      assert (set x | x in events && x !in todo :: PageKey(events, x)) == (set x | x in events :: PageKey(events, x));
      var key := (o: ObjectKey) => -o.timestamp;
      SortByCorrect(keys, key);
      keys := SortBy(keys, key);
      forall i, j | 0 <= i < j < |keys| ensures keys[i].timestamp >= keys[j].timestamp {
        assert key(keys[i]) <= key(keys[j]);
      }
    }

    /** Events that may not be viewed are skipped and not counted. */
    method Page(start: nat, max: int, visible: Event -> bool) returns (page: seq<Event>)
      ensures page == Limited(Shown(events, From(pages, start), visible), max)
    {
      var held, keys := events, pages;
      page := [];
      var ix := start;
      while ix < |keys| && |page| < max
        invariant |page| <= Max(max, 0)
        invariant Paged(held, keys, ix, page, visible, max) == Paged(held, keys, start, [], visible, max)
      {
        PageStep(held, keys, ix, page, visible, max);
        var k := keys[ix].key;
        if k in held && visible(held[k]) {
          page := page + [held[k]];
        } else {
          assert page + [] == page;
        }
        ix := ix + 1;
      }
      assert Paged(held, keys, ix, page, visible, max) == page;
    }

    method RefreshPages()
      requires Valid()
      modifies `pages, `pagesDirty
      ensures Valid() && !pagesDirty && PagesOf(pages, events)
      ensures !old(pagesDirty) ==> pages == old(pages)
    {
      if pagesDirty {
        pages := BuildPages();
        pagesDirty := false;
      }
    }

    /** One page of the events that may be viewed, latest first, with the overall first and last
        event. */
    method AsObjects(start: nat, max: int, visible: Event -> bool)
      returns (page: seq<Event>, first: Option<Event>, last: Option<Event>, ghost at: seq<int>)
      requires Valid()
      modifies `pages, `pagesDirty
      ensures Valid() && !pagesDirty
      ensures !old(pagesDirty) ==> pages == old(pages)
      ensures |pages| == |events|
      ensures page == Limited(Shown(events, From(pages, start), visible), max)
      ensures IsPage(events, pages, visible, start, max, at, page)
      ensures events == map[] ==> first == None && last == None
      ensures events != map[] ==> first.Some? && last.Some? && IsBoundary(first.value, last.value, events)
    {
      RefreshPages();
      PagesCount(pages, events);
      page := Page(start, max, visible);
      at := LimitedIsPage(events, pages, visible, start, max);
      first, last := None, None;
      if |pages| > 0 {
        first := Some(events[pages[|pages| - 1].key]);
        last := Some(events[pages[0].key]);
        PagesBoundary(pages, events);
      }
    }
  }

  function From(pages: seq<ObjectKey>, start: nat): seq<ObjectKey> {
    if start < |pages| then pages[start..] else []
  }

  /** The events listed that may be viewed. */
  function Shown(events: map<EventKey, Event>, pages: seq<ObjectKey>, visible: Event -> bool): seq<Event>
  {
    if pages == [] then []
    else
      var k := pages[0].key;
      (if k in events && visible(events[k]) then [events[k]] else []) + Shown(events, pages[1..], visible)
  }

  function Limited(list: seq<Event>, max: int): seq<Event> {
    if max <= 0 then [] else if |list| <= max then list else list[..max]
  }

  lemma ShownStep(events: map<EventKey, Event>, pages: seq<ObjectKey>, ix: nat, visible: Event -> bool)
    requires ix < |pages|
    ensures var k := pages[ix].key;
            Shown(events, From(pages, ix), visible)
            == (if k in events && visible(events[k]) then [events[k]] else [])
                + Shown(events, From(pages, ix + 1), visible)
  {
    assert From(pages, ix)[1..] == From(pages, ix + 1);
  }

  lemma LimitedStep(page: seq<Event>, e: Event, rest: seq<Event>, max: int)
    requires |page| < max
    ensures page + Limited([e] + rest, max - |page|) == page + [e] + Limited(rest, max - |page| - 1)
  {
    assert Limited([e] + rest, max - |page|) == [e] + Limited(rest, max - |page| - 1);
  }

  /** A page of which the first events have been collected. */
  function Paged(events: map<EventKey, Event>, pages: seq<ObjectKey>, ix: nat, page: seq<Event>, visible: Event -> bool,
                 max: int): seq<Event> {
    page + Limited(Shown(events, From(pages, ix), visible), max - |page|)
  }

  lemma PageStep(events: map<EventKey, Event>, pages: seq<ObjectKey>, ix: nat, page: seq<Event>, visible: Event -> bool,
                 max: int)
    requires ix < |pages| && |page| < max
    ensures var k := pages[ix].key;
            var more := if k in events && visible(events[k]) then [events[k]] else [];
            Paged(events, pages, ix, page, visible, max) == Paged(events, pages, ix + 1, page + more, visible, max)
  {
    var k := pages[ix].key;
    ShownStep(events, pages, ix, visible);
    if k in events && visible(events[k]) {
      LimitedStep(page, events[k], Shown(events, From(pages, ix + 1), visible), max);
    } else {
      assert page + [] == page
               && [] + Shown(events, From(pages, ix + 1), visible) == Shown(events, From(pages, ix + 1), visible);
    }
  }

  /** The positions of the events that may be viewed, in order. */
  ghost predicate Picks(events: map<EventKey, Event>, pages: seq<ObjectKey>, visible: Event -> bool, from: nat,
                        at: seq<int>, page: seq<Event>) {
    && |at| == |page| && (forall i, j :: 0 <= i < j < |at| ==> at[i] < at[j])
    && (forall i :: 0 <= i < |at| ==>
          && from <= at[i] < |pages| && pages[at[i]].key in events && visible(events[pages[at[i]].key])
          && page[i] == events[pages[at[i]].key])
  }

  ghost predicate MayView(events: map<EventKey, Event>, o: ObjectKey, visible: Event -> bool) {
    o.key in events && visible(events[o.key])
  }

  /** One page: events that may be viewed, from a position in the list on, no more than the maximum,
      and none left out before the page is full. */
  ghost predicate IsPage(events: map<EventKey, Event>, pages: seq<ObjectKey>, visible: Event -> bool, from: nat,
                         max: int, at: seq<int>, page: seq<Event>) {
    && Picks(events, pages, visible, from, at, page) && |page| <= Max(max, 0)
    && forall p :: from <= p < |pages| && MayView(events, pages[p], visible) && p !in at ==>
         |page| == Max(max, 0) && forall i :: 0 <= i < |at| ==> at[i] < p
  }

  lemma {:induction false} ShownPicks(events: map<EventKey, Event>, pages: seq<ObjectKey>, visible: Event -> bool,
                                      from: nat) returns (at: seq<int>)
    ensures Picks(events, pages, visible, from, at, Shown(events, From(pages, from), visible))
    ensures forall p :: from <= p < |pages| && MayView(events, pages[p], visible) ==> p in at
    decreases |pages| - from
  {
    at := [];
    if from < |pages| {
      var rest := ShownPicks(events, pages, visible, from + 1);
      ShownStep(events, pages, from, visible);
      if MayView(events, pages[from], visible) {
        at := [from] + rest;
        assert at[0] == from;
        forall p | from <= p < |pages| && MayView(events, pages[p], visible) ensures p in at {
          assert p > from ==> p in rest;
        }
      } else {
        at := rest;
        assert [] + Shown(events, From(pages, from + 1), visible) == Shown(events, From(pages, from + 1), visible);
      }
    }
  }

  lemma LimitedIsPage(events: map<EventKey, Event>, pages: seq<ObjectKey>, visible: Event -> bool, from: nat, max: int)
    returns (at: seq<int>)
    ensures IsPage(events, pages, visible, from, max, at, Limited(Shown(events, From(pages, from), visible), max))
  {
    var all := ShownPicks(events, pages, visible, from);
    var page := Limited(Shown(events, From(pages, from), visible), max);
    at := all[..|page|];
    forall p | from <= p < |pages| && MayView(events, pages[p], visible) && p !in at
      ensures |page| == Max(max, 0) && forall i :: 0 <= i < |at| ==> at[i] < p
    {
      assert p in all;
      var i :| 0 <= i < |all| && all[i] == p;
      assert forall m :: 0 <= m < |at| ==> at[m] == all[m] && at[m] in at;
    }
  }

  /** Both are held events and no held event is earlier than `first` or later than `last`. */
  ghost predicate IsBoundary(first: Event, last: Event, events: map<EventKey, Event>) {
    && first in events.Values && last in events.Values
    && forall k :: k in events ==> RoundToSecond(first.record.timestamp) <= RoundToSecond(events[k].record.timestamp)
                                   && RoundToSecond(events[k].record.timestamp) <= RoundToSecond(last.record.timestamp)
  }

  lemma HeldGrows(done: map<EventKey, Event>, k: EventKey, e: Event)
    requires k !in done
    ensures Devices(done[k := e]) == Devices(done) + {k.deviceID}
    ensures Held(done[k := e], k.deviceID) == Held(done, k.deviceID) + {k.index}
    ensures forall d :: d != k.deviceID ==> Held(done[k := e], d) == Held(done, d)
    ensures k.index !in Held(done, k.deviceID)
    ensures k.deviceID !in Devices(done) ==> Held(done, k.deviceID) == {}
  {
    forall d | d != k.deviceID ensures Held(done[k := e], d) == Held(done, d) {}
  }

  lemma HeldByKeys(a: map<EventKey, Event>, b: map<EventKey, Event>)
    requires a.Keys == b.Keys
    ensures Devices(a) == Devices(b) && forall d :: Held(a, d) == Held(b, d)
  {
    assert forall k :: k in a <==> k in b;
    forall d ensures Held(a, d) == Held(b, d) {}
  }

  lemma SortedListing(unsorted: seq<U32>, s: set<U32>)
    requires multiset(unsorted) == multiset(s)
    ensures Lists(SortBy(unsorted, x => x), s)
  {
    SortByCorrect(unsorted, x => x);
    var l := SortBy(unsorted, x => x);
    forall x: U32 ensures x in l <==> x in s {
      assert x in l <==> x in multiset(l);
    }
    forall i, j | 0 <= i < j < |l| ensures l[i] < l[j] {
      if l[i] == l[j] {
        Repeats(l, i, j);
      }
    }
  }

  lemma Repeats<T>(s: seq<T>, i: nat, j: nat)
    requires i < j < |s| && s[i] == s[j]
    ensures multiset(s)[s[i]] >= 2
  {
    assert s == s[..i] + [s[i]] + s[i + 1..j] + [s[j]] + s[j + 1..];
  }

  lemma PagesHold(pages: seq<ObjectKey>, events: map<EventKey, Event>)
    requires PagesOf(pages, events)
    ensures forall i :: 0 <= i < |pages| ==> pages[i].key in events && pages[i] == PageKey(events, pages[i].key)
    ensures forall k :: k in events ==> PageKey(events, k) in pages
  {
    var all := set k | k in events :: PageKey(events, k);
    forall i | 0 <= i < |pages| ensures pages[i] in all {
      assert pages[i] in multiset(pages);
    }
    forall k | k in events ensures PageKey(events, k) in pages {
      assert PageKey(events, k) in multiset(all);
      assert PageKey(events, k) in multiset(pages);
    }
  }

  lemma PagesCount(pages: seq<ObjectKey>, events: map<EventKey, Event>)
    requires PagesOf(pages, events)
    ensures |pages| == |events|
    ensures forall i :: 0 <= i < |pages| ==> pages[i].key in events && pages[i] == PageKey(events, pages[i].key)
  {
    PagesHold(pages, events);
    KeysCount(events, events.Keys);
    assert |multiset(pages)| == |pages|;
  }

  lemma {:induction false} KeysCount(events: map<EventKey, Event>, keys: set<EventKey>)
    requires keys <= events.Keys
    ensures |set k | k in keys :: PageKey(events, k)| == |keys|
    decreases |keys|
  {
    if keys != {} {
      var x :| x in keys;
      KeysCount(events, keys - {x});
      assert (set k | k in keys :: PageKey(events, k)) == (set k | k in keys - {x} :: PageKey(events, k))
               + {PageKey(events, x)};
    }
  }

  lemma PagesBoundary(pages: seq<ObjectKey>, events: map<EventKey, Event>)
    requires PagesOf(pages, events) && |pages| > 0
    ensures pages[0].key in events && pages[|pages| - 1].key in events
    ensures IsBoundary(events[pages[|pages| - 1].key], events[pages[0].key], events)
  {
    PagesHold(pages, events);
    var first, last := events[pages[|pages| - 1].key], events[pages[0].key];
    forall k | k in events
      ensures RoundToSecond(first.record.timestamp) <= RoundToSecond(events[k].record.timestamp)
      ensures RoundToSecond(events[k].record.timestamp) <= RoundToSecond(last.record.timestamp)
    {
      var i :| 0 <= i < |pages| && pages[i] == PageKey(events, k);
      assert pages[|pages| - 1].timestamp <= pages[i].timestamp <= pages[0].timestamp;
    }
  }
}
