/** The edit history: which name a card or controller had at some time in the past. */
module History {
  import opened Common
  import opened Sorting
  import opened Decimal

  datatype Entry = Entry(ts: int, item: string, id: string, field: string, before: string, after: string)

  /** An audit record may come without a timestamp. */
  datatype AuditRecord = AuditRecord(ts: Option<int>, component: string, id: string, field: string, before: string,
                                     after: string)

  function Stamp(r: AuditRecord, now: int): Entry {
    Entry(if r.ts.Some? then r.ts.value else now, r.component, r.id, r.field, r.before, r.after)
  }

  /** Each record is stamped with its own reading of the clock, unless it has a time. */
  function StampAll(records: seq<AuditRecord>, clock: seq<int>): (entries: seq<Entry>)
    requires |clock| == |records|
    ensures |entries| == |records|
    ensures forall i :: 0 <= i < |records| ==>
              && entries[i].item == records[i].component && entries[i].id == records[i].id
              && entries[i].field == records[i].field && entries[i].before == records[i].before
              && entries[i].after == records[i].after
              && entries[i].ts == match records[i].ts case Some(ts) => ts case None => clock[i]
  {
    if records == [] then []
    else
      var n := |records| - 1;
      StampAll(records[..n], clock[..n]) + [Stamp(records[n], clock[n])]
  }

  /** Entries are listed from the latest to the earliest. */
  function Order(): Entry -> int {
    (e: Entry) => -e.ts
  }

  predicate Matches(e: Entry, item: string, id: string, field: string) {
    e.item == item && e.id == id && e.field == field
  }

  function Filter(list: seq<Entry>, item: string, id: string, field: string): seq<Entry> {
    if list == [] then []
    else
      var n := |list| - 1;
      Filter(list[..n], item, id, field) + if Matches(list[n], item, id, field) then [list[n]] else []
  }

  /** Undoing edits, latest first, until one is from before the time asked for. */
  function NameAt(edits: seq<Entry>, t: int, current: string): string {
    if edits == [] || edits[0].ts < t then current else NameAt(edits[1..], t, edits[0].before)
  }

  // ---- What a lookup means ----

  /** Making edits, earliest first, as long as they are from before the time asked for. */
  function NameAfter(edits: seq<Entry>, t: int, original: string): string {
    if edits == [] || edits[0].ts >= t then original else NameAfter(edits[1..], t, edits[0].after)
  }

  /** Edits of one name in the order in which they were made: each starts from what the one
      before left, and the last left the current name. */
  ghost predicate Chronicle(edits: seq<Entry>, original: string, current: string) {
    && (forall i, j :: 0 <= i < j < |edits| ==> edits[i].ts < edits[j].ts)
    && (forall i :: 0 < i < |edits| ==> edits[i].before == edits[i - 1].after)
    && (if edits == [] then original == current else edits[0].before == original && edits[|edits| - 1].after == current)
  }

  function Reversed(s: seq<Entry>): (r: seq<Entry>)
    ensures |r| == |s| && forall i :: 0 <= i < |s| ==> r[i] == s[|s| - 1 - i]
  {
    if s == [] then [] else [s[|s| - 1]] + Reversed(s[..|s| - 1])
  }

  lemma {:induction false} NotYetMade(edits: seq<Entry>, t: int, original: string)
    requires edits != [] && edits[|edits| - 1].ts >= t
    ensures NameAfter(edits, t, original) == NameAfter(edits[..|edits| - 1], t, original)
  {
    if |edits| > 1 && edits[0].ts < t {
      NotYetMade(edits[1..], t, edits[0].after);
      assert edits[1..][..|edits| - 2] == edits[..|edits| - 1][1..];
    }
  }

  lemma {:induction false} AllMade(edits: seq<Entry>, t: int, original: string)
    requires edits != [] && forall i :: 0 <= i < |edits| ==> edits[i].ts < t
    ensures NameAfter(edits, t, original) == edits[|edits| - 1].after
  {
    if |edits| > 1 {
      AllMade(edits[1..], t, edits[0].after);
    } else {
      assert edits[1..] == [];
    }
  }

  lemma ChronicleFront(edits: seq<Entry>, original: string, current: string)
    requires edits != [] && Chronicle(edits, original, current)
    ensures Chronicle(edits[..|edits| - 1], original, edits[|edits| - 1].before)
    ensures forall i :: 0 <= i < |edits| ==> edits[i].ts <= edits[|edits| - 1].ts
    ensures edits[|edits| - 1].after == current
  {
  }

  /** Undoing the later edits gives the same name as making the earlier ones. */
  lemma {:induction false} UndoIsRedo(edits: seq<Entry>, t: int, original: string, current: string)
    requires Chronicle(edits, original, current)
    ensures NameAt(Reversed(edits), t, current) == NameAfter(edits, t, original)
  {
    if edits != [] {
      var front, last := edits[..|edits| - 1], edits[|edits| - 1];
      ChronicleFront(edits, original, current);
      if last.ts < t {
        AllMade(edits, t, original);
      } else {
        UndoIsRedo(front, t, original, last.before);
        NotYetMade(edits, t, original);
        assert Reversed(edits)[0] == last && Reversed(edits)[1..] == Reversed(front);
      }
    }
  }

  // ---- Order of arrival ----

  lemma {:induction false} FilterCounts(list: seq<Entry>, item: string, id: string, field: string, e: Entry)
    ensures multiset(Filter(list, item, id, field))[e] == if Matches(e, item, id, field) then multiset(list)[e] else 0
  {
    if list != [] {
      var front, last := list[..|list| - 1], list[|list| - 1];
      FilterCounts(front, item, id, field, e);
      assert list == front + [last];
    }
  }

  lemma FilterKeepsMultiset(a: seq<Entry>, b: seq<Entry>, item: string, id: string, field: string)
    requires multiset(a) == multiset(b)
    ensures multiset(Filter(a, item, id, field)) == multiset(Filter(b, item, id, field))
  {
    forall e: Entry ensures multiset(Filter(a, item, id, field))[e] == multiset(Filter(b, item, id, field))[e] {
      FilterCounts(a, item, id, field, e);
      FilterCounts(b, item, id, field, e);
    }
  }

  ghost predicate Latest(list: seq<Entry>) {
    forall i, j :: 0 <= i < j < |list| ==> list[i].ts >= list[j].ts
  }

  lemma {:induction false} FilterKeepsOrder(list: seq<Entry>, item: string, id: string, field: string)
    requires Latest(list)
    ensures Latest(Filter(list, item, id, field))
  {
    if list != [] {
      var front, last := list[..|list| - 1], list[|list| - 1];
      FilterKeepsOrder(front, item, id, field);
      var kept := Filter(front, item, id, field);
      forall i | 0 <= i < |kept| ensures kept[i].ts >= last.ts {
        FilterCounts(front, item, id, field, kept[i]);
        assert kept[i] in multiset(kept);
        assert kept[i] in multiset(front);
        assert kept[i] in front;
      }
    }
  }

  lemma CancelOne(a: multiset<Entry>, b: multiset<Entry>, x: Entry)
    requires multiset{x} + a == b + multiset{x}
    ensures a == b
  {
    assert a == multiset{x} + a - multiset{x};
    assert b == b + multiset{x} - multiset{x};
  }

  lemma LatestFirst(list: seq<Entry>, edits: seq<Entry>)
    requires Latest(list) && multiset(list) == multiset(edits) && edits != []
    requires forall i, j :: 0 <= i < j < |edits| ==> edits[i].ts < edits[j].ts
    ensures list != [] && list[0] == edits[|edits| - 1]
  {
    var last := edits[|edits| - 1];
    assert last in multiset(list);
    var i :| 0 <= i < |list| && list[i] == last;
    assert list[0] in multiset(edits);
    var j :| 0 <= j < |edits| && edits[j] == list[0];
    assert list[0].ts >= last.ts;
  }

  /** With distinct times there is only one listing from the latest to the earliest. */
  lemma {:induction false} ListingIsUnique(list: seq<Entry>, edits: seq<Entry>)
    requires Latest(list) && multiset(list) == multiset(edits)
    requires forall i, j :: 0 <= i < j < |edits| ==> edits[i].ts < edits[j].ts
    ensures list == Reversed(edits)
  {
    assert |multiset(list)| == |list|;
    if edits != [] {
      var front, last := edits[..|edits| - 1], edits[|edits| - 1];
      LatestFirst(list, edits);
      assert list == [last] + list[1..];
      assert edits == front + [last];
      CancelOne(multiset(list[1..]), multiset(front), last);
      ListingIsUnique(list[1..], front);
    }
  }

  /** However the records arrived, a lookup travels back in time. */
  lemma LookupIsTimeTravel(history: seq<Entry>, arrived: seq<Entry>, edits: seq<Entry>, item: string, id: string,
                           field: string,
                           t: int, original: string, current: string)
    requires Latest(history) && multiset(history) == multiset(arrived)
    requires multiset(Filter(arrived, item, id, field)) == multiset(edits) && Chronicle(edits, original, current)
    ensures NameAt(Filter(history, item, id, field), t, current) == NameAfter(edits, t, original)
  {
    FilterKeepsMultiset(history, arrived, item, id, field);
    FilterKeepsOrder(history, item, id, field);
    ListingIsUnique(Filter(history, item, id, field), edits);
    UndoIsRedo(edits, t, original, current);
  }

  /** Edits with equal times keep their order of arrival and so are undone in the wrong order:
      the lookup is then right only if the first of them changed nothing. */
  lemma SameInstant(e: Entry, f: Entry, t: int)
    requires e.ts == f.ts && t <= e.ts && e.after == f.before
    ensures SortBy([e, f], Order()) == [e, f]
    ensures NameAt(SortBy([e, f], Order()), t, f.after) == e.before <==> e.before == e.after
  {
    assert [e, f][1..] == [f] && [f][1..] == [];
    assert SortBy([f], Order()) == [f];
    assert NameAt([f], t, e.before) == NameAt([], t, f.before) == f.before;
  }

  // ---- Edits at the same instant ----

  /** The entries with one time, in order. */
  function At(list: seq<Entry>, ts: int): seq<Entry> {
    WithKey(list, Order(), -ts)
  }

  function AtOne(e: Entry, ts: int): seq<Entry> {
    if e.ts == ts then [e] else []
  }

  lemma {:induction false} AtSplit(list: seq<Entry>, k: nat, ts: int)
    requires k < |list|
    ensures At(list, ts) == At(list[..k], ts) + AtOne(list[k], ts) + At(list[k + 1..], ts)
  {
    if k > 0 {
      AtSplit(list[1..], k - 1, ts);
      assert list[..k][1..] == list[1..][..k - 1] && list[1..][k..] == list[k + 1..];
    }
  }

  lemma AtLast(front: seq<Entry>, last: Entry, ts: int)
    ensures At(front + [last], ts) == At(front, ts) + AtOne(last, ts)
  {
    var list := front + [last];
    AtSplit(list, |front|, ts);
    assert list[..|front|] == front && list[|front| + 1..] == [];
    assert At([], ts) == [];
  }

  function FilterOne(e: Entry, item: string, id: string, field: string): seq<Entry> {
    if Matches(e, item, id, field) then [e] else []
  }

  lemma FilterLast(front: seq<Entry>, last: Entry, item: string, id: string, field: string)
    ensures Filter(front + [last], item, id, field) == Filter(front, item, id, field) + FilterOne(last, item, id, field)
  {
    assert (front + [last])[..|front|] == front;
  }

  lemma {:induction false} FilterAt(list: seq<Entry>, item: string, id: string, field: string, ts: int)
    ensures At(Filter(list, item, id, field), ts) == Filter(At(list, ts), item, id, field)
  {
    if list != [] {
      var front, last := list[..|list| - 1], list[|list| - 1];
      FilterAt(front, item, id, field, ts);
      assert list == front + [last];
      AtLast(front, last, ts);
      FilterLast(front, last, item, id, field);
      if last.ts == ts {
        FilterLast(At(front, ts), last, item, id, field);
      } else {
        assert At(front, ts) + [] == At(front, ts);
      }
      if Matches(last, item, id, field) {
        AtLast(Filter(front, item, id, field), last, ts);
      } else {
        assert Filter(front, item, id, field) + [] == Filter(front, item, id, field);
      }
    }
  }

  /** The last of the entries from t on. */
  function Oldest(list: seq<Entry>, t: int): (k: nat)
    requires list != [] && list[0].ts >= t
    ensures k < |list| && list[k].ts >= t && (k + 1 < |list| ==> list[k + 1].ts < t)
  {
    if |list| == 1 || list[1].ts < t then 0 else 1 + Oldest(list[1..], t)
  }

  /** A lookup undoes everything down to that entry. */
  lemma {:induction false} UndoneTo(list: seq<Entry>, t: int, current: string)
    requires list != [] && list[0].ts >= t
    ensures NameAt(list, t, current) == list[Oldest(list, t)].before
  {
    if |list| > 1 && list[1].ts >= t {
      UndoneTo(list[1..], t, list[0].before);
    } else {
      assert NameAt(list[1..], t, list[0].before) == list[0].before;
    }
  }

  lemma {:induction false} NoneAt(list: seq<Entry>, ts: int)
    requires forall i :: 0 <= i < |list| ==> list[i].ts != ts
    ensures At(list, ts) == []
  {
    if list != [] {
      NoneAt(list[1..], ts);
    }
  }

  /** It is the last of those at its own time. */
  lemma OldestIsLast(list: seq<Entry>, t: int)
    requires Latest(list) && list != [] && list[0].ts >= t
    ensures var e := list[Oldest(list, t)]; var group := At(list, e.ts);
            group != [] && group[|group| - 1] == e
  {
    var k := Oldest(list, t);
    var e := list[k];
    AtSplit(list, k, e.ts);
    NoneAt(list[k + 1..], e.ts);
  }

  /** Edits of one name in the order in which they were made, some perhaps at the same instant. */
  ghost predicate Chain(edits: seq<Entry>, original: string, current: string) {
    && (forall i, j :: 0 <= i < j < |edits| ==> edits[i].ts <= edits[j].ts)
    && (forall i :: 0 < i < |edits| ==> edits[i].before == edits[i - 1].after)
    && (if edits == [] then original == current else edits[0].before == original && edits[|edits| - 1].after == current)
  }

  /** The first edit from t on; the number of edits if there is none. */
  function FirstFrom(edits: seq<Entry>, t: int): (j: nat)
    ensures j <= |edits| && (j < |edits| ==> edits[j].ts >= t) && forall i :: 0 <= i < j ==> edits[i].ts < t
  {
    if edits == [] || edits[0].ts >= t then 0 else 1 + FirstFrom(edits[1..], t)
  }

  /** The name at t is the one that the first edit from t on starts from. */
  lemma {:induction false} NameIsBefore(edits: seq<Entry>, t: int, original: string, current: string)
    requires Chain(edits, original, current)
    ensures var j := FirstFrom(edits, t);
            NameAfter(edits, t, original) == if j < |edits| then edits[j].before else current
  {
    if edits != [] && edits[0].ts < t {
      assert edits[1..] != [] ==> edits[1..][0].before == edits[0].after;
      assert Chain(edits[1..], edits[0].after, current);
      NameIsBefore(edits[1..], t, edits[0].after, current);
    }
  }

  lemma SameElements(a: seq<Entry>, b: seq<Entry>)
    requires multiset(a) == multiset(b)
    ensures forall e :: e in a <==> e in b
  {
    forall e: Entry ensures e in a <==> e in b {
      assert e in multiset(a) <==> e in multiset(b);
    }
  }

  lemma EarliestGroup(list: seq<Entry>, edits: seq<Entry>, t: int)
    requires Latest(list) && (forall e :: e in list <==> e in edits)
    requires forall i, j :: 0 <= i < j < |edits| ==> edits[i].ts <= edits[j].ts
    ensures FirstFrom(edits, t) == |edits| <==> list == [] || list[0].ts < t
    ensures FirstFrom(edits, t) < |edits| ==> list[Oldest(list, t)].ts == edits[FirstFrom(edits, t)].ts
  {
    var j := FirstFrom(edits, t);
    if j < |edits| {
      assert edits[j] in list;
      var i :| 0 <= i < |list| && list[i] == edits[j];
      SameTime(list, edits, t, i);
    } else if list != [] {
      assert list[0] in edits;
    }
  }

  lemma {:induction false} OldestBound(list: seq<Entry>, t: int, i: nat)
    requires Latest(list) && i < |list| && list[i].ts >= t
    ensures list[0].ts >= t && i <= Oldest(list, t)
  {
    if i > 0 {
      OldestBound(list[1..], t, i - 1);
    }
  }

  lemma FirstIsEarliest(edits: seq<Entry>, t: int, m: nat)
    requires m < |edits| && edits[m].ts >= t
    requires forall i, j :: 0 <= i < j < |edits| ==> edits[i].ts <= edits[j].ts
    ensures FirstFrom(edits, t) <= m && edits[FirstFrom(edits, t)].ts <= edits[m].ts
  {
    assert FirstFrom(edits, t) <= m;
  }

  lemma SameTime(list: seq<Entry>, edits: seq<Entry>, t: int, i: nat)
    requires Latest(list) && (forall e :: e in list ==> e in edits) && FirstFrom(edits, t) < |edits|
    requires forall i, j :: 0 <= i < j < |edits| ==> edits[i].ts <= edits[j].ts
    requires i < |list| && list[i] == edits[FirstFrom(edits, t)]
    ensures list[0].ts >= t && list[Oldest(list, t)].ts == list[i].ts
  {
    var j := FirstFrom(edits, t);
    assert list[i].ts >= t;
    OldestBound(list, t, i);
    var k := Oldest(list, t);
    assert list[k].ts <= list[i].ts;
    assert list[k] in edits;
    var m :| 0 <= m < |edits| && edits[m] == list[k];
    FirstIsEarliest(edits, t, m);
  }

  /** Exactly when a lookup is right: the last to arrive of the earliest edits from t on, which are
      all at one instant, starts from the same name as the first of them to be made. */
  lemma LookupExactly(history: seq<Entry>, arrived: seq<Entry>, edits: seq<Entry>, item: string, id: string,
                      field: string,
                      t: int, original: string, current: string)
    requires Latest(history) && multiset(history) == multiset(arrived)
               && (forall ts :: At(history, ts) == At(arrived, ts))
    requires multiset(Filter(arrived, item, id, field)) == multiset(edits) && Chain(edits, original, current)
    ensures FirstFrom(edits, t) == |edits| ==>
              NameAt(Filter(history, item, id, field), t, current) == NameAfter(edits, t, original)
    ensures FirstFrom(edits, t) < |edits| ==>
              var e := edits[FirstFrom(edits, t)];
              var group := At(Filter(arrived, item, id, field), e.ts);
              && group != []
              && (NameAt(Filter(history, item, id, field), t, current) == NameAfter(edits, t, original)
                  <==> group[|group| - 1].before == e.before)
  {
    var list := Filter(history, item, id, field);
    FilterKeepsMultiset(history, arrived, item, id, field);
    FilterKeepsOrder(history, item, id, field);
    NameIsBefore(edits, t, original, current);
    SameElements(list, edits);
    EarliestGroup(list, edits, t);
    if FirstFrom(edits, t) < |edits| {
      var ts := edits[FirstFrom(edits, t)].ts;
      UndoneTo(list, t, current);
      OldestIsLast(list, t);
      FilterAt(history, item, id, field, ts);
      FilterAt(arrived, item, id, field, ts);
    }
  }

  /** For edits that arrived in the order in which they were made, that group starts with the
      first of them. */
  lemma GroupStarts(edits: seq<Entry>, t: int, original: string, current: string)
    requires Chain(edits, original, current) && FirstFrom(edits, t) < |edits|
    ensures var e := edits[FirstFrom(edits, t)]; At(edits, e.ts) != [] && At(edits, e.ts)[0] == e
  {
    var j := FirstFrom(edits, t);
    var e := edits[j];
    AtSplit(edits, j, e.ts);
    NoneAt(edits[..j], e.ts);
  }

  lemma SortedIsLatest(sorted: seq<Entry>)
    requires SortedBy(sorted, Order())
    ensures Latest(sorted)
  {
    forall i, j | 0 <= i < j < |sorted| ensures sorted[i].ts >= sorted[j].ts {
      assert Order()(sorted[i]) <= Order()(sorted[j]);
    }
  }

  lemma SortedKeepsAt(entries: seq<Entry>)
    ensures forall ts :: At(SortBy(entries, Order()), ts) == At(entries, ts)
  {
    forall ts ensures At(SortBy(entries, Order()), ts) == At(entries, ts) {
      SortByIsStable(entries, Order(), -ts);
    }
  }

  lemma SortedHistory(entries: seq<Entry>)
    ensures var sorted := SortBy(entries, Order());
            Latest(sorted) && multiset(sorted) == multiset(entries) && forall ts :: At(sorted, ts) == At(entries, ts)
  {
    SortByCorrect(entries, Order());
    SortedIsLatest(SortBy(entries, Order()));
    SortedKeepsAt(entries);
  }

  class History {
    var history: seq<Entry>

    /** Listed from the latest to the earliest. */
    ghost predicate Valid()
      reads this
    {
      Latest(history)
    }

    constructor (entries: seq<Entry>)
      ensures Valid() && multiset(history) == multiset(entries)
      ensures forall ts :: At(history, ts) == At(entries, ts)
    {
      history := SortBy(entries, Order());
      SortedHistory(entries);
    }

    method Set(list: seq<Entry>)
      modifies this
      ensures Valid() && multiset(history) == multiset(list)
      ensures forall ts :: At(history, ts) == At(list, ts)
    {
      SortedHistory(list);
      history := SortBy(list, Order());
    }

    /** `clock` are the readings of the clock, one for each record; only records without a time
        of their own need one. */
    method Received(records: seq<AuditRecord>, clock: seq<int>)
      requires |clock| == |records|
      modifies this
      ensures Valid() && multiset(history) == multiset(old(history)) + multiset(StampAll(records, clock))
      ensures forall ts :: At(history, ts) == At(old(history), ts) + At(StampAll(records, clock), ts)
    {
      var list := history;
      for i := 0 to |records|
        invariant list == old(history) + StampAll(records[..i], clock[..i])
      {
        assert records[..i + 1][..i] == records[..i] && clock[..i + 1][..i] == clock[..i];
        list := list + [Stamp(records[i], clock[i])];
      }
      assert records[..|records|] == records && clock[..|clock|] == clock;
      forall ts ensures At(list, ts) == At(old(history), ts) + At(StampAll(records, clock), ts) {
        WithKeyAppend(old(history), StampAll(records, clock), Order(), -ts);
      }
      Set(list);
    }

    method Query(item: string, id: string, field: string) returns (records: seq<Entry>)
      ensures records == Filter(history, item, id, field)
    {
      records := [];
      for i := 0 to |history|
        invariant records == Filter(history[..i], item, id, field)
      {
        assert history[..i + 1][..i] == history[..i];
        if Matches(history[i], item, id, field) {
          records := records + [history[i]];
        }
      }
      assert history[..|history|] == history;
    }

    /** `current` is the name in the catalog, or empty. */
    method LookupCard(t: int, card: U32, current: string) returns (name: string)
      ensures name == if card == 0 then "" else NameAt(Filter(history, "card", Dec(card), "name"), t, current)
    {
      name := "";
      if card != 0 {
        name := current;
        var edits := Query("card", Dec(card), "name");
        for i := 0 to |edits|
          invariant NameAt(edits, t, current) == NameAt(edits[i..], t, name)
        {
          if edits[i].ts < t {
            break;
          }
          name := edits[i].before;
          assert edits[i..][1..] == edits[i + 1..];
        }
      }
    }

    method LookupController(t: int, device: U32, current: string) returns (name: string)
      ensures name == if device == 0 then "" else NameAt(Filter(history, "controller", Dec(device), "name"), t, current)
    {
      name := "";
      if device != 0 {
        name := current;
        var edits := Query("controller", Dec(device), "name");
        for i := 0 to |edits|
          invariant NameAt(edits, t, current) == NameAt(edits[i..], t, name)
        {
          if edits[i].ts < t {
            break;
          }
          name := edits[i].before;
          assert edits[i..][1..] == edits[i + 1..];
        }
      }
    }
  }

  /** Records that arrive together, with the readings of the clock when they do. */
  datatype Batch = Batch(records: seq<AuditRecord>, clock: seq<int>) {
    ghost predicate Valid() {
      |clock| == |records|
    }
  }

  /** Everything that arrived, batch after batch. */
  function Arrived(batches: seq<Batch>): seq<Entry>
    requires forall i :: 0 <= i < |batches| ==> batches[i].Valid()
  {
    if batches == [] then []
    else
      var n := |batches| - 1;
      assert batches[n].Valid();
      Arrived(batches[..n]) + StampAll(batches[n].records, batches[n].clock)
  }

  lemma ArrivedStep(batches: seq<Batch>, i: nat)
    requires i < |batches| && batches[i].Valid() && forall i :: 0 <= i < |batches| ==> batches[i].Valid()
    ensures var before, after := Arrived(batches[..i]), Arrived(batches[..i + 1]);
            var stamped := StampAll(batches[i].records, batches[i].clock);
            && multiset(after) == multiset(before) + multiset(stamped)
            && forall ts :: At(after, ts) == At(before, ts) + At(stamped, ts)
  {
    assert batches[..i + 1][..i] == batches[..i];
    var before, stamped := Arrived(batches[..i]), StampAll(batches[i].records, batches[i].clock);
    forall ts ensures At(before + stamped, ts) == At(before, ts) + At(stamped, ts) {
      WithKeyAppend(before, stamped, Order(), -ts);
    }
  }

  /** The history of everything that arrived. */
  method Collect(batches: seq<Batch>) returns (h: History)
    requires forall i :: 0 <= i < |batches| ==> batches[i].Valid()
    ensures fresh(h) && h.Valid() && multiset(h.history) == multiset(Arrived(batches))
    ensures forall ts :: At(h.history, ts) == At(Arrived(batches), ts)
  {
    h := new History([]);
    for i := 0 to |batches|
      invariant fresh(h) && h.Valid() && multiset(h.history) == multiset(Arrived(batches[..i]))
      invariant forall ts :: At(h.history, ts) == At(Arrived(batches[..i]), ts)
    {
      assert batches[i].Valid();
      ArrivedStep(batches, i);
      h.Received(batches[i].records, batches[i].clock);
    }
    assert batches[..|batches|] == batches;
  }

  // ---- Edits of a card's name, as they arrived ----

  ghost predicate NamesCard(e: Entry, card: U32) {
    e.item == "card" && e.id == Dec(card) && e.field == "name"
  }

  /** The edits are the entries for that card's name, as often as they arrived, in whatever order. */
  ghost predicate EditsOf(arrived: seq<Entry>, card: U32, edits: seq<Entry>) {
    forall e: Entry :: multiset(edits)[e] == if NamesCard(e, card) then multiset(arrived)[e] else 0
  }

  /** The last entry for that card's name at one instant to arrive. */
  ghost predicate LastArrived(arrived: seq<Entry>, card: U32, ts: int, p: int) {
    && 0 <= p < |arrived| && NamesCard(arrived[p], card) && arrived[p].ts == ts
    && forall q :: p < q < |arrived| ==> !(NamesCard(arrived[q], card) && arrived[q].ts == ts)
  }

  lemma EditsAreFiltered(arrived: seq<Entry>, card: U32, edits: seq<Entry>)
    requires EditsOf(arrived, card, edits)
    ensures multiset(Filter(arrived, "card", Dec(card), "name")) == multiset(edits)
  {
    forall e: Entry ensures multiset(Filter(arrived, "card", Dec(card), "name"))[e] == multiset(edits)[e] {
      FilterCounts(arrived, "card", Dec(card), "name", e);
    }
  }

  lemma {:induction false} LastOfGroup(arrived: seq<Entry>, card: U32, ts: int) returns (p: int)
    requires At(Filter(arrived, "card", Dec(card), "name"), ts) != []
    ensures LastArrived(arrived, card, ts, p)
    ensures var group := At(Filter(arrived, "card", Dec(card), "name"), ts); group[|group| - 1] == arrived[p]
  {
    assert arrived != [];
    var front, last := arrived[..|arrived| - 1], arrived[|arrived| - 1];
    assert arrived == front + [last];
    var kept := Filter(front, "card", Dec(card), "name");
    FilterLast(front, last, "card", Dec(card), "name");
    if NamesCard(last, card) && last.ts == ts {
      AtLast(kept, last, ts);
      p := |arrived| - 1;
    } else {
      if NamesCard(last, card) {
        AtLast(kept, last, ts);
      } else {
        assert kept + [] == kept;
      }
      assert At(kept, ts) + [] == At(kept, ts);
      p := LastOfGroup(front, card, ts);
    }
  }

  /** The answer of a lookup over everything that arrived. */
  ghost predicate Travels(arrived: seq<Entry>, edits: seq<Entry>, t: int, card: U32, original: string, name: string) {
    var j := FirstFrom(edits, t);
    if j == |edits| then name == NameAfter(edits, t, original)
    else
      exists p :: LastArrived(arrived, card, edits[j].ts, p)
                  && (name == NameAfter(edits, t, original) <==> arrived[p].before == edits[j].before)
  }

  lemma LookupTravels(history: seq<Entry>, arrived: seq<Entry>, edits: seq<Entry>, t: int, card: U32, original: string,
                      current: string)
    requires Latest(history) && multiset(history) == multiset(arrived)
               && (forall ts :: At(history, ts) == At(arrived, ts))
    requires multiset(Filter(arrived, "card", Dec(card), "name")) == multiset(edits) && Chain(edits, original, current)
    ensures Travels(arrived, edits, t, card, original, NameAt(Filter(history, "card", Dec(card), "name"), t, current))
  {
    LookupExactly(history, arrived, edits, "card", Dec(card), "name", t, original, current);
    if FirstFrom(edits, t) < |edits| {
      var p := LastOfGroup(arrived, card, edits[FirstFrom(edits, t)].ts);
    }
  }

  /** Records received in any batches and any order, then a lookup at any time: the name is the
      one after exactly the edits made before that time, if and only if the last to arrive of the
      earliest edits from then on starts from the same name as the first of them to be made. */
  method TimeTravel(batches: seq<Batch>, t: int, card: U32, ghost edits: seq<Entry>, ghost original: string,
                    current: string)
    returns (name: string)
    requires card != 0 && forall i :: 0 <= i < |batches| ==> batches[i].Valid()
    requires EditsOf(Arrived(batches), card, edits) && Chain(edits, original, current)
    ensures Travels(Arrived(batches), edits, t, card, original, name)
    ensures Chronicle(edits, original, current) ==> name == NameAfter(edits, t, original)
  {
    var h := Collect(batches);
    EditsAreFiltered(Arrived(batches), card, edits);
    LookupTravels(h.history, Arrived(batches), edits, t, card, original, current);
    if Chronicle(edits, original, current) {
      LookupIsTimeTravel(h.history, Arrived(batches), edits, "card", Dec(card), "name", t, original, current);
    }
    name := h.LookupCard(t, card, current);
  }
}
