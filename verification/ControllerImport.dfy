/** What the controllers hold, merged into one summary per card number. */
module ControllerImport {
  import opened Common
  import opened Sorting
  import opened Oid

  datatype RawCard = RawCard(pin: U32, from: Option<int>, to: Option<int>, doors: map<nat, nat>, firstCard: bool)

  /** By controller, then by card number. */
  type Raw = map<U32, map<U32, RawCard>>

  /** The doors of each locally configured controller. */
  type Wiring = map<U32, map<nat, OID>>

  datatype Summary = Summary(card: RawCard, controllers: seq<U32>, relays: set<OID>, unsupported: bool,
                             conflict: bool) {
    predicate Supported() {
      !conflict && !unsupported
    }

    predicate Resolvable() {
      conflict && !unsupported
    }
  }

  predicate Differs(a: RawCard, b: RawCard, withPIN: bool) {
    a.from != b.from || a.to != b.to || (withPIN && a.pin != b.pin)
  }

  /** The relays a card opens on a controller. A controller that is not configured here
      contributes nothing. */
  function RelaysOn(wiring: Wiring, c: U32, card: RawCard): set<OID> {
    if c in wiring then set d | d in card.doors && card.doors[d] == 1 && d in wiring[c] :: wiring[c][d] else {}
  }

  /** A time profile, a relay that no local door is wired to, or a first-card privilege. */
  predicate DoorUnsupported(wiring: Wiring, c: U32, card: RawCard, d: nat) {
    d in card.doors && card.doors[d] != 0 && (card.doors[d] != 1 || (c in wiring && d !in wiring[c]))
  }

  ghost predicate Unsupported(wiring: Wiring, c: U32, card: RawCard) {
    card.firstCard || exists d :: DoorUnsupported(wiring, c, card, d)
  }

  predicate Holds(raw: Raw, c: U32, n: U32) {
    c in raw && n in raw[c]
  }

  /** The summary of what the visited controllers say about one number. */
  ghost predicate Summarises(raw: Raw, wiring: Wiring, withPIN: bool, visited: set<U32>, n: U32, s: Summary) {
    && (exists c :: c in visited && Holds(raw, c, n) && s.card == raw[c][n])
    && Distinct(s.controllers) && (forall c :: c in s.controllers <==> c in visited && Holds(raw, c, n))
    && (forall o :: o in s.relays <==>
          exists c :: c in visited && Holds(raw, c, n) && o in RelaysOn(wiring, c, raw[c][n]))
    && (s.unsupported <==> exists c :: c in visited && Holds(raw, c, n) && Unsupported(wiring, c, raw[c][n]))
    && (s.conflict <==> exists c :: c in visited && Holds(raw, c, n) && Differs(s.card, raw[c][n], withPIN))
  }

  ghost predicate NotSeen(raw: Raw, visited: set<U32>, n: U32) {
    forall c :: c in visited ==> !Holds(raw, c, n)
  }

  ghost function Absorbed(a: Option<Summary>, wiring: Wiring, c: U32, card: RawCard, withPIN: bool): Summary {
    var relays, unsupported := RelaysOn(wiring, c, card), Unsupported(wiring, c, card);
    match a
    case None => Summary(card, [c], relays, unsupported, false)
    case Some(s) =>
      Summary(s.card, s.controllers + [c], s.relays + relays,
              s.unsupported || unsupported, s.conflict || Differs(s.card, card, withPIN))
  }

  lemma FirstVisit(raw: Raw, wiring: Wiring, withPIN: bool, visited: set<U32>, c: U32, n: U32)
    requires c !in visited && Holds(raw, c, n) && NotSeen(raw, visited, n)
    ensures Summarises(raw, wiring, withPIN, visited + {c}, n, Absorbed(None, wiring, c, raw[c][n], withPIN))
  {
    assert c in visited + {c};
  }

  /** Adding one more witness to a union over the visited controllers. */
  lemma RelaysStep(raw: Raw, wiring: Wiring, visited: set<U32>, c: U32, n: U32, relays: set<OID>, o: OID)
    requires Holds(raw, c, n)
    requires o in relays <==> exists k :: k in visited && Holds(raw, k, n) && o in RelaysOn(wiring, k, raw[k][n])
    ensures o in relays + RelaysOn(wiring, c, raw[c][n]) <==>
              exists k :: k in visited + {c} && Holds(raw, k, n) && o in RelaysOn(wiring, k, raw[k][n])
  {
    if o in relays {
      var k :| k in visited && Holds(raw, k, n) && o in RelaysOn(wiring, k, raw[k][n]);
      assert k in visited + {c};
    }
    assert c in visited + {c};
  }

  lemma NextVisit(raw: Raw, wiring: Wiring, withPIN: bool, visited: set<U32>, c: U32, n: U32, s: Summary)
    requires c !in visited && Holds(raw, c, n) && Summarises(raw, wiring, withPIN, visited, n, s)
    ensures Summarises(raw, wiring, withPIN, visited + {c}, n, Absorbed(Some(s), wiring, c, raw[c][n], withPIN))
  {
    var t := Absorbed(Some(s), wiring, c, raw[c][n], withPIN);
    var all := visited + {c};
    assert c in all;
    var k :| k in visited && Holds(raw, k, n) && s.card == raw[k][n];
    assert k in all;
    forall o: OID ensures o in t.relays <==>
        exists k :: k in all && Holds(raw, k, n) && o in RelaysOn(wiring, k, raw[k][n]) {
      RelaysStep(raw, wiring, visited, c, n, s.relays, o);
    }
    if s.unsupported {
      var k :| k in visited && Holds(raw, k, n) && Unsupported(wiring, k, raw[k][n]);
      assert k in all;
    }
    if s.conflict {
      var k :| k in visited && Holds(raw, k, n) && Differs(s.card, raw[k][n], withPIN);
      assert k in all;
    }
  }

  lemma SameVisit(raw: Raw, wiring: Wiring, withPIN: bool, visited: set<U32>, c: U32, n: U32, s: Summary)
    requires !Holds(raw, c, n) && Summarises(raw, wiring, withPIN, visited, n, s)
    ensures Summarises(raw, wiring, withPIN, visited + {c}, n, s)
  {
    var all := visited + {c};
    assert forall k :: k in all && Holds(raw, k, n) ==> k in visited;
    assert forall k :: k in visited ==> k in all;
  }

  /** One controller's entry for a card; its doors come in any order. */
  method Absorb(a: Option<Summary>, wiring: Wiring, c: U32, card: RawCard, withPIN: bool) returns (s: Summary)
    ensures s == Absorbed(a, wiring, c, card, withPIN)
  {
    var relays: set<OID>, unsupported := {}, false;
    var todo := card.doors.Keys;
    while todo != {}
      invariant todo <= card.doors.Keys
      invariant forall o :: o in relays <==>
                  c in wiring && exists d ::
                      d in card.doors && d !in todo && card.doors[d] == 1 && d in wiring[c] && wiring[c][d] == o
      invariant unsupported <==> exists d :: d !in todo && DoorUnsupported(wiring, c, card, d)
    {
      var d :| d in todo;
      ghost var before := todo;
      todo := todo - {d};
      assert forall e :: e !in todo <==> e !in before || e == d;
      var profile := card.doors[d];
      if profile == 0 {
        continue;
      }
      if profile != 1 {
        unsupported := true;
        continue;
      }
      if c in wiring {
        if d in wiring[c] {
          relays := relays + {wiring[c][d]};
        } else {
          unsupported := true;
        }
      }
    }
    assert relays == RelaysOn(wiring, c, card);
    if card.firstCard {
      unsupported := true;
    }
    match a
    case None =>
      s := Summary(card, [c], relays, unsupported, false);
    case Some(b) =>
      s := Summary(b.card, b.controllers + [c], b.relays + relays,
                   b.unsupported || unsupported, b.conflict || Differs(b.card, card, withPIN));
  }

  /** The summaries after some controllers, and part of one more. */
  ghost predicate MergedUpTo(raw: Raw, wiring: Wiring, withPIN: bool, visited: set<U32>, merged: map<U32, Summary>,
                             n: U32) {
    if n in merged then Summarises(raw, wiring, withPIN, visited, n, merged[n]) else NotSeen(raw, visited, n)
  }

  lemma MergedStep(raw: Raw, wiring: Wiring, withPIN: bool, visited: set<U32>, merged: map<U32, Summary>, c: U32,
                   n: U32)
    requires c !in visited && MergedUpTo(raw, wiring, withPIN, visited, merged, n)
    ensures !Holds(raw, c, n) ==> MergedUpTo(raw, wiring, withPIN, visited + {c}, merged, n)
    ensures Holds(raw, c, n) ==>
              Summarises(raw, wiring, withPIN, visited + {c}, n,
                         Absorbed(if n in merged then Some(merged[n]) else None, wiring, c, raw[c][n], withPIN))
  {
    if Holds(raw, c, n) {
      if n in merged {
        NextVisit(raw, wiring, withPIN, visited, c, n, merged[n]);
      } else {
        FirstVisit(raw, wiring, withPIN, visited, c, n);
      }
    } else if n in merged {
      SameVisit(raw, wiring, withPIN, visited, c, n, merged[n]);
    }
  }

  method MergeController(raw: Raw, wiring: Wiring, withPIN: bool, ghost visited: set<U32>, c: U32,
                         merged: map<U32, Summary>)
    returns (merged': map<U32, Summary>)
    requires c in raw && c !in visited
    requires forall n: U32 :: MergedUpTo(raw, wiring, withPIN, visited, merged, n)
    ensures forall n: U32 :: MergedUpTo(raw, wiring, withPIN, visited + {c}, merged', n)
  {
    merged' := merged;
    var todo := raw[c].Keys;
    while todo != {}
      invariant todo <= raw[c].Keys
      invariant forall n: U32 ::
                  if n in raw[c] && n !in todo then MergedUpTo(raw, wiring, withPIN, visited + {c}, merged', n)
                                 else MergedUpTo(raw, wiring, withPIN, visited, merged', n)
    {
      var n :| n in todo;
      MergedStep(raw, wiring, withPIN, visited, merged', c, n);
      var a := if n in merged' then Some(merged'[n]) else None;
      var s := Absorb(a, wiring, c, raw[c][n], withPIN);
      ghost var before := merged';
      merged', todo := merged'[n := s], todo - {n};
      assert forall k: U32, v :: k != n && MergedUpTo(raw, wiring, withPIN, v, before, k) ==>
               MergedUpTo(raw, wiring, withPIN, v, merged', k);
    }
    forall n: U32 ensures MergedUpTo(raw, wiring, withPIN, visited + {c}, merged', n) {
      if n !in raw[c] {
        MergedStep(raw, wiring, withPIN, visited, merged', c, n);
      }
    }
  }

  /** The numbers of all cards on all controllers. */
  function Numbers(raw: Raw): set<U32> {
    set c, n | c in raw && n in raw[c] :: n
  }

  lemma MergedNumbers(raw: Raw, wiring: Wiring, withPIN: bool, merged: map<U32, Summary>)
    requires forall n: U32 :: MergedUpTo(raw, wiring, withPIN, raw.Keys, merged, n)
    ensures merged.Keys == Numbers(raw)
  {
    forall n: U32 ensures n in merged <==> n in Numbers(raw) {
      assert MergedUpTo(raw, wiring, withPIN, raw.Keys, merged, n);
    }
  }

  /** All controllers that hold the card agree on its dates, and its PIN when PINs matter. */
  ghost predicate Agreed(raw: Raw, withPIN: bool, n: U32) {
    forall b, c :: Holds(raw, b, n) && Holds(raw, c, n) ==> !Differs(raw[b][n], raw[c][n], withPIN)
  }

  ghost predicate Importable(raw: Raw, wiring: Wiring, n: U32) {
    forall c :: Holds(raw, c, n) ==> !Unsupported(wiring, c, raw[c][n])
  }

  /** Which entry was seen first does not matter: whether a card is supported, or can be once
      a controller is chosen, depends on the controllers alone. */
  lemma SupportIsOrderFree(raw: Raw, wiring: Wiring, withPIN: bool, n: U32, s: Summary)
    requires Summarises(raw, wiring, withPIN, raw.Keys, n, s)
    ensures s.Supported() <==> Agreed(raw, withPIN, n) && Importable(raw, wiring, n)
    ensures s.Resolvable() <==> !Agreed(raw, withPIN, n) && Importable(raw, wiring, n)
  {
    var c :| c in raw && Holds(raw, c, n) && s.card == raw[c][n];
    if s.conflict {
      var b :| b in raw && Holds(raw, b, n) && Differs(s.card, raw[b][n], withPIN);
      assert Differs(raw[c][n], raw[b][n], withPIN);
    }
    if !Agreed(raw, withPIN, n) {
      var a, b :| Holds(raw, a, n) && Holds(raw, b, n) && Differs(raw[a][n], raw[b][n], withPIN);
      assert Differs(s.card, raw[a][n], withPIN) || Differs(s.card, raw[b][n], withPIN);
    }
  }

  // ---- In terms of the controllers' own lists ----

  /** Some controller that holds the card has profile 1 for it on a channel that is locally wired to
      the door. */
  ghost predicate OpensOn(raw: Raw, wiring: Wiring, n: U32, door: OID) {
    exists c, d :: c in raw && n in raw[c] && d in raw[c][n].doors && raw[c][n].doors[d] == 1
                   && c in wiring && d in wiring[c] && wiring[c][d] == door
  }

  /** A controller that holds the card has a first-card privilege for it, a time profile, or an open
      relay that is not assigned locally. */
  ghost predicate UnfitOn(raw: Raw, wiring: Wiring, n: U32, c: U32) {
    && c in raw && n in raw[c]
    && (raw[c][n].firstCard
        || exists d :: d in raw[c][n].doors && raw[c][n].doors[d] != 0
                       && (raw[c][n].doors[d] == 1 ==> c in wiring && d !in wiring[c]))
  }

  ghost predicate DifferOn(raw: Raw, withPIN: bool, n: U32, b: U32, c: U32) {
    && b in raw && n in raw[b] && c in raw && n in raw[c]
    && (raw[b][n].from != raw[c][n].from || raw[b][n].to != raw[c][n].to
        || (withPIN && raw[b][n].pin != raw[c][n].pin))
  }

  ghost predicate Unfit(raw: Raw, wiring: Wiring, n: U32) {
    exists c :: UnfitOn(raw, wiring, n, c)
  }

  ghost predicate Conflicting(raw: Raw, withPIN: bool, n: U32) {
    exists b, c :: DifferOn(raw, withPIN, n, b, c)
  }

  /** What a summary says of a card. */
  ghost predicate SummaryMeans(raw: Raw, wiring: Wiring, withPIN: bool, n: U32, s: Summary) {
    && (exists c :: c in raw && n in raw[c] && s.card == raw[c][n])
    && Distinct(s.controllers) && (forall c :: c in s.controllers <==> c in raw && n in raw[c])
    && (forall o :: o in s.relays <==> OpensOn(raw, wiring, n, o))
    && (s.Supported() <==> !Unfit(raw, wiring, n) && !Conflicting(raw, withPIN, n))
    && (s.Resolvable() <==> !Unfit(raw, wiring, n) && Conflicting(raw, withPIN, n))
  }

  lemma UnfitIsUnsupported(raw: Raw, wiring: Wiring, n: U32, c: U32)
    requires Holds(raw, c, n)
    ensures UnfitOn(raw, wiring, n, c) <==> Unsupported(wiring, c, raw[c][n])
  {
    var card := raw[c][n];
    if d :| DoorUnsupported(wiring, c, card, d) {
      assert d in card.doors && card.doors[d] != 0;
    }
    if UnfitOn(raw, wiring, n, c) && !card.firstCard {
      var d :| d in card.doors && card.doors[d] != 0 && (card.doors[d] == 1 ==> c in wiring && d !in wiring[c]);
      assert DoorUnsupported(wiring, c, card, d);
    }
  }

  lemma RelaysMean(raw: Raw, wiring: Wiring, n: U32, o: OID)
    ensures OpensOn(raw, wiring, n, o) <==> exists c :: Holds(raw, c, n) && o in RelaysOn(wiring, c, raw[c][n])
  {
    if OpensOn(raw, wiring, n, o) {
      var c, d :| c in raw && n in raw[c] && d in raw[c][n].doors && raw[c][n].doors[d] == 1
                  && c in wiring && d in wiring[c] && wiring[c][d] == o;
      assert o in RelaysOn(wiring, c, raw[c][n]);
    }
  }

  lemma SummaryIs(raw: Raw, wiring: Wiring, withPIN: bool, n: U32, s: Summary)
    requires Summarises(raw, wiring, withPIN, raw.Keys, n, s)
    ensures SummaryMeans(raw, wiring, withPIN, n, s)
  {
    SupportIsOrderFree(raw, wiring, withPIN, n, s);
    assert Conflicting(raw, withPIN, n) <==> !Agreed(raw, withPIN, n) by {
      if Conflicting(raw, withPIN, n) {
        var b, c :| DifferOn(raw, withPIN, n, b, c);
        assert Holds(raw, b, n) && Holds(raw, c, n) && Differs(raw[b][n], raw[c][n], withPIN);
      }
      if !Agreed(raw, withPIN, n) {
        var b, c :| Holds(raw, b, n) && Holds(raw, c, n) && Differs(raw[b][n], raw[c][n], withPIN);
        assert DifferOn(raw, withPIN, n, b, c);
      }
    }
    forall c | Holds(raw, c, n) ensures UnfitOn(raw, wiring, n, c) <==> Unsupported(wiring, c, raw[c][n]) {
      UnfitIsUnsupported(raw, wiring, n, c);
    }
    assert Unfit(raw, wiring, n) <==> !Importable(raw, wiring, n) by {
      if c :| UnfitOn(raw, wiring, n, c) {
        assert Holds(raw, c, n);
      }
    }
    forall o ensures o in s.relays <==> OpensOn(raw, wiring, n, o) {
      RelaysMean(raw, wiring, n, o);
    }
  }

  /** A summary for every card that some controller holds. */
  ghost predicate ReadMeans(raw: Raw, wiring: Wiring, withPIN: bool, merged: map<U32, Summary>) {
    forall n: U32 ::
      && (n in merged <==> exists c :: c in raw && n in raw[c])
      && (n in merged ==> SummaryMeans(raw, wiring, withPIN, n, merged[n]))
  }

  lemma ReadIs(raw: Raw, wiring: Wiring, withPIN: bool, merged: map<U32, Summary>)
    requires forall n: U32 :: MergedUpTo(raw, wiring, withPIN, raw.Keys, merged, n)
    ensures ReadMeans(raw, wiring, withPIN, merged)
  {
    forall n: U32
      ensures n in merged <==> exists c :: c in raw && n in raw[c]
      ensures n in merged ==> SummaryMeans(raw, wiring, withPIN, n, merged[n])
    {
      assert MergedUpTo(raw, wiring, withPIN, raw.Keys, merged, n);
      if n in merged {
        SummaryIs(raw, wiring, withPIN, n, merged[n]);
      } else if c :| c in raw && n in raw[c] {
        assert Holds(raw, c, n);
      }
    }
  }

  /** Merges what every controller holds; the controllers come in any order. */
  method ReadControllerImport(raw: Raw, wiring: Wiring, withPIN: bool) returns (merged: map<U32, Summary>)
    ensures forall n: U32 :: MergedUpTo(raw, wiring, withPIN, raw.Keys, merged, n)
    ensures ReadMeans(raw, wiring, withPIN, merged)
  {
    merged := map[];
    var todo := raw.Keys;
    while todo != {}
      invariant todo <= raw.Keys
      invariant forall n: U32 :: MergedUpTo(raw, wiring, withPIN, raw.Keys - todo, merged, n)
    {
      var c :| c in todo;
      merged := MergeController(raw, wiring, withPIN, raw.Keys - todo, c, merged);
      assert raw.Keys - todo + {c} == raw.Keys - (todo - {c});
      todo := todo - {c};
    }
    assert raw.Keys - {} == raw.Keys;
    ReadIs(raw, wiring, withPIN, merged);
  }

  // ---- The card whose details are imported ----

  const NO_CARD := RawCard(0, None, None, map[], false)

  method CollectKeys<T>(m: map<U32, T>) returns (keys: seq<U32>)
    ensures Distinct(keys) && forall k :: k in keys <==> k in m
  {
    keys := [];
    var todo := m.Keys;
    while todo != {}
      invariant todo <= m.Keys && Distinct(keys)
      invariant forall k :: k in keys <==> k in m && k !in todo
    {
      var k :| k in todo;
      keys, todo := keys + [k], todo - {k};
    }
  }

  function Ascending(keys: seq<U32>): seq<U32> {
    SortBy(keys, (k: U32) => k)
  }

  /** Sorting loses and repeats nothing. */
  lemma AscendingIs(keys: seq<U32>)
    requires Distinct(keys)
    ensures var s := Ascending(keys);
            && |s| == |keys| && (forall k :: k in s <==> k in keys)
            && forall i, j :: 0 <= i < j < |s| ==> s[i] < s[j]
  {
    var key := (k: U32) => k;
    var s := Ascending(keys);
    SortByCorrect(keys, key);
    assert |multiset(s)| == |multiset(keys)|;
    forall k: U32 ensures k in s <==> k in keys {
      assert k in multiset(s) <==> k in multiset(keys);
    }
    forall i, j | 0 <= i < j < |s| ensures s[i] < s[j] {
      assert key(s[i]) <= key(s[j]);
      if s[i] == s[j] {
        assert multiset(s)[s[i]] == multiset(keys)[s[i]];
        Once(keys, s[i]);
        Twice(s, i, j);
      }
    }
  }

  lemma Twice(s: seq<U32>, i: nat, j: nat)
    requires i < j < |s| && s[i] == s[j]
    ensures multiset(s)[s[i]] >= 2
  {
    assert s == s[..j] + s[j..];
    assert s[..j][i] == s[i] && s[j..][0] == s[j];
    assert s[i] in multiset(s[..j]) && s[i] in multiset(s[j..]);
  }

  lemma {:induction false} Once(s: seq<U32>, x: U32)
    requires Distinct(s)
    ensures multiset(s)[x] <= 1
  {
    if s != [] {
      Once(s[1..], x);
      assert s == [s[0]] + s[1..];
      if x == s[0] {
        assert x !in s[1..];
        assert x !in multiset(s[1..]);
      }
    }
  }

  /** The selected controller's entry, or else that of the lowest-numbered controller that
      has one, or else an empty card. */
  ghost predicate IsACLCard(raw: Raw, n: U32, selected: U32, card: RawCard) {
    if selected != 0 && Holds(raw, selected, n) then card == raw[selected][n]
    else if NotSeen(raw, raw.Keys, n) then card == NO_CARD
    else exists c :: Holds(raw, c, n) && card == raw[c][n] && forall b :: Holds(raw, b, n) ==> c <= b
  }

  lemma LowestHolder(raw: Raw, n: U32, ids: seq<U32>, i: nat)
    requires i < |ids| && (forall c :: c in ids <==> c in raw) && forall j, k :: 0 <= j < k < |ids| ==> ids[j] < ids[k]
    requires Holds(raw, ids[i], n) && forall j :: 0 <= j < i ==> !Holds(raw, ids[j], n)
    ensures forall b :: Holds(raw, b, n) ==> ids[i] <= b
  {
    forall b | Holds(raw, b, n) ensures ids[i] <= b {
      assert b in ids;
      var j :| 0 <= j < |ids| && ids[j] == b;
    }
  }

  method FindACLCard(raw: Raw, n: U32, selected: U32) returns (card: RawCard)
    ensures IsACLCard(raw, n, selected, card)
  {
    if selected != 0 && selected in raw && n in raw[selected] {
      return raw[selected][n];
    }
    var collected := CollectKeys(raw);
    AscendingIs(collected);
    var ids := Ascending(collected);
    for i := 0 to |ids|
      invariant forall j :: 0 <= j < i ==> !Holds(raw, ids[j], n)
    {
      if n in raw[ids[i]] {
        LowestHolder(raw, n, ids, i);
        return raw[ids[i]][n];
      }
    }
    card := NO_CARD;
  }

  /** For an agreed card every controller's entry gives the same details. */
  lemma AgreedDetails(raw: Raw, withPIN: bool, n: U32, card: RawCard, b: U32)
    requires IsACLCard(raw, n, 0, card) && Agreed(raw, withPIN, n) && Holds(raw, b, n)
    ensures !Differs(card, raw[b][n], withPIN)
  {
  }
}
