/** Merging the access levels that grant one door: "none" is 0, "unrestricted" is 1 and any
    other number is a controller time profile. */
module LevelMerge {
  import opened Common

  predicate Timed(p: int) {
    p != 0 && p != 1
  }

  /** One step of the merge; two different time profiles cannot be combined. */
  function Resolve(current: int, profile: int): Option<int> {
    if current != 0 && current != profile && current != 1 && profile != 1 then None
    else if current == 0 || profile == 1 then Some(profile)
    else Some(current)
  }

  /** The merge of a set of levels, whatever the order: 0 if there are none, 1 if any is
      unrestricted, else the one time profile they all have. */
  ghost predicate Merges(profiles: set<int>, v: int) {
    || (profiles == {} && v == 0)
    || (1 in profiles && v == 1)
    || (profiles == {v} && v != 0)
  }

  ghost predicate Clashing(profiles: set<int>) {
    exists p, q :: p in profiles && q in profiles && p != q && Timed(p) && Timed(q)
  }

  lemma MergeIsUnique(profiles: set<int>, v: int, w: int)
    requires Merges(profiles, v) && Merges(profiles, w)
    ensures v == w
  {
    if 1 in profiles && profiles == {v} {
      assert 1 in {v};
    }
    if 1 in profiles && profiles == {w} {
      assert 1 in {w};
    }
    if profiles == {v} && profiles == {w} {
      assert v in {w};
    }
  }

  lemma ResolveMerges(profiles: set<int>, current: int, profile: int)
    requires Merges(profiles, current) && 0 !in profiles && profile != 0
    ensures Resolve(current, profile).Some? ==> Merges(profiles + {profile}, Resolve(current, profile).value)
    ensures Resolve(current, profile).None? ==> Clashing(profiles + {profile})
    ensures profile == 1 ==> Resolve(current, profile) == Some(1)
  {
    if profiles == {current} && profile == current {
      assert profiles + {profile} == {current};
    }
    if profiles == {} {
      assert profiles + {profile} == {profile};
    }
    if Resolve(current, profile).None? {
      assert current in profiles + {profile} && profile in profiles + {profile};
    }
  }

  // ---- The merge as a fold over one order ----

  function Fold(levels: seq<int>): Option<int> {
    if levels == [] then Some(0)
    else
      match Fold(levels[..|levels| - 1])
      case None => None
      case Some(v) => Resolve(v, levels[|levels| - 1])
  }

  /** Two different time profiles occur before the first unrestricted level. */
  ghost predicate ClashFirst(levels: seq<int>) {
    exists i, j :: 0 <= i < j < |levels| && levels[i] != levels[j] && forall k :: 0 <= k <= j ==> levels[k] != 1
  }

  /** The fold fails exactly when two different time profiles come before the first
      unrestricted level; otherwise it computes the merge of the set. */
  lemma {:induction false} FoldExact(levels: seq<int>)
    requires 0 !in levels
    ensures Fold(levels).None? <==> ClashFirst(levels)
    ensures Fold(levels).Some? ==> Merges(Elements(levels), Fold(levels).value)
  {
    if levels == [] {
      assert Elements(levels) == {};
    } else {
      var n := |levels| - 1;
      var front, last := levels[..n], levels[n];
      assert levels == front + [last];
      ElementsStep(front, last);
      assert last in Elements(levels) && 0 !in Elements(levels);
      FoldExact(front);
      if Fold(front).Some? {
        ResolveMerges(Elements(front), Fold(front).value, last);
      }
      ClashStep(levels, n);
    }
  }

  /** A clash is either there already, or it is between the last level and an earlier one. */
  lemma ClashSplit(levels: seq<int>, n: nat)
    requires |levels| == n + 1
    ensures ClashFirst(levels) <==>
              ClashFirst(levels[..n]) || (1 !in levels && exists i :: 0 <= i < n && levels[i] != levels[n])
  {
    var front := levels[..n];
    assert forall k :: 0 <= k < n ==> front[k] == levels[k];
    if ClashFirst(front) {
      var i, j :| 0 <= i < j < |front| && front[i] != front[j] && forall k :: 0 <= k <= j ==> front[k] != 1;
      assert levels[i] != levels[j] && forall k :: 0 <= k <= j ==> levels[k] != 1;
    }
    if ClashFirst(levels) {
      var i, j :| 0 <= i < j < |levels| && levels[i] != levels[j] && forall k :: 0 <= k <= j ==> levels[k] != 1;
      if j < n {
        assert front[i] != front[j] && forall k :: 0 <= k <= j ==> front[k] != 1;
      }
    }
  }

  lemma ClashStep(levels: seq<int>, n: nat)
    requires 0 !in levels && |levels| == n + 1
    requires Fold(levels[..n]).None? <==> ClashFirst(levels[..n])
    requires Fold(levels[..n]).Some? ==> Merges(Elements(levels[..n]), Fold(levels[..n]).value)
    ensures Fold(levels).None? <==> ClashFirst(levels)
  {
    var front, last := levels[..n], levels[n];
    ClashSplit(levels, n);
    assert levels == front + [last];
    assert last in levels;
    if Fold(front).Some? {
      ResolveFails(Elements(front), Fold(front).value, last);
      if p :| p in Elements(front) && p != last {
        var i :| 0 <= i < n && front[i] == p;
        assert levels[i] != levels[n];
      } else {
        assert forall i :: 0 <= i < n ==> levels[i] == front[i] && front[i] in Elements(front);
      }
    }
  }

  lemma ResolveFails(profiles: set<int>, v: int, last: int)
    requires Merges(profiles, v) && 0 !in profiles && last != 0
    ensures Resolve(v, last).None? <==> 1 !in profiles && last != 1 && exists p :: p in profiles && p != last
  {
    if profiles == {v} {
      assert v in profiles;
    }
  }

  /** Any two orders of the same levels that both succeed agree. */
  lemma OrderDoesNotMatter(a: seq<int>, b: seq<int>)
    requires 0 !in a && 0 !in b && Elements(a) == Elements(b)
    requires Fold(a).Some? && Fold(b).Some?
    ensures Fold(a) == Fold(b)
  {
    FoldExact(a);
    FoldExact(b);
    MergeIsUnique(Elements(a), Fold(a).value, Fold(b).value);
  }

  /** Whether it succeeds does depend on the order: an unrestricted level that comes first
      hides a clash that it does not hide when it comes last. */
  lemma SuccessDependsOnOrder()
    ensures Fold([1, 7, 9]) == Some(1) && Fold([7, 9, 1]) == None
  {
    var a, b := [1, 7, 9], [7, 9, 1];
    assert a[..2] == [1, 7] && a[..2][..1] == [1] && a[..2][..1][..0] == [];
    assert b[..2] == [7, 9] && b[..2][..1] == [7] && b[..2][..1][..0] == [];
    assert Fold([1]) == Some(1) && Fold([7]) == Some(7);
    assert Fold([1, 7]) == Some(1) && Fold([7, 9]) == None;
  }
}
