/**
 Insertion, deletion and iteration in lists of global roots, and the two lists of
 generational roots (byterun/globroots.c).
 */
module GlobRoots {
  import opened SkipList

  // ----- All levels at once -----

  /** `update[i]` is what comes before the root `r` at each level `i` up to `level`. */
  ghost predicate PlaceOk(lists: seq<seq<nat>>, r: nat, update: seq<int>, cuts: seq<nat>, i: nat) {
    i < |update| && i < |cuts| && i < |lists| ==>
      IsCut(lists[i], r, cuts[i]) && update[i] == Before(lists[i], cuts[i])
  }

  ghost predicate PlacesOk(lists: seq<seq<nat>>, r: nat, update: seq<int>, cuts: seq<nat>, from: nat) {
    forall i: nat {:trigger PlaceOk(lists, r, update, cuts, i)} :: from <= i ==> PlaceOk(lists, r, update, cuts, i)
  }

  /** The lists once `r` is in the first `n` of them. */
  ghost function WithRoot(lists: seq<seq<nat>>, cuts: seq<nat>, r: nat, n: nat): seq<seq<nat>>
    requires |cuts| == |lists| && forall i :: 0 <= i < |lists| ==> cuts[i] <= |lists[i]|
  {
    seq(|lists|, i requires 0 <= i < |lists| => if i < n then Inserted(lists[i], cuts[i], r) else lists[i])
  }

  /** The lists once `r` is out of the first `n` of them. */
  ghost function WithoutRoot(lists: seq<seq<nat>>, cuts: seq<nat>, r: nat, n: nat): seq<seq<nat>>
    requires |cuts| == |lists|
  {
    seq(|lists|, i requires 0 <= i < |lists| => if i < n
      && LinkAt(lists[i], cuts[i]) == To(r) then Removed(lists[i], cuts[i]) else lists[i])
  }

  lemma InsertLevel(fw: Links, lists: seq<seq<nat>>, update: seq<int>, cuts: seq<nat>, r: nat, n: nat)
    requires |cuts| == |lists| && forall i :: 0 <= i < |lists| ==> cuts[i] <= |lists[i]|
    requires AllLevels(fw, WithRoot(lists, cuts, r, n))
    requires n < |lists| && PlaceOk(lists, r, update, cuts, n) && n < |update| && r !in lists[n]
    ensures (update[n], n) in fw
    ensures AllLevels(LinkIn(fw, n, update[n], r), WithRoot(lists, cuts, r, n + 1)) == true
  {
    assert LevelOk(fw, WithRoot(lists, cuts, r, n), n);
    ChainInsert(fw, n, lists[n], cuts[n], r);
    var fw', lists' := LinkIn(fw, n, update[n], r), WithRoot(lists, cuts, r, n + 1);
    forall i: nat ensures LevelOk(fw', lists', i) {
      assert LevelOk(fw, WithRoot(lists, cuts, r, n), i);
      if i < |lists| && i != n {
        OtherLevels(fw, fw', n, i, lists'[i]);
      }
    }
  }

  /** Linking out at level `n`, where `r` may not be. */
  function StepOut(fw: Links, i: nat, e: int, r: nat): Links
    requires (e, i) in fw
  {
    if fw[(e, i)] == To(r) && (r as int, i) in fw then LinkOut(fw, i, e, r) else fw
  }

  lemma RemoveLevel(fw: Links, lists: seq<seq<nat>>, update: seq<int>, cuts: seq<nat>, r: nat, n: nat)
    requires |cuts| == |lists|
    requires AllLevels(fw, WithoutRoot(lists, cuts, r, n))
    requires n < |lists| && PlaceOk(lists, r, update, cuts, n) && n < |update|
    ensures (update[n], n) in fw && (fw[(update[n], n)] == To(r) ==> (r as int, n) in fw)
    ensures AllLevels(StepOut(fw, n, update[n], r), WithoutRoot(lists, cuts, r, n + 1)) == true
    ensures r !in WithoutRoot(lists, cuts, r, n + 1)[n]
  {
    assert LevelOk(fw, WithoutRoot(lists, cuts, r, n), n);
    assert Linked(fw, n, lists[n], cuts[n]);
    CutFinds(lists[n], r, cuts[n]);
    if LinkAt(lists[n], cuts[n]) == To(r) {
      ChainRemove(fw, n, lists[n], cuts[n], r);
    }
    var fw', lists' := StepOut(fw, n, update[n], r), WithoutRoot(lists, cuts, r, n + 1);
    forall i: nat ensures LevelOk(fw', lists', i) {
      assert LevelOk(fw, WithoutRoot(lists, cuts, r, n), i);
      if i < |lists| && i != n {
        OtherLevels(fw, fw', n, i, lists'[i]);
      }
    }
  }

  lemma InsertedMembers(list: seq<nat>, k: nat, r: nat)
    requires k <= |list|
    ensures forall x :: x in Inserted(list, k, r) <==> x in list || x == r
  {
    assert list == list[..k] + list[k..];
  }

  lemma RemovedMembers(list: seq<nat>, k: nat)
    requires k < |list| && Sorted(list)
    ensures forall x :: x in Removed(list, k) <==> x in list && x != list[k]
  {
    assert list == list[..k] + [list[k]] + list[k + 1..];
  }

  /** The new root is on the levels up to its own. */
  lemma InsertedOk(fw: Links, lists: seq<seq<nat>>, cuts: seq<nat>, r: nat, height: nat, level: nat)
    requires |cuts| == |lists| == NUM_LEVELS && forall i :: 0 <= i < |lists| ==> cuts[i] <= |lists[i]|
    requires forall i: nat {:trigger Subset(lists, i)} :: Subset(lists, i)
    requires AllLevels(fw, WithRoot(lists, cuts, r, height + 1))
    requires height < NUM_LEVELS && TightLevel(lists, level) && forall i :: level < i < NUM_LEVELS ==> lists[i] == []
    ensures var lists', level' := WithRoot(lists, cuts, r, height + 1), if height > level then height else level;
            && ListsOk(fw, lists', level') && TightLevel(lists', level')
            && Members(lists'[0]) == Members(lists[0]) + {r}
  {
    var lists' := WithRoot(lists, cuts, r, height + 1);
    forall i: nat ensures Subset(lists', i) {
      assert Subset(lists, i);
      if i + 1 < NUM_LEVELS {
        InsertedMembers(lists[i], cuts[i], r);
        InsertedMembers(lists[i + 1], cuts[i + 1], r);
      }
    }
    InsertedMembers(lists[0], cuts[0], r);
  }

  /** A place by which a root can be found. */
  lemma OutMembers(lists: seq<seq<nat>>, update: seq<int>, cuts: seq<nat>, r: nat, n: nat, i: nat)
    requires |cuts| == |lists| <= |update| && i < |lists| && PlaceOk(lists, r, update, cuts, i) && Sorted(lists[i])
    requires i >= n ==> lists[i] == []
    ensures forall x :: x in WithoutRoot(lists, cuts, r, n)[i] <==> x in lists[i] && x != r
  {
    CutFinds(lists[i], r, cuts[i]);
    if LinkAt(lists[i], cuts[i]) == To(r) {
      RemovedMembers(lists[i], cuts[i]);
    }
  }

  lemma RemovedOk(fw: Links, lists: seq<seq<nat>>, update: seq<int>, cuts: seq<nat>, r: nat, level: nat)
    requires |cuts| == |update| == |lists| == NUM_LEVELS && level < NUM_LEVELS && PlacesOk(lists, r, update, cuts, 0)
    requires forall i: nat {:trigger Subset(lists, i)} :: Subset(lists, i)
    requires forall i :: 0 <= i < NUM_LEVELS ==> Sorted(lists[i])
    requires AllLevels(fw, WithoutRoot(lists, cuts, r, level + 1))
    requires forall i :: level < i < NUM_LEVELS ==> lists[i] == []
    ensures var lists' := WithoutRoot(lists, cuts, r, level + 1);
            && ListsOk(fw, lists', level) && Members(lists'[0]) == Members(lists[0]) - {r}
            && forall i :: 0 <= i < NUM_LEVELS ==> r !in lists'[i]
  {
    var lists' := WithoutRoot(lists, cuts, r, level + 1);
    forall i: nat | i < NUM_LEVELS ensures forall x :: x in lists'[i] <==> x in lists[i] && x != r {
      assert PlaceOk(lists, r, update, cuts, i);
      OutMembers(lists, update, cuts, r, level + 1, i);
    }
    forall i: nat ensures Subset(lists', i) {
      assert Subset(lists, i);
    }
  }

  /** The node is freed. */
  function Freed(fw: Links, r: nat): Links {
    map key | key in fw && key.0 != r :: fw[key]
  }

  lemma FreedOk(fw: Links, lists: seq<seq<nat>>, level: nat, r: nat)
    requires ListsOk(fw, lists, level) && forall i :: 0 <= i < NUM_LEVELS ==> r !in lists[i]
    ensures ListsOk(Freed(fw, r), lists, level)
  {
    var fw' := Freed(fw, r);
    forall i: nat ensures LevelOk(fw', lists, i) {
      assert LevelOk(fw, lists, i);
      if i < NUM_LEVELS {
        forall k: nat ensures Linked(fw', i, lists[i], k) {
          assert Linked(fw, i, lists[i], k);
        }
      }
    }
  }

  // ----- A list of roots -----

  /** The nodes before position `k` are less than `r`. */
  ghost predicate AllLess(list: seq<nat>, k: nat, r: nat) {
    k <= |list| && forall j :: 0 <= j < k ==> list[j] < r
  }

  class RootList {
    var level: nat
    var forward: Links
    /** The nodes at each level. */
    ghost var lists: seq<seq<nat>>

    ghost predicate Valid()
      reads this
    {
      ListsOk(forward, lists, level) && TightLevel(lists, level)
    }

    /** The roots in the list. */
    ghost function Roots(): set<nat>
      reads this
      requires Valid()
    {
      Members(lists[0])
    }

    constructor ()
      ensures Valid() && Roots() == {}
    {
      level := 0;
      forward := map i: nat | i < NUM_LEVELS :: (HEAD, i) := Nil;
      lists := seq(NUM_LEVELS, _ => []);
      new;
      forall i: nat ensures LevelOk(forward, lists, i) {
        if i < NUM_LEVELS {
          forall k: nat ensures Linked(forward, i, lists[i], k) {
          }
        }
      }
    }

    /** Move on at level `i` as long as the next node is less than `r`. */
    method Advance(r: nat, i: nat, e: int, ghost k: nat) returns (e': int, ghost k': nat)
      requires Valid() && i < NUM_LEVELS && AllLess(lists[i], k, r) && e == Before(lists[i], k)
      ensures IsCut(lists[i], r, k') && e' == Before(lists[i], k')
    {
      e', k' := e, k;
      ghost var list := lists[i];
      assert LevelOk(forward, lists, i) && Linked(forward, i, list, k');
      var f := forward[(e', i)];
      while f.To? && f.r < r
        invariant AllLess(list, k', r) && e' == Before(list, k') && f == LinkAt(list, k')
        decreases |list| - k'
      {
        e', k' := f.r, k' + 1;
        assert Linked(forward, i, list, k');
        f := forward[(e', i)];
      }
    }

    /** The place of `r` at each level. */
    method FindPlaces(r: nat) returns (update: seq<int>, ghost cuts: seq<nat>)
      requires Valid()
      ensures |update| == |cuts| == NUM_LEVELS && PlacesOk(lists, r, update, cuts, 0)
    {
      update := seq(NUM_LEVELS, _ => HEAD);
      cuts := seq(NUM_LEVELS, _ => 0);
      assert PlacesOk(lists, r, update, cuts, level + 1);
      var e := HEAD;
      ghost var k: nat := 0;
      var i: int := level;
      while i >= 0
        invariant -1 <= i <= level && |update| == |cuts| == NUM_LEVELS && PlacesOk(lists, r, update, cuts, i + 1)
        invariant i >= 0 ==> AllLess(lists[i], k, r) && e == Before(lists[i], k)
      {
        e, k := Advance(r, i, e, k);
        ghost var update0, cuts0 := update, cuts;
        update, cuts := update[i := e], cuts[i := k];
        forall j: nat | i <= j ensures PlaceOk(lists, r, update, cuts, j) {
          assert j > i ==> PlaceOk(lists, r, update0, cuts0, j);
        }
        if i > 0 {
          assert Subset(lists, i - 1) && LevelOk(forward, lists, i - 1);
          k := Descend(lists[i], lists[i - 1], k, r);
        }
        i := i - 1;
      }
    }

    /** Is `r` the node after its place on the lowest level? */
    lemma Found(r: nat, update: seq<int>, cuts: seq<nat>)
      requires Valid() && |update| == |cuts| == NUM_LEVELS && PlacesOk(lists, r, update, cuts, 0)
      ensures (update[0], 0) in forward && (forward[(update[0], 0)] == To(r) <==> r in Roots())
    {
      assert PlaceOk(lists, r, update, cuts, 0) && LevelOk(forward, lists, 0);
      assert Linked(forward, 0, lists[0], cuts[0]);
      CutFinds(lists[0], r, cuts[0]);
    }

    /** `caml_insert_global_root_r`. */
    method Insert(r: nat, seed: nat) returns (seed': nat)
      requires Valid()
      modifies this
      ensures Valid() && Roots() == old(Roots()) + {r}
    {
      ghost var cuts;
      var update;
      update, cuts := FindPlaces(r);
      Found(r, update, cuts);
      if forward[(update[0], 0)] == To(r) {
        return seed;
      }
      var height;
      height, seed' := RandomLevel(seed);
      forall i: nat | i < NUM_LEVELS ensures cuts[i] <= |lists[i]| && r !in lists[i] {
        assert PlaceOk(lists, r, update, cuts, i);
        if r in lists[i] {
          OnLowest(lists, i, r);
        }
      }
      LinkLevels(r, height, update, cuts);
      InsertedOk(forward, lists, cuts, r, height, level);
      lists := WithRoot(lists, cuts, r, height + 1);
      if height > level {
        level := height;
      }
    }

    /** A new node is linked in at the levels up to its height. */
    method LinkLevels(r: nat, height: nat, update: seq<int>, ghost cuts: seq<nat>)
      requires |update| == |cuts| == |lists| == NUM_LEVELS && height < NUM_LEVELS && PlacesOk(lists, r, update, cuts, 0)
      requires AllLevels(forward, lists) && forall i :: 0 <= i < NUM_LEVELS ==> cuts[i] <= |lists[i]| && r !in lists[i]
      modifies this`forward
      ensures AllLevels(forward, WithRoot(lists, cuts, r, height + 1)) == true
    {
      assert WithRoot(lists, cuts, r, 0) == lists;
      for i: nat := 0 to height + 1
        invariant AllLevels(forward, WithRoot(lists, cuts, r, i))
      {
        assert PlaceOk(lists, r, update, cuts, i);
        InsertLevel(forward, lists, update, cuts, r, i);
        forward := LinkIn(forward, i, update[i], r);
      }
    }

    /** `caml_delete_global_root_r`. */
    method Delete(r: nat)
      requires Valid()
      modifies this
      ensures Valid() && Roots() == old(Roots()) - {r}
    {
      ghost var cuts;
      var update;
      update, cuts := FindPlaces(r);
      Found(r, update, cuts);
      if forward[(update[0], 0)] != To(r) {
        return;
      }
      forall i: nat | i < NUM_LEVELS ensures Sorted(lists[i]) {
        assert LevelOk(forward, lists, i);
      }
      UnlinkLevels(r, update, cuts);
      RemovedOk(forward, lists, update, cuts, r, level);
      lists := WithoutRoot(lists, cuts, r, level + 1);
      FreedOk(forward, lists, level, r);
      forward := Freed(forward, r);
      LowerLevel();
    }

    /** The node of `r` is linked out at every level. */
    method UnlinkLevels(r: nat, update: seq<int>, ghost cuts: seq<nat>)
      requires |update| == |cuts| == |lists| == NUM_LEVELS && level < NUM_LEVELS && PlacesOk(lists, r, update, cuts, 0)
      requires AllLevels(forward, lists)
      modifies this`forward
      ensures AllLevels(forward, WithoutRoot(lists, cuts, r, level + 1)) == true
    {
      assert WithoutRoot(lists, cuts, r, 0) == lists;
      for i: nat := 0 to level + 1
        invariant AllLevels(forward, WithoutRoot(lists, cuts, r, i))
      {
        assert PlaceOk(lists, r, update, cuts, i);
        RemoveLevel(forward, lists, update, cuts, r, i);
        if forward[(update[i], i)] == To(r) {
          forward := LinkOut(forward, i, update[i], r);
        }
      }
    }

    /** The level is brought down to that of the highest node. */
    method LowerLevel()
      requires ListsOk(forward, lists, level)
      modifies this`level
      ensures Valid()
    {
      assert LevelOk(forward, lists, level) && Linked(forward, level, lists[level], 0);
      while level > 0 && forward[(HEAD, level)] == Nil
        invariant ListsOk(forward, lists, level) && Linked(forward, level, lists[level], 0)
        decreases level
      {
        level := level - 1;
        assert LevelOk(forward, lists, level) && Linked(forward, level, lists[level], 0);
      }
    }

    /** `caml_iterate_global_roots_r`: the roots that the action is applied to, in order. */
    method Iterate() returns (visited: seq<nat>)
      requires Valid()
      ensures visited == lists[0] && Sorted(visited) && Members(visited) == Roots()
    {
      visited := [];
      ghost var list := lists[0];
      assert LevelOk(forward, lists, 0) && Linked(forward, 0, list, 0);
      var gr := forward[(HEAD, 0)];
      while gr.To?
        invariant |visited| <= |list| && visited == list[..|visited|] && gr == LinkAt(list, |visited|)
        decreases |list| - |visited|
      {
        visited := visited + [gr.r];
        assert Linked(forward, 0, list, |visited|);
        gr := forward[(gr.r, 0)];
      }
    }

    /** `caml_empty_global_roots_r`. */
    method Empty()
      requires Valid()
      modifies this
      ensures Valid() && Roots() == {}
    {
      forward := map i: nat | i < NUM_LEVELS :: (HEAD, i) := Nil;
      level := 0;
      lists := seq(NUM_LEVELS, _ => []);
      forall i: nat ensures LevelOk(forward, lists, i) {
        if i < NUM_LEVELS {
          forall k: nat ensures Linked(forward, i, lists[i], k) {
          }
        }
      }
    }
  }

  /** A node of one level is on the level below, where the nodes before it are less. */
  lemma Descend(upper: seq<nat>, lower: seq<nat>, k: nat, r: nat) returns (k': nat)
    requires (forall x :: x in upper ==> x in lower) && Sorted(lower) && AllLess(upper, k, r)
    ensures AllLess(lower, k', r) && Before(lower, k') == Before(upper, k)
  {
    if k == 0 {
      k' := 0;
    } else {
      var x := upper[k - 1];
      assert x in lower;
      var j :| 0 <= j < |lower| && lower[j] == x;
      k' := j + 1;
    }
  }
}
