/**
 Allocation by first fit as `caml_fl_allocate_r` carries it out, on the sizes of the listed
 blocks, the table and `beyond`: which block it takes, and what the table is then. It takes
 the first block that is large enough as long as the table is exact. Taking a block of the
 table may leave a table that is not exact; when that happens is stated exactly.
 */
module FreeListPick {
  import opened FreeListIndex

  /** The element that is taken, the table and `beyond` then; or no element is found; or the
      buffer that collects new entries has no room for them. */
  datatype Outcome = Pick(c: nat, rec: seq<nat>, bp: int) | Fail(rec: seq<nat>, bp: int) | Overrun

  /** Positions in order, and that of `beyond`, -1 for NULL. */
  ghost predicate Loose(z: seq<nat>, rec: seq<nat>, bp: int) {
    Entries(rec, |z|) && |rec| <= FLP_MAX && -1 <= bp < |z|
  }

  /** What holds between operations: `beyond` is not before the last entry. */
  ghost predicate TableOk(z: seq<nat>, rec: seq<nat>, bp: int) {
    Loose(z, rec, bp) && (bp >= 0 && rec != [] ==> rec[|rec| - 1] <= bp)
  }

  /** What an allocation of `w` words needs: right after an extension of the heap at the end
      of the list `beyond` may be out of date, but the new block is the one that is taken. */
  ghost predicate Ready(z: seq<nat>, rec: seq<nat>, bp: int, w: nat) {
    w >= 1 && (TableOk(z, rec, bp) || (Loose(z, rec, bp) && Hit(z, rec, w)))
  }

  /** No element up to `beyond` is larger than the last entry. */
  ghost predicate BeyondOk(z: seq<nat>, rec: seq<nat>, bp: int) {
    bp < 0 || Below(z, bp + 1, Top(z, rec, |rec|))
  }

  /** The entries are the first records, and there is none between the last one and `beyond`;
      a table that is empty or full makes no use of `beyond`. */
  ghost predicate Exact(z: seq<nat>, rec: seq<nat>, bp: int) {
    Records(z, rec) && (BeyondOk(z, rec, bp) || rec == [] || |rec| == FLP_MAX)
  }

  // ----- The operation -----

  /** Entry `i` is large enough. */
  ghost predicate CanTake(z: seq<nat>, rec: seq<nat>, w: nat, i: nat) {
    Entries(rec, |z|) && i < |rec| && SizeOf(z, rec[i]) >= w >= 1
  }

  lemma TakeWhere(z: seq<nat>, rec: seq<nat>, w: nat, i: nat)
    requires CanTake(z, rec, w, i)
    ensures rec[i] < |z| && z[rec[i]] >= w && forall k :: i < k < |rec| ==> rec[i] < rec[k]
  {
    EntryBefore(rec, |z|, i);
    forall k: nat | i < k < |rec| ensures rec[i] < rec[k] {
      assert InOrder(rec, i, k);
    }
  }

  /** Entry `i`, the last one, is taken. */
  ghost function TakeLast(z: seq<nat>, rec: seq<nat>, w: nat, i: nat): Outcome
    requires CanTake(z, rec, w, i)
  {
    TakeWhere(z, rec, w, i);
    var c := rec[i];
    if Detached(z, c, w) then Pick(c, rec[..i], c as int - 1)
    else if Taken(z, c, w)[c] <= Top(Taken(z, c, w), rec, i) then Pick(c, rec[..i], c)
    else Pick(c, rec, -1)
  }

  /** The entries before entry `i`, from which `w` words are taken, and the new ones in its
      place. */
  ghost function NewEntries(z: seq<nat>, rec: seq<nat>, w: nat, i: nat): seq<nat>
    requires CanTake(z, rec, w, i) && i + 1 < |rec|
  {
    TakeWhere(z, rec, w, i);
    var c := rec[i];
    Collect(Taken(z, c, w), rec[..i], c, Moved(c, Detached(z, c, w), rec[i + 1]), z[c])
  }

  /** The table with the new entries in place of entry `i`. */
  ghost function Spliced(z: seq<nat>, rec: seq<nat>, w: nat, i: nat): (r: seq<nat>)
    requires CanTake(z, rec, w, i) && i + 1 < |rec|
    ensures |r| == |NewEntries(z, rec, w, i)| + |rec| - i - 1
  {
    TakeWhere(z, rec, w, i);
    NewEntries(z, rec, w, i) + MovedAll(rec[i + 1..], rec[i], Detached(z, rec[i], w))
  }

  /** Entry `i`, not the last one, is taken. */
  ghost function TakeInner(z: seq<nat>, rec: seq<nat>, bp: int, w: nat, i: nat): Outcome
    requires CanTake(z, rec, w, i) && i + 1 < |rec|
  {
    TakeWhere(z, rec, w, i);
    var rec' := Spliced(z, rec, w, i);
    if |NewEntries(z, rec, w, i)| - i > FLP_MAX then Overrun
    else if |rec'| <= FLP_MAX then Pick(rec[i], rec', Moved(rec[i], Detached(z, rec[i], w), bp))
    else Pick(rec[i], rec'[..FLP_MAX - 1], rec'[FLP_MAX - 1])
  }

  ghost function TakeEntry(z: seq<nat>, rec: seq<nat>, bp: int, w: nat, i: nat): Outcome
    requires CanTake(z, rec, w, i)
  {
    if i + 1 == |rec| then TakeLast(z, rec, w, i) else TakeInner(z, rec, bp, w, i)
  }

  /** A search behind the full table `rec`; `bp` is `beyond` when it starts. */
  ghost function TakeBehind(z: seq<nat>, rec: seq<nat>, bp: int, w: nat): Outcome
    requires rec != []
  {
    var s := Slow(z, if bp >= 0 then bp + 1 else rec[|rec| - 1], w, Top(z, rec, |rec|), bp);
    if s.c < |z| then Pick(s.c, rec, s.mark) else Fail(rec, s.mark)
  }

  /** Where the extension of the table starts. */
  function Start(rec: seq<nat>, bp: int): nat {
    if rec == [] then 0 else if bp >= 0 then bp + 1 else rec[|rec| - 1] + 1
  }

  /** No entry is large enough: the table is extended, and when it is full the search goes on
      behind it. */
  ghost function TakeFurther(z: seq<nat>, rec: seq<nat>, bp: int, w: nat): Outcome
    requires TableOk(z, rec, bp) && TableSmall(z, rec, w) && w >= 1
  {
    ExtendIs(z, rec, Start(rec, bp), w);
    match Extend(z, rec, Start(rec, bp), w)
    case Found(r) => TakeLast(z, r, w, |r| - 1)
    case Ended(r) => Fail(r, |z| - 1)
    case Full(r) => TakeBehind(z, r, if |rec| < FLP_MAX then r[|r| - 1] else -1, w)
  }

  /** `caml_fl_allocate_r` under the first-fit policy. */
  ghost function Allocate(z: seq<nat>, rec: seq<nat>, bp: int, w: nat): Outcome
    requires Ready(z, rec, bp, w)
  {
    FindEntryIs(z, rec, w, 0);
    var i := FindEntry(z, rec, w, 0);
    if i < |rec| then TakeEntry(z, rec, bp, w, i) else TakeFurther(z, rec, bp, w)
  }

  // ----- The table stays one -----

  /** What an allocation of `w` words makes of the table. */
  ghost predicate Keeps(z: seq<nat>, w: nat, o: Outcome) {
    && (o.Pick? ==> o.c < |z| && z[o.c] >= w && TableOk(Taken(z, o.c, w), o.rec, o.bp))
    && (o.Fail? ==> TableOk(z, o.rec, o.bp) && TableSmall(z, o.rec, w))
  }

  lemma TakeLastKeeps(z: seq<nat>, rec: seq<nat>, w: nat, i: nat)
    requires CanTake(z, rec, w, i) && i + 1 == |rec| <= FLP_MAX
    ensures Keeps(z, w, TakeLast(z, rec, w, i)) == true
  {
    TakeWhere(z, rec, w, i);
    PrefixEntries(rec, |z|, i);
    TakenSizes(z, rec[i], w, rec[i]);
  }

  lemma {:induction false} MovedEntries(rec: seq<nat>, c: nat, detached: bool, p: nat)
    requires Entries(rec, p) && (forall k :: 0 <= k < |rec| ==> rec[k] > c) && p > c
    ensures Entries(MovedAll(rec, c, detached), Moved(c, detached, p))
  {
    var r := MovedAll(rec, c, detached);
    forall i: nat, j: nat ensures InOrder(r, i, j) {
      assert InOrder(rec, i, j);
    }
  }

  lemma ConcatEntries(a: seq<nat>, b: seq<nat>, p: nat, q: nat)
    requires Entries(a, p) && Entries(b, q) && (b != [] ==> p <= b[0])
    ensures Increasing(a + b) && (b != [] ==> Entries(a + b, q))
  {
    forall i: nat, j: nat ensures InOrder(a + b, i, j) {
      if i < j < |a + b| {
        if j < |a| {
          assert InOrder(a, i, j);
        } else if i >= |a| {
          assert InOrder(b, i - |a|, j - |a|);
        } else {
          EntryBefore(a, p, i);
          assert InOrder(b, 0, j - |a|);
        }
      }
    }
  }

  lemma SplicedEntries(z: seq<nat>, rec: seq<nat>, w: nat, i: nat)
    requires CanTake(z, rec, w, i) && i + 1 < |rec|
    ensures var r := Spliced(z, rec, w, i);
            && Entries(r, |Taken(z, rec[i], w)|) && rec[i] < |z|
            && r[|r| - 1] == Moved(rec[i], Detached(z, rec[i], w), rec[|rec| - 1])
    ensures rec[..i] <= NewEntries(z, rec, w, i)
  {
    TakeWhere(z, rec, w, i);
    var c, later := rec[i], rec[i + 1..];
    var detached, q := Detached(z, c, w), rec[i + 1];
    PrefixEntries(rec, |z|, i);
    CollectIs(Taken(z, c, w), rec[..i], c, Moved(c, detached, q), z[c]);
    forall j: nat, k: nat ensures InOrder(later, j, k) {
      assert InOrder(rec, i + 1 + j, i + 1 + k);
    }
    MovedEntries(later, c, detached, |z|);
    ConcatEntries(NewEntries(z, rec, w, i), MovedAll(later, c, detached), Moved(c, detached, q), |Taken(z, c, w)|);
  }

  lemma TakeInnerKeeps(z: seq<nat>, rec: seq<nat>, bp: int, w: nat, i: nat)
    requires CanTake(z, rec, w, i) && i + 1 < |rec| && TableOk(z, rec, bp)
    ensures Keeps(z, w, TakeInner(z, rec, bp, w, i)) == true
  {
    TakeWhere(z, rec, w, i);
    SplicedEntries(z, rec, w, i);
    var r, z' := Spliced(z, rec, w, i), Taken(z, rec[i], w);
    EntryBefore(rec, |z|, i + 1);
    if |r| > FLP_MAX {
      PrefixEntries(r, |z'|, FLP_MAX - 1);
      EntryBefore(r, |z'|, FLP_MAX - 1);
    }
  }

  /** The full table and `beyond` with which the search behind it starts. */
  ghost predicate FullTable(z: seq<nat>, rec: seq<nat>, bp: int, w: nat) {
    && Entries(rec, |z|) && |rec| == FLP_MAX && TableSmall(z, rec, w) && w >= 1
    && (bp == -1 || bp == rec[|rec| - 1])
  }

  lemma BehindIs(z: seq<nat>, rec: seq<nat>, bp: int, w: nat)
    requires FullTable(z, rec, bp, w)
    ensures var n := |rec| - 1;
            var p := if bp >= 0 then bp + 1 else rec[n];
            p <= |z| && SearchedFrom(z, p, w, Top(z, rec, |rec|), bp, Slow(z, p, w, Top(z, rec, |rec|), bp)) == true
  {
    var p := if bp >= 0 then bp + 1 else rec[|rec| - 1];
    SlowIs(z, p, w, Top(z, rec, |rec|), bp);
  }

  lemma TakeBehindKeeps(z: seq<nat>, rec: seq<nat>, bp: int, w: nat)
    requires FullTable(z, rec, bp, w)
    ensures Keeps(z, w, TakeBehind(z, rec, bp, w)) == true
  {
    BehindIs(z, rec, bp, w);
  }

  /** Where `beyond` is when the table has become full, or is so from the start. */
  function FullMark(rec: seq<nat>, full: seq<nat>): int {
    if |rec| < FLP_MAX && full != [] then full[|full| - 1] else -1
  }

  /** The outcome, by what the extension of the table gives. */
  lemma FurtherCases(z: seq<nat>, rec: seq<nat>, bp: int, w: nat)
    requires TableOk(z, rec, bp) && TableSmall(z, rec, w) && w >= 1
    ensures var s := Extend(z, rec, Start(rec, bp), w);
            s.Found? ==> s.rec != [] && CanTake(z, s.rec, w, |s.rec| - 1)
    ensures var s, o := Extend(z, rec, Start(rec, bp), w), TakeFurther(z, rec, bp, w);
            && (s.Found? ==> o == TakeLast(z, s.rec, w, |s.rec| - 1))
            && (s.Ended? ==> o == Fail(s.rec, |z| - 1))
            && (s.Full? ==> FullTable(z, s.rec, FullMark(rec, s.rec), w) == true)
            && (s.Full? && s.rec != [] ==> o == TakeBehind(z, s.rec, FullMark(rec, s.rec), w))
  {
    ExtendIs(z, rec, Start(rec, bp), w);
  }

  lemma TakeFurtherKeeps(z: seq<nat>, rec: seq<nat>, bp: int, w: nat)
    requires TableOk(z, rec, bp) && TableSmall(z, rec, w) && w >= 1
    ensures Keeps(z, w, TakeFurther(z, rec, bp, w)) == true
  {
    ExtendIs(z, rec, Start(rec, bp), w);
    match Extend(z, rec, Start(rec, bp), w)
    case Found(r) => TakeLastKeeps(z, r, w, |r| - 1);
    case Ended(r) =>
    case Full(r) => TakeBehindKeeps(z, r, if |rec| < FLP_MAX then r[|r| - 1] else -1, w);
  }

  lemma AllocateKeeps(z: seq<nat>, rec: seq<nat>, bp: int, w: nat)
    requires Ready(z, rec, bp, w)
    ensures Keeps(z, w, Allocate(z, rec, bp, w)) == true
  {
    FindEntryIs(z, rec, w, 0);
    var i := FindEntry(z, rec, w, 0);
    if i == |rec| {
      TakeFurtherKeeps(z, rec, bp, w);
    } else if i + 1 == |rec| {
      TakeLastKeeps(z, rec, w, i);
    } else {
      HitIsLast(z, rec, w, i);
      TakeInnerKeeps(z, rec, bp, w, i);
    }
  }

  lemma HitIsLast(z: seq<nat>, rec: seq<nat>, w: nat, i: nat)
    requires i + 1 < |rec| && SizeOf(z, rec[i]) >= w
    ensures !Hit(z, rec, w)
  {
    assert rec[i] == rec[..|rec| - 1][i];
  }

  // ----- First fit -----

  /** The entries are records, and either `beyond` is right or it does not matter. */
  ghost predicate ReadyExact(z: seq<nat>, rec: seq<nat>, bp: int, w: nat) {
    Ready(z, rec, bp, w) && Records(z, rec) && (Exact(z, rec, bp) || Hit(z, rec, w))
  }

  /** The element is the first that is large enough, and none is found only if there is none. */
  ghost predicate TakesFirst(z: seq<nat>, w: nat, o: Outcome) {
    (o.Pick? ==> FirstFit(z, w, o.c)) && (o.Fail? ==> NoFit(z, w))
  }

  lemma EntryIsFirst(z: seq<nat>, rec: seq<nat>, w: nat, i: nat)
    requires Records(z, rec) && i < |rec| && SizeOf(z, rec[i]) >= w >= 1 && TableSmall(z, rec[..i], w)
    ensures FirstFit(z, w, rec[i])
  {
    assert i > 0 ==> rec[i - 1] == rec[..i][i - 1];
    RecordIsFirstFit(z, rec, i, w);
  }

  /** No element before the point where the extension starts is larger than the last entry. */
  lemma StartBelow(z: seq<nat>, rec: seq<nat>, bp: int)
    requires TableOk(z, rec, bp) && Exact(z, rec, bp) && |rec| < FLP_MAX
    ensures Below(z, Start(rec, bp), Top(z, rec, |rec|))
  {
    if rec != [] && bp < 0 {
      assert Record(z, rec, |rec| - 1);
    }
  }

  lemma FullIsFirst(z: seq<nat>, rec: seq<nat>, bp: int, w: nat)
    requires FullTable(z, rec, bp, w) && Records(z, rec)
    ensures TakesFirst(z, w, TakeBehind(z, rec, bp, w)) == true
  {
    BehindIs(z, rec, bp, w);
    var n := |rec| - 1;
    assert Record(z, rec, n) && SizeOf(z, rec[n]) < w;
    assert Small(z, w, 0, rec[n] + 1);
  }

  lemma FurtherIsFirst(z: seq<nat>, rec: seq<nat>, bp: int, w: nat)
    requires TableOk(z, rec, bp) && Exact(z, rec, bp) && TableSmall(z, rec, w) && w >= 1
    ensures TakesFirst(z, w, TakeFurther(z, rec, bp, w)) == true
  {
    ScanExact(z, rec, bp, w);
    match Extend(z, rec, Start(rec, bp), w)
    case Found(r) => EntryIsFirst(z, r, w, |r| - 1);
    case Ended(r) =>
    case Full(r) => FullIsFirst(z, r, if |rec| < FLP_MAX then r[|r| - 1] else -1, w);
  }

  /** As long as the table is exact, allocation is by first fit. */
  lemma AllocateIsFirst(z: seq<nat>, rec: seq<nat>, bp: int, w: nat)
    requires ReadyExact(z, rec, bp, w)
    ensures TakesFirst(z, w, Allocate(z, rec, bp, w)) == true
  {
    FindEntryIs(z, rec, w, 0);
    var i := FindEntry(z, rec, w, 0);
    if i < |rec| {
      EntryIsFirst(z, rec, w, i);
    } else {
      FurtherIsFirst(z, rec, bp, w);
    }
  }

  // ----- When the table stays exact -----

  /** Elements before position `n` are the same. */
  lemma FrontRecords(z: seq<nat>, z': seq<nat>, rec: seq<nat>, n: nat)
    requires Records(z, rec) && Entries(rec, n) && n <= |z| && n <= |z'| && z[..n] == z'[..n]
    ensures Records(z', rec) && Top(z', rec, |rec|) == Top(z, rec, |rec|)
  {
    assert forall j :: 0 <= j < n ==> z[j] == z[..n][j] && z'[j] == z'[..n][j];
    forall k: nat | k < |rec| ensures SizeOf(z', rec[k]) == SizeOf(z, rec[k]) && rec[k] < n {
      EntryBefore(rec, n, k);
    }
    forall k: nat ensures Record(z', rec, k) {
      assert Record(z, rec, k);
    }
  }

  /** The entries before entry `i` are still records once its element has been taken. */
  lemma EarlierRecords(z: seq<nat>, rec: seq<nat>, w: nat, i: nat)
    requires CanTake(z, rec, w, i) && Records(z, rec)
    ensures rec[i] < |z| && z[rec[i]] >= w
    ensures var z' := Taken(z, rec[i], w);
            Records(z', rec[..i]) && Below(z', rec[i], Top(z', rec[..i], i)) && Top(z', rec[..i], i) == Top(z, rec, i)
  {
    TakeWhere(z, rec, w, i);
    var c, z' := rec[i], Taken(z, rec[i], w);
    PrefixEntries(rec, |z|, i);
    PrefixRecords(z, rec, i);
    assert z[..c] == z'[..c];
    FrontRecords(z, z', rec[..i], c);
    assert Record(z, rec, i);
    assert forall j :: 0 <= j < c ==> z'[j] == z'[..c][j];
  }

  /** The table after a failure goes to the end of the list, unless it is full. */
  ghost predicate FailsExact(z: seq<nat>, rec: seq<nat>, bp: int) {
    Exact(z, rec, bp) && (|rec| < FLP_MAX ==> Below(z, |z|, Top(z, rec, |rec|)))
  }

  ghost predicate ExactAfter(z: seq<nat>, w: nat, o: Outcome) {
    && (o.Pick? ==> o.c < |z| && z[o.c] >= w && Exact(Taken(z, o.c, w), o.rec, o.bp))
    && (o.Fail? ==> FailsExact(z, o.rec, o.bp))
  }

  lemma TakeLastExact(z: seq<nat>, rec: seq<nat>, w: nat, i: nat)
    requires CanTake(z, rec, w, i) && Records(z, rec) && i + 1 == |rec|
    ensures TakeLast(z, rec, w, i).Pick? && ExactAfter(z, w, TakeLast(z, rec, w, i)) == true
  {
    EarlierRecords(z, rec, w, i);
    var c, z' := rec[i], Taken(z, rec[i], w);
    assert Top(z', rec, i) == Top(z', rec[..i], i);
    if !Detached(z, c, w) && z'[c] > Top(z', rec, i) {
      AppendRecord(z', rec[..i], c);
      assert rec[..i] + [c] == rec;
    }
  }

  /** No element before a later entry is larger than the entry before that one. */
  lemma LaterBelow(z: seq<nat>, rec: seq<nat>, w: nat, i: nat, k: nat)
    requires CanTake(z, rec, w, i) && Records(z, rec) && i < k < |rec|
    ensures var c := rec[i];
            var z', p := Taken(z, c, w), Moved(c, Detached(z, c, w), rec[k]);
            c < rec[k] && 0 <= p < |z'| && z'[p] == SizeOf(z, rec[k]) && Below(z', p, SizeOf(z, rec[k - 1]))
  {
    TakeWhere(z, rec, w, i);
    RecordsGrow(z, rec, i, k);
    var c := rec[i];
    var z', p := Taken(z, c, w), Moved(c, Detached(z, c, w), rec[k]);
    assert Record(z, rec, k);
    TakenSizes(z, c, w, rec[k]);
    forall j: nat | j < p && j < |z'| ensures z'[j] <= SizeOf(z, rec[k - 1]) {
      TakenBack(z, c, w, j);
    }
  }

  lemma NewEntriesExact(z: seq<nat>, rec: seq<nat>, w: nat, i: nat)
    requires CanTake(z, rec, w, i) && Records(z, rec) && i + 1 < |rec|
    ensures rec[i] < |z| && z[rec[i]] >= w
    ensures var z', front := Taken(z, rec[i], w), NewEntries(z, rec, w, i);
            && Records(z', front) && Top(z', front, |front|) <= z[rec[i]]
            && Below(z', Moved(rec[i], Detached(z, rec[i], w), rec[i + 1]), Top(z', front, |front|))
  {
    EarlierRecords(z, rec, w, i);
    LaterBelow(z, rec, w, i, i + 1);
    var c, z' := rec[i], Taken(z, rec[i], w);
    assert Record(z, rec, i);
    CollectExact(z', rec[..i], c, Moved(c, Detached(z, c, w), rec[i + 1]), z[c]);
  }

  lemma SplicedEntry(z: seq<nat>, rec: seq<nat>, w: nat, i: nat, k: nat)
    requires CanTake(z, rec, w, i) && i + 1 < |rec| && |NewEntries(z, rec, w, i)| <= k < |Spliced(z, rec, w, i)|
    ensures var k0 := k - |NewEntries(z, rec, w, i)| + i + 1;
            i < k0 < |rec| && Spliced(z, rec, w, i)[k] == Moved(rec[i], Detached(z, rec[i], w), rec[k0])
  {
    TakeWhere(z, rec, w, i);
  }

  /** With the new entries the table has the first records again. */
  lemma SplicedRecords(z: seq<nat>, rec: seq<nat>, w: nat, i: nat)
    requires CanTake(z, rec, w, i) && Records(z, rec) && i + 1 < |rec|
    ensures rec[i] < |z| && z[rec[i]] >= w && Records(Taken(z, rec[i], w), Spliced(z, rec, w, i))
    ensures var r := Spliced(z, rec, w, i); Top(Taken(z, rec[i], w), r, |r|) == Top(z, rec, |rec|)
  {
    NewEntriesExact(z, rec, w, i);
    var z', front, r := Taken(z, rec[i], w), NewEntries(z, rec, w, i), Spliced(z, rec, w, i);
    forall k: nat ensures Record(z', r, k) {
      if k < |front| {
        FrontRecord(z', front, r, k);
      } else if k < |r| {
        LaterRecord(z, rec, w, i, k);
      }
    }
    SplicedEntry(z, rec, w, i, |r| - 1);
    LaterBelow(z, rec, w, i, |rec| - 1);
  }

  lemma FrontRecord(z: seq<nat>, front: seq<nat>, r: seq<nat>, k: nat)
    requires Records(z, front) && front <= r && k < |front|
    ensures Record(z, r, k) == true
  {
    assert Record(z, front, k);
  }

  lemma LaterRecord(z: seq<nat>, rec: seq<nat>, w: nat, i: nat, k: nat)
    requires CanTake(z, rec, w, i) && Records(z, rec) && i + 1 < |rec|
    requires |NewEntries(z, rec, w, i)| <= k < |Spliced(z, rec, w, i)|
    ensures rec[i] < |z| && z[rec[i]] >= w && Record(Taken(z, rec[i], w), Spliced(z, rec, w, i), k) == true
  {
    NewEntriesExact(z, rec, w, i);
    var z', front, r := Taken(z, rec[i], w), NewEntries(z, rec, w, i), Spliced(z, rec, w, i);
    var k0 := k - |front| + i + 1;
    SplicedEntry(z, rec, w, i, k);
    LaterBelow(z, rec, w, i, k0);
    RecordsGrow(z, rec, k0 - 1, k0);
    if k > |front| {
      SplicedEntry(z, rec, w, i, k - 1);
      LaterBelow(z, rec, w, i, k0 - 1);
    } else {
      assert Top(z', r, k) == Top(z', front, |front|);
    }
  }

  /** `beyond` is as right as it was. */
  lemma BeyondMoved(z: seq<nat>, rec: seq<nat>, bp: int, w: nat, i: nat)
    requires CanTake(z, rec, w, i) && Records(z, rec) && i + 1 < |rec| && TableOk(z, rec, bp)
    ensures rec[i] < |z| && z[rec[i]] >= w
    ensures BeyondOk(Taken(z, rec[i], w), Spliced(z, rec, w, i), Moved(rec[i], Detached(z, rec[i], w), bp)) <==>
            BeyondOk(z, rec, bp)
  {
    SplicedRecords(z, rec, w, i);
    RecordsGrow(z, rec, i, |rec| - 1);
    var c, top := rec[i], Top(z, rec, |rec|);
    var z', bp' := Taken(z, c, w), Moved(c, Detached(z, c, w), bp);
    if bp >= 0 {
      if Below(z, bp + 1, top) {
        forall j: nat | j < bp' + 1 && j < |z'| ensures z'[j] <= top {
          TakenBack(z, c, w, j);
        }
      }
      if Below(z', bp' + 1, top) {
        forall j: nat | j < bp + 1 && j < |z| ensures z[j] <= top {
          TakenSizes(z, c, w, j);
        }
      }
    }
  }

  /** Taking entry `i` leaves an exact table: there is room for the new entries, and the table
      is full then, or was not full before, or `beyond` was right. */
  ghost predicate StaysExactAt(z: seq<nat>, rec: seq<nat>, bp: int, w: nat, i: nat)
    requires CanTake(z, rec, w, i) && i + 1 < |rec|
  {
    var n := |NewEntries(z, rec, w, i)| + |rec| - i - 1;
    n <= FLP_MAX && (n == FLP_MAX || |rec| < FLP_MAX || BeyondOk(z, rec, bp))
  }

  lemma TakeInnerExact(z: seq<nat>, rec: seq<nat>, bp: int, w: nat, i: nat)
    requires CanTake(z, rec, w, i) && i + 1 < |rec| && TableOk(z, rec, bp) && Exact(z, rec, bp)
    ensures var o := TakeInner(z, rec, bp, w, i);
            o.Pick? ==> o.c < |z| && z[o.c] >= w && (Exact(Taken(z, o.c, w), o.rec, o.bp) <==>
              StaysExactAt(z, rec, bp, w, i))
  {
    SplicedRecords(z, rec, w, i);
    BeyondMoved(z, rec, bp, w, i);
    SplicedEntries(z, rec, w, i);
    var z', r := Taken(z, rec[i], w), Spliced(z, rec, w, i);
    if |r| > FLP_MAX {
      LostRecord(z', r);
    }
  }

  /** A table without its last entries is not exact when `beyond` is at the first of those. */
  lemma LostRecord(z: seq<nat>, rec: seq<nat>)
    requires Records(z, rec) && Entries(rec, |z|) && |rec| > FLP_MAX
    ensures !Exact(z, rec[..FLP_MAX - 1], rec[FLP_MAX - 1])
  {
    var n := FLP_MAX - 1;
    assert Record(z, rec, n);
    EntryBefore(rec, |z|, n);
  }

  /** Whether the table stays exact: the entry that is taken is the last one or none, or the
      condition for the entry holds. */
  ghost predicate StaysExact(z: seq<nat>, rec: seq<nat>, bp: int, w: nat)
    requires Ready(z, rec, bp, w)
  {
    FindEntryIs(z, rec, w, 0);
    var i := FindEntry(z, rec, w, 0);
    i + 1 < |rec| ==> StaysExactAt(z, rec, bp, w, i)
  }

  lemma BehindExact(z: seq<nat>, rec: seq<nat>, bp: int, w: nat)
    requires FullTable(z, rec, bp, w) && Records(z, rec)
    ensures ExactAfter(z, w, TakeBehind(z, rec, bp, w)) == true
  {
    BehindIs(z, rec, bp, w);
    var o := TakeBehind(z, rec, bp, w);
    if o.Pick? {
      var z' := Taken(z, o.c, w);
      assert z[..o.c] == z'[..o.c];
      FrontRecords(z, z', rec, o.c);
    }
  }

  lemma EndedExact(z: seq<nat>, rec: seq<nat>, w: nat)
    requires Records(z, rec) && Below(z, |z|, Top(z, rec, |rec|))
    ensures ExactAfter(z, w, Fail(rec, |z| - 1)) == true
  {
  }

  /** What the extension of an exact table gives. */
  lemma ScanExact(z: seq<nat>, rec: seq<nat>, bp: int, w: nat)
    requires TableOk(z, rec, bp) && Exact(z, rec, bp) && TableSmall(z, rec, w) && w >= 1
    ensures var s := Extend(z, rec, Start(rec, bp), w);
            && Extension(z, rec, Start(rec, bp), w, s) == true && Records(z, s.rec) == true
            && (s.Ended? ==> Below(z, |z|, Top(z, s.rec, |s.rec|)))
  {
    if |rec| < FLP_MAX {
      StartBelow(z, rec, bp);
    }
    ExtendIs(z, rec, Start(rec, bp), w);
    ExtendExact(z, rec, Start(rec, bp), w);
  }

  lemma FurtherExact(z: seq<nat>, rec: seq<nat>, bp: int, w: nat)
    requires TableOk(z, rec, bp) && Exact(z, rec, bp) && TableSmall(z, rec, w) && w >= 1
    ensures ExactAfter(z, w, TakeFurther(z, rec, bp, w)) == true
  {
    ScanExact(z, rec, bp, w);
    match Extend(z, rec, Start(rec, bp), w)
    case Found(r) => TakeLastExact(z, r, w, |r| - 1);
    case Ended(r) => EndedExact(z, r, w);
    case Full(r) => BehindExact(z, r, if |rec| < FLP_MAX then r[|r| - 1] else -1, w);
  }

  /** An exact table stays exact if and only if the condition holds. */
  lemma AllocateExact(z: seq<nat>, rec: seq<nat>, bp: int, w: nat)
    requires ReadyExact(z, rec, bp, w)
    ensures var o := Allocate(z, rec, bp, w);
            if o.Pick? then
              o.c < |z| && z[o.c] >= w && (Exact(Taken(z, o.c, w), o.rec, o.bp) <==> StaysExact(z, rec, bp, w))
            else o.Fail? ==> FailsExact(z, o.rec, o.bp)
  {
    FindEntryIs(z, rec, w, 0);
    var i := FindEntry(z, rec, w, 0);
    if i == |rec| {
      FurtherExact(z, rec, bp, w);
    } else if i + 1 == |rec| {
      TakeLastExact(z, rec, w, i);
    } else {
      HitIsLast(z, rec, w, i);
      TakeInnerExact(z, rec, bp, w, i);
    }
  }

  // ----- What it means that a table is not exact -----

  /** An element that the search behind the table does not look at. */
  lemma SkippedElement(z: seq<nat>, rec: seq<nat>, bp: int, j: nat)
    requires TableOk(z, rec, bp) && Records(z, rec) && rec != [] && |rec| < FLP_MAX
    requires j <= bp && z[j] > Top(z, rec, |rec|)
    ensures Ready(z, rec, bp, z[j]) && !TakesFirst(z, z[j], Allocate(z, rec, bp, z[j]))
  {
    var w := z[j];
    forall k: nat | k < |rec| ensures SizeOf(z, rec[k]) < w {
      if k < |rec| - 1 {
        RecordsGrow(z, rec, k, |rec| - 1);
      }
    }
    FindEntryIs(z, rec, w, 0);
    ExtendIs(z, rec, bp + 1, w);
    match Extend(z, rec, bp + 1, w)
    case Found(r) =>
    case Ended(r) =>
    case Full(r) => BehindIs(z, r, r[|r| - 1], w);
  }

  /** A table of records is exact if and only if all requests are met by first fit. */
  lemma ExactIff(z: seq<nat>, rec: seq<nat>, bp: int)
    requires TableOk(z, rec, bp) && Records(z, rec)
    ensures Exact(z, rec, bp) <==>
            forall w: nat :: Ready(z, rec, bp, w) ==> TakesFirst(z, w, Allocate(z, rec, bp, w))
  {
    if Exact(z, rec, bp) {
      forall w: nat | Ready(z, rec, bp, w) ensures TakesFirst(z, w, Allocate(z, rec, bp, w)) {
        AllocateIsFirst(z, rec, bp, w);
      }
    } else {
      var j :| 0 <= j < bp + 1 && j < |z| && z[j] > Top(z, rec, |rec|);
      SkippedElement(z, rec, bp, j);
    }
  }

  // ----- Few free blocks -----

  lemma {:induction false} AtMost(rec: seq<nat>, p: nat)
    requires Entries(rec, p)
    ensures |rec| <= p
  {
    if rec != [] {
      PrefixEntries(rec, p, |rec| - 1);
      AtMost(rec[..|rec| - 1], rec[|rec| - 1]);
    }
  }

  lemma FewEntries(z: seq<nat>, rec: seq<nat>, w: nat, i: nat)
    requires CanTake(z, rec, w, i) && i + 1 < |rec|
    ensures |Spliced(z, rec, w, i)| <= |z| && |NewEntries(z, rec, w, i)| <= |z|
  {
    SplicedEntries(z, rec, w, i);
    TakeWhere(z, rec, w, i);
    TakenSizes(z, rec[i], w, rec[i]);
    AtMost(Spliced(z, rec, w, i), |Taken(z, rec[i], w)|);
  }

  /** With no more free blocks than the table has room for, an exact table stays exact, and the
      buffer is long enough. */
  lemma FewBlocksExact(z: seq<nat>, rec: seq<nat>, bp: int, w: nat)
    requires ReadyExact(z, rec, bp, w) && |z| <= FLP_MAX
    ensures StaysExact(z, rec, bp, w) && !Allocate(z, rec, bp, w).Overrun?
  {
    FindEntryIs(z, rec, w, 0);
    var i := FindEntry(z, rec, w, 0);
    if i + 1 < |rec| {
      HitIsLast(z, rec, w, i);
      FewEntries(z, rec, w, i);
      if |rec| == FLP_MAX {
        assert Record(z, rec, |rec| - 1);
        PrefixEntries(rec, |z|, |rec| - 1);
        AtMost(rec[..|rec| - 1], rec[|rec| - 1]);
      }
    } else if i == |rec| {
      FurtherNoOverrun(z, rec, bp, w);
    }
  }

  lemma FurtherNoOverrun(z: seq<nat>, rec: seq<nat>, bp: int, w: nat)
    requires TableOk(z, rec, bp) && TableSmall(z, rec, w) && w >= 1
    ensures !TakeFurther(z, rec, bp, w).Overrun?
  {
    ExtendIs(z, rec, Start(rec, bp), w);
  }

  /** The buffer overflows if and only if an entry but the last is taken and more than
      `FLP_MAX` entries come in its place. */
  lemma OverrunIff(z: seq<nat>, rec: seq<nat>, bp: int, w: nat)
    requires Ready(z, rec, bp, w)
    ensures var i := FindEntry(z, rec, w, 0);
            Allocate(z, rec, bp, w).Overrun? <==>
              i + 1 < |rec| && CanTake(z, rec, w, i) && |NewEntries(z, rec, w, i)| - i > FLP_MAX
  {
    FindEntryIs(z, rec, w, 0);
    var i := FindEntry(z, rec, w, 0);
    if i == |rec| {
      FurtherNoOverrun(z, rec, bp, w);
    }
  }

  // ----- Changes behind a point of the list -----

  /** The entries before position `at`. */
  function EntriesBefore(rec: seq<nat>, at: nat): seq<nat> {
    if rec == [] || rec[|rec| - 1] < at then rec else EntriesBefore(rec[..|rec| - 1], at)
  }

  function BeyondBefore(bp: int, at: nat): int {
    if bp >= at then -1 else bp
  }

  lemma {:induction false} BeforeIs(rec: seq<nat>, at: nat, p: nat)
    requires Entries(rec, p)
    ensures var r := EntriesBefore(rec, at);
            && r <= rec && Entries(r, at) && (r != rec ==> rec[|rec| - 1] >= at)
            && forall k :: |r| <= k < |rec| ==> rec[k] >= at
  {
    if rec != [] && rec[|rec| - 1] >= at {
      PrefixEntries(rec, p, |rec| - 1);
      BeforeIs(rec[..|rec| - 1], at, p);
    }
  }

  /** A table that is cut at position `at` does not depend on what comes from there on. */
  lemma CutKeeps(z: seq<nat>, rec: seq<nat>, bp: int, at: nat, z': seq<nat>)
    requires TableOk(z, rec, bp) && at <= |z| && at <= |z'| && z[..at] == z'[..at]
    ensures var r, b := EntriesBefore(rec, at), BeyondBefore(bp, at);
            && TableOk(z', r, b) && b < at && EndsBy(r, at)
            && (Exact(z, rec, bp) || r == [] ==> Exact(z', r, b))
  {
    BeforeIs(rec, at, |z|);
    var r, b := EntriesBefore(rec, at), BeyondBefore(bp, at);
    if Exact(z, rec, bp) {
      assert r == rec[..|r|];
      PrefixRecords(z, rec, |r|);
      FrontRecords(z, z', r, at);
      assert b >= 0 ==> r == rec;
      assert forall j :: 0 <= j < at ==> z[j] == z[..at][j] && z'[j] == z'[..at][j];
    }
  }

  lemma CutSmall(z: seq<nat>, rec: seq<nat>, w: nat, at: nat, z': seq<nat>)
    requires TableSmall(z, rec, w) && Entries(rec, |z|) && at <= |z| && at <= |z'| && z[..at] == z'[..at]
    ensures TableSmall(z', EntriesBefore(rec, at), w)
  {
    BeforeIs(rec, at, |z|);
    var r := EntriesBefore(rec, at);
    forall k: nat | k < |r| ensures SizeOf(z', r[k]) < w {
      EntryBefore(r, at, k);
      assert z[r[k]] == z[..at][r[k]] && z'[r[k]] == z'[..at][r[k]];
      assert r[k] == rec[k];
    }
  }

  // ----- Extending the heap -----

  /** The sizes with a new element at position `at`. */
  function Inserted(z: seq<nat>, at: nat, size: nat): seq<nat>
    requires at <= |z|
  {
    z[..at] + [size] + z[at..]
  }

  /** The table after an extension: a block at the end becomes an entry if there is room, and
      otherwise the table is cut where the block is. */
  function GrownTable(z: seq<nat>, rec: seq<nat>, at: nat, atEnd: bool): seq<nat> {
    if !atEnd then EntriesBefore(rec, at) else if |rec| < FLP_MAX then rec + [|z|] else rec
  }

  function GrownBeyond(bp: int, at: nat, atEnd: bool): int {
    if atEnd then bp else BeyondBefore(bp, at)
  }

  /** There is an element behind the table that is large enough: it is found. */
  lemma FurtherPicks(z: seq<nat>, rec: seq<nat>, bp: int, w: nat, j: nat)
    requires TableOk(z, rec, bp) && TableSmall(z, rec, w) && w >= 1
    requires Start(rec, bp) <= j < |z| && z[j] >= w
    ensures TakeFurther(z, rec, bp, w).Pick?
  {
    ExtendIs(z, rec, Start(rec, bp), w);
    match Extend(z, rec, Start(rec, bp), w)
    case Found(r) =>
    case Ended(r) =>
    case Full(r) =>
      var b := if |rec| < FLP_MAX then r[|r| - 1] else -1;
      assert SizeOf(z, r[|r| - 1]) < w;
      BehindIs(z, r, b, w);
  }

  lemma HitFound(z: seq<nat>, rec: seq<nat>, w: nat)
    requires Hit(z, rec, w)
    ensures FindEntry(z, rec, w, 0) == |rec| - 1
  {
    FindEntryIs(z, rec, w, 0);
    var i := FindEntry(z, rec, w, 0);
    if i < |rec| - 1 {
      HitIsLast(z, rec, w, i);
    }
  }

  /** After a failure for `w` words and an extension by a block of at least that size, the
      allocation succeeds, and is by first fit if the table was exact. */
  lemma GrownReady(z: seq<nat>, rec: seq<nat>, bp: int, w: nat, at: nat, atEnd: bool, size: nat)
    requires TableOk(z, rec, bp) && TableSmall(z, rec, w) && 1 <= w <= size && at <= |z| && (atEnd ==> at == |z|)
    ensures var z', r, b := Inserted(z, at, size), GrownTable(z, rec, at, atEnd), GrownBeyond(bp, at, atEnd);
            && Ready(z', r, b, w) && Allocate(z', r, b, w).Pick?
            && (FailsExact(z, rec, bp) ==> ReadyExact(z', r, b, w) && StaysExact(z', r, b, w))
  {
    var z', r, b := Inserted(z, at, size), GrownTable(z, rec, at, atEnd), GrownBeyond(bp, at, atEnd);
    assert z[..at] == z'[..at] && z'[at] == size;
    FindEntryIs(z', r, w, 0);
    if atEnd && |rec| < FLP_MAX {
      GrownHit(z, rec, bp, w, size);
      HitFound(z', r, w);
    } else {
      GrownBehind(z, rec, bp, w, at, atEnd, size);
      FurtherPicks(z', r, b, w, at);
    }
  }

  lemma GrownHit(z: seq<nat>, rec: seq<nat>, bp: int, w: nat, size: nat)
    requires TableOk(z, rec, bp) && TableSmall(z, rec, w) && 1 <= w <= size && |rec| < FLP_MAX
    ensures var z', r := Inserted(z, |z|, size), rec + [|z|];
            && Loose(z', r, bp) && Hit(z', r, w) && (FailsExact(z, rec, bp) ==> Records(z', r))
  {
    var z', r := Inserted(z, |z|, size), rec + [|z|];
    AppendEntry(rec, |z|);
    assert r[..|rec|] == rec;
    forall k: nat | k < |rec| ensures SizeOf(z', rec[k]) < w {
      EntryBefore(rec, |z|, k);
    }
    if FailsExact(z, rec, bp) {
      assert z[..|z|] == z'[..|z|];
      FrontRecords(z, z', rec, |z|);
      AppendRecord(z', rec, |z|);
    }
  }

  lemma GrownBehind(z: seq<nat>, rec: seq<nat>, bp: int, w: nat, at: nat, atEnd: bool, size: nat)
    requires TableOk(z, rec, bp) && TableSmall(z, rec, w) && 1 <= w <= size && at <= |z|
    requires atEnd ==> at == |z| && |rec| == FLP_MAX
    ensures var z', r, b := Inserted(z, at, size), GrownTable(z, rec, at, atEnd), GrownBeyond(bp, at, atEnd);
            && TableOk(z', r, b) && TableSmall(z', r, w) && Start(r, b) <= at
            && (Exact(z, rec, bp) ==> Exact(z', r, b))
  {
    var z' := Inserted(z, at, size);
    assert z[..at] == z'[..at];
    CutKeeps(z, rec, bp, at, z');
    CutSmall(z, rec, w, at, z');
    if atEnd {
      assert EntriesBefore(rec, at) == rec && BeyondBefore(bp, at) == bp;
    }
  }
}
