/**
 The slices of byterun/major_gc.c as loops over a mutable state.  Each method is
 proved to take exactly steps of the model in MajorGc.dfy, so the results about
 runs hold of it, and to terminate.
 */
module MajorSlices {
  import opened Mlvalues
  import opened Blocks
  import opened Tricolor
  import opened MajorGc
  import opened MajorInv
  import opened MajorSafety
  import opened MajorRuns
  import opened MajorTermination
  import opened MajorExact

  /** `acts` lead from `s` to `s'`. */
  ghost predicate Leads(s: Gc, acts: seq<Action>, s': Gc) {
    exists states :: IsRun(states, acts) && states[0] == s && states[|acts|] == s'
  }

  lemma LeadsNowhere(s: Gc)
    ensures Leads(s, [], s)
  {
    assert IsRun([s], []);
  }

  lemma LeadsOn(s: Gc, acts: seq<Action>, s1: Gc, act: Action, s2: Gc)
    requires Leads(s, acts, s1) && Step(s1, act, s2)
    ensures Leads(s, acts + [act], s2)
  {
    var states :| IsRun(states, acts) && states[0] == s && states[|acts|] == s1;
    var states', acts' := states + [s2], acts + [act];
    forall i | 0 <= i < |acts'| ensures Step(states'[i], acts'[i], states'[i + 1]) {
      assert i < |acts| ==> Step(states[i], acts[i], states[i + 1]);
    }
    assert IsRun(states', acts');
  }

  lemma LeadsTrans(s: Gc, acts: seq<Action>, s1: Gc, more: seq<Action>, s2: Gc)
    requires Leads(s, acts, s1) && Leads(s1, more, s2)
    ensures Leads(s, acts + more, s2)
  {
    var p :| IsRun(p, acts) && p[0] == s && p[|acts|] == s1;
    var q :| IsRun(q, more) && q[0] == s1 && q[|more|] == s2;
    var states, all := p[..|acts|] + q, acts + more;
    forall i | 0 <= i < |all| ensures Step(states[i], all[i], states[i + 1]) {
      if i < |acts| {
        assert Step(p[i], acts[i], p[i + 1]);
      } else {
        assert Step(q[i - |acts|], more[i - |acts|], q[i - |acts| + 1]);
      }
    }
    assert IsRun(states, all);
  }

  /** A run of marking steps. */
  ghost predicate MarkRun(s: Gc, acts: seq<Action>, s': Gc) {
    && Inv(s') && Leads(s, acts, s') && s'.phase in {Mark, Sweep}
    && (forall i :: 0 <= i < |acts| ==> acts[i].MarkOne?)
    && (if acts == [] then s' == s else Decreases(s, s'))
  }

  lemma MarkRunOn(s: Gc, acts: seq<Action>, s1: Gc, outs: nat -> Outcome)
    requires MarkRun(s, acts, s1) && s1.phase == Mark
    ensures CanMark(s1) && MarkRun(s, acts + [MarkOne(outs)], MarkStep(s1, outs)) == true
    ensures Decreases(s1, MarkStep(s1, outs)) == true && ScanDistance(s1) >= 0
  {
    CollectorProgress(s1, outs);
    MarkAdvances(s1, outs);
    LeadsOn(s, acts, s1, MarkOne(outs), MarkStep(s1, outs));
    if acts != [] {
      DecreasesTrans(s, s1, MarkStep(s1, outs));
    }
  }

  /** A run of sweeping steps. */
  ghost predicate SweepRun(s: Gc, acts: seq<Action>, s': Gc) {
    && Inv(s') && Leads(s, acts, s') && s'.phase in {Sweep, Idle}
    && (forall i :: 0 <= i < |acts| ==> acts[i].SweepOne?)
    && (if acts == [] then s' == s else s'.phase == Sweep ==> 0 <= SweepDistance(s') < SweepDistance(s))
  }

  lemma SweepRunOn(s: Gc, acts: seq<Action>, s1: Gc, prev: Prev)
    requires SweepRun(s, acts, s1) && s1.phase == Sweep
    requires SweepMerges(s1) && prev.Prev? ==> JoinsPrev(s1.heap, s1.sweep.hp, s1.frag, prev.hp)
    ensures CanSweep(s1, prev) && SweepRun(s, acts + [SweepOne(prev)], SweepStep(s1, prev)) == true
    ensures SweepStep(s1, prev).phase == Sweep ==> 0 <= SweepDistance(SweepStep(s1, prev)) < SweepDistance(s1)
  {
    SweepAdvances(s1, prev);
    LeadsOn(s, acts, s1, SweepOne(prev), SweepStep(s1, prev));
  }

  /** A run of the collector alone, within one cycle. */
  ghost predicate CollectorRun(s: Gc, acts: seq<Action>, s': Gc) {
    && Inv(s') && Leads(s, acts, s')
    && (if s.phase == Idle then OneCycle(acts) else forall i :: 0 <= i < |acts| ==>
        || acts[i].MarkOne?
        || acts[i].SweepOne?)
  }

  lemma CollectorRunOn(s: Gc, acts: seq<Action>, s1: Gc, more: seq<Action>, s2: Gc)
    requires CollectorRun(s, acts, s1) && (MarkRun(s1, more, s2) || SweepRun(s1, more, s2))
    ensures CollectorRun(s, acts + more, s2) == true
  {
    LeadsTrans(s, acts, s1, more, s2);
  }

  lemma RunIsExact(s: Gc, acts: seq<Action>, s': Gc)
    requires Inv(s) && Leads(s, acts, s') && OneCycle(acts) && s'.phase == Idle
    ensures forall x :: Used(s'.heap, x) && s'.heap[x].wosize > 0 <==> Reach(s, x)
  {
    var states :| IsRun(states, acts) && states[0] == s && states[|acts|] == s';
    forall x ensures Used(s'.heap, x) && s'.heap[x].wosize > 0 <==> Reach(s, x) {
      FullCycleIsExact(states, acts, x);
    }
  }

  /** `b` is `m` but for `v`, which is gray in `m` and black in `b`. */
  ghost predicate Blackened(m: Marker, b: Marker, v: nat) {
    IsColor(m.heap, v, Gray) && b == m.(heap := Recolor(m.heap, v, Black))
  }

  /** Blackening `v` before its children are marked or after makes no difference. */
  lemma {:induction false} BlackFirst(m: Marker, b: Marker, area: Area, v: nat, n: nat, outs: nat -> Outcome)
    requires Blackened(m, b, v) && n <= |m.heap[v].fields| && StackOk(m.stack)
    ensures Blackened(MarkFields(m, area, v, n, outs), MarkFields(b, area, v, n, outs), v) == true
  {
    if n > 0 {
      BlackFirst(m, b, area, v, n - 1, outs);
      BlackFirstChild(MarkFields(m, area, v, n - 1, outs), MarkFields(b, area, v, n - 1, outs), area, v, n - 1,
        outs(n - 1));
    }
  }

  lemma BlackFirstChild(m: Marker, b: Marker, area: Area, v: nat, i: nat, out: Outcome)
    requires Blackened(m, b, v) && i < |m.heap[v].fields| && StackOk(m.stack)
    ensures Blackened(MarkChild(m, area, v, i, out), MarkChild(b, area, v, i, out), v) == true
  {
    var child := m.heap[v].fields[i];
    if HeapBlock(m.heap, area, child) {
      assert Shortcut(b.heap, area, child) == Shortcut(m.heap, area, child);
      assert MarkChild(b, area, v, i, out).heap == Recolor(MarkChild(m, area, v, i, out).heap, v, Black);
    }
  }

  /** Overflow outcomes in the order in which they came. */
  ghost function Outs(os: seq<Outcome>): nat -> Outcome {
    (k: nat) => if k < |os| then os[k] else Grow
  }

  lemma {:induction false} MarkFieldsCong(m: Marker, area: Area, v: nat, n: nat, outs: nat -> Outcome,
                                          outs': nat -> Outcome)
    requires v in m.heap && n <= |m.heap[v].fields| && StackOk(m.stack) && forall k: nat :: k < n ==>
             outs(k) == outs'(k)
    ensures MarkFields(m, area, v, n, outs) == MarkFields(m, area, v, n, outs')
  {
    if n > 0 {
      MarkFieldsCong(m, area, v, n - 1, outs, outs');
    }
  }

  lemma {:induction false} DarkenRootsCong(m: Marker, area: Area, roots: seq<Value>, n: nat, outs: nat -> Outcome,
                                           outs': nat -> Outcome)
    requires n <= |roots| && StackOk(m.stack) && forall k: nat :: k < n ==> outs(k) == outs'(k)
    ensures DarkenRoots(m, area, roots, n, outs) == DarkenRoots(m, area, roots, n, outs')
  {
    if n > 0 {
      DarkenRootsCong(m, area, roots, n - 1, outs, outs');
    }
  }

  class Collector {
    var heap: Heap
    var stack: Stack
    var area: Area
    var roots: seq<Value>
    var phase: Phase
    var sub: Subphase
    var markhp: Cursor
    var sweep: Cursor
    var frag: int

    ghost function State(): Gc
      reads this
    {
      Gc(heap, stack, area, roots, phase, sub, markhp, sweep, frag)
    }

    /** `realloc_gray_vals_r`; whether the stack is small compared with the heap and
        whether `realloc` succeeds are not determined. */
    method ReallocGrayVals() returns (ghost out: Outcome)
      requires |stack.vals| == stack.size
      modifies this`stack
      ensures stack == Overflow(old(stack), out)
    {
      var small: bool := *;
      if small {
        var room: bool := *;
        if room {
          stack := stack.(size := 2 * stack.size);
          out := Grow;
        } else {
          stack := stack.(vals := [], pure := false);
          out := NoRoom;
        }
      } else {
        stack := stack.(vals := stack.vals[..stack.size / 2], pure := false);
        out := LargeEnough;
      }
    }

    method PushGray(a: nat) returns (ghost out: Outcome)
      requires StackOk(stack)
      modifies this`stack
      ensures stack == Push(old(stack), a, out)
    {
      stack := stack.(vals := stack.vals + [a]);
      out := Grow;
      if |stack.vals| >= stack.size {
        out := ReallocGrayVals();
      }
    }

    /** `caml_darken_r`. */
    method DarkenValue(v: Value) returns (ghost out: Outcome)
      requires StackOk(stack)
      modifies this`heap, this`stack
      ensures Marker(heap, stack) == Darken(old(Marker(heap, stack)), area, v, out)
    {
      out := Grow;
      if HeapBlock(heap, area, v) && heap[v.hp].color == White {
        if heap[v.hp].tag < NO_SCAN_TAG {
          heap := heap[v.hp := heap[v.hp].(color := Gray)];
          out := PushGray(v.hp);
        } else {
          heap := heap[v.hp := heap[v.hp].(color := Black)];
        }
      }
    }

    /** The body of the loop over the fields of `v` in `mark_slice_r`. */
    method MarkField(v: nat, i: nat) returns (ghost out: Outcome)
      requires v in heap && i < |heap[v].fields| && StackOk(stack)
      modifies this`heap, this`stack
      ensures Marker(heap, stack) == MarkChild(old(Marker(heap, stack)), area, v, i, out)
    {
      out := Grow;
      var child := heap[v].fields[i];
      if child.Ptr? && HeapBlock(heap, area, child) {
        if child.ofs == 0 && heap[child.hp].tag == FORWARD_TAG && |heap[child.hp].fields| > 0 {
          var f := heap[child.hp].fields[0];
          if f.Ptr? && (!InValueArea(heap, area, f) || TagOf(heap, area, f) in {FORWARD_TAG, LAZY_TAG, DOUBLE_TAG}) {
            // do not short-circuit the pointer
          } else {
            heap := heap[v := heap[v].(fields := heap[v].fields[i := f])];
          }
        }
        assert old(heap)[v].fields[i := child] == old(heap)[v].fields;
        assert heap == Store(old(heap), v, i, MarkedField(old(heap), area, child));
        if heap[child.hp].color == White {
          heap := heap[child.hp := heap[child.hp].(color := Gray)];
          out := PushGray(child.hp);
        }
      }
    }

    /** Mark the fields of the block `v`, which is black already. */
    method MarkAllFields(v: nat) returns (ghost outs: nat -> Outcome)
      requires v in heap && StackOk(stack)
      modifies this`heap, this`stack
      ensures Marker(heap, stack) == MarkFields(old(Marker(heap, stack)), area, v, |old(heap)[v].fields|, outs)
    {
      ghost var m := Marker(heap, stack);
      ghost var os: seq<Outcome> := [];
      var size := |heap[v].fields|;
      for i := 0 to size
        invariant |os| == i && StackOk(stack) && v in heap && |heap[v].fields| == size
        invariant Marker(heap, stack) == MarkFields(m, area, v, i, Outs(os))
      {
        ghost var os0 := os;
        ghost var out := MarkField(v, i);
        os := os + [out];
        MarkFieldsCong(m, area, v, i, Outs(os0), Outs(os));
      }
      outs := Outs(os);
    }

    /** The first branch of `mark_slice_r`: pop a gray block and mark it. */
    method MarkGray() returns (size: nat, ghost outs: nat -> Outcome)
      requires |stack.vals| > 0 && IsColor(heap, stack.vals[|stack.vals| - 1], Gray) && StackOk(stack)
      modifies this`heap, this`stack
      ensures Marker(heap, stack) == MarkBlock(old(Marker(heap, stack)), area, outs)
      ensures size == old(heap[stack.vals[|stack.vals| - 1]].wosize)
    {
      var n := |stack.vals| - 1;
      var v := stack.vals[n];
      stack := stack.(vals := stack.vals[..n]);
      ghost var m := Marker(heap, stack);
      size := heap[v].wosize;
      heap := heap[v := heap[v].(color := Black)];
      outs := Outs([]);
      if heap[v].tag < NO_SCAN_TAG {
        outs := MarkAllFields(v);
        BlackFirst(m, m.(heap := Recolor(m.heap, v, Black)), area, v, |m.heap[v].fields|, outs);
      }
    }

    /** The second branch: look for gray blocks that the stack has lost. */
    method Rescan()
      requires markhp.Cursor? && stack.vals == [] && (markhp.hp != markhp.limit ==> markhp.hp in heap)
      modifies this`stack, this`markhp
      ensures State() == RescanStep(old(State()))
    {
      if markhp.hp == markhp.limit {
        var c := NextChunk(area.chunks, markhp.limit, 0);
        if c == |area.chunks| {
          markhp := NoCursor;
        } else {
          markhp := ChunkCursor(area.chunks, c);
        }
      } else {
        if heap[markhp.hp].color == Gray {
          stack := stack.(vals := stack.vals + [markhp.hp]);
        }
        markhp := Cursor(End(heap, markhp.hp), markhp.limit);
      }
    }

    /** The last branch: the heap is pure and no gray block is left. */
    method NextSubphase(work: int) returns (left: int)
      requires |area.chunks| > 0 && phase == Mark
      modifies this`phase, this`sub, this`sweep, this`frag
      ensures StackOk(stack) && stack.vals == [] && stack.pure && markhp.NoCursor? ==>
                forall outs: nat -> Outcome :: State() == MarkStep(old(State()), outs)
      ensures left == if phase == Sweep then 0 else work
    {
      left := work;
      match sub
      case Main => sub := Weak1;
      case Weak1 => sub := Weak2;
      case Weak2 => sub := Final;
      case Final =>
        phase := Sweep;
        sweep := ChunkCursor(area.chunks, 0);
        frag := -1;
        left := 0;
    }

    /** One iteration of `mark_slice_r`. */
    method MarkIteration(work: int) returns (left: int, ghost outs: nat -> Outcome)
      requires Inv(State()) && phase == Mark
      modifies this
      ensures State() == MarkStep(old(State()), outs)
      ensures phase == Sweep ==> left == 0
    {
      ghost var s := State();
      left := work;
      outs := Outs([]);
      if |stack.vals| > 0 {
        var size;
        size, outs := MarkGray();
        left := work - (1 + size);
      } else if markhp.Cursor? {
        ghost var e :| CursorIn(heap, area.chunks, markhp, e);
        Rescan();
      } else if !stack.pure {
        stack := stack.(pure := true);
        markhp := ChunkCursor(area.chunks, 0);
      } else {
        left := NextSubphase(work);
      }
    }

    /** `mark_slice_r`: a run of marking steps that ends when the work is done or
        sweeping starts. */
    method MarkSlice(work: int) returns (ghost acts: seq<Action>)
      requires Inv(State()) && phase == Mark
      modifies this
      ensures MarkRun(old(State()), acts, State())
      ensures work > 0 ==> acts != []
    {
      var left := work;
      acts := [];
      LeadsNowhere(State());
      while left > 0
        invariant MarkRun(old(State()), acts, State()) == true
        invariant phase == Mark || left <= 0
        invariant acts == [] ==> left == work
        decreases |Colored(heap, White)|, Impurity(stack), |Colored(heap, Gray)|, ScanDistance(State()),
                  Remaining(State())
      {
        ghost var s, outs := State(), Outs([]);
        left, outs := MarkIteration(left);
        MarkRunOn(old(State()), acts, s, outs);
        acts := acts + [MarkOne(outs)];
      }
    }

    /** `caml_fl_merge_block_r` on the dead block at the sweeper. */
    method MergeBlock(hp: nat) returns (ghost prev: Prev)
      requires hp in heap && sweep.Cursor? && sweep.hp == hp
      modifies this`heap, this`sweep, this`frag
      ensures PrevOk(old(heap), hp, old(frag), prev)
      ensures heap == Merge(old(heap), hp, old(frag), prev)
      ensures sweep == Cursor(JoinedEnd(old(heap), hp, old(frag)), old(sweep).limit)
      ensures frag == if StaysFragment(old(heap), hp, old(frag), prev) then hp else old(frag)
    {
      var start, end := JoinedStart(heap, hp, frag), JoinedEnd(heap, hp, frag);
      sweep := Cursor(end, sweep.limit);
      if p :| p in heap && JoinsPrev(heap, hp, frag, p) {
        prev := Prev(p);
        heap := Coalesce(heap, p, end);
      } else {
        prev := NoPrev;
        if end == start + 1 {
          frag := hp;
        } else {
          heap := Coalesce(heap, start, end);
        }
      }
    }

    /** One iteration of `sweep_slice_r`. */
    method SweepIteration(work: int) returns (left: int, ghost prev: Prev)
      requires Inv(State()) && phase == Sweep
      modifies this
      ensures SweepMerges(old(State())) && prev.Prev? ==> JoinsPrev(old(heap), old(sweep).hp, old(frag), prev.hp)
      ensures old(sweep).hp < old(sweep).limit ==> old(sweep).hp in old(heap)
      ensures State() == SweepStep(old(State()), prev)
      ensures phase == Idle ==> left == 0
    {
      left := work;
      prev := NoPrev;
      ghost var e :| CursorIn(heap, area.chunks, sweep, e);
      if sweep.hp < sweep.limit {
        var hp := sweep.hp;
        left := work - (1 + heap[hp].wosize);
        match heap[hp].color
        case White => prev := MergeBlock(hp);
        case Blue => sweep := Cursor(End(heap, hp), sweep.limit);
        case _ =>
          sweep := Cursor(End(heap, hp), sweep.limit);
          heap := heap[hp := heap[hp].(color := White)];
      } else {
        var c := NextChunk(area.chunks, sweep.limit, 0);
        if c == |area.chunks| {
          left := 0;
          phase := Idle;
        } else {
          sweep := ChunkCursor(area.chunks, c);
        }
      }
    }

    /** `sweep_slice_r`: a run of sweeping steps that ends when the work is done or
        the cycle is over. */
    method SweepSlice(work: int) returns (ghost acts: seq<Action>)
      requires Inv(State()) && phase == Sweep
      modifies this
      ensures SweepRun(old(State()), acts, State())
      ensures work > 0 ==> acts != []
    {
      var left := work;
      acts := [];
      LeadsNowhere(State());
      while left > 0
        invariant SweepRun(old(State()), acts, State()) == true
        invariant phase == Sweep || left <= 0
        invariant acts == [] ==> left == work
        decreases phase == Sweep, SweepDistance(State())
      {
        ghost var s, prev := State(), NoPrev;
        left, prev := SweepIteration(left);
        SweepRunOn(old(State()), acts, s, prev);
        acts := acts + [SweepOne(prev)];
      }
    }

    /** `start_cycle_r`. */
    method BeginMarking() returns (ghost outs: nat -> Outcome)
      requires StackOk(stack) && phase == Idle
      modifies this
      ensures State() == StartCycle(old(State()), outs)
    {
      ghost var m := Marker(heap, stack);
      ghost var os: seq<Outcome> := [];
      for i := 0 to |roots|
        invariant |os| == i && StackOk(stack) && phase == Idle && sub == old(sub) && markhp == old(markhp)
        invariant area == old(area) && roots == old(roots) && sweep == old(sweep) && frag == old(frag)
        invariant Marker(heap, stack) == DarkenRoots(m, area, roots, i, Outs(os))
      {
        ghost var os0 := os;
        ghost var out := DarkenValue(roots[i]);
        os := os + [out];
        DarkenRootsCong(m, area, roots, i, Outs(os0), Outs(os));
      }
      phase, sub, markhp := Mark, Main, NoCursor;
      outs := Outs(os);
    }

    /** `caml_finish_major_cycle_r`: from any phase, a run of the collector alone
        that ends with the cycle. */
    method FinishMajorCycle(max: int) returns (ghost acts: seq<Action>)
      requires Inv(State()) && max > 0
      modifies this
      ensures phase == Idle && CollectorRun(old(State()), acts, State())
      ensures old(phase) == Idle ==> forall x :: Used(heap, x) && heap[x].wosize > 0 <==> Reach(old(State()), x)
    {
      acts := [];
      LeadsNowhere(State());
      if phase == Idle {
        ghost var s, outs := State(), Outs([]);
        outs := BeginMarking();
        StepKeepsInv(s, BeginCycle(outs));
        LeadsOn(old(State()), acts, s, BeginCycle(outs), State());
        acts := acts + [BeginCycle(outs)];
      }
      acts := FinishMarkPhase(max, old(State()), acts);
      acts := FinishSweepPhase(max, old(State()), acts);
      if old(phase) == Idle {
        RunIsExact(old(State()), acts, State());
      }
    }

    method FinishMarkPhase(max: int, ghost s0: Gc, ghost acts0: seq<Action>) returns (ghost acts: seq<Action>)
      requires CollectorRun(s0, acts0, State()) && phase in {Mark, Sweep} && max > 0
      modifies this
      ensures CollectorRun(s0, acts, State()) && phase == Sweep
    {
      acts := acts0;
      while phase == Mark
        invariant CollectorRun(s0, acts, State()) == true && phase in {Mark, Sweep}
        decreases |Colored(heap, White)|, Impurity(stack), |Colored(heap, Gray)|, ScanDistance(State()),
                  Remaining(State())
      {
        ghost var s, more := State(), [];
        more := MarkSlice(max);
        CollectorRunOn(s0, acts, s, more, State());
        acts := acts + more;
      }
    }

    method FinishSweepPhase(max: int, ghost s0: Gc, ghost acts0: seq<Action>) returns (ghost acts: seq<Action>)
      requires CollectorRun(s0, acts0, State()) && phase == Sweep && max > 0
      modifies this
      ensures CollectorRun(s0, acts, State()) && phase == Idle
    {
      acts := acts0;
      while phase == Sweep
        invariant CollectorRun(s0, acts, State()) == true && phase in {Sweep, Idle}
        decreases phase == Sweep, SweepDistance(State())
      {
        ghost var s, more := State(), [];
        more := SweepSlice(max);
        CollectorRunOn(s0, acts, s, more, State());
        acts := acts + more;
      }
    }

    /** `Modify`. */
    method ModifyField(x: nat, i: nat, val: Value) returns (ghost out: Outcome)
      requires x in heap && i < |heap[x].fields| && StackOk(stack)
      modifies this`heap, this`stack
      ensures State() == Modify(old(State()), x, i, val, out)
    {
      out := Grow;
      var previous := heap[x].fields[i];
      heap := heap[x := heap[x].(fields := heap[x].fields[i := val])];
      if phase == Mark {
        out := DarkenValue(previous);
      }
    }
  }
}
