/**
 Structural comparison as it is carried out (byterun/compare.c): a loop over an
 explicit stack of pairs of fields still to be compared, which grows on demand.
 */
module CompareStack {
  import opened Mlvalues
  import opened Comparison
  import opened CompareOrder

  const COMPARE_STACK_INIT_SIZE := 256
  const COMPARE_STACK_MAX_SIZE := 0x10_0000

  /** The fields of two blocks from index `i` on: `count` of them are left. */
  datatype Frame = Frame(a1: nat, a2: nat, i: nat, count: nat)

  /** What one pair of values calls for. */
  datatype Step =
    | Return(r: Result)
    | Again(w1: Value, w2: Value)
    | Descend
    | NextItem

  /** `OutOfMemory` is raised when the stack cannot grow. */
  datatype Outcome = Done(r: Result) | OutOfMemory

  predicate FrameOk(h: Heap, f: Frame) {
    && f.a1 in h && f.a2 in h && h[f.a1].Blk? && h[f.a2].Blk? && |h[f.a1].fields| == |h[f.a2].fields|
    && f.count > 0 && f.i + f.count == |h[f.a1].fields|
  }

  ghost predicate StackOk(h: Heap, stack: seq<Frame>) {
    forall k :: 0 <= k < |stack| ==> FrameOk(h, stack[k])
  }

  /** The first or second components of the pairs still to be compared, in order. */
  ghost function Pending(h: Heap, stack: seq<Frame>, first: bool): (vs: seq<Value>)
    requires StackOk(h, stack)
  {
    if stack == [] then []
    else Left(h, stack[|stack| - 1], first) + Pending(h, stack[..|stack| - 1], first)
  }

  ghost function Left(h: Heap, f: Frame, first: bool): seq<Value>
    requires FrameOk(h, f)
  {
    if first then h[f.a1].fields[f.i..] else h[f.a2].fields[f.i..]
  }

  lemma {:induction false} PendingGood(h: Heap, rank: map<nat, nat>, stack: seq<Frame>)
    requires Ranked(h, rank) && StackOk(h, stack)
    ensures AllGood(h, rank, Pending(h, stack, true)) && AllGood(h, rank, Pending(h, stack, false))
    ensures |Pending(h, stack, true)| == |Pending(h, stack, false)|
  {
    if stack != [] {
      var f := stack[|stack| - 1];
      assert Ranked1(h, rank, f.a1) && Ranked1(h, rank, f.a2);
      PendingGood(h, rank, stack[..|stack| - 1]);
    }
  }

  /** The result of comparing all pairs still to be compared. */
  ghost function Rest(h: Heap, rank: map<nat, nat>, stack: seq<Frame>, total: bool): Result
    requires Ranked(h, rank) && StackOk(h, stack)
  {
    PendingGood(h, rank, stack);
    CompareAll(h, rank, Pending(h, stack, true), Pending(h, stack, false), total)
  }

  ghost function Work(h: Heap, rank: map<nat, nat>, stack: seq<Frame>): nat
    requires Ranked(h, rank) && StackOk(h, stack)
  {
    PendingGood(h, rank, stack);
    Sizes(h, rank, Pending(h, stack, true)) + Sizes(h, rank, Pending(h, stack, false))
  }

  lemma TopPending(h: Heap, stack: seq<Frame>, f: Frame, first: bool)
    requires StackOk(h, stack) && FrameOk(h, f)
    ensures StackOk(h, stack + [f]) && Pending(h, stack + [f], first) == Left(h, f, first) + Pending(h, stack, first)
  {
    assert (stack + [f])[..|stack|] == stack;
  }

  /** The stack once the next pair of its top frame `f` is taken. */
  function Popped(rest: seq<Frame>, f: Frame): seq<Frame>
    requires f.count > 0
  {
    if f.count == 1 then rest else rest + [Frame(f.a1, f.a2, f.i + 1, f.count - 1)]
  }

  lemma FirstApart(vs: seq<Value>, ws: seq<Value>)
    requires vs != []
    ensures vs + ws == [vs[0]] + (vs[1..] + ws) && [] + ws == ws
  {
  }

  lemma PoppedPending(h: Heap, rest: seq<Frame>, f: Frame, first: bool)
    requires StackOk(h, rest) && FrameOk(h, f)
    ensures StackOk(h, Popped(rest, f))
    ensures Left(h, f, first) + Pending(h, rest, first) == [Left(h, f, first)[0]] + Pending(h, Popped(rest, f), first)
  {
    var vs := Left(h, f, first);
    FirstApart(vs, Pending(h, rest, first));
    if f.count == 1 {
      assert vs[1..] == [];
    } else {
      var f' := Frame(f.a1, f.a2, f.i + 1, f.count - 1);
      TopPending(h, rest, f', first);
      assert vs[1..] == Left(h, f', first);
    }
  }

  lemma PopRest(h: Heap, rank: map<nat, nat>, rest: seq<Frame>, f: Frame, total: bool)
    requires Ranked(h, rank) && StackOk(h, rest) && FrameOk(h, f)
    ensures StackOk(h, rest + [f]) && StackOk(h, Popped(rest, f))
    ensures var w1, w2 := h[f.a1].fields[f.i], h[f.a2].fields[f.i];
            && Good(h, rank, w1) && Good(h, rank, w2)
            && Rest(h, rank, rest + [f], total) ==
              Then(Compare(h, rank, w1, w2, total), Rest(h, rank, Popped(rest, f), total))
            && Work(h, rank, rest + [f]) == Size(h, rank, w1) + Size(h, rank, w2) + Work(h, rank, Popped(rest, f))
  {
    assert Ranked1(h, rank, f.a1) && Ranked1(h, rank, f.a2);
    TopPending(h, rest, f, true);
    TopPending(h, rest, f, false);
    PoppedPending(h, rest, f, true);
    PoppedPending(h, rest, f, false);
    PendingGood(h, rank, rest + [f]);
    PendingGood(h, rank, Popped(rest, f));
    var p1, p2 := Pending(h, Popped(rest, f), true), Pending(h, Popped(rest, f), false);
    var w1, w2 := h[f.a1].fields[f.i], h[f.a2].fields[f.i];
    assert ([w1] + p1)[1..] == p1 && ([w2] + p2)[1..] == p2;
  }

  /** The stack once the fields of two blocks are to be compared, but for the first. */
  function Pushed(stack: seq<Frame>, a1: nat, a2: nat, size: nat): seq<Frame>
    requires size > 0
  {
    if size > 1 then stack + [Frame(a1, a2, 1, size - 1)] else stack
  }

  lemma PushedPending(h: Heap, stack: seq<Frame>, a1: nat, a2: nat, first: bool)
    requires StackOk(h, stack) && a1 in h && h[a1].Blk? && FrameOk(h, Frame(a1, a2, 0, |h[a1].fields|))
    ensures var stack' := Pushed(stack, a1, a2, |h[a1].fields|);
            StackOk(h, stack') && Pending(h, stack', first) ==
              (if first then h[a1].fields[1..] else h[a2].fields[1..]) + Pending(h, stack, first)
  {
    var size := |h[a1].fields|;
    if size > 1 {
      TopPending(h, stack, Frame(a1, a2, 1, size - 1), first);
    }
  }

  lemma FieldsGood(h: Heap, rank: map<nat, nat>, a: nat)
    requires Ranked(h, rank) && a in h && h[a].Blk?
    ensures AllGood(h, rank, h[a].fields)
  {
    assert Ranked1(h, rank, a);
  }

  lemma PushRest(h: Heap, rank: map<nat, nat>, stack: seq<Frame>, a1: nat, a2: nat, total: bool)
    requires Ranked(h, rank) && StackOk(h, stack) && a1 in h && h[a1].Blk?
             && FrameOk(h, Frame(a1, a2, 0, |h[a1].fields|))
    ensures var (f1, f2) := (h[a1].fields, h[a2].fields);
            var stack' := Pushed(stack, a1, a2, |f1|);
            && StackOk(h, stack')
            && AllGood(h, rank, f1) && AllGood(h, rank, f2)
            && Then(CompareAll(h, rank, f1, f2, total), Rest(h, rank, stack, total)) ==
               Then(Compare(h, rank, f1[0], f2[0], total), Rest(h, rank, stack', total))
  {
    FieldsGood(h, rank, a1);
    FieldsGood(h, rank, a2);
    PushedPending(h, stack, a1, a2, true);
    PushedPending(h, stack, a1, a2, false);
    PendingGood(h, rank, stack);
    var f1, f2 := h[a1].fields[1..], h[a2].fields[1..];
    CompareConcat(h, rank, f1, Pending(h, stack, true), f2, Pending(h, stack, false), total);
  }

  lemma PushWork(h: Heap, rank: map<nat, nat>, stack: seq<Frame>, a1: nat, a2: nat)
    requires Ranked(h, rank) && StackOk(h, stack) && a1 in h && h[a1].Blk?
             && FrameOk(h, Frame(a1, a2, 0, |h[a1].fields|))
    ensures var (f1, f2) := (h[a1].fields, h[a2].fields);
            var stack' := Pushed(stack, a1, a2, |f1|);
            && StackOk(h, stack')
            && AllGood(h, rank, f1) && AllGood(h, rank, f2)
            && Sizes(h, rank, f1) + Sizes(h, rank, f2) + Work(h, rank, stack) ==
               Size(h, rank, f1[0]) + Size(h, rank, f2[0]) + Work(h, rank, stack')
  {
    FieldsGood(h, rank, a1);
    FieldsGood(h, rank, a2);
    PushedPending(h, stack, a1, a2, true);
    PushedPending(h, stack, a1, a2, false);
    PendingGood(h, rank, stack);
    SizesConcat(h, rank, h[a1].fields[1..], Pending(h, stack, true));
    SizesConcat(h, rank, h[a2].fields[1..], Pending(h, stack, false));
  }

  // ----- The depth of the stack -----

  ghost predicate FrameShallow(h: Heap, rank: map<nat, nat>, n: nat, stack: seq<Frame>, k: nat)
    requires Ranked(h, rank)
  {
    k < |stack| ==> FrameOk(h, stack[k]) && FieldsHeight(h, rank, stack[k].a1) + 1 + k <= n
  }

  ghost function FieldsHeight(h: Heap, rank: map<nat, nat>, a: nat): nat
    requires Ranked(h, rank) && a in h && h[a].Blk?
  {
    FieldsGood(h, rank, a);
    Heights(h, rank, h[a].fields)
  }

  /** The frames on the stack belong to nested blocks of a value of height `n`, and `x` is
      inside all of them. */
  ghost predicate Shallow(h: Heap, rank: map<nat, nat>, n: nat, x: Value, stack: seq<Frame>) {
    && Ranked(h, rank) && Good(h, rank, x) && Height(h, rank, x) + |stack| <= n
    && forall k: nat {:trigger FrameShallow(h, rank, n, stack, k)} :: FrameShallow(h, rank, n, stack, k)
  }

  lemma StartShallow(h: Heap, rank: map<nat, nat>, v: Value)
    requires Ranked(h, rank) && Good(h, rank, v)
    ensures Shallow(h, rank, Height(h, rank, v), v, []) == true
  {
  }

  lemma AgainShallow(h: Heap, rank: map<nat, nat>, n: nat, x: Value, w: Value, stack: seq<Frame>)
    requires Shallow(h, rank, n, x, stack) && Unwraps(h, x, w)
    ensures Shallow(h, rank, n, w, stack) == true
  {
    assert x.Ref? ==> Ranked1(h, rank, x.a);
  }

  lemma DescendShallow(h: Heap, rank: map<nat, nat>, n: nat, x: Value, y: nat, stack: seq<Frame>)
    requires Shallow(h, rank, n, x, stack) && x.Ref? && h[x.a].Blk? && FrameOk(h, Frame(x.a, y, 0, |h[x.a].fields|))
    ensures Shallow(h, rank, n, h[x.a].fields[0], Pushed(stack, x.a, y, |h[x.a].fields|)) == true
    ensures |stack| < n
  {
    var stack' := Pushed(stack, x.a, y, |h[x.a].fields|);
    FieldsGood(h, rank, x.a);
    HeightsMax(h, rank, h[x.a].fields, 0);
    forall k: nat ensures FrameShallow(h, rank, n, stack', k) {
      assert FrameShallow(h, rank, n, stack, k);
    }
  }

  lemma PopShallow(h: Heap, rank: map<nat, nat>, n: nat, x: Value, rest: seq<Frame>, f: Frame)
    requires Shallow(h, rank, n, x, rest + [f]) && FrameOk(h, f)
    ensures Shallow(h, rank, n, h[f.a1].fields[f.i], Popped(rest, f)) == true
  {
    var stack, stack' := rest + [f], Popped(rest, f);
    assert FrameShallow(h, rank, n, stack, |rest|);
    FieldsGood(h, rank, f.a1);
    HeightsMax(h, rank, h[f.a1].fields, f.i);
    forall k: nat ensures FrameShallow(h, rank, n, stack', k) {
      assert FrameShallow(h, rank, n, stack, k);
    }
  }

  // ----- One pair -----

  /** `w` is `x`, or what the forwarding block `x` denotes. */
  ghost predicate Unwraps(h: Heap, x: Value, w: Value) {
    w == x || (x.Ref? && x.a in h && h[x.a].Forward? && w == h[x.a].v)
  }

  /** What a step says about the comparison of `v1` and `v2`. */
  ghost predicate StepOk(h: Heap, rank: map<nat, nat>, v1: Value, v2: Value, total: bool, step: Step)
    requires Ranked(h, rank) && Good(h, rank, v1) && Good(h, rank, v2)
  {
    match step
    case Return(r) => Compare(h, rank, v1, v2, total) == r != Order(0)
    case NextItem => Compare(h, rank, v1, v2, total) == Order(0)
    case Again(w1, w2) =>
      && Good(h, rank, w1) && Good(h, rank, w2) && Compare(h, rank, v1, v2, total) == Compare(h, rank, w1, w2, total)
      && Size(h, rank, w1) + Size(h, rank, w2) < Size(h, rank, v1) + Size(h, rank, v2)
      && Unwraps(h, v1, w1) && Unwraps(h, v2, w2)
    case Descend =>
      && v1.Ref? && v2.Ref? && h[v1.a].Blk? && FrameOk(h, Frame(v1.a, v2.a, 0, |h[v1.a].fields|))
      && AllGood(h, rank, h[v1.a].fields) && AllGood(h, rank, h[v2.a].fields)
      && Compare(h, rank, v1, v2, total) == CompareAll(h, rank, h[v1.a].fields, h[v2.a].fields, total)
      && Size(h, rank, v1) == 1 + Sizes(h, rank, h[v1.a].fields)
        && Size(h, rank, v2) == 1 + Sizes(h, rank, h[v2.a].fields)
  }

  function Leave(n: int): Step {
    if n == 0 then NextItem else Return(Order(n))
  }

  /** The loop over the floats of two arrays of the same length. */
  method DoubleFields(a: seq<nat>, b: seq<nat>, total: bool) returns (n: int)
    requires |a| == |b|
    ensures n == CompareDoubleArrays(a, b, total)
  {
    for i := 0 to |a|
      invariant CompareDoubleArrays(a, b, total) == CompareDoubleArrays(a[i..], b[i..], total)
    {
      n := CompareDoubles(a[i], b[i], total);
      assert a[i..][1..] == a[i + 1..] && b[i..][1..] == b[i + 1..];
      if n != 0 {
        return;
      }
    }
    n := 0;
  }

  /** The loop over the bytes that two strings have in common, then their lengths. */
  method StringBytes(a: seq<byte>, b: seq<byte>) returns (n: int)
    ensures n == CompareStrings(a, b)
  {
    var i := 0;
    while i < |a| && i < |b|
      invariant i <= |a| && i <= |b| && CompareStrings(a, b) == CompareStrings(a[i..], b[i..])
    {
      if a[i] < b[i] {
        return LESS;
      } else if a[i] > b[i] {
        return GREATER;
      }
      assert a[i..][1..] == a[i + 1..] && b[i..][1..] == b[i + 1..];
      i := i + 1;
    }
    n := |a| - |b|;
  }

  /** Two blocks in the value area that are not forwarding blocks. */
  method ExamineBlocks(h: Heap, ghost rank: map<nat, nat>, v1: Value, v2: Value, total: bool) returns (step: Step)
    requires Ranked(h, rank) && Good(h, rank, v1) && Good(h, rank, v2)
    requires v1.Ref? && v2.Ref? && !h[v1.a].Forward? && !h[v2.a].Forward? && !(v1 == v2 && total)
    ensures StepOk(h, rank, v1, v2, total, step)
  {
    assert Ranked1(h, rank, v1.a) && Ranked1(h, rank, v2.a);
    var o1, o2 := h[v1.a], h[v2.a];
    if Tag(o1) != Tag(o2) {
      return Return(Order(Tag(o1) - Tag(o2)));
    }
    match (o1, o2)
    case (Str(a), Str(b)) =>
      if v1 == v2 {
        return NextItem;
      }
      var n := StringBytes(a, b);
      step := Leave(n);
    case (Dbl(a), Dbl(b)) => step := Leave(CompareDoubles(a, b, total));
    case (Dbls(a), Dbls(b)) =>
      if |a| != |b| {
        return Return(Order(|a| - |b|));
      }
      var n := DoubleFields(a, b, total);
      step := Leave(n);
    case (Object(a), Object(b)) => step := Leave(a - b);
    case (Blk(_, f1), Blk(_, f2)) =>
      if |f1| != |f2| {
        step := Return(Order(|f1| - |f2|));
      } else if |f1| == 0 {
        step := NextItem;
      } else {
        step := Descend;
      }
    case _ => step := Return(Invalid);
  }

  method Examine(h: Heap, ghost rank: map<nat, nat>, v1: Value, v2: Value, total: bool) returns (step: Step)
    requires Ranked(h, rank) && Good(h, rank, v1) && Good(h, rank, v2)
    ensures StepOk(h, rank, v1, v2, total, step)
  {
    assert v1.Ref? ==> Ranked1(h, rank, v1.a);
    assert v2.Ref? ==> Ranked1(h, rank, v2.a);
    if v1 == v2 && total {
      return NextItem;
    }
    if v1.Long? {
      if v1 == v2 {
        return NextItem;
      }
      if v2.Long? {
        return Return(Order(v1.n - v2.n));
      }
      if v2.Ref? && h[v2.a].Forward? {
        return Again(v1, h[v2.a].v);
      }
      return Return(Order(LESS));
    }
    if v2.Long? {
      if v1.Ref? && h[v1.a].Forward? {
        return Again(h[v1.a].v, v2);
      }
      return Return(Order(GREATER));
    }
    if v1.Outside? || v2.Outside? {
      if v1 == v2 {
        return NextItem;
      }
      return Return(Order(Address(v1) / 2 - Address(v2) / 2));
    }
    if h[v1.a].Forward? {
      return Again(h[v1.a].v, v2);
    }
    if h[v2.a].Forward? {
      return Again(v1, h[v2.a].v);
    }
    step := ExamineBlocks(h, rank, v1, v2, total);
  }

  // ----- The whole comparison -----

  /** What is left to compare, `x` and `y` and then the pairs on the stack, decides the
      comparison of `v1` and `v2`. */
  ghost predicate Going(h: Heap, rank: map<nat, nat>, v1: Value, v2: Value, total: bool, x: Value, y: Value,
                        stack: seq<Frame>) {
    && Ranked(h, rank) && StackOk(h, stack) && Good(h, rank, v1) && Good(h, rank, v2) && Good(h, rank, x)
      && Good(h, rank, y)
    && Compare(h, rank, v1, v2, total) == Then(Compare(h, rank, x, y, total), Rest(h, rank, stack, total))
  }

  ghost function Measure(h: Heap, rank: map<nat, nat>, x: Value, y: Value, stack: seq<Frame>): nat {
    if Ranked(h, rank) && StackOk(h, stack) && Good(h, rank, x) && Good(h, rank, y)
    then Size(h, rank, x) + Size(h, rank, y) + Work(h, rank, stack) else 0
  }

  lemma StartGoing(h: Heap, rank: map<nat, nat>, v1: Value, v2: Value, total: bool)
    requires Ranked(h, rank) && Good(h, rank, v1) && Good(h, rank, v2)
    ensures Going(h, rank, v1, v2, total, v1, v2, []) == true
  {
  }

  lemma AgainGoing(h: Heap, rank: map<nat, nat>, v1: Value, v2: Value, total: bool, x: Value, y: Value,
                   stack: seq<Frame>, step: Step)
    requires Going(h, rank, v1, v2, total, x, y, stack) && StepOk(h, rank, x, y, total, step) && step.Again?
    ensures Going(h, rank, v1, v2, total, step.w1, step.w2, stack) == true
    ensures Measure(h, rank, step.w1, step.w2, stack) < Measure(h, rank, x, y, stack)
  {
  }

  lemma DescendGoing(h: Heap, rank: map<nat, nat>, v1: Value, v2: Value, total: bool, x: Value, y: Value,
                     stack: seq<Frame>)
    requires Going(h, rank, v1, v2, total, x, y, stack) && StepOk(h, rank, x, y, total, Descend)
    ensures var stack' := Pushed(stack, x.a, y.a, |h[x.a].fields|);
            && Going(h, rank, v1, v2, total, h[x.a].fields[0], h[y.a].fields[0], stack') == true
            && Measure(h, rank, h[x.a].fields[0], h[y.a].fields[0], stack') < Measure(h, rank, x, y, stack)
  {
    PushRest(h, rank, stack, x.a, y.a, total);
    PushWork(h, rank, stack, x.a, y.a);
  }

  lemma PopGoing(h: Heap, rank: map<nat, nat>, v1: Value, v2: Value, total: bool, x: Value, y: Value, rest: seq<Frame>,
                 f: Frame)
    requires FrameOk(h, f) && Going(h, rank, v1, v2, total, x, y, rest + [f]) && StepOk(h, rank, x, y, total, NextItem)
    ensures var w1, w2 := h[f.a1].fields[f.i], h[f.a2].fields[f.i];
            && Going(h, rank, v1, v2, total, w1, w2, Popped(rest, f)) == true
            && Measure(h, rank, w1, w2, Popped(rest, f)) < Measure(h, rank, x, y, rest + [f])
  {
    assert forall k :: 0 <= k < |rest| ==> rest[k] == (rest + [f])[k];
    PopRest(h, rank, rest, f, total);
  }

  class Comparator {
    /** The number of frames that the stack has room for. */
    var limit: nat

    constructor ()
      ensures limit == COMPARE_STACK_INIT_SIZE
    {
      limit := COMPARE_STACK_INIT_SIZE;
    }

    /** `compare_free_stack_r`. */
    method FreeStack()
      modifies this
      ensures limit == COMPARE_STACK_INIT_SIZE
    {
      limit := COMPARE_STACK_INIT_SIZE;
    }

    /** `compare_resize_stack_r`: twice the room, unless that is too much or there is no
        memory for it; then the stack is given back. */
    method ResizeStack() returns (ok: bool)
      requires limit > 0
      modifies this
      ensures ok ==> limit == 2 * old(limit) < COMPARE_STACK_MAX_SIZE
      ensures !ok ==> limit == COMPARE_STACK_INIT_SIZE
    {
      var memory: bool := *;
      ok := 2 * limit < COMPARE_STACK_MAX_SIZE && memory;
      if ok {
        limit := 2 * limit;
      } else {
        FreeStack();
      }
    }

    /** `compare_val_r`. */
    method CompareVal(h: Heap, ghost rank: map<nat, nat>, v1: Value, v2: Value, total: bool) returns (out: Outcome)
      requires Ranked(h, rank) && Good(h, rank, v1) && Good(h, rank, v2) && limit == COMPARE_STACK_INIT_SIZE
      modifies this
      ensures out.Done? ==> out.r == Compare(h, rank, v1, v2, total)
      ensures out == OutOfMemory || out == Done(Invalid) ==> limit == COMPARE_STACK_INIT_SIZE
      ensures out == OutOfMemory ==> Height(h, rank, v1) >= COMPARE_STACK_INIT_SIZE
    {
      var stack: seq<Frame> := [];
      var x, y := v1, v2;
      ghost var n := Height(h, rank, v1);
      StartGoing(h, rank, v1, v2, total);
      StartShallow(h, rank, v1);
      while true
        invariant COMPARE_STACK_INIT_SIZE <= limit && Shallow(h, rank, n, x, stack)
        invariant |stack| < limit && Going(h, rank, v1, v2, total, x, y, stack)
        decreases Measure(h, rank, x, y, stack)
      {
        var step := Examine(h, rank, x, y, total);
        match step {
          case Return(r) =>
            if r == Invalid {
              FreeStack();
            }
            return Done(r);
          case Again(w1, w2) =>
            AgainGoing(h, rank, v1, v2, total, x, y, stack, step);
            AgainShallow(h, rank, n, x, w1, stack);
            x, y := w1, w2;
          case Descend =>
            DescendGoing(h, rank, v1, v2, total, x, y, stack);
            DescendShallow(h, rank, n, x, y.a, stack);
            var size := |h[x.a].fields|;
            if size > 1 && |stack| + 1 >= limit {
              var ok := ResizeStack();
              if !ok {
                return OutOfMemory;
              }
            }
            stack := Pushed(stack, x.a, y.a, size);
            x, y := h[x.a].fields[0], h[y.a].fields[0];
          case NextItem =>
            if stack == [] {
              return Done(Order(0));
            }
            var rest, f := stack[..|stack| - 1], stack[|stack| - 1];
            assert stack == rest + [f];
            PopGoing(h, rank, v1, v2, total, x, y, rest, f);
            PopShallow(h, rank, n, x, rest, f);
            x, y := h[f.a1].fields[f.i], h[f.a2].fields[f.i];
            stack := Popped(rest, f);
        }
      }
    }

    /** `caml_compare_r`: the sign of the total comparison. */
    method CompareValues(h: Heap, ghost rank: map<nat, nat>, v1: Value, v2: Value) returns (out: Outcome)
      requires Ranked(h, rank) && Good(h, rank, v1) && Good(h, rank, v2) && limit == COMPARE_STACK_INIT_SIZE
      modifies this
      ensures limit == COMPARE_STACK_INIT_SIZE
      ensures out.Done? ==> var r := Compare(h, rank, v1, v2, true);
                            out.r == if r.Invalid? then Invalid
                              else Order(if r.n < 0 then LESS else if r.n > 0 then GREATER else 0)
      ensures out == OutOfMemory ==> Height(h, rank, v1) >= COMPARE_STACK_INIT_SIZE
    {
      out := CompareVal(h, rank, v1, v2, true);
      FreeStack();
      if out.Done? && out.r.Order? {
        out := Done(Order(if out.r.n < 0 then LESS else if out.r.n > 0 then GREATER else 0));
      }
    }

    /** The six relational primitives. */
    method Test(op: Operator, h: Heap, ghost rank: map<nat, nat>, v1: Value, v2: Value) returns (out: Outcome, b: bool)
      requires Ranked(h, rank) && Good(h, rank, v1) && Good(h, rank, v2) && limit == COMPARE_STACK_INIT_SIZE
      modifies this
      ensures limit == COMPARE_STACK_INIT_SIZE
      ensures out.Done? ==> out.r == Compare(h, rank, v1, v2, false) && (out.r.Order? ==> b == Holds(op, out.r.n))
      ensures out == OutOfMemory ==> Height(h, rank, v1) >= COMPARE_STACK_INIT_SIZE
    {
      out := CompareVal(h, rank, v1, v2, false);
      FreeStack();
      b := out.Done? && out.r.Order? && Holds(op, out.r.n);
    }
  }
}
