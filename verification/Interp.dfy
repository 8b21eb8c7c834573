/**
 Function application in the bytecode interpreter (byterun/interp.c): what each
 instruction makes of the registers, the stack and the heap. The stack is given from
 its top on.
 */
module Interp {
  /** `Code` is a code pointer, `Ptr` a pointer to a block. */
  datatype Value = Int(n: int) | Code(pc: nat) | Ptr(a: nat)

  type Heap = map<nat, seq<Value>>

  /** One word of bytecode. */
  datatype Word =
    | PUSH_RETADDR | APPLY | APPLY1 | APPLY2 | APPLY3
    | APPTERM | APPTERM1 | APPTERM2 | APPTERM3
    | RETURN | RESTART | GRAB | OTHER
    | Operand(k: int)

  datatype State = State(pc: nat, accu: Value, env: Value, extra: nat, stack: seq<Value>, heap: Heap)

  datatype Outcome = Next(s: State) | Stuck

  /** The return frame under the arguments of a call. */
  datatype Frame = Frame(pc: nat, env: Value, extra: nat)

  function Words(f: Frame): seq<Value> { [Code(f.pc), f.env, Int(f.extra)] }

  predicate IsFrame(stack: seq<Value>) {
    |stack| >= 3 && stack[0].Code? && stack[2].Int? && stack[2].n >= 0
  }

  function FrameOf(stack: seq<Value>): Frame
    requires IsFrame(stack)
  {
    Frame(stack[0].pc, stack[1], stack[2].n)
  }

  predicate IsClosure(h: Heap, v: Value) {
    v.Ptr? && v.a in h && |h[v.a]| > 0 && h[v.a][0].Code?
  }

  /** `Code_val`. */
  function CodeVal(h: Heap, v: Value): nat
    requires IsClosure(h, v)
  {
    h[v.a][0].pc
  }

  /** The natural number in the code at `pc`. */
  predicate HasOperand(code: seq<Word>, pc: nat) {
    pc < |code| && code[pc].Operand? && code[pc].k >= 0
  }

  // ----- Calls and returns -----

  /** Jump to the closure in the accumulator. */
  function Enter(s: State, stack: seq<Value>, extra: nat): Outcome {
    if IsClosure(s.heap, s.accu)
      then Next(s.(pc := CodeVal(s.heap, s.accu), env := s.accu, stack := stack, extra := extra)) else Stuck
  }

  /** Go back to the caller. */
  function Leave(s: State, stack: seq<Value>): Outcome {
    if IsFrame(stack) then
      var f := FrameOf(stack);
      Next(s.(pc := f.pc, env := f.env, extra := f.extra, stack := stack[3..]))
    else Stuck
  }

  /** APPLY1, APPLY2 and APPLY3, whose operand is implicit: the return frame goes under the
      `n` arguments. */
  function ApplyShort(s: State, n: nat): Outcome
    requires n > 0
  {
    if n <= |s.stack| then Enter(s, s.stack[..n] + Words(Frame(s.pc + 1, s.env, s.extra)) + s.stack[n..], n - 1)
      else Stuck
  }

  /** APPTERM: a tail call; the frame of `slots` words gives way to the arguments on top of
      it. */
  function ApplyTail(s: State, n: nat, slots: nat): Outcome {
    if 0 < n <= slots <= |s.stack| then Enter(s, s.stack[..n] + s.stack[slots..], s.extra + n - 1) else Stuck
  }

  function Return(s: State, n: nat): Outcome {
    if n > |s.stack| then Stuck
    else if s.extra > 0 then Enter(s, s.stack[n..], s.extra - 1)
    else Leave(s, s.stack[n..])
  }

  /** RESTART: the arguments of a partial application go back on the stack. */
  function Restart(s: State): Outcome {
    if s.env.Ptr? && s.env.a in s.heap && |s.heap[s.env.a]| >= 2 then
      var fields := s.heap[s.env.a];
      Next(s.(pc := s.pc + 1, env := fields[1], stack := fields[2..] + s.stack, extra := s.extra + |fields| - 2))
    else Stuck
  }

  /** GRAB: go on when there are enough arguments, or else return a closure with those that
      there are, at the new address `a`. */
  function Grab(s: State, required: nat, a: nat): Outcome {
    if s.extra >= required then Next(s.(pc := s.pc + 2, extra := s.extra - required))
    else
      var n := 1 + s.extra;
      if n <= |s.stack| && s.pc > 0 && a !in s.heap then
        var closure := [Code(s.pc - 1), s.env] + s.stack[..n];
        Leave(s.(accu := Ptr(a), heap := s.heap[a := closure]), s.stack[n..])
      else Stuck
  }

  /** One instruction; `a` is the address of the block that it may allocate. */
  function Step(code: seq<Word>, s: State, a: nat): Outcome {
    if s.pc >= |code| then Stuck
    else
      match code[s.pc]
      case PUSH_RETADDR =>
        if s.pc + 1 < |code| && code[s.pc + 1].Operand? && s.pc + 1 + code[s.pc + 1].k >= 0 then
          Next(s.(pc := s.pc + 2, stack := Words(Frame(s.pc + 1 + code[s.pc + 1].k, s.env, s.extra)) + s.stack))
        else Stuck
      case APPLY => if HasOperand(code, s.pc + 1)
        && code[s.pc + 1].k > 0 then Enter(s, s.stack, code[s.pc + 1].k - 1) else Stuck
      case APPLY1 => ApplyShort(s, 1)
      case APPLY2 => ApplyShort(s, 2)
      case APPLY3 => ApplyShort(s, 3)
      case APPTERM =>
        if HasOperand(code, s.pc + 1)
          && HasOperand(code, s.pc + 2) then ApplyTail(s, code[s.pc + 1].k, code[s.pc + 2].k) else Stuck
      case APPTERM1 => if HasOperand(code, s.pc + 1) then ApplyTail(s, 1, code[s.pc + 1].k) else Stuck
      case APPTERM2 => if HasOperand(code, s.pc + 1) then ApplyTail(s, 2, code[s.pc + 1].k) else Stuck
      case APPTERM3 => if HasOperand(code, s.pc + 1) then ApplyTail(s, 3, code[s.pc + 1].k) else Stuck
      case RETURN => if HasOperand(code, s.pc + 1) then Return(s, code[s.pc + 1].k) else Stuck
      case RESTART => Restart(s)
      case GRAB => if HasOperand(code, s.pc + 1) then Grab(s, code[s.pc + 1].k, a) else Stuck
      case _ => Stuck
  }

  // ----- Application -----

  /** The machine is about to run `v` on `args`, and to return to the frame `f` with `rest`
      on the stack. */
  ghost predicate Applying(s: State, v: Value, args: seq<Value>, f: Frame, rest: seq<Value>) {
    && args != [] && IsClosure(s.heap, v) && s.pc == CodeVal(s.heap, v) && s.env == v
    && s.extra == |args| - 1 && s.stack == args + Words(f) + rest
  }

  /** The machine is back in the frame `f`. */
  ghost predicate Returned(s: State, f: Frame, rest: seq<Value>) {
    s.pc == f.pc && s.env == f.env && s.extra == f.extra && s.stack == rest
  }

  /** The closure `f` of a function of `n` arguments, whose code is at `p`. */
  ghost predicate IsFunction(code: seq<Word>, h: Heap, f: Value, p: nat, n: nat) {
    && IsClosure(h, f) && CodeVal(h, f) == p && 1 <= p && p + 1 < |code| && n > 0
    && code[p - 1] == RESTART && code[p] == GRAB && code[p + 1] == Operand(n - 1)
  }

  /** `v` is `f` with the arguments `got` already given. */
  ghost predicate Holds(code: seq<Word>, h: Heap, v: Value, f: Value, p: nat, n: nat, got: seq<Value>) {
    && IsFunction(code, h, f, p, n)
    && if got == [] then v == f else v.Ptr? && v.a in h && h[v.a] == [Code(p - 1), f] + got
  }

  /** The body of the function `f` starts: its code pointer, environment, arguments and
      number of surplus arguments. */
  ghost predicate Entered(s: State, f: Value, p: nat, n: nat, args: seq<Value>, frame: Frame, rest: seq<Value>) {
    s.pc == p + 2 && s.env == f && s.stack == args + Words(frame) + rest && |args| == n + s.extra
  }

  /** What the machine does before it is in the body of a function or back in the caller:
      RESTART for a partial application, and GRAB. */
  function Prologue(code: seq<Word>, s: State, a: nat): Outcome {
    if s.pc < |code| && code[s.pc] == RESTART then
      var o := Step(code, s, a);
      if o.Next? then Step(code, o.s, a) else Stuck
    else Step(code, s, a)
  }

  lemma FrameUnder(args: seq<Value>, f: Frame, rest: seq<Value>)
    ensures var stack := args + Words(f) + rest;
            && stack[..|args|] == args && stack[|args|..] == Words(f) + rest
            && IsFrame(stack[|args|..]) && FrameOf(stack[|args|..]) == f && stack[|args|..][3..] == rest
  {
    var stack := args + Words(f) + rest;
    assert stack == args + (Words(f) + rest);
  }

  /** RESTART makes the application of a partial application that of the function to all
      arguments. */
  lemma RestartApplies(code: seq<Word>, s: State, v: Value, f: Value, p: nat, n: nat, got: seq<Value>, args: seq<Value>,
                       frame: Frame, rest: seq<Value>, a: nat)
    requires Applying(s, v, args, frame, rest) && Holds(code, s.heap, v, f, p, n, got) && got != []
    ensures code[s.pc] == RESTART
    ensures Step(code, s, a).Next? && Applying(Step(code, s, a).s, f, got + args, frame, rest)
    ensures Step(code, s, a).s.heap == s.heap
  {
    var fields := s.heap[v.a];
    assert fields[1] == f && fields[2..] == got;
    assert got + (args + Words(frame) + rest) == got + args + Words(frame) + rest;
  }

  /** GRAB with too few arguments. */
  lemma GrabTooFew(code: seq<Word>, s: State, f: Value, p: nat, n: nat, args: seq<Value>, frame: Frame,
                   rest: seq<Value>, a: nat)
    requires Applying(s, f, args, frame, rest) && IsFunction(code, s.heap, f, p, n) && |args| < n && a !in s.heap
    ensures Step(code, s, a).Next? && Returned(Step(code, s, a).s, frame, rest)
    ensures Holds(code, Step(code, s, a).s.heap, Step(code, s, a).s.accu, f, p, n, args)
    ensures Step(code, s, a).s.heap == s.heap[a := [Code(p - 1), f] + args]
  {
    FrameUnder(args, frame, rest);
  }

  /** GRAB with enough arguments. */
  lemma GrabEnough(code: seq<Word>, s: State, f: Value, p: nat, n: nat, args: seq<Value>, frame: Frame,
                   rest: seq<Value>, a: nat)
    requires Applying(s, f, args, frame, rest) && IsFunction(code, s.heap, f, p, n) && |args| >= n
    ensures Step(code, s, a).Next? && Entered(Step(code, s, a).s, f, p, n, args, frame, rest)
    ensures Step(code, s, a).s.heap == s.heap
  {
  }

  /** Applying a function, or a partial application of it, to some more arguments. */
  lemma PrologueRuns(code: seq<Word>, s: State, v: Value, f: Value, p: nat, n: nat, got: seq<Value>, args: seq<Value>,
                     frame: Frame, rest: seq<Value>, a: nat)
    requires Applying(s, v, args, frame, rest) && Holds(code, s.heap, v, f, p, n, got) && a !in s.heap
    ensures Prologue(code, s, a).Next?
    ensures var s' := Prologue(code, s, a).s;
            if |got + args| < n
            then Returned(s', frame, rest) && Holds(code, s'.heap, s'.accu, f, p, n, got + args)
              && s'.heap == s.heap[a := [Code(p - 1), f] + (got + args)]
            else Entered(s', f, p, n, got + args, frame, rest) && s'.heap == s.heap
  {
    var s1 := s;
    if got != [] {
      RestartApplies(code, s, v, f, p, n, got, args, frame, rest, a);
      s1 := Step(code, s, a).s;
    } else {
      assert got + args == args;
    }
    assert Applying(s1, f, got + args, frame, rest) && s1.heap == s.heap;
    if |got + args| < n {
      GrabTooFew(code, s1, f, p, n, got + args, frame, rest, a);
    } else {
      GrabEnough(code, s1, f, p, n, got + args, frame, rest, a);
    }
  }

  // ----- Currying -----

  /** One of several successive applications: the arguments, where to return, and the state
      in which it starts. */
  datatype Call = Call(args: seq<Value>, frame: Frame, rest: seq<Value>, start: State, a: nat)

  function AllArgs(calls: seq<Call>): seq<Value> {
    if calls == [] then [] else AllArgs(calls[..|calls| - 1]) + calls[|calls| - 1].args
  }

  /** Blocks stay as they are between calls. */
  ghost predicate Extends(h: Heap, h': Heap) {
    forall a :: a in h ==> a in h' && h'[a] == h[a]
  }

  /** Call `d` applies what `c` returned. */
  ghost predicate CallsNext(code: seq<Word>, c: Call, d: Call) {
    && Prologue(code, c.start, c.a).Next?
    && var before := Prologue(code, c.start, c.a).s;
       && Applying(d.start, before.accu, d.args, d.frame, d.rest)
       && Extends(before.heap, d.start.heap) && d.a !in d.start.heap
  }

  ghost predicate Follows(code: seq<Word>, calls: seq<Call>, i: nat) {
    0 < i < |calls| ==> CallsNext(code, calls[i - 1], calls[i])
  }

  /** What the call `c`, which makes the arguments of `f` to `args`, comes to: its caller has a
      closure, or the body of the function starts. */
  ghost predicate Delivered(code: seq<Word>, c: Call, f: Value, p: nat, n: nat, args: seq<Value>) {
    && Prologue(code, c.start, c.a).Next?
    && var s := Prologue(code, c.start, c.a).s;
       if |args| < n then Returned(s, c.frame, c.rest) && Holds(code, s.heap, s.accu, f, p, n, args)
       else Entered(s, f, p, n, args, c.frame, c.rest)
  }

  /** `calls` apply `f` to their arguments one after the other. */
  ghost predicate Successive(code: seq<Word>, calls: seq<Call>, f: Value, p: nat, n: nat) {
    && calls != [] && IsFunction(code, calls[0].start.heap, f, p, n)
    && Applying(calls[0].start, f, calls[0].args, calls[0].frame, calls[0].rest) && calls[0].a !in calls[0].start.heap
    && forall i: nat {:trigger Follows(code, calls, i)} :: Follows(code, calls, i)
  }

  lemma HoldsLater(code: seq<Word>, h: Heap, h': Heap, v: Value, f: Value, p: nat, n: nat, got: seq<Value>)
    requires Holds(code, h, v, f, p, n, got) && Extends(h, h')
    ensures Holds(code, h', v, f, p, n, got)
  {
  }

  lemma {:induction false} FewerArgs(calls: seq<Call>, k: nat)
    requires k <= |calls|
    ensures |AllArgs(calls[..k])| <= |AllArgs(calls)|
    decreases |calls|
  {
    if k < |calls| {
      var shorter := calls[..|calls| - 1];
      assert shorter[..k] == calls[..k];
      FewerArgs(shorter, k);
    } else {
      assert calls[..k] == calls;
    }
  }

  lemma SuccessivePrefix(code: seq<Word>, calls: seq<Call>, f: Value, p: nat, n: nat, k: nat)
    requires Successive(code, calls, f, p, n) && 0 < k <= |calls|
    ensures Successive(code, calls[..k], f, p, n) == true
  {
    var before := calls[..k];
    forall i: nat ensures Follows(code, before, i) {
      assert Follows(code, calls, i);
    }
  }

  lemma NextCall(code: seq<Word>, c: Call, d: Call, f: Value, p: nat, n: nat, got: seq<Value>)
    requires Delivered(code, c, f, p, n, got) && |got| < n && CallsNext(code, c, d)
    ensures Delivered(code, d, f, p, n, got + d.args) == true
  {
    var s := Prologue(code, c.start, c.a).s;
    HoldsLater(code, s.heap, d.start.heap, s.accu, f, p, n, got);
    PrologueRuns(code, d.start, s.accu, f, p, n, got, d.args, d.frame, d.rest, d.a);
  }

  lemma FirstCall(code: seq<Word>, c: Call, f: Value, p: nat, n: nat)
    requires IsFunction(code, c.start.heap, f, p, n) && Applying(c.start, f, c.args, c.frame, c.rest)
             && c.a !in c.start.heap
    ensures Delivered(code, c, f, p, n, c.args) == true
  {
    PrologueRuns(code, c.start, f, f, p, n, [], c.args, c.frame, c.rest, c.a);
    assert [] + c.args == c.args;
  }

  /** However the arguments of a function are split over successive applications, each but
      the last returns a closure to its caller, and the last enters the body of the function
      with all of the arguments, as one application to all of them does. */
  lemma {:induction false} Currying(code: seq<Word>, calls: seq<Call>, f: Value, p: nat, n: nat)
    requires Successive(code, calls, f, p, n) && |AllArgs(calls[..|calls| - 1])| < n
    ensures Delivered(code, calls[|calls| - 1], f, p, n, AllArgs(calls)) == true
    decreases |calls|
  {
    var k := |calls| - 1;
    if k == 0 {
      assert AllArgs(calls[..0]) + calls[0].args == calls[0].args;
      FirstCall(code, calls[0], f, p, n);
    } else {
      var before := calls[..k];
      SuccessivePrefix(code, calls, f, p, n, k);
      FewerArgs(before, k - 1);
      Currying(code, before, f, p, n);
      assert before[k - 1] == calls[k - 1] && Follows(code, calls, k);
      NextCall(code, calls[k - 1], calls[k], f, p, n, AllArgs(before));
    }
  }

  /** The same as a single application: the same code pointer, environment, stack and number
      of surplus arguments. */
  lemma OneApplication(code: seq<Word>, calls: seq<Call>, f: Value, p: nat, n: nat, one: State, a: nat)
    requires Successive(code, calls, f, p, n) && |AllArgs(calls[..|calls| - 1])| < n <= |AllArgs(calls)|
    requires Applying(one, f, AllArgs(calls), calls[|calls| - 1].frame, calls[|calls| - 1].rest)
             && IsFunction(code, one.heap, f, p, n)
    ensures Prologue(code, one, a).Next? && Prologue(code, calls[|calls| - 1].start, calls[|calls| - 1].a).Next?
    ensures var s, s' := Prologue(code, one, a).s, Prologue(code, calls[|calls| - 1].start, calls[|calls| - 1].a).s;
            s.pc == s'.pc && s.env == s'.env && s.extra == s'.extra && s.stack == s'.stack
  {
    Currying(code, calls, f, p, n);
    GrabEnough(code, one, f, p, n, AllArgs(calls), calls[|calls| - 1].frame, calls[|calls| - 1].rest, a);
  }

  // ----- Instructions that apply -----

  /** APPLY1, APPLY2 and APPLY3 apply the accumulator to the values on top of the stack. */
  lemma ShortApplies(s: State, args: seq<Value>, rest: seq<Value>)
    requires args != [] && s.stack == args + rest && IsClosure(s.heap, s.accu)
    ensures ApplyShort(s, |args|).Next?
            && Applying(ApplyShort(s, |args|).s, s.accu, args, Frame(s.pc + 1, s.env, s.extra), rest)
  {
    assert s.stack[..|args|] == args && s.stack[|args|..] == rest;
  }

  /** PUSH_RETADDR, the arguments pushed on it, and APPLY do the same. */
  lemma LongApplies(code: seq<Word>, s: State, args: seq<Value>, f: Frame, rest: seq<Value>, a: nat)
    requires s.pc < |code| && code[s.pc] == APPLY && HasOperand(code, s.pc + 1) && code[s.pc + 1].k == |args|
    requires args != [] && s.stack == args + Words(f) + rest && IsClosure(s.heap, s.accu)
    ensures Step(code, s, a).Next? && Applying(Step(code, s, a).s, s.accu, args, f, rest)
  {
  }

  /** A tail call in a function that has surplus arguments applies its callee to its own
      arguments and then to the surplus ones, and returns where the function would. */
  lemma TailApplies(s: State, args: seq<Value>, locals: seq<Value>, surplus: seq<Value>, f: Frame, rest: seq<Value>)
    requires args != [] && IsClosure(s.heap, s.accu) && s.extra == |surplus|
    requires s.stack == args + locals + (surplus + Words(f) + rest)
    ensures var o := ApplyTail(s, |args|, |args + locals|);
            o.Next? && Applying(o.s, s.accu, args + surplus, f, rest)
  {
    var tail := surplus + Words(f) + rest;
    assert s.stack == args + (locals + tail) && s.stack[..|args|] == args;
    assert s.stack[|args + locals|..] == tail;
    assert args + tail == args + surplus + Words(f) + rest;
  }

  /** A return applies the result to the surplus arguments, in order, if there are any, and
      otherwise goes back to the caller. */
  lemma ReturnApplies(s: State, locals: seq<Value>, surplus: seq<Value>, f: Frame, rest: seq<Value>)
    requires s.stack == locals + (surplus + Words(f) + rest) && s.extra == |surplus|
    requires surplus != [] ==> IsClosure(s.heap, s.accu)
    ensures Return(s, |locals|).Next?
    ensures if surplus == [] then Returned(Return(s, |locals|).s, f, rest)
            else Applying(Return(s, |locals|).s, s.accu, surplus, f, rest)
  {
    var tail := surplus + Words(f) + rest;
    assert s.stack[|locals|..] == tail;
    FrameUnder(surplus, f, rest);
  }

  // ----- Surplus arguments -----

  /** One function in a chain of results: `v` is `f` with the arguments `got` already given, and
      is applied in state `start`; its body comes to RETURN in state `end` with `locals` above
      what it has left of the stack. */
  datatype Stage = Stage(start: State, v: Value, f: Value, p: nat, n: nat, got: seq<Value>, a: nat,
    locals: seq<Value>, end: State)

  /** How many arguments the first `k` functions take. */
  function Given(stages: seq<Stage>, k: nat): int
    requires k <= |stages|
  {
    if k == 0 then 0 else Given(stages, k - 1) + stages[k - 1].n - |stages[k - 1].got|
  }

  /** The body leaves the surplus arguments and what is under them alone. */
  ghost predicate Runs(code: seq<Word>, st: Stage) {
    && Holds(code, st.start.heap, st.v, st.f, st.p, st.n, st.got) && |st.got| < st.n && st.a !in st.start.heap
    && var o := Prologue(code, st.start, st.a);
       o.Next? && |o.s.stack| >= st.n ==> st.end.stack == st.locals + o.s.stack[st.n..] && st.end.extra == o.s.extra
  }

  /** The result of `st` is a function, which RETURN applies. */
  ghost predicate Passes(st: Stage, st': Stage) {
    && IsClosure(st.end.heap, st.end.accu) && st'.v == st.end.accu
    && (Return(st.end, |st.locals|).Next? ==> st'.start == Return(st.end, |st.locals|).s)
  }

  ghost predicate Results(code: seq<Word>, stages: seq<Stage>, args: seq<Value>, frame: Frame, rest: seq<Value>) {
    && stages != [] && Applying(stages[0].start, stages[0].v, args, frame, rest)
    && (forall i :: 0 <= i < |stages| ==> Runs(code, stages[i]))
    && (forall i :: 0 < i < |stages| ==> Passes(stages[i - 1], stages[i]))
  }

  /** A function that is applied to at least as many arguments as it takes, up to its RETURN. */
  lemma StageReturns(code: seq<Word>, st: Stage, args: seq<Value>, frame: Frame, rest: seq<Value>)
    requires Applying(st.start, st.v, args, frame, rest) && Runs(code, st) && |st.got + args| >= st.n
    ensures Prologue(code, st.start, st.a).Next?
            && Entered(Prologue(code, st.start, st.a).s, st.f, st.p, st.n, st.got + args, frame, rest)
    ensures var surplus := args[st.n - |st.got|..];
            && st.end.stack == st.locals + (surplus + Words(frame) + rest) && st.end.extra == |surplus|
  {
    PrologueRuns(code, st.start, st.v, st.f, st.p, st.n, st.got, args, frame, rest, st.a);
    var all, surplus := st.got + args, args[st.n - |st.got|..];
    assert all[st.n..] == surplus;
    assert (all + Words(frame) + rest)[st.n..] == surplus + Words(frame) + rest;
  }

  /** Function `k` is applied to the arguments that those before it have left. */
  lemma {:induction false} StageApplies(code: seq<Word>, stages: seq<Stage>, args: seq<Value>, frame: Frame,
                                        rest: seq<Value>, k: nat)
    requires Results(code, stages, args, frame, rest) && k < |stages| && Given(stages, k) < |args|
    ensures Given(stages, k) >= 0
    ensures Applying(stages[k].start, stages[k].v, args[Given(stages, k)..], frame, rest)
  {
    if k > 0 {
      var st := stages[k - 1];
      assert Runs(code, st) && Passes(stages[k - 1], stages[k]);
      StageApplies(code, stages, args, frame, rest, k - 1);
      var left := args[Given(stages, k - 1)..];
      StageReturns(code, st, left, frame, rest);
      var surplus := left[st.n - |st.got|..];
      assert surplus == args[Given(stages, k)..];
      ReturnApplies(st.end, st.locals, surplus, frame, rest);
    }
  }

  /** A function applied to more arguments than it takes: its body starts with its own, when it
      returns a function that one is applied to the others, and so on; when the last function
      of the chain has taken the last argument, its result goes to the caller of the first. */
  lemma SurplusArguments(code: seq<Word>, stages: seq<Stage>, args: seq<Value>, frame: Frame, rest: seq<Value>, k: nat)
    requires Results(code, stages, args, frame, rest) && k < |stages| && Given(stages, |stages|) == |args|
    requires forall i :: 0 <= i < |stages| ==> Given(stages, i) < |args|
    ensures 0 <= Given(stages, k) && Prologue(code, stages[k].start, stages[k].a).Next?
    ensures Entered(Prologue(code, stages[k].start, stages[k].a).s, stages[k].f, stages[k].p, stages[k].n,
                    stages[k].got + args[Given(stages, k)..], frame, rest)
    ensures var last := stages[|stages| - 1];
            Return(last.end, |last.locals|).Next? && Returned(Return(last.end, |last.locals|).s, frame, rest)
  {
    var n := |stages| - 1;
    StageApplies(code, stages, args, frame, rest, k);
    assert Runs(code, stages[k]) && Runs(code, stages[n]);
    assert Given(stages, k + 1) <= |args|;
    StageReturns(code, stages[k], args[Given(stages, k)..], frame, rest);
    StageApplies(code, stages, args, frame, rest, n);
    StageReturns(code, stages[n], args[Given(stages, n)..], frame, rest);
    var last, left := stages[n], args[Given(stages, n)..];
    assert left[last.n - |last.got|..] == [];
    ReturnApplies(last.end, last.locals, [], frame, rest);
  }
}
