/**
 The instructions of function application in place (byterun/interp.c): the stack is an
 array that grows downwards, and arguments are moved in it by loops.
 */
module InterpStack {
  import opened Interp

  class Machine {
    var pc: nat
    var accu: Value
    var env: Value
    var extra: nat
    var stack: array<Value>
    var sp: nat
    var heap: Heap

    ghost predicate Valid()
      reads this
    {
      sp <= stack.Length
    }

    ghost function View(): State
      reads this, stack
      requires Valid()
    {
      State(pc, accu, env, extra, stack[sp..], heap)
    }

    /** `pc = Code_val(accu); env = accu`. */
    method Jump()
      requires Valid() && IsClosure(heap, accu)
      modifies this`pc, this`env
      ensures Valid() && Enter(old(View()), old(View()).stack, extra) == Next(View())
    {
      pc := CodeVal(heap, accu);
      env := accu;
    }

    /** The three words on top of the stack are the return frame. */
    method PopFrame()
      requires Valid() && IsFrame(stack[sp..])
      modifies this`pc, this`env, this`extra, this`sp
      ensures Valid() && Leave(old(View()), old(View()).stack) == Next(View())
    {
      pc, env, extra := stack[sp].pc, stack[sp + 1], stack[sp + 2].n;
      assert stack[sp..][3..] == stack[sp + 3..];
      sp := sp + 3;
    }

    /** Words stored from index `at` on. */
    static method StoreWords(stack: array<Value>, at: nat, words: seq<Value>)
      requires at + |words| <= stack.Length
      modifies stack
      ensures stack[at..] == words + old(stack[at + |words|..])
    {
      ghost var below := stack[at + |words|..];
      for i := 0 to |words|
        invariant stack[at..at + i] == words[..i] && stack[at + |words|..] == below
      {
        stack[at + i] := words[i];
      }
      assert stack[at..] == stack[at..at + |words|] + stack[at + |words|..];
    }

    /** APPLY1, APPLY2, APPLY3. */
    method ApplyInPlace(n: nat)
      requires Valid() && 0 < n <= 3 && ApplyShort(View(), n).Next? && sp >= 3
      modifies this, stack
      ensures Valid() && stack == old(stack) && ApplyShort(old(View()), n) == Next(View())
    {
      var words := stack[sp..sp + n] + Words(Frame(pc + 1, env, extra));
      sp := sp - 3;
      StoreWords(stack, sp, words);
      assert old(View()).stack[..n] == old(stack[sp..sp + n]) && old(View()).stack[n..] == old(stack[sp + n..]);
      extra := n - 1;
      Jump();
    }

    /** `n` words move up from index `from` to index `to`, the last one first, since where
        they go may overlap with where they are. */
    static method Slide(stack: array<Value>, from: nat, to: nat, n: nat)
      requires from <= to && to + n <= stack.Length
      modifies stack
      ensures stack[to..] == old(stack[from..from + n]) + old(stack[to + n..])
    {
      var i := n;
      while i > 0
        invariant 0 <= i <= n
        invariant forall k :: to + i <= k < to + n ==> stack[k] == old(stack[k - to + from])
        invariant forall k :: 0 <= k < to + i ==> stack[k] == old(stack[k])
        invariant forall k :: to + n <= k < stack.Length ==> stack[k] == old(stack[k])
      {
        i := i - 1;
        stack[to + i] := stack[from + i];
      }
    }

    /** APPTERM: the arguments slide to the end of the frame. */
    method AppTerm(n: nat, slots: nat)
      requires Valid() && ApplyTail(View(), n, slots).Next?
      modifies this, stack
      ensures Valid() && stack == old(stack) && ApplyTail(old(View()), n, slots) == Next(View())
    {
      var newSp := sp + slots - n;
      Slide(stack, sp, newSp, n);
      assert old(View()).stack[..n] == old(stack[sp..sp + n]) && old(View()).stack[slots..] == old(stack[sp + slots..]);
      sp := newSp;
      extra := extra + n - 1;
      Jump();
    }

    /** RETURN. */
    method ReturnInPlace(n: nat)
      requires Valid() && Return(View(), n).Next?
      modifies this
      ensures Valid() && stack == old(stack) && Return(old(View()), n) == Next(View())
    {
      assert stack[sp..][n..] == stack[sp + n..];
      sp := sp + n;
      if extra > 0 {
        extra := extra - 1;
        Jump();
      } else {
        PopFrame();
      }
    }

    /** RESTART. */
    method RestartInPlace()
      requires Valid() && Restart(View()).Next? && sp >= |heap[env.a]| - 2
      modifies this, stack
      ensures Valid() && stack == old(stack) && Restart(old(View())) == Next(View())
    {
      var fields := heap[env.a];
      var n := |fields| - 2;
      sp := sp - n;
      StoreWords(stack, sp, fields[2..]);
      env := fields[1];
      extra := extra + n;
      pc := pc + 1;
    }

    /** GRAB. */
    method GrabInPlace(required: nat, a: nat)
      requires Valid() && Grab(View(), required, a).Next?
      modifies this
      ensures Valid() && stack == old(stack) && Grab(old(View()), required, a) == Next(View())
    {
      if extra >= required {
        extra := extra - required;
        pc := pc + 2;
      } else {
        var n := 1 + extra;
        var closure := MakeClosure(n);
        accu := Ptr(a);
        heap := heap[a := closure];
        DropFrame(n);
      }
    }

    /** The closure for a partial application to the `n` values on top of the stack. */
    method MakeClosure(n: nat) returns (closure: seq<Value>)
      requires Valid() && n <= |View().stack| && pc > 0
      ensures closure == [Code(pc - 1), env] + View().stack[..n]
    {
      closure := [Code(pc - 1), env];
      for i := 0 to n
        invariant closure == [Code(pc - 1), env] + stack[sp..sp + i]
      {
        closure := closure + [stack[sp + i]];
      }
      assert stack[sp..][..n] == stack[sp..sp + n];
    }

    /** Drop `n` values and the return frame under them. */
    method DropFrame(n: nat)
      requires Valid() && n <= |View().stack| && IsFrame(View().stack[n..])
      modifies this`pc, this`env, this`extra, this`sp
      ensures Valid() && Leave(old(View()), old(View()).stack[n..]) == Next(View())
    {
      assert stack[sp..][n..] == stack[sp + n..];
      sp := sp + n;
      PopFrame();
    }
  }
}
