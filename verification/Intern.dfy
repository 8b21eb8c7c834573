/**
 The reader of byterun/intern.c: one loop over an explicit stack of items, a
 pointer into the input, a pointer into the destination block and a table of the
 objects met so far.  It is proved to do what `ReadBytes` says.
 */
module Intern {
  import opened Mlvalues
  import opened MarshalCodec
  import opened MarshalGraph
  import opened MarshalMessage

  /** `OReadItems` into the result or into `n` fields of a block, or `OFreshOID`. */
  datatype Task = ReadRoot | ReadFields(a: nat, j: nat, n: nat) | Refreshing(a: nat)

  datatype Status = Done | IllFormedMessage | OutOfMemory

  ghost predicate TaskOk(stack: seq<Task>, k: nat) {
    k < |stack| && stack[k].ReadFields? ==> stack[k].n > 0
  }

  ghost predicate TasksOk(stack: seq<Task>) {
    forall k: nat {:trigger TaskOk(stack, k)} :: TaskOk(stack, k)
  }

  lemma PushedOk(stack: seq<Task>, t: Task)
    requires TasksOk(stack) && (t.ReadFields? ==> t.n > 0)
    ensures TasksOk(stack + [t])
  {
    forall k: nat ensures TaskOk(stack + [t], k) {
      assert TaskOk(stack, k);
    }
  }

  lemma PoppedOk(stack: seq<Task>)
    requires TasksOk(stack) && stack != []
    ensures TasksOk(stack[..|stack| - 1]) && TaskOk(stack, |stack| - 1)
  {
    var rest := stack[..|stack| - 1];
    forall k: nat ensures TaskOk(rest, k) {
      assert TaskOk(stack, k);
    }
  }

  function Expand(t: Task): seq<Item> {
    match t
    case ReadRoot => [RootSlot]
    case ReadFields(a, j, n) => Slots(a, j, j + n)
    case Refreshing(a) => [FreshId(a)]
  }

  /** What the stack stands for, top first. */
  function Items(stack: seq<Task>): seq<Item> {
    if stack == [] then [] else Expand(stack[|stack| - 1]) + Items(stack[..|stack| - 1])
  }

  /** The stack `rest + [t]` without the first place of its top task. */
  function Taken(rest: seq<Task>, t: Task): seq<Task> {
    if t.ReadFields? && t.n > 1 then rest + [ReadFields(t.a, t.j + 1, t.n - 1)] else rest
  }

  lemma Regroup(a: seq<Item>, b: seq<Item>, c: seq<Item>)
    ensures (a + b) + c == a + (b + c)
  {
  }

  lemma FirstSlot(a: nat, from: nat, to: nat)
    requires from < to
    ensures Slots(a, from, to) == [Slot(a, from)] + Slots(a, from + 1, to)
  {
  }

  /** The first place that a task stands for. */
  function FirstItem(t: Task): Item {
    match t
    case ReadRoot => RootSlot
    case ReadFields(a, j, _) => Slot(a, j)
    case Refreshing(a) => FreshId(a)
  }

  lemma TakenFields(stack: seq<Task>, a: nat, j: nat, c: nat)
    requires c > 1
    ensures Items(stack + [ReadFields(a, j, c)]) == [Slot(a, j)] + Items(stack + [ReadFields(a, j + 1, c - 1)])
  {
    PushedItems(stack, ReadFields(a, j, c));
    PushedItems(stack, ReadFields(a, j + 1, c - 1));
    FirstSlot(a, j, j + c);
    Regroup([Slot(a, j)], Slots(a, j + 1, j + c), Items(stack));
  }

  lemma TakenItems(rest: seq<Task>, t: Task)
    requires TasksOk(rest) && (t.ReadFields? ==> t.n > 0)
    ensures TasksOk(Taken(rest, t))
    ensures Items(rest + [t]) == [FirstItem(t)] + Items(Taken(rest, t))
  {
    if t.ReadFields? && t.n > 1 {
      TakenFields(rest, t.a, t.j, t.n);
      PushedOk(rest, ReadFields(t.a, t.j + 1, t.n - 1));
    } else {
      PushedItems(rest, t);
      assert Expand(t) == [FirstItem(t)];
    }
  }

  lemma PushedItems(stack: seq<Task>, t: Task)
    ensures Items(stack + [t]) == Expand(t) + Items(stack)
  {
    assert (stack + [t])[..|stack|] == stack;
  }

  lemma TopItem(stack: seq<Task>)
    requires stack != [] && stack[|stack| - 1].Refreshing?
    ensures Items(stack) == [FreshId(stack[|stack| - 1].a)] + Items(stack[..|stack| - 1])
  {
  }

  /** The stack after the tasks for a new block. */
  function BlockTasks(a: nat, tag: byte, size: nat): seq<Task> {
    if tag == OBJECT_TAG && size >= 2 then
      LaterTasks(a, size) + [Refreshing(a)] + [ReadFields(a, 0, 2)]
    else if size > 0 then [ReadFields(a, 0, size)] else []
  }

  /** The request for the fields of an object after the first two, if any. */
  function LaterTasks(a: nat, size: nat): seq<Task> {
    if size > 2 then [ReadFields(a, 2, size - 2)] else []
  }

  lemma LaterItems(stack: seq<Task>, a: nat, size: nat)
    requires size >= 2
    ensures Items(stack + LaterTasks(a, size)) == Slots(a, 2, size) + Items(stack)
  {
    if size > 2 {
      PushedItems(stack, ReadFields(a, 2, size - 2));
    } else {
      assert stack + [] == stack;
      assert Slots(a, 2, 2) == [] && [] + Items(stack) == Items(stack);
    }
  }

  lemma ObjectTaskItems(stack: seq<Task>, a: nat, size: nat)
    requires size >= 2
    ensures Items(stack + LaterTasks(a, size) + [Refreshing(a)] + [ReadFields(a, 0, 2)])
         == Slots(a, 0, 2) + [FreshId(a)] + Slots(a, 2, size) + Items(stack)
  {
    var later, rest := Slots(a, 2, size), Items(stack);
    var s1 := stack + LaterTasks(a, size);
    LaterItems(stack, a, size);
    PushedItems(s1, Refreshing(a));
    PushedItems(s1 + [Refreshing(a)], ReadFields(a, 0, 2));
    Regroup(Slots(a, 0, 2), [FreshId(a)], later + rest);
    Regroup(Slots(a, 0, 2) + [FreshId(a)], later, rest);
  }

  lemma BlockTasksOk(stack: seq<Task>, a: nat, tag: byte, size: nat)
    requires TasksOk(stack)
    ensures TasksOk(stack + BlockTasks(a, tag, size)) == true
  {
    var stack' := stack + BlockTasks(a, tag, size);
    forall k: nat ensures TaskOk(stack', k) {
      assert TaskOk(stack, k);
    }
  }

  lemma BlockTaskItems(stack: seq<Task>, a: nat, tag: byte, size: nat)
    ensures Items(stack + BlockTasks(a, tag, size)) == BlockItems(a, tag, size) + Items(stack)
  {
    if tag == OBJECT_TAG && size >= 2 {
      ObjectTaskItems(stack, a, size);
      assert stack + BlockTasks(a, tag, size) == stack + LaterTasks(a, size) + [Refreshing(a)] + [ReadFields(a, 0, 2)];
    } else if size > 0 {
      PushedItems(stack, ReadFields(a, 0, size));
    } else {
      assert stack + [] == stack;
      assert Slots(a, 0, 0) == [] && [] + Items(stack) == Items(stack);
    }
  }

  // ----- One item -----

  /** A reader and the bytes that are left to it. */
  datatype State = State(s: seq<byte>, r: Reader)

  /** One step of `ReadBytes`. */
  ghost predicate LoadStep(x: State, y: State) {
    && x.r.items != []
    && if x.r.items[0].FreshId? then y == State(x.s, Refresh(x.r)) else TokenStep(x, y)
  }

  ghost predicate TokenStep(x: State, y: State) {
    && x.r.items != [] && !x.r.items[0].FreshId? && Decode(x.s).Got?
    && y.s == x.s[Decode(x.s).len..] && ReadStep(x.r, Decode(x.s).t) == Reads(y.r)
  }

  ghost predicate LoadFails(x: State) {
    x.r.items != [] && !x.r.items[0].FreshId? && (Decode(x.s).Got? ==> ReadStep(x.r, Decode(x.s).t) == BadShare)
  }

  ghost predicate IsLoad(xs: seq<State>) {
    |xs| > 0 && forall k :: 0 <= k < |xs| - 1 ==> LoadStep(xs[k], xs[k + 1])
  }

  /** The reader has got from `x` to `y`. */
  ghost predicate Loading(x: State, y: State) {
    exists xs :: IsLoad(xs) && xs[0] == x && xs[|xs| - 1] == y
  }

  lemma LoadStarts(x: State)
    ensures Loading(x, x) == true
  {
    assert IsLoad([x]);
  }

  lemma LoadOn(x: State, y: State, z: State)
    requires Loading(x, y) && LoadStep(y, z)
    ensures Loading(x, z) == true
  {
    var xs :| IsLoad(xs) && xs[0] == x && xs[|xs| - 1] == y;
    var xs' := xs + [z];
    forall k | 0 <= k < |xs'| - 1 ensures LoadStep(xs'[k], xs'[k + 1]) {
      assert k < |xs| - 1 ==> LoadStep(xs[k], xs[k + 1]);
    }
    assert IsLoad(xs');
  }

  lemma {:induction false} SameLoad(xs: seq<State>)
    requires IsLoad(xs)
    ensures ReadBytes(xs[0].s, xs[0].r) == ReadBytes(xs[|xs| - 1].s, xs[|xs| - 1].r)
  {
    if |xs| > 1 {
      assert LoadStep(xs[0], xs[1]);
      forall k | 0 <= k < |xs| - 2 ensures LoadStep(xs[1..][k], xs[1..][k + 1]) {
        assert LoadStep(xs[k + 1], xs[k + 2]);
      }
      SameLoad(xs[1..]);
    }
  }

  lemma LoadFailed(x: State, y: State)
    requires Loading(x, y) && LoadFails(y)
    ensures ReadBytes(x.s, x.r) == Unreadable
  {
    var xs :| IsLoad(xs) && xs[0] == x && xs[|xs| - 1] == y;
    SameLoad(xs);
  }

  lemma LoadEnds(x: State, y: State)
    requires Loading(x, y) && y.r.items == []
    ensures ReadBytes(x.s, x.r) == Loaded(y.r, y.s)
  {
    var xs :| IsLoad(xs) && xs[0] == x && xs[|xs| - 1] == y;
    SameLoad(xs);
  }

  // ----- The reader -----

  class Unmarshaller {
    var src: seq<byte>
    var pos: nat
    var mem: Mem
    var table: seq<nat>
    var dest: nat
    var stack: seq<Task>
    var root: Value
    var oid: Oid
    var color: Color

    /** The reader of the specification that this state stands for. */
    ghost function Reading(): Reader
      reads this
    {
      Reader(mem, table, dest, Items(stack), root, oid, color)
    }

    /** `*dest = v`. */
    method Store(it: Item, v: Value)
      modifies this`mem, this`root
      ensures Reading() == Put(old(Reading()), it, v)
    {
      match it
      case RootSlot => root := v;
      case Slot(a, j) =>
        if a in mem && j < |mem[a].words| {
          mem := mem[a := mem[a].(words := mem[a].words[j := V(v)])];
        }
      case FreshId(_) =>
    }

    /** A block at the end of the destination block, entered in the object table. */
    method Allocate(tag: byte, words: seq<Word>) returns (a: nat)
      modifies this`mem, this`table, this`dest
      ensures a == old(dest) + 1 && Reading() == NewCell(old(Reading()), tag, words, [])
    {
      a := dest + 1;
      mem := mem[a := Cell(color, tag, words)];
      table := table + [a];
      dest := dest + 1 + |words|;
      assert [] + Items(stack) == Items(stack);
    }

    /** A block whose fields are still to be read: the requests are pushed last first;
        the stack may have no room for them. */
    method AllocateBlock(tag: byte, size: nat) returns (a: nat, st: Status)
      requires TasksOk(stack)
      modifies this`mem, this`table, this`dest, this`stack
      ensures st == Done ==>
                && TasksOk(stack) && a == old(dest) + 1
                && Reading() == NewCell(old(Reading()), tag, JunkWords(size), BlockItems(a, tag, size))
      ensures st in {Done, OutOfMemory}
    {
      a := Allocate(tag, JunkWords(size));
      var room: bool := *;
      if !room {
        return a, OutOfMemory;
      }
      BlockTaskItems(stack, a, tag, size);
      BlockTasksOk(stack, a, tag, size);
      stack := stack + BlockTasks(a, tag, size);
      st := Done;
    }

    /** What one token makes of the item `it`, which has been taken off the stack. */
    method Build(it: Item, t: Token) returns (st: Status)
      requires TasksOk(stack)
      modifies this`mem, this`table, this`dest, this`stack, this`root
      ensures var r := old(Reading());
              var reading := ReadStep(r.(items := [it] + r.items), t);
              && (st == Done ==> TasksOk(stack) && reading == Reads(Reading()))
              && (st == IllFormedMessage ==> reading == BadShare)
    {
      ghost var r := Reading();
      assert ([it] + r.items)[1..] == r.items;
      st := Done;
      var v, a := Long(0), 0;
      match t {
        case TInt(n) => v := Long(n);
        case TAtom(tag) => v := Atom(tag);
        case TShared(d) =>
          if d == 0 || d > |table| {
            return IllFormedMessage;
          }
          v := Ref(table[|table| - d]);
        case TString(s) =>
          a := Allocate(STRING_TAG, StringWords(s));
          v := Ref(a);
        case TDouble(s) =>
          a := Allocate(DOUBLE_TAG, Words(s));
          v := Ref(a);
        case TDoubles(s) =>
          a := Allocate(DOUBLE_ARRAY_TAG, Words(s));
          v := Ref(a);
        case TBlock(tag, size) =>
          a, st := AllocateBlock(tag, size);
          if st != Done {
            return;
          }
          v := Ref(a);
      }
      Store(it, v);
    }

    /** `OFreshOID`. */
    method RefreshTop()
      requires stack != [] && stack[|stack| - 1].Refreshing? && TasksOk(stack)
      modifies this`mem, this`oid, this`stack
      ensures TasksOk(stack)
      ensures LoadStep(State([], old(Reading())), State([], Reading())) && |Reading().items| < |old(Reading()).items|
    {
      var a := stack[|stack| - 1].a;
      PoppedOk(stack);
      TopItem(stack);
      stack := stack[..|stack| - 1];
      if oid.LastOid? {
        mem := SetWord(mem, a, 1, V(Long(oid.n)));
        oid := LastOid(oid.n + 1);
      }
    }

    /** Take the place that the next value is for off the stack. */
    method TakeItem() returns (it: Item)
      requires stack != [] && TasksOk(stack) && !stack[|stack| - 1].Refreshing?
      modifies this`stack
      ensures TasksOk(stack) && !it.FreshId? && old(Reading()) == Reading().(items := [it] + Reading().items)
    {
      var rest, top := stack[..|stack| - 1], stack[|stack| - 1];
      assert stack == rest + [top];
      PoppedOk(stack);
      TakenItems(rest, top);
      it := FirstItem(top);
      stack := Taken(rest, top);
    }

    /** One iteration of the loop of `intern_rec_r` that reads a value. */
    method ReadItem() returns (st: Status)
      requires stack != [] && !stack[|stack| - 1].Refreshing? && TasksOk(stack) && pos <= |src|
      modifies this`pos, this`mem, this`table, this`dest, this`stack, this`root
      ensures old(pos) <= pos <= |src|
      ensures st == Done ==>
                && TasksOk(stack) && old(pos) < pos
                && TokenStep(State(src[old(pos)..], old(Reading())), State(src[pos..], Reading())) == true
      ensures st == IllFormedMessage ==> LoadFails(State(src[old(pos)..], old(Reading())))
    {
      ghost var s := src[pos..];
      var it := TakeItem();
      match Decode(src[pos..])
      case Got(t, len) =>
        assert s[len..] == src[pos + len..];
        pos := pos + len;
        st := Build(it, t);
      case _ => st := IllFormedMessage;
    }

    /** `intern_rec_r`. */
    method InternRec() returns (st: Status)
      requires stack == [ReadRoot] && pos <= |src|
      modifies this`pos, this`mem, this`table, this`dest, this`stack, this`root, this`oid
      ensures pos <= |src| && (st == Done ==>
              ReadBytes(old(src[pos..]), old(Reading())) == Loaded(Reading(), src[pos..]))
      ensures st == IllFormedMessage ==> ReadBytes(old(src[pos..]), old(Reading())) == Unreadable
    {
      ghost var x := State(src[pos..], Reading());
      LoadStarts(x);
      while stack != []
        invariant TasksOk(stack) && pos <= |src| && src == old(src)
        invariant Loading(x, State(src[pos..], Reading())) == true
        decreases |src| - pos, |Items(stack)|
      {
        ghost var y := State(src[pos..], Reading());
        if stack[|stack| - 1].Refreshing? {
          RefreshTop();
        } else {
          st := ReadItem();
          if st != Done {
            if st == IllFormedMessage {
              LoadFailed(x, y);
            }
            return;
          }
        }
        LoadOn(x, y, State(src[pos..], Reading()));
      }
      LoadEnds(x, State(src[pos..], Reading()));
      st := Done;
    }

    /** `caml_input_value_from_block_r`: check the header, allocate the result and
        read it. */
    method InputFromBlock(data: seq<byte>, oid0: Oid, color0: Color) returns (st: Status, objects: nat, whsize: nat)
      requires |data| >= 20
      modifies this
      ensures st == Done ==>
                Unmarshal(data, oid0, color0) == Result(Reading(), objects, whsize)
      ensures st == IllFormedMessage ==> !Unmarshal(data, oid0, color0).Result?
    {
      objects, whsize := Word32(data, 2), Word32(data, 4);
      if Word32(data, 0) != MAGIC || 20 + Word32(data, 1) > |data| {
        return IllFormedMessage, objects, whsize;
      }
      src, pos, mem, table, dest, stack, root, oid, color := data, 20, map[], [], 0, [ReadRoot], Long(0), oid0, color0;
      assert Items([]) == [] && Items(stack) == [RootSlot];
      assert Reading() == InitReader(oid0, color0);
      st := InternRec();
    }
  }
}
