/**
 Generational global roots (byterun/globroots.c): two lists, of the roots that may hold
 a young value and of those that hold a value of the major heap. A root is in neither
 while it holds an unboxed value.
 */
module GenerationalRoots {
  import opened SkipList
  import opened GlobRoots

  /** Where the value of a root is: unboxed, in the minor heap, in the major heap, or a
      pointer outside both. */
  datatype Kind = Unboxed | Young | InHeap | Elsewhere

  /** The two lists and what the roots hold. */
  datatype Lists = Lists(young: set<nat>, aged: set<nat>, values: map<nat, Kind>)

  // ----- The operations -----

  /** `caml_register_generational_global_root_r`. */
  function Register(g: Lists, r: nat): Lists
    requires r in g.values
  {
    match g.values[r]
    case Young => g.(young := g.young + {r})
    case InHeap => g.(aged := g.aged + {r})
    case _ => g
  }

  /** `caml_modify_generational_global_root_r`. */
  function Modify(g: Lists, r: nat, newVal: Kind): Lists
    requires r in g.values
  {
    var oldVal := g.values[r];
    var moved :=
      if newVal == Young && oldVal == InHeap then g.(aged := g.aged - {r}, young := g.young + {r})
      else if oldVal == Unboxed && newVal == Young then g.(young := g.young + {r})
      else if oldVal == Unboxed && newVal == InHeap then g.(aged := g.aged + {r})
      else if oldVal == Young && newVal == Unboxed then g.(young := g.young - {r})
      else if oldVal == InHeap && newVal == Unboxed then g.(aged := g.aged - {r})
      else g;
    moved.(values := g.values[r := newVal])
  }

  /** What the young values of the roots in the young list become: anything that is not young.
      A copied block is in the major heap; where a forwarding block is skipped, the value behind
      it may be unboxed or a pointer to static data. */
  ghost predicate Promotes(g: Lists, moved: map<nat, Kind>) {
    forall r :: r in g.young && r in g.values && g.values[r] == Young ==> r in moved && moved[r] != Young
  }

  /** A minor collection scans the young list, which moves the young values of its roots, and
      makes its roots old. */
  function ScanYoung(g: Lists, moved: map<nat, Kind>): Lists {
    Lists({}, g.aged + g.young, map r | r in g.values :: ScannedValue(g, moved, r))
  }

  function ScannedValue(g: Lists, moved: map<nat, Kind>, r: nat): Kind
    requires r in g.values
  {
    if r in g.young && g.values[r] == Young && r in moved then moved[r] else g.values[r]
  }

  // ----- What the collector relies on -----

  /** Among the roots `rs`, those that hold a young value are in the young list, and those
      that hold a block of the major heap are in one of the lists. */
  ghost predicate Complete(g: Lists, rs: set<nat>) {
    forall r :: r in rs ==> RootOk(g, r)
  }

  ghost predicate RootOk(g: Lists, r: nat) {
    && r in g.values
    && (g.values[r] == Young ==> r in g.young)
    && (g.values[r] == InHeap ==> r in g.young + g.aged)
  }

  lemma RegisterComplete(g: Lists, rs: set<nat>, r: nat)
    requires Complete(g, rs) && r in g.values
    ensures Complete(Register(g, r), rs + {r})
  {
    forall x | x in rs + {r} ensures RootOk(Register(g, r), x) {
      assert x in rs ==> RootOk(g, x);
    }
  }

  /** The one case in which a change of a root gets lost: the root held a pointer outside
      both heaps, and was not listed for what it now holds. */
  predicate Lost(g: Lists, r: nat, newVal: Kind)
    requires r in g.values
  {
    g.values[r] == Elsewhere && ((newVal == Young && r !in g.young) || (newVal == InHeap && r !in g.young + g.aged))
  }

  /** Changing a root keeps the lists complete in all other cases, and only then. */
  lemma ModifyComplete(g: Lists, rs: set<nat>, r: nat, newVal: Kind)
    requires Complete(g, rs) && r in rs && RootOk(g, r)
    ensures Complete(Modify(g, r, newVal), rs) <==> !Lost(g, r, newVal)
  {
    var g' := Modify(g, r, newVal);
    forall x | x in rs && x != r ensures RootOk(g', x) {
      assert RootOk(g, x);
    }
    assert RootOk(g', r) <==> !Lost(g, r, newVal);
    if !Lost(g, r, newVal) {
      forall x | x in rs ensures RootOk(g', x) {
      }
    }
  }

  /** A root that is registered with a pointer to static data and then set to a young value
      is not scanned by the next minor collection. */
  lemma LostExample(moved: map<nat, Kind>)
    ensures var g := Modify(Register(Lists({}, {}, map[8 := Elsewhere]), 8), 8, Young);
            !Complete(g, {8}) && ScanYoung(g, moved).values[8] == Young
  {
    var g := Modify(Register(Lists({}, {}, map[8 := Elsewhere]), 8), 8, Young);
    assert 8 in {8} && !RootOk(g, 8);
  }

  /** So is one that was registered with a young forwarding block of static data, once a minor
      collection has skipped that block. */
  lemma LostAfterScan(moved: map<nat, Kind>)
    ensures var g := Register(Lists({}, {}, map[8 := Young]), 8);
            var g' := Modify(ScanYoung(g, map[8 := Elsewhere]), 8, Young);
            Promotes(g, map[8 := Elsewhere]) && !Complete(g', {8}) && ScanYoung(g', moved).values[8] == Young
  {
    var g := Register(Lists({}, {}, map[8 := Young]), 8);
    var g' := Modify(ScanYoung(g, map[8 := Elsewhere]), 8, Young);
    assert 8 in {8} && !RootOk(g', 8);
  }

  /** After a minor collection no root is young, and the lists are complete. */
  lemma ScanComplete(g: Lists, rs: set<nat>, moved: map<nat, Kind>)
    requires Complete(g, rs) && Promotes(g, moved)
    ensures Complete(ScanYoung(g, moved), rs) && forall r :: r in rs ==> ScanYoung(g, moved).values[r] != Young
  {
    forall r | r in rs ensures RootOk(ScanYoung(g, moved), r) && ScanYoung(g, moved).values[r] != Young {
      assert RootOk(g, r);
    }
  }

  // ----- Whole runs -----

  datatype Action = Registers(r: nat) | Modifies(r: nat, newVal: Kind) | Scans(moved: map<nat, Kind>)

  /** The lists and the roots registered so far. */
  datatype State = State(g: Lists, registered: set<nat>)

  ghost predicate Step(s: State, act: Action, s': State) {
    match act
    case Registers(r) => r in s.g.values && s' == State(Register(s.g, r), s.registered + {r})
    case Modifies(r, newVal) =>
      r in s.registered && r in s.g.values && s' == State(Modify(s.g, r, newVal), s.registered)
    case Scans(moved) => Promotes(s.g, moved) && s' == State(ScanYoung(s.g, moved), s.registered)
  }

  ghost predicate Inv(s: State) {
    Complete(s.g, s.registered)
  }

  /** The action is a change of a root that gets lost. */
  predicate Loses(s: State, act: Action) {
    act.Modifies? && act.r in s.g.values && Lost(s.g, act.r, act.newVal)
  }

  /** Every action keeps the lists complete if and only if it does not lose a root. */
  lemma StepKeepsInv(s: State, act: Action, s': State)
    requires Inv(s) && Step(s, act, s')
    ensures Inv(s') <==> !Loses(s, act)
    ensures act.Scans? ==> forall r :: r in s'.registered ==> r in s'.g.values && s'.g.values[r] != Young
  {
    match act
    case Registers(r) => RegisterComplete(s.g, s.registered, r);
    case Modifies(r, newVal) =>
      assert RootOk(s.g, r);
      ModifyComplete(s.g, s.registered, r, newVal);
    case Scans(moved) =>
      ScanComplete(s.g, s.registered, moved);
      assert forall r :: r in s.registered ==> RootOk(s.g, r);
  }

  ghost predicate IsRun(states: seq<State>, acts: seq<Action>) {
    && |states| == |acts| + 1 && states[0].registered == {}
    && forall i :: 0 <= i < |acts| ==> Step(states[i], acts[i], states[i + 1])
  }

  /** As long as no action has lost a root, every minor collection scans every registered root
      that holds a young value. */
  lemma {:induction false} AlwaysComplete(states: seq<State>, acts: seq<Action>, k: nat)
    requires IsRun(states, acts) && k < |states| && forall i :: 0 <= i < k ==> !Loses(states[i], acts[i])
    ensures Inv(states[k])
    ensures k > 0 && acts[k - 1].Scans? ==>
              forall r :: r in states[k].registered ==> r in states[k].g.values && states[k].g.values[r] != Young
  {
    if k > 0 {
      AlwaysComplete(states, acts, k - 1);
      assert Step(states[k - 1], acts[k - 1], states[k - 1 + 1]);
      StepKeepsInv(states[k - 1], acts[k - 1], states[k]);
    }
  }

  /** That is so in particular when no registered root has ever held a pointer outside both
      heaps. */
  lemma {:induction false} InsideComplete(states: seq<State>, acts: seq<Action>, k: nat)
    requires IsRun(states, acts) && k < |states|
    requires forall i, r :: 0 <= i < k && r in states[i].registered && r in states[i].g.values ==>
               states[i].g.values[r] != Elsewhere
    ensures Inv(states[k])
  {
    forall i | 0 <= i < k ensures !Loses(states[i], acts[i]) {
      assert Step(states[i], acts[i], states[i + 1]);
    }
    AlwaysComplete(states, acts, k);
  }

  // ----- The lists in place -----

  class Roots {
    const young: RootList
    const aged: RootList
    var values: map<nat, Kind>
    var seed: nat

    ghost predicate Valid()
      reads this, young, aged
    {
      young != aged && young.Valid() && aged.Valid()
    }

    ghost function View(): Lists
      reads this, young, aged
      requires Valid()
    {
      Lists(young.Roots(), aged.Roots(), values)
    }

    constructor (vs: map<nat, Kind>, s: nat)
      ensures Valid() && fresh(young) && fresh(aged) && View() == Lists({}, {}, vs)
    {
      young := new RootList();
      aged := new RootList();
      values := vs;
      seed := s;
    }

    method RegisterRoot(r: nat)
      requires Valid() && r in values
      modifies this, young, aged
      ensures Valid() && View() == Register(old(View()), r)
    {
      if values[r] == Young {
        seed := young.Insert(r, seed);
      } else if values[r] == InHeap {
        seed := aged.Insert(r, seed);
      }
    }

    method ModifyRoot(r: nat, newVal: Kind)
      requires Valid() && r in values
      modifies this, young, aged
      ensures Valid() && View() == Modify(old(View()), r, newVal)
    {
      var oldVal := values[r];
      if newVal == Young && oldVal == InHeap {
        aged.Delete(r);
        seed := young.Insert(r, seed);
      } else if oldVal == Unboxed && newVal != Unboxed {
        if newVal == Young {
          seed := young.Insert(r, seed);
        } else if newVal == InHeap {
          seed := aged.Insert(r, seed);
        }
      } else if oldVal != Unboxed && newVal == Unboxed {
        if oldVal == Young {
          young.Delete(r);
        } else if oldVal == InHeap {
          aged.Delete(r);
        }
      }
      values := values[r := newVal];
    }

    /** `caml_scan_global_young_roots_r`: the roots of the young list are scanned, which makes
        their young values what `moved` says, and then put in the other list. */
    method ScanYoungRoots(moved: map<nat, Kind>) returns (scanned: seq<nat>)
      requires Valid() && Promotes(View(), moved)
      modifies this, young, aged
      ensures Valid() && View() == ScanYoung(old(View()), moved)
      ensures Members(scanned) == old(View()).young && Sorted(scanned)
    {
      scanned := young.Iterate();
      values := map r | r in values :: if r in scanned && values[r] == Young && r in moved then moved[r] else values[r];
      MakeOld(scanned);
      young.Empty();
    }

    /** All of `roots` go into the list of old roots. */
    method MakeOld(roots: seq<nat>)
      requires Valid()
      modifies this`seed, aged
      ensures Valid() && aged.Roots() == old(aged.Roots()) + Members(roots)
    {
      for i := 0 to |roots|
        invariant Valid() && aged.Roots() == old(aged.Roots()) + Members(roots[..i])
      {
        seed := aged.Insert(roots[i], seed);
        assert roots[..i + 1] == roots[..i] + [roots[i]];
      }
      assert roots[..|roots|] == roots;
    }
  }
}
