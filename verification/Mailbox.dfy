/**
 The mailbox between contexts (byterun/context_split.c): any number of threads send to
 and receive from one queue, an array that is doubled when full and shifted to the left
 at each receive. The queue is protected by a mutex and a semaphore counts its messages.
 Threads take one elementary step at a time, in any order.
 */
module Mailbox {
  const CAML_INITIAL_ALLOCATED_MESSAGE_NO := 10

  /** A pointer to a serialized message. */
  type Blob = nat
  const NULL: Blob := 0

  datatype Mutex = Free | Held(t: nat)

  /** Where a thread is in `caml_context_send_r` or `caml_context_receive_r`. */
  datatype Pc =
    | Idle
      // Sending: the message is serialized; the mutex is taken; the number of messages is
      // read; there is room; the message is stored; it is counted; the mutex is released.
    | Sending(m: Blob)
    | SendLocked(m: Blob)
    | SendRead(m: Blob, n: nat)
    | SendRoom(m: Blob, n: nat)
    | SendStored(m: Blob, n: nat)
    | SendCounted
    | SendUnlocked
      // Receiving: before P; after P; the mutex is taken; the queue is being shifted and
      // has been up to `i`; the last slot is cleared; the message is out; the mutex is
      // released.
    | Waiting
    | Won
    | ReceiveLocked
    | Shifting(m: Blob, n: nat, i: nat)
    | Cleared(m: Blob, n: nat)
    | ReceiveCounted(m: Blob)
    | ReceiveUnlocked(m: Blob)

  /** `sent` and `received` record the messages in the order in which they are counted
      in and out. */
  datatype State = State(
    mutex: Mutex, sem: nat, queue: seq<Blob>, messageNo: nat, pcs: map<nat, Pc>,
    sent: seq<Blob>, received: seq<Blob>)

  function Goto(s: State, t: nat, p: Pc): State { s.(pcs := s.pcs[t := p]) }

  /** One step of thread `t`. Where a step cannot be taken the thread waits; a wait for the
      semaphore that is interrupted changes nothing. */
  ghost predicate Step(s: State, s': State, t: nat) {
    t in s.pcs && t in s'.pcs && if IsSending(s.pcs[t]) then SendStep(s, s', t) else ReceiveStep(s, s', t)
  }

  predicate IsSending(p: Pc) {
    p.Sending? || p.SendLocked? || p.SendRead? || p.SendRoom? || p.SendStored? || p.SendCounted? || p.SendUnlocked?
  }

  ghost predicate SendStep(s: State, s': State, t: nat)
    requires t in s.pcs && t in s'.pcs && IsSending(s.pcs[t])
  {
    match s.pcs[t]
    case Sending(m) => s.mutex == Free && s' == Goto(s, t, SendLocked(m)).(mutex := Held(t))
    case SendLocked(m) => s' == Goto(s, t, SendRead(m, s.messageNo))
    case SendRead(m, n) => Enlarged(s.queue, s'.queue, n) && s' == Goto(s, t, SendRoom(m, n)).(queue := s'.queue)
    case SendRoom(m, n) => n < |s.queue| && s' == Goto(s, t, SendStored(m, n)).(queue := s.queue[n := m])
    case SendStored(m, n) => s' == Goto(s, t, SendCounted).(messageNo := n + 1, sent := s.sent + [m])
    case SendCounted => s' == Goto(s, t, SendUnlocked).(mutex := Free)
    case SendUnlocked => s' == Goto(s, t, Idle).(sem := s.sem + 1)
  }

  /** The queue is doubled when it is full; what is in the new slots is not known. */
  ghost predicate Enlarged(q: seq<Blob>, q': seq<Blob>, n: nat) {
    if n == |q| then |q'| == 2 * |q| && q <= q' else q' == q
  }

  ghost predicate ReceiveStep(s: State, s': State, t: nat)
    requires t in s.pcs && t in s'.pcs && !IsSending(s.pcs[t])
  {
    match s.pcs[t]
    case Idle => (s'.pcs[t].Sending? || s'.pcs[t].Waiting?) && s' == Goto(s, t, s'.pcs[t])
    case Waiting => s' == s || (s.sem > 0 && s' == Goto(s, t, Won).(sem := s.sem - 1))
    case Won => s.mutex == Free && s' == Goto(s, t, ReceiveLocked).(mutex := Held(t))
    case ReceiveLocked => 0 < s.messageNo <= |s.queue| && s' == Goto(s, t, Shifting(s.queue[0], s.messageNo, 0))
    case Shifting(m, n, i) =>
      if i < n - 1 then
        i + 1 < |s.queue| && s' == Goto(s, t, Shifting(m, n, i + 1)).(queue := s.queue[i := s.queue[i + 1]])
      else 0 < n <= |s.queue| && s' == Goto(s, t, Cleared(m, n)).(queue := s.queue[n - 1 := NULL])
    case Cleared(m, n) => n > 0 && s' ==
      Goto(s, t, ReceiveCounted(m)).(messageNo := n - 1, received := s.received + [m])
    case ReceiveCounted(m) => s' == Goto(s, t, ReceiveUnlocked(m)).(mutex := Free)
    case ReceiveUnlocked(m) => s' == Goto(s, t, Idle)
  }

  /** `caml_make_mailbox_r`, and threads that do nothing yet. */
  ghost predicate Initial(s: State) {
    && s.mutex == Free && s.sem == 0 && |s.queue| == CAML_INITIAL_ALLOCATED_MESSAGE_NO && s.messageNo == 0
    && s.sent == [] && s.received == [] && forall t :: t in s.pcs ==> s.pcs[t] == Idle
  }

  ghost predicate IsRun(run: seq<State>) {
    |run| > 0 && Initial(run[0]) && forall i :: 0 <= i < |run| - 1 ==> Steps(run[i], run[i + 1])
  }

  ghost predicate Steps(s: State, s': State) {
    exists t :: Step(s, s', t)
  }

  // ----- The invariant -----

  predicate InSection(p: Pc) {
    || p.SendLocked? || p.SendRead? || p.SendRoom? || p.SendStored? || p.SendCounted?
    || p.ReceiveLocked? || p.Shifting? || p.Cleared? || p.ReceiveCounted?
  }

  /** The receivers that have got past the semaphore and whose message is still counted. */
  predicate IsTaker(p: Pc) { p.Won? || p.ReceiveLocked? || p.Shifting? || p.Cleared? }

  /** The senders whose message is counted and that have still to signal it. */
  predicate IsOwer(p: Pc) { p.SendCounted? || p.SendUnlocked? }

  ghost function Takers(pcs: map<nat, Pc>): set<nat> { set t | t in pcs && IsTaker(pcs[t]) }

  ghost function Owers(pcs: map<nat, Pc>): set<nat> { set t | t in pcs && IsOwer(pcs[t]) }

  ghost predicate MutexOk(s: State) {
    && (forall t :: t in s.pcs && InSection(s.pcs[t]) ==> s.mutex == Held(t))
    && (s.mutex.Held? ==> s.mutex.t in s.pcs && InSection(s.pcs[s.mutex.t]))
  }

  /** Where the thread that holds the mutex is. */
  ghost function Holder(s: State): Pc {
    if s.mutex.Held? && s.mutex.t in s.pcs then s.pcs[s.mutex.t] else Idle
  }

  /** What the thread in the critical section knows of the queue. */
  ghost predicate HolderOk(s: State, p: Pc) {
    match p
    case SendRead(_, n) => n == s.messageNo
    case SendRoom(_, n) => n == s.messageNo < |s.queue|
    case SendStored(m, n) => n == s.messageNo < |s.queue| && s.queue[n] == m
    case Shifting(_, n, i) => n == s.messageNo && i < n
    case Cleared(_, n) => n == s.messageNo && n > 0
    case _ => true
  }

  /** The messages that are counted, in order; while the queue is shifted the first is in
      the hands of the receiver, and slot `i` is the next to be overwritten. */
  ghost function Content(s: State, p: Pc): seq<Blob>
    requires s.messageNo <= |s.queue| && HolderOk(s, p)
  {
    match p
    case Shifting(m, n, i) => [m] + s.queue[..i] + s.queue[i + 1..n]
    case Cleared(m, n) => [m] + s.queue[..n - 1]
    case _ => s.queue[..s.messageNo]
  }

  ghost predicate QueueOk(s: State) {
    && 0 < |s.queue| && s.messageNo <= |s.queue| && HolderOk(s, Holder(s))
    && s.sent == s.received + Content(s, Holder(s))
  }

  /** The semaphore is the number of messages that are neither promised to a receiver nor
      still to be signalled by a sender. */
  ghost predicate CountOk(s: State) {
    s.messageNo == s.sem + |Takers(s.pcs)| + |Owers(s.pcs)|
  }

  ghost predicate Inv(s: State) {
    MutexOk(s) && QueueOk(s) && CountOk(s)
  }

  // ----- Every step keeps it -----

  lemma Without(ts: set<nat>, t: nat)
    ensures |ts - {t}| + (if t in ts then 1 else 0) == |ts|
  {
    if t in ts {
      assert ts == ts - {t} + {t};
    } else {
      assert ts == ts - {t};
    }
  }

  lemma TakersAfter(pcs: map<nat, Pc>, t: nat, p: Pc)
    requires t in pcs
    ensures |Takers(pcs[t := p])| + (if IsTaker(pcs[t]) then 1 else 0) == |Takers(pcs)| + (if IsTaker(p) then 1 else 0)
  {
    var before, after := Takers(pcs), Takers(pcs[t := p]);
    assert before - {t} == after - {t};
    assert IsTaker(pcs[t]) <==> t in before;
    assert IsTaker(p) <==> t in after;
    Without(before, t);
    Without(after, t);
  }

  lemma OwersAfter(pcs: map<nat, Pc>, t: nat, p: Pc)
    requires t in pcs
    ensures |Owers(pcs[t := p])| + (if IsOwer(pcs[t]) then 1 else 0) == |Owers(pcs)| + (if IsOwer(p) then 1 else 0)
  {
    var before, after := Owers(pcs), Owers(pcs[t := p]);
    assert before - {t} == after - {t};
    assert IsOwer(pcs[t]) <==> t in before;
    assert IsOwer(p) <==> t in after;
    Without(before, t);
    Without(after, t);
  }

  lemma StepPcs(s: State, s': State, t: nat)
    requires Step(s, s', t)
    ensures s'.pcs == s.pcs[t := s'.pcs[t]]
  {
  }

  lemma StepKeepsMutex(s: State, s': State, t: nat)
    requires Inv(s) && Step(s, s', t)
    ensures MutexOk(s')
  {
    StepPcs(s, s', t);
    forall u | u in s'.pcs && InSection(s'.pcs[u]) ensures s'.mutex == Held(u) {
      assert u != t ==> u in s.pcs && s.pcs[u] == s'.pcs[u];
    }
  }

  lemma StepKeepsCount(s: State, s': State, t: nat)
    requires Inv(s) && Step(s, s', t)
    ensures CountOk(s')
  {
    StepPcs(s, s', t);
    TakersAfter(s.pcs, t, s'.pcs[t]);
    OwersAfter(s.pcs, t, s'.pcs[t]);
  }

  /** Outside the critical section a thread leaves the queue alone. */
  lemma OutsideKeepsQueue(s: State, s': State, t: nat)
    requires Inv(s) && Step(s, s', t) && (!InSection(s.pcs[t]) || s.pcs[t].SendCounted? || s.pcs[t].ReceiveCounted?)
    ensures QueueOk(s')
  {
    StepPcs(s, s', t);
    if s.mutex.Held? && s.mutex.t != t {
      assert Holder(s') == Holder(s);
    }
  }

  lemma SendKeepsQueue(s: State, s': State, t: nat)
    requires Inv(s) && Step(s, s', t) && IsSending(s.pcs[t]) && InSection(s.pcs[t]) && !s.pcs[t].SendCounted?
    ensures QueueOk(s')
  {
    assert s.mutex == Held(t) && Holder(s) == s.pcs[t] && Holder(s') == s'.pcs[t];
    if s.pcs[t].SendStored? {
      var m, n := s.pcs[t].m, s.pcs[t].n;
      assert s.queue[..n + 1] == s.queue[..n] + [m];
      assert s.received + (s.queue[..n] + [m]) == s.received + s.queue[..n] + [m];
    } else {
      assert s'.queue[..s.messageNo] == s.queue[..s.messageNo];
    }
  }

  lemma ShiftContent(q: seq<Blob>, m: Blob, n: nat, i: nat)
    requires i + 1 < n <= |q|
    ensures [m] + q[..i] + q[i + 1..n] == [m] + q[i := q[i + 1]][..i + 1] + q[i := q[i + 1]][i + 2..n]
  {
    var q' := q[i := q[i + 1]];
    assert q'[..i + 1] == q[..i] + [q[i + 1]];
    assert q[i + 1..n] == [q[i + 1]] + q'[i + 2..n];
  }

  lemma LockedKeepsQueue(s: State, s': State, t: nat)
    requires Inv(s) && Step(s, s', t) && s.pcs[t].ReceiveLocked?
    ensures QueueOk(s')
  {
    assert s.mutex == Held(t) && Holder(s) == s.pcs[t] && Holder(s') == s'.pcs[t];
    assert [s.queue[0]] + s.queue[..0] + s.queue[1..s.messageNo] == s.queue[..s.messageNo];
  }

  lemma ShiftKeepsQueue(s: State, s': State, t: nat)
    requires Inv(s) && Step(s, s', t) && s.pcs[t].Shifting?
    ensures QueueOk(s')
  {
    assert s.mutex == Held(t) && Holder(s) == s.pcs[t] && Holder(s') == s'.pcs[t];
    var m, n, i := s.pcs[t].m, s.pcs[t].n, s.pcs[t].i;
    if i < n - 1 {
      ShiftContent(s.queue, m, n, i);
    } else {
      assert s.queue[i + 1..n] == [] && s'.queue[..n - 1] == s.queue[..i];
      assert [m] + s.queue[..i] + [] == [m] + s'.queue[..n - 1];
    }
  }

  lemma ClearedKeepsQueue(s: State, s': State, t: nat)
    requires Inv(s) && Step(s, s', t) && s.pcs[t].Cleared?
    ensures QueueOk(s')
  {
    assert s.mutex == Held(t) && Holder(s) == s.pcs[t] && Holder(s') == s'.pcs[t];
    var m, n := s.pcs[t].m, s.pcs[t].n;
    assert s.received + ([m] + s.queue[..n - 1]) == s.received + [m] + s.queue[..n - 1];
  }

  /** Whatever thread takes a step, the invariant stays. */
  lemma StepKeepsInv(s: State, s': State, t: nat)
    requires Inv(s) && Step(s, s', t)
    ensures Inv(s')
  {
    StepKeepsMutex(s, s', t);
    StepKeepsCount(s, s', t);
    if !InSection(s.pcs[t]) || s.pcs[t].SendCounted? || s.pcs[t].ReceiveCounted? {
      OutsideKeepsQueue(s, s', t);
    } else if IsSending(s.pcs[t]) {
      SendKeepsQueue(s, s', t);
    } else if s.pcs[t].ReceiveLocked? {
      LockedKeepsQueue(s, s', t);
    } else if s.pcs[t].Shifting? {
      ShiftKeepsQueue(s, s', t);
    } else {
      ClearedKeepsQueue(s, s', t);
    }
  }

  lemma InitialInv(s: State)
    requires Initial(s)
    ensures Inv(s)
  {
    assert Takers(s.pcs) == {} && Owers(s.pcs) == {};
  }

  lemma {:induction false} RunKeepsInv(run: seq<State>, k: nat)
    requires IsRun(run) && k < |run|
    ensures Inv(run[k])
  {
    if k == 0 {
      InitialInv(run[0]);
    } else {
      RunKeepsInv(run, k - 1);
      assert Steps(run[k - 1], run[k - 1 + 1]);
      var t :| Step(run[k - 1], run[k], t);
      StepKeepsInv(run[k - 1], run[k], t);
    }
  }

  // ----- What it is for -----

  /** The assertion in `caml_context_receive_r`: a receiver that has the mutex finds a
      message. */
  lemma ReceiverFindsMessage(run: seq<State>, k: nat, t: nat)
    requires IsRun(run) && k < |run| && t in run[k].pcs && run[k].pcs[t].ReceiveLocked?
    ensures 0 < run[k].messageNo <= |run[k].queue|
  {
    RunKeepsInv(run, k);
    assert t in Takers(run[k].pcs);
    assert |Takers(run[k].pcs)| > 0;
  }

  /** At most one thread is in the critical section. */
  lemma MutualExclusion(run: seq<State>, k: nat, t: nat, u: nat)
    requires IsRun(run) && k < |run| && t in run[k].pcs && u in run[k].pcs
    requires InSection(run[k].pcs[t]) && InSection(run[k].pcs[u])
    ensures t == u
  {
    RunKeepsInv(run, k);
  }

  /** The messages received are the first of those sent, in order, each once; the others
      are still in the mailbox. */
  lemma FirstInFirstOut(run: seq<State>, k: nat)
    requires IsRun(run) && k < |run|
    ensures run[k].received <= run[k].sent
    ensures |run[k].sent| - |run[k].received| == run[k].messageNo <= |run[k].queue|
    ensures Holder(run[k]) == Idle ==> run[k].sent == run[k].received + run[k].queue[..run[k].messageNo]
  {
    RunKeepsInv(run, k);
  }

  /** The history only grows: what was received stays received. */
  lemma {:induction false} HistoryGrows(run: seq<State>, j: nat, k: nat)
    requires IsRun(run) && j <= k < |run|
    ensures run[j].sent <= run[k].sent && run[j].received <= run[k].received
    decreases k - j
  {
    if j < k {
      HistoryGrows(run, j, k - 1);
      assert Steps(run[k - 1], run[k - 1 + 1]);
      var t :| Step(run[k - 1], run[k], t);
    }
  }

  /** The message that a receive returns is the next one in the order of sending. */
  lemma ReceivesNext(run: seq<State>, k: nat, t: nat)
    requires IsRun(run) && k + 1 < |run| && Step(run[k], run[k + 1], t) && run[k].pcs[t].Cleared?
    ensures |run[k].received| < |run[k].sent| && run[k].pcs[t].m == run[k].sent[|run[k].received|]
    ensures run[k + 1].pcs[t] == ReceiveCounted(run[k].pcs[t].m)
  {
    RunKeepsInv(run, k);
    assert Holder(run[k]) == run[k].pcs[t];
  }

  // ----- Nobody waits in vain -----

  ghost predicate CanStep(s: State, t: nat) {
    exists s' :: s' != s && Step(s, s', t)
  }

  lemma Moves(s: State, s': State, t: nat)
    requires Step(s, s', t) && s' != s
    ensures CanStep(s, t) == true
  {
  }

  lemma SenderSteps(s: State, t: nat)
    requires Inv(s) && t in s.pcs && IsSending(s.pcs[t]) && (s.pcs[t].Sending? ==> s.mutex == Free)
    ensures CanStep(s, t) == true
  {
    assert InSection(s.pcs[t]) ==> HolderOk(s, s.pcs[t]);
    match s.pcs[t]
    case Sending(m) => Moves(s, Goto(s, t, SendLocked(m)).(mutex := Held(t)), t);
    case SendLocked(m) => Moves(s, Goto(s, t, SendRead(m, s.messageNo)), t);
    case SendRead(m, n) =>
      var q := if n == |s.queue| then s.queue + s.queue else s.queue;
      Moves(s, Goto(s, t, SendRoom(m, n)).(queue := q), t);
    case SendRoom(m, n) => Moves(s, Goto(s, t, SendStored(m, n)).(queue := s.queue[n := m]), t);
    case SendStored(m, n) => Moves(s, Goto(s, t, SendCounted).(messageNo := n + 1, sent := s.sent + [m]), t);
    case SendCounted => Moves(s, Goto(s, t, SendUnlocked).(mutex := Free), t);
    case SendUnlocked => Moves(s, Goto(s, t, Idle).(sem := s.sem + 1), t);
  }

  lemma ReceiverSteps(s: State, t: nat)
    requires Inv(s) && t in s.pcs && !IsSending(s.pcs[t])
    requires (s.pcs[t].Won? ==> s.mutex == Free) && (s.pcs[t].Waiting? ==> s.sem > 0)
    ensures CanStep(s, t) == true
  {
    assert InSection(s.pcs[t]) ==> HolderOk(s, s.pcs[t]);
    match s.pcs[t]
    case Idle => Moves(s, Goto(s, t, Waiting), t);
    case Waiting => Moves(s, Goto(s, t, Won).(sem := s.sem - 1), t);
    case Won => Moves(s, Goto(s, t, ReceiveLocked).(mutex := Held(t)), t);
    case ReceiveLocked =>
      assert t in Takers(s.pcs);
      assert |Takers(s.pcs)| > 0;
      Moves(s, Goto(s, t, Shifting(s.queue[0], s.messageNo, 0)), t);
    case Shifting(m, n, i) =>
      if i < n - 1 {
        Moves(s, Goto(s, t, Shifting(m, n, i + 1)).(queue := s.queue[i := s.queue[i + 1]]), t);
      } else {
        Moves(s, Goto(s, t, Cleared(m, n)).(queue := s.queue[n - 1 := NULL]), t);
      }
    case Cleared(m, n) => Moves(s, Goto(s, t, ReceiveCounted(m)).(messageNo := n - 1, received := s.received + [m]), t);
    case ReceiveCounted(m) => Moves(s, Goto(s, t, ReceiveUnlocked(m)).(mutex := Free), t);
    case ReceiveUnlocked(m) => Moves(s, Goto(s, t, Idle), t);
  }

  /** The thread in the critical section is never stuck, nor is any other thread, but for
      one that waits for the mutex or for a message. */
  lemma StepsUnlessWaiting(s: State, t: nat)
    requires Inv(s) && t in s.pcs
    requires (s.pcs[t].Sending? || s.pcs[t].Won?) ==> s.mutex == Free
    requires s.pcs[t].Waiting? ==> s.sem > 0
    ensures CanStep(s, t)
  {
    if IsSending(s.pcs[t]) {
      SenderSteps(s, t);
    } else {
      ReceiverSteps(s, t);
    }
  }

  /** No thread can step only when all are waiting for a message and every message that
      was sent has been received. */
  lemma NoLostWakeup(run: seq<State>, k: nat)
    requires IsRun(run) && k < |run| && forall t :: t in run[k].pcs ==> !CanStep(run[k], t)
    ensures forall t :: t in run[k].pcs ==> run[k].pcs[t] == Waiting
    ensures run[k].pcs != map[] ==> run[k].received == run[k].sent
  {
    RunKeepsInv(run, k);
    var s := run[k];
    if s.mutex.Held? {
      StepsUnlessWaiting(s, s.mutex.t);
    }
    forall t | t in s.pcs ensures s.pcs[t] == Waiting && s.sem == 0 {
      if s.pcs[t] != Waiting || s.sem > 0 {
        StepsUnlessWaiting(s, t);
      }
    }
    assert Takers(s.pcs) == {} && Owers(s.pcs) == {};
    if s.pcs != map[] {
      var t :| t in s.pcs;
      assert s.messageNo == 0;
    }
  }

  // ----- The critical sections in place -----

  /** The queue of a mailbox. */
  class Queue {
    var messages: array<Blob>
    var messageNo: nat

    ghost predicate Valid()
      reads this
    {
      0 < messages.Length && messageNo <= messages.Length
    }

    ghost function Contents(): seq<Blob>
      reads this, messages
      requires Valid()
    {
      messages[..messageNo]
    }

    /** `caml_make_mailbox_r`. */
    constructor ()
      ensures Valid() && Contents() == [] && fresh(messages) && messages.Length == CAML_INITIAL_ALLOCATED_MESSAGE_NO
    {
      messages := new Blob[CAML_INITIAL_ALLOCATED_MESSAGE_NO];
      messageNo := 0;
    }

    /** The critical section of `caml_context_send_r`. */
    method Enqueue(m: Blob)
      requires Valid()
      modifies this, messages
      ensures Valid() && Contents() == old(Contents()) + [m]
      ensures messages.Length == if old(messageNo) == old(messages.Length) then 2 * old(messages.Length)
              else old(messages.Length)
      ensures messages == old(messages) || fresh(messages)
    {
      var n := messageNo;
      if n == messages.Length {
        var q := new Blob[2 * messages.Length];
        forall i | 0 <= i < n {
          q[i] := messages[i];
        }
        messages := q;
      }
      messages[n] := m;
      messageNo := n + 1;
    }

    /** The critical section of `caml_context_receive_r`. */
    method Dequeue() returns (m: Blob)
      requires Valid() && messageNo > 0
      modifies this`messageNo, messages
      ensures Valid() && old(Contents()) == [m] + Contents()
    {
      var n := messageNo;
      m := messages[0];
      var i := 0;
      while i < n - 1
        invariant 0 <= i <= n - 1
        invariant forall k :: 0 <= k < i ==> messages[k] == old(messages[k + 1])
        invariant forall k :: i <= k < n ==> messages[k] == old(messages[k])
      {
        messages[i] := messages[i + 1];
        i := i + 1;
      }
      messages[n - 1] := NULL;
      messageNo := n - 1;
    }
  }
}
