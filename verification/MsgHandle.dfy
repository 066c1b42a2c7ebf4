/**
 * The message handler: any number of senders and one consumer thread share a
 * queue through a mutex and a counting semaphore, and an in-band message makes
 * the consumer free everything. Every lock, push, unlock, post, wait, pop and
 * free is a step of its own; a step that touches something already destroyed
 * is a fault.
 */
module MsgHandle {
  const DESTROY: int := -1
  const CMD_ERROR: int := -255

  datatype Msg = Msg(cmd: int, data: int)

  /** Where a call of msg_send stands; the call inside msg_handle_destory then waits for the thread. */
  datatype Phase = Entering | Locked | Pushed | Unlocked | Done | Returned

  datatype Call = Call(msg: Msg, joins: bool, phase: Phase)

  /** Where the consumer stands. Freeing(n): n of the five steps of msg_handle_unlock_free are done. */
  datatype Pc = Waiting | HasToken | HoldsLock | GotMsg(msg: Msg) | Calling(msg: Msg) | Freeing(n: nat) | Exited

  datatype Owner = Nobody | Consumer | Caller(i: nat)

  /**
   * `queue`, `sem` and `owner` are the shared objects. `order` lists the calls in the order of their
   * pushes, `taken` counts the pops and `delivered` the messages given to the callback.
   */
  datatype State = State(calls: seq<Call>, pc: Pc, owner: Owner, queue: seq<Msg>, sem: nat,
                         order: seq<nat>, taken: nat, delivered: seq<Msg>, fault: bool)

  datatype Action =
    | StartSend(msg: Msg) | StartDestroy
    | Lock(i: nat) | Push(i: nat) | Unlock(i: nat) | Post(i: nat) | Join(i: nat)
    | Wait | Take | Pop | Release | Callback | Free

  function Init(): State {
    State([], Waiting, Nobody, [], 0, [], 0, [], false)
  }

  // ----- What still exists: only the consumer destroys anything -----

  predicate QueueAlive(pc: Pc) { pc != Exited && (pc.Freeing? ==> pc.n < 1) }

  predicate SemAlive(pc: Pc) { pc != Exited && (pc.Freeing? ==> pc.n < 2) }

  predicate MutexAlive(pc: Pc) { pc != Exited && (pc.Freeing? ==> pc.n < 4) }

  predicate HandleAlive(pc: Pc) { pc != Exited }

  // ----- Steps -----

  predicate Enabled(s: State, a: Action) {
    && !s.fault
    && match a
       case StartSend(_) => true
       case StartDestroy => true
       case Lock(i) => i < |s.calls| && s.calls[i].phase == Entering && (s.owner == Nobody || !MutexAlive(s.pc))
       case Push(i) => i < |s.calls| && s.calls[i].phase == Locked
       case Unlock(i) => i < |s.calls| && s.calls[i].phase == Pushed
       case Post(i) => i < |s.calls| && s.calls[i].phase == Unlocked
       case Join(i) => i < |s.calls| && s.calls[i].phase == Done && s.calls[i].joins && s.pc == Exited
       case Wait => s.pc == Waiting && s.sem > 0
       case Take => s.pc == HasToken && s.owner == Nobody
       case Pop => s.pc == HoldsLock
       case Release => s.pc.GotMsg? && s.pc.msg.cmd != DESTROY
       case Callback => s.pc.Calling?
       case Free => s.pc.Freeing? && s.pc.n <= 4
  }

  /** What the action needs to exist. */
  predicate Exists(s: State, a: Action) {
    match a
    case StartSend(_) => true
    case StartDestroy => HandleAlive(s.pc)
    case Lock(_) => MutexAlive(s.pc)
    case Push(_) => QueueAlive(s.pc)
    case Unlock(_) => MutexAlive(s.pc)
    case Post(_) => SemAlive(s.pc)
    case Free => s.pc == Freeing(3) ==> s.owner == Nobody
    case _ => true
  }

  function Move(s: State, i: nat, phase: Phase): State
    requires i < |s.calls|
  {
    s.(calls := s.calls[i := s.calls[i].(phase := phase)])
  }

  /** queue_pop_head: an empty queue gives the error command. */
  function PopHead(queue: seq<Msg>): (Msg, seq<Msg>) {
    if queue == [] then (Msg(CMD_ERROR, 0), []) else (queue[0], queue[1..])
  }

  function Step(s: State, a: Action): State
    requires Enabled(s, a)
  {
    if !Exists(s, a) then s.(fault := true)
    else
      match a
      case StartSend(m) => s.(calls := s.calls + [Call(m, false, Entering)])
      case StartDestroy => s.(calls := s.calls + [Call(Msg(DESTROY, 0), true, Entering)])
      case Lock(i) => Move(s, i, Locked).(owner := Caller(i))
      case Push(i) => Move(s, i, Pushed).(queue := s.queue + [s.calls[i].msg], order := s.order + [i])
      case Unlock(i) => Move(s, i, Unlocked).(owner := Nobody)
      case Post(i) => Move(s, i, Done).(sem := s.sem + 1)
      case Join(i) => Move(s, i, Returned)
      case Wait => s.(pc := HasToken, sem := s.sem - 1)
      case Take => s.(pc := HoldsLock, owner := Consumer)
      case Pop =>
        var (m, rest) := PopHead(s.queue);
        s.(pc := if m.cmd == DESTROY then Freeing(0) else GotMsg(m), queue := rest, taken := s.taken + 1)
      case Release => s.(pc := Calling(s.pc.msg), owner := Nobody)
      case Callback =>
        s.(pc := Waiting, delivered := s.delivered + if s.pc.msg.cmd != CMD_ERROR then [s.pc.msg] else [])
      case Free =>
        if s.pc.n == 0 then s.(pc := Freeing(1), queue := [])
        else if s.pc.n == 2 then s.(pc := Freeing(3), owner := Nobody)
        else if s.pc.n == 4 then s.(pc := Exited)
        else s.(pc := Freeing(s.pc.n + 1))
  }

  // ----- Runs -----

  predicate Runs(s: State, acts: seq<Action>)
    decreases |acts|
  {
    acts == [] || (Enabled(s, acts[0]) && Runs(Step(s, acts[0]), acts[1..]))
  }

  function After(s: State, acts: seq<Action>): State
    requires Runs(s, acts)
    decreases |acts|
  {
    if acts == [] then s else After(Step(s, acts[0]), acts[1..])
  }

  // ----- What every step keeps -----

  predicate HoldsMutex(phase: Phase) { phase == Locked || phase == Pushed }

  predicate HasPushed(phase: Phase) { !(phase == Entering || phase == Locked) }

  predicate Finished(phase: Phase) { phase == Done || phase == Returned }

  predicate ConsumerHolds(pc: Pc) { pc.HoldsLock? || pc.GotMsg? || (pc.Freeing? && pc.n <= 2) }

  function Owes(c: Call): nat { if c.phase == Pushed || c.phase == Unlocked then 1 else 0 }

  /** Pushes whose post is still to come. */
  function Unposted(calls: seq<Call>): nat {
    if calls == [] then 0 else Owes(calls[0]) + Unposted(calls[1..])
  }

  /** The token the consumer took from the semaphore and has not used. */
  function Token(pc: Pc): nat { if pc == HasToken || pc == HoldsLock then 1 else 0 }

  /** The mutex has at most one holder, and `owner` names it. */
  predicate OwnerOk(s: State) {
    && (forall i :: 0 <= i < |s.calls| ==> (HoldsMutex(s.calls[i].phase) <==> s.owner == Caller(i)))
    && (s.owner == Consumer <==> ConsumerHolds(s.pc))
    && (s.owner.Caller? ==> s.owner.i < |s.calls|)
  }

  /** Each call that has pushed stands in the push order exactly once. */
  predicate OrderOk(s: State) {
    && (forall k :: 0 <= k < |s.order| ==> s.order[k] < |s.calls| && HasPushed(s.calls[s.order[k]].phase))
    && (forall k, l :: 0 <= k < l < |s.order| ==> s.order[k] != s.order[l])
    && (forall i :: 0 <= i < |s.calls| && HasPushed(s.calls[i].phase) ==> i in s.order)
  }

  function Sent(calls: seq<Call>, order: seq<nat>): (r: seq<Msg>)
    requires forall k :: 0 <= k < |order| ==> order[k] < |calls|
    ensures |r| == |order|
    ensures forall k :: 0 <= k < |order| ==> r[k] == calls[order[k]].msg
  {
    seq(|order|, k requires 0 <= k < |order| => calls[order[k]].msg)
  }

  /** The messages the callback is meant to see. */
  function Visible(ms: seq<Msg>): seq<Msg> {
    if ms == [] then []
    else
      var m := ms[|ms| - 1];
      Visible(ms[..|ms| - 1]) + if m.cmd != CMD_ERROR && m.cmd != DESTROY then [m] else []
  }

  /** The message popped but not yet given to the callback. */
  function Pending(pc: Pc): seq<Msg> {
    if (pc.GotMsg? || pc.Calling?) && pc.msg.cmd != CMD_ERROR then [pc.msg] else []
  }

  /** What was popped is a prefix of what was pushed, and the callback has seen it in that order. */
  predicate Logged(sent: seq<Msg>, pc: Pc, queue: seq<Msg>, taken: nat, delivered: seq<Msg>) {
    && taken <= |sent|
    && (QueueAlive(pc) ==> queue == sent[taken..])
    && delivered + Pending(pc) == Visible(sent[..taken])
    && (forall k :: 0 <= k < taken - 1 ==> sent[k].cmd != DESTROY)
    && (pc.Freeing? || pc == Exited <==> taken > 0 && sent[taken - 1].cmd == DESTROY)
    && (pc.GotMsg? || pc.Calling? ==> pc.msg.cmd != DESTROY)
  }

  predicate LogOk(s: State)
    requires OrderOk(s)
  {
    Logged(Sent(s.calls, s.order), s.pc, s.queue, s.taken, s.delivered)
  }

  /** A token in the semaphore, in the consumer's hand or still owed by a sender for every message in the queue. */
  predicate CountOk(s: State) {
    QueueAlive(s.pc) ==> |s.queue| == s.sem + Unposted(s.calls) + Token(s.pc)
  }

  /** msg_handle_destory returns only after the consumer has exited. */
  predicate JoinOk(s: State) {
    forall i :: 0 <= i < |s.calls| && s.calls[i].phase == Returned ==> s.pc == Exited
  }

  predicate Inv(s: State) {
    && OwnerOk(s) && OrderOk(s) && LogOk(s) && CountOk(s) && JoinOk(s)
    && (s.pc.Freeing? ==> s.pc.n <= 4)
  }

  lemma {:induction false} UnpostedMove(calls: seq<Call>, i: nat, c: Call)
    requires i < |calls|
    ensures Unposted(calls[i := c]) == Unposted(calls) - Owes(calls[i]) + Owes(c)
  {
    if i == 0 {
      assert calls[0 := c][1..] == calls[1..];
    } else {
      assert calls[i := c][1..] == calls[1..][i - 1 := c];
      UnpostedMove(calls[1..], i - 1, c);
    }
  }

  lemma {:induction false} UnpostedAppend(calls: seq<Call>, c: Call)
    ensures Unposted(calls + [c]) == Unposted(calls) + Owes(c)
  {
    if calls == [] {
      assert calls + [c] == [c];
    } else {
      assert (calls + [c])[1..] == calls[1..] + [c];
      UnpostedAppend(calls[1..], c);
    }
  }

  lemma {:induction false} UnpostedSome(calls: seq<Call>, i: nat)
    requires i < |calls|
    ensures Unposted(calls) >= Owes(calls[i])
  {
    if i > 0 {
      UnpostedSome(calls[1..], i - 1);
    }
  }

  // ----- Preservation, one kind of step at a time -----

  lemma StartInv(s: State, c: Call)
    requires Inv(s) && c.phase == Entering
    ensures Inv(s.(calls := s.calls + [c]))
  {
    hide Logged, Sent;
    var s' := s.(calls := s.calls + [c]);
    UnpostedAppend(s.calls, c);
    assert Sent(s'.calls, s'.order) == Sent(s.calls, s.order);
    assert s.owner != Caller(|s.calls|);
  }

  lemma MoveOrder(s: State, s': State, i: nat, phase: Phase)
    requires OrderOk(s) && i < |s.calls| && s'.calls == Move(s, i, phase).calls && s'.order == s.order
    requires HasPushed(s.calls[i].phase) == HasPushed(phase)
    ensures OrderOk(s') && Sent(s'.calls, s'.order) == Sent(s.calls, s.order)
  {
  }

  /** A call moves without pushing. */
  lemma MoveInv(s: State, s': State, i: nat, phase: Phase)
    requires Inv(s) && i < |s.calls| && s' == Move(s, i, phase).(owner := s'.owner, sem := s'.sem)
    requires HasPushed(s.calls[i].phase) == HasPushed(phase) && OwnerOk(s') && (phase == Returned ==> s.pc == Exited)
    requires QueueAlive(s.pc) ==> s'.sem + Owes(s'.calls[i]) == s.sem + Owes(s.calls[i])
    ensures Inv(s')
  {
    hide Logged, Sent, OrderOk, Owes, OwnerOk;
    UnpostedMove(s.calls, i, s'.calls[i]);
    UnpostedSome(s.calls, i);
    MoveOrder(s, s', i, phase);
  }

  lemma PushInv(s: State, i: nat)
    requires Inv(s) && Enabled(s, Push(i)) && QueueAlive(s.pc)
    ensures Inv(Step(s, Push(i)))
  {
    hide Logged, Sent, OwnerOk;
    var s' := Step(s, Push(i));
    PushOrder(s, i);
    UnpostedMove(s.calls, i, s'.calls[i]);
    PushSent(s, i);
    PushLogged(Sent(s.calls, s.order), s.calls[i].msg, s.pc, s.queue, s.taken, s.delivered);
  }

  lemma PushSent(s: State, i: nat)
    requires OrderOk(s) && i < |s.calls| && OrderOk(Move(s, i, Pushed).(order := s.order + [i]))
    ensures Sent(Move(s, i, Pushed).calls, s.order + [i]) == Sent(s.calls, s.order) + [s.calls[i].msg]
  {
  }

  lemma PushLogged(sent: seq<Msg>, m: Msg, pc: Pc, queue: seq<Msg>, taken: nat, delivered: seq<Msg>)
    requires Logged(sent, pc, queue, taken, delivered) && QueueAlive(pc)
    ensures Logged(sent + [m], pc, queue + [m], taken, delivered)
  {
    hide Visible, Pending;
    assert (sent + [m])[..taken] == sent[..taken];
    assert (sent + [m])[taken..] == sent[taken..] + [m];
  }

  lemma PushOrder(s: State, i: nat)
    requires OwnerOk(s) && OrderOk(s) && Enabled(s, Push(i)) && QueueAlive(s.pc)
    ensures OwnerOk(Step(s, Push(i))) && OrderOk(Step(s, Push(i)))
  {
    var s' := Step(s, Push(i));
    assert s'.order[|s.order|] == i;
    forall j | 0 <= j < |s'.calls| && HasPushed(s'.calls[j].phase)
      ensures j in s'.order
    {
      if j != i {
        assert s'.calls[j] == s.calls[j];
      }
    }
  }

  lemma CallerInv(s: State, a: Action)
    requires Inv(s) && Enabled(s, a) && Exists(s, a)
    requires a.Lock? || a.Push? || a.Unlock? || a.Post? || a.Join?
    ensures Inv(Step(s, a))
  {
    hide LogOk, OrderOk, CountOk;
    match a
    case Push(i) => PushInv(s, i);
    case Lock(i) => MoveInv(s, Step(s, a), i, Locked);
    case Unlock(i) => MoveInv(s, Step(s, a), i, Unlocked);
    case Post(i) => MoveInv(s, Step(s, a), i, Done);
    case Join(i) => MoveInv(s, Step(s, a), i, Returned);
  }

  /** The queue is never empty when the consumer pops. */
  lemma PopNeverEmpty(s: State)
    requires Inv(s) && Enabled(s, Pop)
    ensures s.queue != [] && s.taken < |s.order| && s.queue[0] == s.calls[s.order[s.taken]].msg
  {
  }

  lemma PopLogged(sent: seq<Msg>, pc: Pc, pc': Pc, queue: seq<Msg>, taken: nat, delivered: seq<Msg>)
    requires Logged(sent, pc, queue, taken, delivered) && pc == HoldsLock && queue != []
    requires pc' == if queue[0].cmd == DESTROY then Freeing(0) else GotMsg(queue[0])
    ensures Logged(sent, pc', queue[1..], taken + 1, delivered)
  {
    var upto := sent[..taken + 1];
    assert upto[..taken] == sent[..taken] && upto[taken] == sent[taken] == queue[0];
    assert Visible(upto) == Visible(sent[..taken]) + Pending(pc');
    assert delivered + [] == delivered;
  }

  lemma PopInv(s: State)
    requires Inv(s) && Enabled(s, Pop)
    ensures Inv(Step(s, Pop))
  {
    hide Logged, Sent;
    PopNeverEmpty(s);
    PopLogged(Sent(s.calls, s.order), s.pc, Step(s, Pop).pc, s.queue, s.taken, s.delivered);
  }

  lemma ConsumerLogged(s: State, a: Action, sent: seq<Msg>)
    requires Enabled(s, a) && Exists(s, a) && (a.Wait? || a.Take? || a.Release? || a.Callback? || a.Free?)
    requires Logged(sent, s.pc, s.queue, s.taken, s.delivered)
    ensures var s' := Step(s, a); Logged(sent, s'.pc, s'.queue, s'.taken, s'.delivered)
  {
    hide Visible;
    var s' := Step(s, a);
    assert s'.delivered + Pending(s'.pc) == s.delivered + Pending(s.pc);
  }

  lemma OrderParts(s: State)
    requires OrderOk(s)
    ensures forall k :: 0 <= k < |s.order| ==> s.order[k] < |s.calls|
  {
  }

  lemma SameOrder(s: State, s': State)
    requires OrderOk(s) && s'.calls == s.calls && s'.order == s.order
    ensures OrderOk(s')
  {
  }

  lemma ConsumerInv(s: State, a: Action)
    requires Inv(s) && Enabled(s, a) && Exists(s, a)
    requires a.Wait? || a.Take? || a.Release? || a.Callback? || a.Free?
    ensures Inv(Step(s, a))
  {
    hide Logged, Sent, Unposted, OrderOk;
    OrderParts(s);
    ConsumerLogged(s, a, Sent(s.calls, s.order));
    SameOrder(s, Step(s, a));
  }

  /** Every step keeps the invariant. */
  lemma StepInv(s: State, a: Action)
    requires Inv(s) && Enabled(s, a) && !Step(s, a).fault
    ensures Inv(Step(s, a))
  {
    hide Inv;
    match a
    case StartSend(m) => StartInv(s, Call(m, false, Entering));
    case StartDestroy => StartInv(s, Call(Msg(DESTROY, 0), true, Entering));
    case Pop => PopInv(s);
    case Lock(_) => CallerInv(s, a);
    case Push(_) => CallerInv(s, a);
    case Unlock(_) => CallerInv(s, a);
    case Post(_) => CallerInv(s, a);
    case Join(_) => CallerInv(s, a);
    case _ => ConsumerInv(s, a);
  }

  // ----- Every run -----

  lemma InitInv()
    ensures Inv(Init())
  {
    hide Visible, Unposted, Sent;
    NothingYet();
  }

  lemma NothingYet()
    ensures Visible([]) == [] && Unposted([]) == 0 && Sent([], []) == []
  {
  }

  lemma {:induction false} RunInv(s: State, acts: seq<Action>)
    requires Inv(s) && Runs(s, acts) && !After(s, acts).fault
    ensures Inv(After(s, acts))
    decreases |acts|
  {
    hide Inv;
    if acts != [] {
      StepInv(s, acts[0]);
      RunInv(Step(s, acts[0]), acts[1..]);
    }
  }

  lemma {:induction false} VisiblePrefix(ms: seq<Msg>, n: nat)
    requires n <= |ms|
    ensures Visible(ms[..n]) <= Visible(ms)
  {
    if n == |ms| {
      assert ms[..n] == ms;
    } else {
      VisiblePrefix(ms[..|ms| - 1], n);
      assert ms[..|ms| - 1][..n] == ms[..n];
    }
  }

  /**
   * In every interleaving that has not yet touched anything destroyed: the queue
   * length is accounted for, a pop finds a message, and the callback has seen a
   * prefix of the messages in push order.
   */
  lemma EveryRun(acts: seq<Action>)
    ensures Runs(Init(), acts) && !After(Init(), acts).fault ==>
              var s := After(Init(), acts);
              && (QueueAlive(s.pc) ==> |s.queue| == s.sem + Unposted(s.calls) + Token(s.pc))
              && (s.pc == HoldsLock ==> s.queue != [])
              && OrderOk(s) && s.delivered <= Visible(Sent(s.calls, s.order))
  {
    hide *;
    if Runs(Init(), acts) && !After(Init(), acts).fault {
      InitInv();
      RunInv(Init(), acts);
      InvParts(After(Init(), acts));
    }
  }

  lemma InvParts(s: State)
    requires Inv(s) && !s.fault
    ensures QueueAlive(s.pc) ==> |s.queue| == s.sem + Unposted(s.calls) + Token(s.pc)
    ensures s.pc == HoldsLock ==> s.queue != []
    ensures OrderOk(s) && forall k :: 0 <= k < |s.order| ==> s.order[k] < |s.calls|
    ensures s.delivered <= Visible(Sent(s.calls, s.order))
  {
    hide Visible, Unposted, Sent;
    VisiblePrefix(Sent(s.calls, s.order), s.taken);
  }

  // ----- Orderly runs: nothing is pushed after the destroy message -----

  predicate IsDestroy(s: State, i: nat)
  {
    i < |s.calls| && s.calls[i].msg.cmd == DESTROY
  }

  predicate DestroyPushed(s: State) {
    exists k :: 0 <= k < |s.order| && IsDestroy(s, s.order[k])
  }

  /** When the destroy message is pushed every call has pushed, and no call starts after that. */
  predicate Orderly(s: State, a: Action) {
    match a
    case StartSend(_) => !DestroyPushed(s)
    case StartDestroy => !DestroyPushed(s)
    case Push(i) => IsDestroy(s, i) ==> forall j :: 0 <= j < |s.calls| && j != i ==> HasPushed(s.calls[j].phase)
    case _ => true
  }

  predicate OrderlyRun(s: State, acts: seq<Action>)
    requires Runs(s, acts)
    decreases |acts|
  {
    acts == [] || (Orderly(s, acts[0]) && OrderlyRun(Step(s, acts[0]), acts[1..]))
  }

  predicate AllPushed(s: State) {
    forall i :: 0 <= i < |s.calls| ==> HasPushed(s.calls[i].phase)
  }

  predicate AllFinished(s: State) {
    forall i :: 0 <= i < |s.calls| ==> Finished(s.calls[i].phase)
  }

  /** The destroy message is the last one pushed, and every call has pushed by then. */
  predicate LastPush(s: State) {
    && (forall k :: 0 <= k < |s.order| - 1 ==> !IsDestroy(s, s.order[k]))
    && (DestroyPushed(s) ==> AllPushed(s))
  }

  predicate TidyInv(s: State) {
    && Inv(s) && !s.fault && LastPush(s)
    && (s.pc.Freeing? || s.pc == Exited ==> AllFinished(s) && s.taken == |s.order|)
  }

  /** Nobody is left who could touch the handle. */
  lemma TidyExists(s: State, a: Action)
    requires TidyInv(s) && Enabled(s, a) && Orderly(s, a)
    ensures Exists(s, a)
  {
    hide CountOk;
    if s.pc.Freeing? || s.pc == Exited {
      assert IsDestroy(s, s.order[s.taken - 1]);
    }
  }

  lemma LastPushStart(s: State, c: Call)
    requires OrderOk(s) && LastPush(s) && !DestroyPushed(s)
    ensures LastPush(s.(calls := s.calls + [c]))
  {
    var s' := s.(calls := s.calls + [c]);
    forall k | 0 <= k < |s.order|
      ensures !IsDestroy(s', s.order[k])
    {
      assert !IsDestroy(s, s.order[k]);
    }
  }

  lemma LastPushMove(s: State, s': State, i: nat, phase: Phase)
    requires LastPush(s) && i < |s.calls| && s'.calls == Move(s, i, phase).calls && s'.order == s.order
    requires HasPushed(s.calls[i].phase) ==> HasPushed(phase)
    ensures LastPush(s')
  {
    assert forall j :: 0 <= j < |s.calls| ==> IsDestroy(s', j) == IsDestroy(s, j);
    if DestroyPushed(s') {
      var k :| 0 <= k < |s'.order| && IsDestroy(s', s'.order[k]);
      assert IsDestroy(s, s.order[k]);
    }
  }

  lemma LastPushPush(s: State, i: nat)
    requires OrderOk(s) && LastPush(s) && Enabled(s, Push(i)) && Exists(s, Push(i)) && Orderly(s, Push(i))
    ensures LastPush(Step(s, Push(i)))
  {
    var s' := Step(s, Push(i));
    assert !HasPushed(s.calls[i].phase) && !DestroyPushed(s);
    forall k | 0 <= k < |s.order|
      ensures !IsDestroy(s', s'.order[k])
    {
      assert !IsDestroy(s, s.order[k]);
    }
    if DestroyPushed(s') {
      var k :| 0 <= k < |s'.order| && IsDestroy(s', s'.order[k]);
      assert k == |s.order|;
    }
  }

  lemma LastPushStep(s: State, a: Action)
    requires OrderOk(s) && LastPush(s) && Enabled(s, a) && Exists(s, a) && Orderly(s, a)
    ensures LastPush(Step(s, a))
  {
    hide OrderOk, LastPush, QueueAlive;
    match a
    case StartSend(m) => LastPushStart(s, Call(m, false, Entering));
    case StartDestroy => LastPushStart(s, Call(Msg(DESTROY, 0), true, Entering));
    case Push(i) => LastPushPush(s, i);
    case Lock(i) => LastPushMove(s, Step(s, a), i, Locked);
    case Unlock(i) => LastPushMove(s, Step(s, a), i, Unlocked);
    case Post(i) => LastPushMove(s, Step(s, a), i, Done);
    case Join(i) => LastPushMove(s, Step(s, a), i, Returned);
    case _ => SamePushes(s, Step(s, a));
  }

  lemma SamePushes(s: State, s': State)
    requires LastPush(s) && s'.calls == s.calls && s'.order == s.order
    ensures LastPush(s')
  {
    assert forall j :: IsDestroy(s', j) == IsDestroy(s, j);
    if DestroyPushed(s') {
      var k :| 0 <= k < |s'.order| && IsDestroy(s', s'.order[k]);
      assert IsDestroy(s, s.order[k]);
    }
  }

  /** When the destroy message is popped no post is outstanding, so every call is over. */
  lemma PoppedLast(s: State)
    requires Inv(s) && LastPush(s) && s.pc == Freeing(0)
    ensures AllFinished(s) && s.taken == |s.order|
  {
    hide Visible, Unposted;
    assert IsDestroy(s, s.order[s.taken - 1]);
    assert DestroyPushed(s);
    assert s.taken == |s.order|;
    assert Unposted(s.calls) == 0;
    forall i | 0 <= i < |s.calls|
      ensures Finished(s.calls[i].phase)
    {
      UnpostedSome(s.calls, i);
    }
  }

  lemma TidyStep(s: State, a: Action)
    requires TidyInv(s) && Enabled(s, a) && Orderly(s, a)
    ensures TidyInv(Step(s, a))
  {
    hide Inv, LastPush, DestroyPushed, AllFinished, Step, Enabled, Exists, Orderly, OrderOk;
    TidyExists(s, a);
    InvParts(s);
    NoFault(s, a);
    StepInv(s, a);
    LastPushStep(s, a);
    if Step(s, a).pc == Freeing(0) {
      PoppedLast(Step(s, a));
    } else if Step(s, a).pc.Freeing? || Step(s, a).pc == Exited {
      FreeingStep(s, a);
    }
  }

  lemma NoFault(s: State, a: Action)
    requires Enabled(s, a) && Exists(s, a)
    ensures !Step(s, a).fault
  {
  }

  /** While the consumer frees, and after, calls at most return. */
  lemma FreeingStep(s: State, a: Action)
    requires TidyInv(s) && Enabled(s, a) && Exists(s, a) && Orderly(s, a)
    requires (Step(s, a).pc.Freeing? && Step(s, a).pc.n > 0) || Step(s, a).pc == Exited
    ensures AllFinished(Step(s, a)) && Step(s, a).taken == |Step(s, a).order|
  {
    hide Inv, LastPush, DestroyPushed;
    DestroyTaken(s);
  }

  lemma DestroyTaken(s: State)
    requires Inv(s) && (s.pc.Freeing? || s.pc == Exited)
    ensures DestroyPushed(s)
  {
    hide Visible;
    assert IsDestroy(s, s.order[s.taken - 1]);
  }

  lemma {:induction false} TidyRun(s: State, acts: seq<Action>)
    requires TidyInv(s) && Runs(s, acts) && OrderlyRun(s, acts)
    ensures TidyInv(After(s, acts))
    decreases |acts|
  {
    hide TidyInv, Orderly;
    if acts != [] {
      TidyStep(s, acts[0]);
      TidyRun(Step(s, acts[0]), acts[1..]);
    }
  }

  /**
   * In an orderly run nothing destroyed is ever touched; and once the consumer
   * has taken the destroy message, every call is over and the callback has seen
   * the message of every call once, in push order.
   */
  lemma OrderlyIsSafe(acts: seq<Action>)
    ensures Runs(Init(), acts) && OrderlyRun(Init(), acts) ==>
              var s := After(Init(), acts);
              && !s.fault && OrderOk(s)
              && (forall i :: 0 <= i < |s.calls| && s.calls[i].phase == Returned ==> s.pc == Exited)
              && (s.pc.Freeing? || s.pc == Exited ==>
                    && AllFinished(s) && (forall i :: 0 <= i < |s.calls| ==> i in s.order)
                    && s.delivered == Visible(Sent(s.calls, s.order)))
  {
    hide *;
    if Runs(Init(), acts) && OrderlyRun(Init(), acts) {
      InitTidy();
      TidyRun(Init(), acts);
      TidyParts(After(Init(), acts));
    }
  }

  lemma InitTidy()
    ensures TidyInv(Init())
  {
  }

  lemma TidyParts(s: State)
    requires TidyInv(s)
    ensures !s.fault && OrderOk(s) && forall k :: 0 <= k < |s.order| ==> s.order[k] < |s.calls|
    ensures forall i :: 0 <= i < |s.calls| && s.calls[i].phase == Returned ==> s.pc == Exited
    ensures s.pc.Freeing? || s.pc == Exited ==>
              && AllFinished(s) && (forall i :: 0 <= i < |s.calls| ==> i in s.order)
              && s.delivered == Visible(Sent(s.calls, s.order))
  {
    hide Visible, Unposted, LastPush;
    var sent := Sent(s.calls, s.order);
    assert sent[..|sent|] == sent;
    assert s.delivered + [] == s.delivered;
  }

  // ----- The rule the header asks for implies an orderly run -----

  /** Commands are not negative, destroy is called once, and no send overlaps or follows it. */
  predicate ByTheRules(s: State, a: Action) {
    match a
    case StartSend(m) => m.cmd >= 0 && forall i :: 0 <= i < |s.calls| ==> !s.calls[i].joins
    case StartDestroy => AllFinished(s) && forall i :: 0 <= i < |s.calls| ==> !s.calls[i].joins
    case _ => true
  }

  predicate RuleRun(s: State, acts: seq<Action>)
    requires Runs(s, acts)
    decreases |acts|
  {
    acts == [] || (ByTheRules(s, acts[0]) && RuleRun(Step(s, acts[0]), acts[1..]))
  }

  /** Only the destroy call carries the destroy command, and all calls before it are over. */
  predicate RuleInv(s: State) {
    forall i :: 0 <= i < |s.calls| ==>
      && (s.calls[i].joins <==> s.calls[i].msg.cmd == DESTROY)
      && (s.calls[i].joins ==> i == |s.calls| - 1)
      && (i < |s.calls| - 1 && s.calls[|s.calls| - 1].joins ==> Finished(s.calls[i].phase))
  }

  lemma RuleOrderly(s: State, a: Action)
    requires RuleInv(s) && OrderOk(s) && Enabled(s, a) && ByTheRules(s, a)
    ensures Orderly(s, a)
  {
    if DestroyPushed(s) {
      var k :| 0 <= k < |s.order| && IsDestroy(s, s.order[k]);
      assert s.calls[s.order[k]].joins;
    }
  }

  lemma RuleStep(s: State, a: Action)
    requires RuleInv(s) && Enabled(s, a) && ByTheRules(s, a)
    ensures RuleInv(Step(s, a))
  {
    hide Exists;
  }

  lemma {:induction false} RulesAreOrderly(s: State, acts: seq<Action>)
    requires RuleInv(s) && TidyInv(s) && Runs(s, acts) && RuleRun(s, acts)
    ensures OrderlyRun(s, acts)
    decreases |acts|
  {
    hide Inv, Step, Enabled, Orderly, ByTheRules, RuleInv, OrderOk, LastPush, AllFinished;
    if acts != [] {
      InvParts(s);
      RuleOrderly(s, acts[0]);
      RuleStep(s, acts[0]);
      TidyStep(s, acts[0]);
      RulesAreOrderly(Step(s, acts[0]), acts[1..]);
    }
  }

  /**
   * For callers that keep to the header's rules every message is delivered exactly once and nothing freed is
   * touched.
   */
  lemma RulesAreSafe(acts: seq<Action>)
    ensures Runs(Init(), acts) && RuleRun(Init(), acts) ==>
              var s := After(Init(), acts);
              && !s.fault && OrderOk(s)
              && ((exists i :: 0 <= i < |s.calls| && s.calls[i].phase == Returned) ==>
                    && s.pc == Exited && (forall i :: 0 <= i < |s.calls| ==> i in s.order)
                    && s.delivered == Visible(Sent(s.calls, s.order)))
  {
    hide *;
    if Runs(Init(), acts) && RuleRun(Init(), acts) {
      InitTidy();
      InitRule();
      RulesAreOrderly(Init(), acts);
      OrderlyIsSafe(acts);
    }
  }

  lemma InitRule()
    ensures RuleInv(Init())
  {
  }

  // ----- Without an orderly client some schedule touches freed memory -----

  /** The call has not pushed yet, or has pushed after position d and not posted. */
  predicate Behind(s: State, d: nat, i: nat) {
    && i < |s.calls|
    && (HasPushed(s.calls[i].phase) ==>
          && (s.calls[i].phase == Pushed || s.calls[i].phase == Unlocked)
          && exists j :: d < j < |s.order| && s.order[j] == i)
  }

  /** The destroy message was pushed at position d, and call i is behind it. */
  predicate Doomed(s: State, d: nat, i: nat) {
    Inv(s) && !s.fault && d < |s.order| && IsDestroy(s, s.order[d]) && Behind(s, d, i)
  }

  function Left(c: Call): nat {
    match c.phase
    case Entering => 4 case Locked => 3 case Pushed => 2 case Unlocked => 1 case _ => 0
  }

  function CallsLeft(calls: seq<Call>): nat {
    if calls == [] then 0 else Left(calls[0]) + CallsLeft(calls[1..])
  }

  function Rank(pc: Pc): nat {
    match pc
    case GotMsg(_) => 7 case Calling(_) => 6 case Waiting => 5 case HasToken => 4 case HoldsLock => 3
    case Freeing(n) => if n <= 8 then 9 - n else 0
    case Exited => 0
  }

  function Measure(s: State, d: nat): int {
    CallsLeft(s.calls) + 10 * (d + 1 - s.taken) + Rank(s.pc)
  }

  lemma {:induction false} LeftMove(calls: seq<Call>, i: nat, c: Call)
    requires i < |calls|
    ensures CallsLeft(calls[i := c]) == CallsLeft(calls) - Left(calls[i]) + Left(c)
  {
    if i == 0 {
      assert calls[0 := c][1..] == calls[1..];
    } else {
      assert calls[i := c][1..] == calls[1..][i - 1 := c];
      LeftMove(calls[1..], i - 1, c);
    }
  }

  /** A call other than i that owes a post, if more are owed than i owes. */
  lemma {:induction false} AnotherOwes(calls: seq<Call>, i: nat) returns (j: nat)
    requires i < |calls| && Unposted(calls) > Owes(calls[i])
    ensures j < |calls| && j != i && Owes(calls[j]) == 1
  {
    if i == 0 {
      j := SomeOwes(calls[1..]);
      j := j + 1;
    } else if Owes(calls[0]) == 1 {
      j := 0;
    } else {
      j := AnotherOwes(calls[1..], i - 1);
      j := j + 1;
    }
  }

  lemma {:induction false} SomeOwes(calls: seq<Call>) returns (j: nat)
    requires Unposted(calls) > 0
    ensures j < |calls| && Owes(calls[j]) == 1
  {
    if Owes(calls[0]) == 1 {
      j := 0;
    } else {
      j := SomeOwes(calls[1..]);
      j := j + 1;
    }
  }

  /** The step a hostile scheduler takes: everyone but the call that is behind. */
  lemma Hostile(s: State, d: nat, i: nat) returns (a: Action)
    requires Doomed(s, d, i) && s.pc != Exited
    ensures Enabled(s, a) && HostileAction(a, i)
  {
    if s.pc.Freeing? {
      a := Free;
    } else if s.pc.GotMsg? {
      a := Release;
    } else if s.pc.Calling? {
      a := Callback;
    } else if s.pc == HoldsLock {
      a := Pop;
    } else if s.owner.Caller? {
      a := if s.calls[s.owner.i].phase == Locked then Push(s.owner.i) else Unlock(s.owner.i);
    } else if s.pc == HasToken {
      a := Take;
    } else if s.sem > 0 {
      a := Wait;
    } else {
      MoreOwed(s, d, i);
      var j := AnotherOwes(s.calls, i);
      a := Post(j);
    }
  }

  /** With nothing left in the semaphore, somebody else still owes a post. */
  lemma MoreOwed(s: State, d: nat, i: nat)
    requires Doomed(s, d, i) && s.pc == Waiting && s.sem == 0 && s.owner == Nobody
    ensures Unposted(s.calls) > Owes(s.calls[i])
  {
    hide Visible, Unposted;
    assert s.taken <= d;
  }

  predicate HostileAction(a: Action, i: nat) {
    !a.StartSend? && !a.StartDestroy? && !a.Lock? && !a.Join? && a != Post(i)
  }

  lemma BehindStep(s: State, d: nat, i: nat, a: Action)
    requires OrderOk(s) && Behind(s, d, i) && d < |s.order| && Enabled(s, a) && HostileAction(a, i)
    ensures Behind(Step(s, a), d, i)
  {
    hide Step, Enabled, Exists, OrderOk;
    CallStep(s, i, a);
    var s' := Step(s, a);
    if s'.calls[i].phase == s.calls[i].phase || s.calls[i].phase == Pushed {
      if HasPushed(s.calls[i].phase) {
        var j :| d < j < |s.order| && s.order[j] == i;
        assert s'.order[j] == i;
      }
    } else {
      assert s'.order[|s.order|] == i;
    }
  }

  /** What such a step does to call i: nothing, or the next step of the call. */
  lemma CallStep(s: State, i: nat, a: Action)
    requires Enabled(s, a) && HostileAction(a, i) && i < |s.calls|
    ensures var s' := Step(s, a);
            && i < |s'.calls| && s.order <= s'.order
            && (s'.calls[i].phase == s.calls[i].phase
                || (s.calls[i].phase == Pushed && s'.calls[i].phase == Unlocked)
                || (s'.calls[i].phase == Pushed && s'.order == s.order + [i]))
  {
  }

  lemma TakenBound(s: State, d: nat)
    requires Inv(s) && d < |s.order| && IsDestroy(s, s.order[d])
    ensures s.taken <= d + 1 && (s.taken <= d || s.pc.Freeing? || s.pc == Exited)
  {
    hide Visible, Unposted;
  }

  lemma MeasureStep(s: State, d: nat, i: nat, a: Action)
    requires Enabled(s, a) && HostileAction(a, i) && !Step(s, a).fault
    ensures Measure(Step(s, a), d) < Measure(s, d)
  {
    hide Exists;
    match a
    case Push(j) => LeftMove(s.calls, j, Step(s, a).calls[j]);
    case Unlock(j) => LeftMove(s.calls, j, Step(s, a).calls[j]);
    case Post(j) => LeftMove(s.calls, j, Step(s, a).calls[j]);
    case _ =>
  }

  lemma HostileStep(s: State, d: nat, i: nat, a: Action)
    requires Doomed(s, d, i) && Enabled(s, a) && HostileAction(a, i) && !Step(s, a).fault
    ensures Doomed(Step(s, a), d, i) && 0 <= Measure(Step(s, a), d) < Measure(s, d)
  {
    hide Inv, Enabled, HostileAction, Behind, Step;
    InvParts(s);
    StepInv(s, a);
    BehindStep(s, d, i, a);
    MeasureStep(s, d, i, a);
    DestroyStays(s, d, a);
    TakenBound(Step(s, a), d);
  }

  lemma DestroyStays(s: State, d: nat, a: Action)
    requires OrderOk(s) && d < |s.order| && IsDestroy(s, s.order[d]) && Enabled(s, a)
    ensures var s' := Step(s, a); d < |s'.order| && IsDestroy(s', s'.order[d])
  {
  }

  /** From there a run exists that touches something destroyed. */
  lemma {:induction false} Doom(s: State, d: nat, i: nat) returns (acts: seq<Action>)
    requires Doomed(s, d, i)
    ensures Runs(s, acts) && After(s, acts).fault
    decreases Measure(s, d)
  {
    var a;
    if s.pc == Exited {
      a := match s.calls[i].phase
        case Entering => Lock(i)
        case Locked => Push(i)
        case Pushed => Unlock(i)
        case _ => Post(i);
      acts := [a];
    } else {
      a := Hostile(s, d, i);
      if Step(s, a).fault {
        acts := [a];
      } else {
        HostileStep(s, d, i, a);
        var rest := Doom(Step(s, a), d, i);
        acts := [a] + rest;
      }
    }
  }

  /**
   * The rule of orderly runs is exact: a client that breaks it once, in any
   * reachable state, leaves a schedule open in which something destroyed is touched.
   */
  lemma DisorderIsUnsafe(before: seq<Action>, a: Action) returns (acts: seq<Action>)
    ensures Runs(Init(), before) && BreaksOrder(After(Init(), before), a) ==>
              Runs(After(Init(), before), [a] + acts) && After(After(Init(), before), [a] + acts).fault
  {
    hide *;
    acts := [];
    if Runs(Init(), before) && BreaksOrder(After(Init(), before), a) {
      var s := After(Init(), before);
      BreaksParts(s, a);
      InitInv();
      RunInv(Init(), before);
      acts := AfterBreak(s, a);
    }
  }

  /** A possible step that is not orderly. */
  predicate BreaksOrder(s: State, a: Action) {
    Enabled(s, a) && !Orderly(s, a)
  }

  lemma BreaksParts(s: State, a: Action)
    requires BreaksOrder(s, a)
    ensures Enabled(s, a) && !Orderly(s, a)
  {
  }

  lemma AfterBreak(s: State, a: Action) returns (acts: seq<Action>)
    requires Inv(s) && Enabled(s, a) && !Orderly(s, a)
    ensures Runs(s, [a] + acts) && After(s, [a] + acts).fault
  {
    hide *;
    EnabledNoFault(s, a);
    acts := [];
    NoSteps(Step(s, a));
    if !Step(s, a).fault {
      StepInv(s, a);
      var d, i := Disorder(s, a);
      acts := Doom(Step(s, a), d, i);
    }
    FirstStep(s, a, acts);
  }

  lemma EnabledNoFault(s: State, a: Action)
    requires Enabled(s, a)
    ensures !s.fault
  {
  }

  lemma NoSteps(s: State)
    ensures Runs(s, []) && After(s, []) == s
  {
  }

  lemma FirstStep(s: State, a: Action, acts: seq<Action>)
    requires Enabled(s, a) && Runs(Step(s, a), acts)
    ensures Runs(s, [a] + acts) && After(s, [a] + acts) == After(Step(s, a), acts)
  {
    assert ([a] + acts)[1..] == acts;
  }

  lemma Disorder(s: State, a: Action) returns (d: nat, i: nat)
    requires Inv(s) && Enabled(s, a) && !Orderly(s, a) && !Step(s, a).fault && Inv(Step(s, a))
    ensures Doomed(Step(s, a), d, i)
  {
    hide Inv, OrderOk, Visible, Unposted;
    OrderParts(s) by { InvParts(s); }
    if a.Push? {
      d := |s.order|;
      i :| 0 <= i < |s.calls| && i != a.i && !HasPushed(s.calls[i].phase);
      assert Step(s, a).order[d] == a.i;
    } else {
      i := |s.calls|;
      d :| 0 <= d < |s.order| && IsDestroy(s, s.order[d]);
    }
  }

  /** The state in which a send has come after the destroy message. */
  function SentLate(m: Msg): State {
    State([Call(m, false, Done), Call(Msg(DESTROY, 0), true, Done)], Waiting, Nobody, [Msg(DESTROY, 0), m], 2, [1, 0],
          0, [], false)
  }

  /** One call from its start to its return, nobody in its way. */
  lemma SendRuns(s: State, i: nat) returns (acts: seq<Action>)
    requires i < |s.calls| && s.calls[i].phase == Entering && s.owner == Nobody && s.pc == Waiting && !s.fault
    ensures Runs(s, acts)
    ensures After(s, acts) ==
            Move(s, i, Done).(queue := s.queue + [s.calls[i].msg], order := s.order + [i], sem := s.sem + 1)
  {
    hide Runs, After;
    var s1 := Step(s, Lock(i));
    var s2 := Step(s1, Push(i));
    var s3 := Step(s2, Unlock(i));
    acts := LastStep(s3, Post(i));
    acts := AddFirst(s2, Unlock(i), acts);
    acts := AddFirst(s1, Push(i), acts);
    acts := AddFirst(s, Lock(i), acts);
    assert Step(s3, Post(i)).calls == Move(s, i, Done).calls;
  }

  lemma LastStep(s: State, a: Action) returns (acts: seq<Action>)
    requires Enabled(s, a)
    ensures Runs(s, acts) && After(s, acts) == Step(s, a)
  {
    hide Step, Enabled;
    acts := [a] + [];
    FirstStep(s, a, []);
  }

  lemma AddFirst(s: State, a: Action, rest: seq<Action>) returns (acts: seq<Action>)
    requires Enabled(s, a) && Runs(Step(s, a), rest)
    ensures Runs(s, acts) && After(s, acts) == After(Step(s, a), rest)
  {
    hide Step, Enabled, Runs, After;
    acts := [a] + rest;
    FirstStep(s, a, rest);
  }

  lemma LateSendRuns(m: Msg) returns (acts: seq<Action>)
    ensures Runs(Init(), acts) && After(Init(), acts) == SentLate(m)
  {
    hide Runs, After;
    var s1 := Step(Init(), StartSend(m));
    var s2 := Step(s1, StartDestroy);
    assert s2.calls == [Call(m, false, Entering), Call(Msg(DESTROY, 0), true, Entering)];
    var a1 := SendRuns(s2, 1);
    var a0 := SendRuns(After(s2, a1), 0);
    RunsOn(s2, a1, a0);
    acts := AddFirst(s1, StartDestroy, a1 + a0);
    acts := AddFirst(Init(), StartSend(m), acts);
  }

  lemma ShutdownRuns(m: Msg) returns (acts: seq<Action>)
    ensures Runs(SentLate(m), acts)
    ensures After(SentLate(m), acts) ==
            SentLate(m).(calls := [Call(m, false, Done), Call(Msg(DESTROY, 0), true, Returned)],
                                                     pc := Exited, queue := [], sem := 1, taken := 1)
  {
    hide Runs, After;
    var t1 := Step(SentLate(m), Wait);
    var t2 := Step(t1, Take);
    var t3 := Step(t2, Pop);
    acts := FreeRuns(t3);
    var t4 := t3.(pc := Exited, queue := [], owner := Nobody);
    var last := LastStep(t4, Join(1));
    RunsOn(t3, acts, last);
    acts := AddFirst(t2, Pop, acts + last);
    acts := AddFirst(t1, Take, acts);
    acts := AddFirst(SentLate(m), Wait, acts);
  }

  lemma FreeRuns(s: State) returns (acts: seq<Action>)
    requires s.pc == Freeing(0) && !s.fault
    ensures Runs(s, acts) && After(s, acts) == s.(pc := Exited, queue := [], owner := Nobody)
  {
    hide Runs, After;
    var s1 := Step(s, Free);
    var s2 := Step(s1, Free);
    var s3 := Step(s2, Free);
    var s4 := Step(s3, Free);
    acts := LastStep(s4, Free);
    acts := AddFirst(s3, Free, acts);
    acts := AddFirst(s2, Free, acts);
    acts := AddFirst(s1, Free, acts);
    acts := AddFirst(s, Free, acts);
  }

  lemma {:induction false} RunsOn(s: State, a: seq<Action>, b: seq<Action>)
    requires Runs(s, a) && Runs(After(s, a), b)
    ensures Runs(s, a + b) && After(s, a + b) == After(After(s, a), b)
    decreases |a|
  {
    if a == [] {
      assert a + b == b;
    } else {
      assert (a + b)[1..] == a[1..] + b;
      RunsOn(Step(s, a[0]), a[1..], b);
    }
  }

  /** A send that loses the race may also go unnoticed: it returns, and its message is never delivered. */
  lemma LostMessage(m: Msg) returns (acts: seq<Action>)
    ensures Runs(Init(), acts)
    ensures var s := After(Init(), acts);
            && !s.fault && s.pc == Exited && s.delivered == []
            && s.calls == [Call(m, false, Done), Call(Msg(DESTROY, 0), true, Returned)]
  {
    hide Runs, After, Init;
    var first := LateSendRuns(m);
    var second := ShutdownRuns(m);
    RunsOn(Init(), first, second);
    acts := first + second;
  }
}
