/** What goes on in the message handler when nobody calls it any more: it comes to rest, and destroy returns. */
module MsgProgress {
  import opened MsgHandle

  /** A step of a call that has started or of the consumer. */
  predicate Own(a: Action) { !a.StartSend? && !a.StartDestroy? }

  predicate AllOwn(acts: seq<Action>) { forall k :: 0 <= k < |acts| ==> Own(acts[k]) }

  /** Nothing can go on. */
  ghost predicate Stuck(s: State) { forall a: Action :: Own(a) ==> !Enabled(s, a) }

  /** Every call is over, and a call of destroy has returned. */
  predicate AllOver(s: State) {
    forall i :: 0 <= i < |s.calls| ==> Finished(s.calls[i].phase) && (s.calls[i].joins ==> s.calls[i].phase == Returned)
  }

  // ----- Nothing goes on forever -----

  /** What a call still has to do; a message in the queue counts 10. */
  function Weight(c: Call): nat {
    match c.phase
    case Entering => 15 case Locked => 14 case Pushed => 3 case Unlocked => 2 case Done => 1 case Returned => 0
  }

  function Weights(calls: seq<Call>): nat {
    if calls == [] then 0 else Weight(calls[0]) + Weights(calls[1..])
  }

  /** A bound on the steps still to come. */
  function Bound(s: State): nat { Weights(s.calls) + 10 * |s.queue| + Rank(s.pc) }

  lemma {:induction false} WeightsMove(calls: seq<Call>, i: nat, c: Call)
    requires i < |calls|
    ensures Weights(calls[i := c]) == Weights(calls) - Weight(calls[i]) + Weight(c)
  {
    if i == 0 {
      assert calls[0 := c][1..] == calls[1..];
    } else {
      assert calls[i := c][1..] == calls[1..][i - 1 := c];
      WeightsMove(calls[1..], i - 1, c);
    }
  }

  lemma StepBound(s: State, a: Action)
    requires Enabled(s, a) && Own(a) && Exists(s, a) && (s.pc == HoldsLock ==> s.queue != [])
    ensures Bound(Step(s, a)) < Bound(s)
  {
    hide Weights;
    match a
    case Lock(i) => WeightsMove(s.calls, i, Step(s, a).calls[i]);
    case Push(i) => WeightsMove(s.calls, i, Step(s, a).calls[i]);
    case Unlock(i) => WeightsMove(s.calls, i, Step(s, a).calls[i]);
    case Post(i) => WeightsMove(s.calls, i, Step(s, a).calls[i]);
    case Join(i) => WeightsMove(s.calls, i, Step(s, a).calls[i]);
    case _ =>
  }

  // ----- Something goes on until all is over -----

  /** The call that is not over yet, or its lock's holder, can take a step. */
  lemma CallGoesOn(s: State, i: nat) returns (a: Action)
    requires Inv(s) && !s.fault && i < |s.calls| && !Finished(s.calls[i].phase)
    ensures Own(a) && Enabled(s, a)
  {
    hide LogOk, CountOk, OrderOk, JoinOk;
    var phase := s.calls[i].phase;
    if phase == Locked {
      a := Push(i);
    } else if phase == Pushed {
      a := Unlock(i);
    } else if phase == Unlocked {
      a := Post(i);
    } else if s.owner == Nobody {
      a := Lock(i);
    } else if s.owner.Caller? {
      a := if s.calls[s.owner.i].phase == Locked then Push(s.owner.i) else Unlock(s.owner.i);
    } else {
      a := ConsumerGoesOn(s);
    }
  }

  lemma ConsumerGoesOn(s: State) returns (a: Action)
    requires Inv(s) && !s.fault && ConsumerHolds(s.pc)
    ensures Own(a) && Enabled(s, a)
  {
    hide CountOk, JoinOk, Visible;
    a := if s.pc == HoldsLock then Pop else if s.pc.GotMsg? then Release else Free;
  }

  /** With every call over, the consumer can go on until it has popped the destroy message and left. */
  lemma DestroyGoesOn(s: State, i: nat) returns (a: Action)
    requires Inv(s) && !s.fault && (forall j :: 0 <= j < |s.calls| ==> Finished(s.calls[j].phase))
    requires i < |s.calls| && s.calls[i].joins && s.calls[i].msg.cmd == DESTROY && s.calls[i].phase == Done
    ensures Own(a) && Enabled(s, a)
  {
    hide Inv;
    if s.pc == Exited {
      a := Join(i);
    } else if s.pc.Calling? {
      a := Callback;
    } else if ConsumerHolds(s.pc) || s.pc.Freeing? {
      a := HolderGoesOn(s);
    } else {
      OwnerFree(s);
      if s.pc == HasToken {
        a := Take;
      } else {
        TokenLeft(s, i);
        a := Wait;
      }
    }
  }

  lemma HolderGoesOn(s: State) returns (a: Action)
    requires Inv(s) && !s.fault && (ConsumerHolds(s.pc) || s.pc.Freeing?)
    ensures Own(a) && Enabled(s, a)
  {
    hide OwnerOk, OrderOk, LogOk, CountOk, JoinOk;
    if s.pc.Freeing? {
      a := Free;
    } else {
      a := ConsumerGoesOn(s);
    }
  }

  lemma OwnerFree(s: State)
    requires Inv(s) && (forall j :: 0 <= j < |s.calls| ==> Finished(s.calls[j].phase)) && !ConsumerHolds(s.pc)
    ensures s.owner == Nobody
  {
    hide OrderOk, LogOk, CountOk, JoinOk;
  }

  /** The destroy message is still in the queue, so the semaphore counts it. */
  lemma TokenLeft(s: State, i: nat)
    requires Inv(s) && !s.fault && s.pc == Waiting && (forall j :: 0 <= j < |s.calls| ==> Finished(s.calls[j].phase))
    requires i < |s.calls| && s.calls[i].msg.cmd == DESTROY
    ensures s.sem > 0
  {
    hide Visible, Unposted;
    NobodyOwes(s.calls);
    var d: nat :| d < |s.order| && s.order[d] == i;
    TakenBound(s, d);
  }

  lemma {:induction false} NobodyOwes(calls: seq<Call>)
    requires forall j :: 0 <= j < |calls| ==> Finished(calls[j].phase)
    ensures Unposted(calls) == 0
  {
    if calls != [] {
      NobodyOwes(calls[1..]);
    }
  }

  /** Whatever is not over goes on: there is no deadlock. */
  lemma GoesOn(s: State) returns (a: Action)
    requires Inv(s) && !s.fault && RuleInv(s) && !AllOver(s)
    ensures Own(a) && Enabled(s, a)
  {
    hide Inv, Enabled;
    if i: nat :| i < |s.calls| && !Finished(s.calls[i].phase) {
      a := CallGoesOn(s, i);
    } else {
      var i: nat :| i < |s.calls| && s.calls[i].joins && s.calls[i].phase != Returned;
      a := DestroyGoesOn(s, i);
    }
  }

  // ----- Whole runs -----

  lemma {:induction false} RuleRunKeeps(s: State, acts: seq<Action>)
    requires RuleInv(s) && TidyInv(s) && Runs(s, acts) && RuleRun(s, acts)
    ensures RuleInv(After(s, acts)) && TidyInv(After(s, acts))
    decreases |acts|
  {
    hide Inv, Step, Enabled, Orderly, ByTheRules, RuleInv, OrderOk, LastPush, AllFinished;
    if acts != [] {
      InvParts(s);
      RuleOrderly(s, acts[0]);
      RuleStep(s, acts[0]);
      TidyStep(s, acts[0]);
      RuleRunKeeps(Step(s, acts[0]), acts[1..]);
    }
  }

  lemma {:induction false} OwnRun(s: State, acts: seq<Action>)
    requires RuleInv(s) && TidyInv(s) && Runs(s, acts) && AllOwn(acts)
    ensures RuleInv(After(s, acts)) && TidyInv(After(s, acts))
    ensures |acts| + Bound(After(s, acts)) <= Bound(s)
    decreases |acts|
  {
    hide Inv, Step, Enabled, Orderly, ByTheRules, RuleInv, OrderOk, LastPush, AllFinished, Exists, Bound;
    if acts != [] {
      InvParts(s);
      OwnByTheRules(s, acts[0]);
      RuleOrderly(s, acts[0]);
      RuleStep(s, acts[0]);
      TidyExists(s, acts[0]);
      TidyStep(s, acts[0]);
      StepBound(s, acts[0]);
      OwnRun(Step(s, acts[0]), acts[1..]);
    }
  }

  lemma OwnByTheRules(s: State, a: Action)
    requires Own(a)
    ensures ByTheRules(s, a)
  {
  }

  lemma TidyHolds(s: State)
    requires TidyInv(s)
    ensures Inv(s) && !s.fault
  {
    hide Inv;
  }

  /**
   * After any run of callers that keep to the rules: however the steps of the
   * started calls and of the consumer are scheduled, there are at most `Bound`
   * of them; and as long as a call is not over, or a call of destroy has not
   * returned, one of them is possible.
   */
  lemma DestroyReturns(before: seq<Action>, acts: seq<Action>)
    ensures Runs(Init(), before) && RuleRun(Init(), before) && Runs(After(Init(), before), acts) && AllOwn(acts) ==>
              var s := After(Init(), before);
              var t := After(s, acts);
              && !t.fault && |acts| <= Bound(s)
              && (Stuck(t) ==> AllOver(t))
  {
    hide *;
    if Runs(Init(), before) && RuleRun(Init(), before) && Runs(After(Init(), before), acts) && AllOwn(acts) {
      InitTidy();
      InitRule();
      RuleRunKeeps(Init(), before);
      var s := After(Init(), before);
      OwnRun(s, acts);
      var t := After(s, acts);
      TidyHolds(t);
      if !AllOver(t) {
        var a := GoesOn(t);
        StuckMeans(t, a);
      }
    }
  }

  lemma StuckMeans(s: State, a: Action)
    requires Own(a) && Enabled(s, a)
    ensures !Stuck(s)
  {
    hide Enabled, Own;
  }

  /** And such a schedule exists: from every such state all calls can be brought to their end. */
  lemma {:induction false} CanFinish(s: State) returns (acts: seq<Action>)
    requires TidyInv(s) && RuleInv(s)
    ensures Runs(s, acts) && AllOwn(acts) && AllOver(After(s, acts))
    decreases Bound(s)
  {
    hide Inv, Step, Enabled, Orderly, ByTheRules, RuleInv, OrderOk, LastPush, AllFinished, Exists, Bound;
    acts := [];
    if !AllOver(s) {
      TidyHolds(s);
      InvParts(s);
      var a := GoesOn(s);
      OwnByTheRules(s, a);
      RuleOrderly(s, a);
      RuleStep(s, a);
      TidyExists(s, a);
      TidyStep(s, a);
      StepBound(s, a);
      var rest := CanFinish(Step(s, a));
      acts := [a] + rest;
    }
  }
}
