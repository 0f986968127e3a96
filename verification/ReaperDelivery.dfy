/** What the daemon's own steps lead to, told from what the kernel and the callers did
    (containerizer/system/process_reaper_linux.go). */
module ReaperDelivery {
  import opened Reaper
  import opened ReaperRuns

  // ----- statuses are those of the exits that happened

  /** At step i process g, running as pid p, exited with this status. */
  predicate ExitsAt(actions: seq<Action>, ss: seq<State>, i: nat, p: Pid, g: Gen, status: int)
  {
    && i < |actions| && i < |ss| && actions[i] == Exit(p, status)
    && p in ss[i].procs && ss[i].procs[p] == Running(g)
  }

  ghost predicate Exited(actions: seq<Action>, ss: seq<State>, g: Gen, status: int)
  {
    exists i: nat, p :: ExitsAt(actions, ss, i, p, g, status)
  }

  lemma StepExits(s: State, a: Action)
    requires Enabled(s, a)
    ensures Step(s, a).exits == if a.Exit? then s.exits[s.procs[a.pid].gen := a.status] else s.exits
  {
    hide Enabled, Step;
    if Internal(a) {
      InternalHistory(s, a);
    } else {
      OutsideExits(s, a);
    }
  }

  lemma OutsideExits(s: State, a: Action)
    requires Enabled(s, a) && !Internal(a)
    ensures Step(s, a).exits == if a.Exit? then s.exits[s.procs[a.pid].gen := a.status] else s.exits
  {
  }

  lemma ExitedBefore(actions: seq<Action>, ss: seq<State>, k: nat, g: Gen, status: int)
    requires |ss| == |actions| + 1 && k <= |actions| && Exited(actions[..k], ss[..k + 1], g, status)
    ensures Exited(actions, ss, g, status)
  {
    var i: nat, p :| ExitsAt(actions[..k], ss[..k + 1], i, p, g, status);
    assert ExitsAt(actions, ss, i, p, g, status);
  }

  /** In every run the recorded status of a process is the one it exited with. */
  lemma {:induction false} StatusIsReal(actions: seq<Action>, ss: seq<State>, g: Gen)
    requires Run(actions, ss) && g in ss[|actions|].exits
    ensures Exited(actions, ss, g, ss[|actions|].exits[g])
  {
    hide Step, Enabled, Fair, Exited, Inv;
    if actions != [] {
      var k := |actions| - 1;
      var before, a := ss[k], actions[k];
      assert Enabled(before, a) && ss[k + 1] == Step(before, a);
      StepExits(before, a);
      if a.Exit? && ExitingGen(before, a) == g {
        RunningExits(before, a);
        assert ExitsAt(actions, ss, k, a.pid, g, a.status);
        ExitedAt(actions, ss, k, a.pid, g, a.status);
      } else {
        StatusIsReal(actions[..k], ss[..k + 1], g);
        ExitedBefore(actions, ss, k, g, before.exits[g]);
      }
    }
  }

  function ExitingGen(s: State, a: Action): (g: Gen)
    requires a.Exit? && Enabled(s, a)
  {
    s.procs[a.pid].gen
  }

  lemma RunningExits(s: State, a: Action)
    requires a.Exit? && Enabled(s, a)
    ensures a.pid in s.procs && s.procs[a.pid] == Running(ExitingGen(s, a))
  {
  }

  lemma ExitedAt(actions: seq<Action>, ss: seq<State>, i: nat, p: Pid, g: Gen, status: int)
    requires ExitsAt(actions, ss, i, p, g, status)
    ensures Exited(actions, ss, g, status)
  {
  }

  /** In every run what Wait returned for a child is the low byte of the status that child exited with. */
  lemma WaitIsReal(actions: seq<Action>, ss: seq<State>, g: Gen)
    requires Run(actions, ss) && g in ss[|actions|].waiters && ss[|actions|].waiters[g].Returned?
    ensures exists status :: Exited(actions, ss, g, status) && ss[|actions|].waiters[g].exitByte == status % 256
  {
    hide Run, Exited, Misdelivered, Blocked, Lost;
    ReaperIsCorrect(actions, ss);
    StatusIsReal(actions, ss, g);
  }

  // ----- Wait returns

  /** Only the daemon's own steps and this Wait. */
  predicate ForWait(a: Action, g: Gen)
  {
    Internal(a) || a == WaitLookUp(g) || a == WaitReceive(g)
  }

  lemma LookUpEnabled(s: State, g: Gen)
    requires Inv(s) && Quiescent(s) && g in s.pidOf && g !in s.waiters
    ensures Enabled(s, WaitLookUp(g)) && Step(s, WaitLookUp(g)).chans == s.chans
    ensures Step(s, WaitLookUp(g)).exits == s.exits && g in Step(s, WaitLookUp(g)).waiters
    ensures Step(s, WaitLookUp(g)).waiters[g].Receiving?
  {
    hide KernelOk, KeysOk, MutexOk, WaitingOk, MonitoredOk, WatchedOk, StageOk, ChannelsOk, ExitsOk;
    assert Done(s.mutex, s.pidOf, g);
  }

  lemma ReceiveReturns(s: State, g: Gen)
    requires Inv(s) && g in s.waiters && s.waiters[g].Receiving? && g in s.chans && g in s.exits
    requires s.chans[g] == [s.exits[g]]
    ensures Enabled(s, WaitReceive(g)) && g in Step(s, WaitReceive(g)).waiters
    ensures Step(s, WaitReceive(g)).waiters[g] == Returned(s.exits[g] % 256)
  {
    hide KernelOk, KeysOk, MutexOk, WaitingOk, MonitoredOk, WatchedOk, StageOk, ExitsOk, UnclaimedOk;
  }

  /** From every state of every run: once a started child has exited, its Wait returns the low byte of its status after
      some steps of the daemon. */
  lemma WaitReturns(s: State, g: Gen) returns (actions: seq<Action>, t: State)
    requires Inv(s) && g in s.pidOf && g in s.exits
    ensures Leads(s, actions, t) && (forall a | a in actions :: ForWait(a, g))
    ensures g in t.waiters && t.waiters[g] == Returned(s.exits[g] % 256)
  {
    hide Inv, Step, Enabled, Leads, Quiescent;
    actions, t := Settle(s);
    QuiescentDelivered(t, g);
    if !(g in t.waiters && t.waiters[g] == Returned(s.exits[g] % 256)) {
      if g !in t.waiters {
        LookUpEnabled(t, g);
        OneStep(t, WaitLookUp(g));
        StepKeepsInv(t, WaitLookUp(g));
        LeadsOn(s, actions, t, [WaitLookUp(g)], Step(t, WaitLookUp(g)));
        actions, t := actions + [WaitLookUp(g)], Step(t, WaitLookUp(g));
      } else if t.waiters[g].Returned? {
        ReturnedIsExit(t, g);
        return;
      }
      ReceiveReturns(t, g);
      OneStep(t, WaitReceive(g));
      LeadsOn(s, actions, t, [WaitReceive(g)], Step(t, WaitReceive(g)));
      actions, t := actions + [WaitReceive(g)], Step(t, WaitReceive(g));
    }
  }

  lemma ReturnedIsExit(s: State, g: Gen)
    requires Inv(s) && g in s.waiters && s.waiters[g].Returned? && g in s.exits
    ensures s.waiters[g] == Returned(s.exits[g] % 256)
  {
    hide KernelOk, KeysOk, MutexOk, WaitingOk, MonitoredOk, WatchedOk, StageOk, ExitsOk, UnclaimedOk;
  }

  // ----- orphans

  /** Processes only disappear. */
  predicate Fewer(procs: map<Pid, Process>, procs': map<Pid, Process>)
  {
    forall p | p in procs' :: p in procs && procs'[p] == procs[p]
  }

  lemma InternalFewer(s: State, a: Action)
    requires Internal(a) && Enabled(s, a)
    ensures Fewer(s.procs, Step(s, a).procs)
  {
    hide Step, Enabled;
    if a.Wait4Child? {
      assert Step(s, a).procs == s.procs - {a.pid} by { ReapedIsGone(s, a); }
    } else if a.DeliverSignal? || a.Wake? {
      SignalSteps(s, a);
    } else {
      OtherSteps(s, a);
    }
  }

  lemma ReapedIsGone(s: State, a: Action)
    requires a.Wait4Child? && Enabled(s, a)
    ensures Step(s, a).procs == s.procs - {a.pid} && Step(s, a).queued == s.queued
  {
  }

  lemma SignalSteps(s: State, a: Action)
    requires (a.DeliverSignal? || a.Wake?) && Enabled(s, a)
    ensures Step(s, a).procs == s.procs && Step(s, a).pending == (s.pending && a.Wake?)
    ensures a.DeliverSignal? ==> Step(s, a).queued == if s.queued < 1000 then s.queued + 1 else s.queued
    ensures a.Wake? ==> s.queued > 0 && Step(s, a).queued == s.queued - 1
  {
  }

  predicate Kernel(a: Action)
  {
    a.Fork? || a.Adopt? || a.Exit? || a.Wait4Child?
  }

  lemma OtherSteps(s: State, a: Action)
    requires Enabled(s, a) && !Kernel(a) && !a.DeliverSignal? && !a.Wake?
    ensures Step(s, a).procs == s.procs && Step(s, a).queued == s.queued && Step(s, a).pending == s.pending
  {
    hide Step, Enabled;
    if a.LookUp? {
      LookUpStep(s);
    } else if a.CheckMonitored? {
      CheckStep(s);
    } else if a.Send? || a.Unmonitor? {
      SendSteps(s, a);
    } else {
      CallSteps(s, a);
    }
  }

  lemma LookUpStep(s: State)
    requires Enabled(s, LookUp)
    ensures Step(s, LookUp).procs == s.procs && Step(s, LookUp).queued == s.queued
    ensures Step(s, LookUp).pending == s.pending
  {
    hide AnyZombie, Done;
  }

  lemma CheckStep(s: State)
    requires Enabled(s, CheckMonitored)
    ensures Step(s, CheckMonitored).procs == s.procs && Step(s, CheckMonitored).queued == s.queued
    ensures Step(s, CheckMonitored).pending == s.pending
  {
    hide AnyZombie, Done;
    if s.stage.pid in s.monitored && s.stage.found.Some? {
    }
  }

  lemma SendSteps(s: State, a: Action)
    requires Enabled(s, a) && (a.Send? || a.Unmonitor?)
    ensures Step(s, a).procs == s.procs && Step(s, a).queued == s.queued && Step(s, a).pending == s.pending
  {
  }

  lemma CallSteps(s: State, a: Action)
    requires Enabled(s, a)
    requires a.RecordChannel? || a.RecordMonitored? || a.Wait4None? || a.WaitLookUp? || a.WaitReceive?
    ensures Step(s, a).procs == s.procs && Step(s, a).queued == s.queued && Step(s, a).pending == s.pending
  {
  }

  lemma KernelSteps(s: State, a: Action)
    requires Enabled(s, a) && Kernel(a)
    ensures Step(s, a).queued == s.queued && Step(s, a).pending == (s.pending || a.Exit?)
  {
  }

  lemma {:induction false} LeadsToFewer(s: State, actions: seq<Action>, t: State)
    requires Leads(s, actions, t) && forall a | a in actions :: Internal(a)
    ensures Fewer(s.procs, t.procs)
    decreases |actions|
  {
    hide Step, Enabled, Internal;
    if actions != [] {
      InternalFewer(s, actions[0]);
      LeadsToFewer(Step(s, actions[0]), actions[1..], t);
    }
  }

  lemma NoZombies(s: State)
    requires Inv(s) && Quiescent(s)
    ensures !AnyZombie(s.procs)
  {
    hide KernelOk, KeysOk, MutexOk, WaitingOk, MonitoredOk, WatchedOk, StageOk, ExitsOk, UnclaimedOk, ChannelsOk;
  }

  lemma AdoptAndExit(s: State, p: Pid, status: int)
    requires Inv(s) && p !in s.procs
    ensures Enabled(s, Adopt(p)) && Enabled(Step(s, Adopt(p)), Exit(p, status))
    ensures var t := Step(Step(s, Adopt(p)), Exit(p, status));
      && t.exits == s.exits[s.next := status] && t.pidOf == s.pidOf && s.next !in t.pidOf
      && p in t.procs && t.procs[p] == Zombie(s.next, status)
  {
    FreshChild(s, p);
    hide Inv;
  }

  /** An orphan may be adopted at any time under a free pid and exit at any time. The daemon then reaps it and sends its
      status to nobody. */
  lemma OrphanIsReaped(s: State, p: Pid, status: int) returns (actions: seq<Action>, t: State)
    requires Inv(s) && p !in s.procs
    ensures Leads(s, [Adopt(p), Exit(p, status)] + actions, t) && forall a | a in actions :: Internal(a)
    ensures Quiescent(t) && p !in t.procs && s.next in t.exits && t.exits[s.next] == status
    ensures s.next !in t.sent && s.next !in t.chans && s.next !in t.waiters
  {
    hide Inv, Step, Enabled, Leads, Quiescent, Internal;
    AdoptAndExit(s, p, status);
    var s1 := Step(s, Adopt(p));
    var s2 := Step(s1, Exit(p, status));
    StepKeepsInv(s, Adopt(p));
    StepKeepsInv(s1, Exit(p, status));
    actions, t := Settle(s2);
    LeadsToFewer(s2, actions, t);
    NoZombies(t);
    Prepend(s1, Exit(p, status), actions, t);
    Prepend(s, Adopt(p), [Exit(p, status)] + actions, t);
    assert [Adopt(p)] + ([Exit(p, status)] + actions) == [Adopt(p), Exit(p, status)] + actions;
    NotSent(t, s.next);
  }

  lemma NotSent(s: State, g: Gen)
    requires Inv(s) && g !in s.pidOf
    ensures g !in s.sent && g !in s.chans && g !in s.waiters
  {
    hide KernelOk, MutexOk, WaitingOk, MonitoredOk, WatchedOk, StageOk, ExitsOk, UnclaimedOk, ChannelsOk;
  }

  // ----- signals

  function Count(actions: seq<Action>, a: Action): (n: nat)
  {
    multiset(actions)[a]
  }

  lemma StepQueued(s: State, a: Action)
    requires Enabled(s, a) && s.queued <= 1000
    ensures Step(s, a).queued <= 1000 && (a.Wake? ==> s.queued > 0)
    ensures s.queued < 1000 || !a.DeliverSignal? ==>
      Step(s, a).queued == s.queued + (if a.DeliverSignal? then 1 else 0) - (if a.Wake? then 1 else 0)
    ensures s.queued == 1000 && a.DeliverSignal? ==> Step(s, a).queued == 1000
  {
    hide Step, Enabled;
    if Kernel(a) {
      KernelSteps(s, a);
    } else if a.DeliverSignal? || a.Wake? {
      SignalSteps(s, a);
    } else {
      OtherSteps(s, a);
    }
  }

  /** The channel holds at most a thousand signals, and none is dropped before so many have been delivered. */
  lemma {:induction false} SignalsAreQueued(actions: seq<Action>, ss: seq<State>)
    requires Run(actions, ss)
    ensures |ss| == |actions| + 1 && ss[|actions|].queued <= 1000
    ensures Count(actions, DeliverSignal) <= 1000 ==>
      ss[|actions|].queued == Count(actions, DeliverSignal) - Count(actions, Wake)
  {
    hide Step, Enabled, Fair;
    if actions != [] {
      var k := |actions| - 1;
      SignalsAreQueued(actions[..k], ss[..k + 1]);
      assert actions == actions[..k] + [actions[k]];
      assert Enabled(ss[k], actions[k]) && ss[k + 1] == Step(ss[k], actions[k]);
      StepQueued(ss[k], actions[k]);
    }
  }

  /** A process exited, and no signal has been delivered since. */
  ghost predicate Unsignalled(actions: seq<Action>)
  {
    exists i :: 0 <= i < |actions| && actions[i].Exit? && NoneDelivered(actions, i)
  }

  predicate NoneDelivered(actions: seq<Action>, i: nat)
  {
    forall j | i < j < |actions| :: actions[j] != DeliverSignal
  }

  lemma NothingUnsignalled()
    ensures !Unsignalled([])
  {
  }

  lemma UnsignalledNext(actions: seq<Action>, a: Action)
    ensures Unsignalled(actions + [a]) <==> a.Exit? || (Unsignalled(actions) && a != DeliverSignal)
  {
    var more := actions + [a];
    if a.Exit? {
      assert more[|actions|].Exit? && NoneDelivered(more, |actions|);
    } else if Unsignalled(actions) && a != DeliverSignal {
      var i :| 0 <= i < |actions| && actions[i].Exit? && NoneDelivered(actions, i);
      assert more[i].Exit? && NoneDelivered(more, i);
    }
    if Unsignalled(more) && !a.Exit? {
      var i :| 0 <= i < |more| && more[i].Exit? && NoneDelivered(more, i);
      assert actions[i].Exit? && more[|actions|] == a;
      assert NoneDelivered(actions, i) by {
        assert forall j | i < j < |actions| :: actions[j] == more[j];
      }
    }
  }

  lemma StepPending(s: State, a: Action)
    requires Enabled(s, a)
    ensures Step(s, a).pending <==> a.Exit? || (s.pending && a != DeliverSignal)
  {
    hide Step, Enabled;
    if Kernel(a) {
      KernelSteps(s, a);
    } else if a.DeliverSignal? || a.Wake? {
      SignalSteps(s, a);
    } else {
      OtherSteps(s, a);
    }
  }

  /** Every exit raises the signal, which stays pending until it is delivered. */
  lemma {:induction false} ExitsAreSignalled(actions: seq<Action>, ss: seq<State>)
    requires Run(actions, ss)
    ensures |ss| == |actions| + 1 && (ss[|actions|].pending <==> Unsignalled(actions))
  {
    hide Step, Enabled, Fair, Unsignalled;
    if actions == [] {
      NothingUnsignalled();
    } else {
      var k := |actions| - 1;
      ExitsAreSignalled(actions[..k], ss[..k + 1]);
      assert actions == actions[..k] + [actions[k]];
      assert Enabled(ss[k], actions[k]) && ss[k + 1] == Step(ss[k], actions[k]);
      StepPending(ss[k], actions[k]);
      UnsignalledNext(actions[..k], actions[k]);
    }
  }

  // ----- who waits for whom

  /** Steps that take the mutex. */
  predicate Locks(a: Action)
  {
    a.Fork? || a.LookUp? || a.Unmonitor? || a.WaitLookUp?
  }

  /** Steps of the reaping goroutine. */
  predicate Reaps(a: Action)
  {
    a.Wake? || a.Wait4Child? || a.Wait4None? || a.LookUp? || a.CheckMonitored? || a.Send? || a.Unmonitor?
  }

  /** Of all steps just these wait for the mutex; the kernel, wait4, the unlocked read of the monitored pids and both
      ends of the channels do not. */
  lemma OnlyLocksWait(s: State, a: Action, mutex: Mutex)
    requires Enabled(s.(mutex := Free), a) && !a.RecordChannel? && !a.RecordMonitored?
    ensures Enabled(s.(mutex := mutex), a) <==> !Locks(a) || mutex.Free?
  {
    hide Done;
  }

  /** The kernel and the callers do not wait for the reaping goroutine. */
  lemma NobodyWaitsForReaper(s: State, a: Action, stage: Stage)
    requires !Reaps(a)
    ensures Enabled(s.(stage := stage), a) <==> Enabled(s, a)
  {
  }
}
