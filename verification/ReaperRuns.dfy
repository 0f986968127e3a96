/** What holds of the process reaper over every run, and when exactly
    (containerizer/system/process_reaper_linux.go). */
module ReaperRuns {
  import opened Reaper

  ghost predicate Run(actions: seq<Action>, ss: seq<State>)
  {
    && |ss| == |actions| + 1 && ss[0] == INITIAL
    && forall i | 0 <= i < |actions| ::
         Enabled(ss[i], actions[i]) && Fair(ss[i], actions[i]) && ss[i + 1] == Step(ss[i], actions[i])
  }

  lemma {:induction false} RunKeepsInv(actions: seq<Action>, ss: seq<State>)
    requires Run(actions, ss)
    ensures |ss| == |actions| + 1 && Inv(ss[|actions|])
  {
    hide Inv, Enabled, Fair, Step;
    if actions == [] {
      InitialInv();
    } else {
      var k := |actions| - 1;
      RunKeepsInv(actions[..k], ss[..k + 1]);
      assert Enabled(ss[k], actions[k]) && Fair(ss[k], actions[k]);
      StepKeepsInv(ss[k], actions[k]);
    }
  }

  /** In every interleaving Wait returns the exit byte of its own child, the reaper never blocks on a send,
      no exit status is lost, and no wakeup is lost. */
  lemma ReaperIsCorrect(actions: seq<Action>, ss: seq<State>)
    requires Run(actions, ss)
    ensures |ss| == |actions| + 1
    ensures var s := ss[|actions|];
      && (forall g | g in s.waiters && s.waiters[g].Returned? ::
            g in s.exits && s.waiters[g].exitByte == s.exits[g] % 256)
      && (s.stage.Sending? ==> s.stage.ch == s.stage.gen && s.stage.ch in s.chans && s.chans[s.stage.ch] == [])
      && !Misdelivered(s) && !Blocked(s) && !Lost(s)
      && (AnyZombie(s.procs) ==> s.pending || s.queued > 0 || !s.stage.Idle?)
  {
    RunKeepsInv(actions, ss);
    InvIsSafe(ss[|actions|]);
  }

  // ----- left alone, the daemon delivers every exit status

  predicate Quiescent(s: State)
  {
    s.mutex.Free? && s.stage.Idle? && !s.pending && s.queued == 0
  }

  /** Once nothing is under way, every child that exited has its status in its channel or returned by its Wait. */
  lemma QuiescentDelivered(s: State, g: Gen)
    requires Inv(s) && Quiescent(s) && g in s.pidOf && g in s.exits
    ensures g in s.chans
    ensures s.chans[g] == [s.exits[g]] || (g in s.waiters && s.waiters[g] == Returned(s.exits[g] % 256))
    ensures !AnyZombie(s.procs)
  {
    hide KeysOk, MutexOk, WaitingOk, MonitoredOk, WatchedOk, UnclaimedOk, StageOk, UnsentOk;
    assert forall p | p in s.procs :: s.procs[p].Running?;
    assert g !in Busy(s.procs, s.pidOf, s.stage);
  }

  predicate Internal(a: Action)
  {
    !a.Fork? && !a.Adopt? && !a.Exit? && !a.WaitLookUp? && !a.WaitReceive?
  }

  /** Unless it is quiescent the daemon can always do a step of its own. */
  lemma NotStuck(s: State) returns (a: Action)
    requires Inv(s) && !Quiescent(s)
    ensures Internal(a) && Enabled(s, a)
  {
    if s.mutex.Forked? {
      a := RecordChannel;
    } else if s.mutex.Recorded? {
      a := RecordMonitored;
    } else {
      match s.stage
      case Idle => a := if s.pending then DeliverSignal else Wake;
      case Looping =>
        if p :| p in s.procs && s.procs[p].Zombie? {
          a := Wait4Child(p);
        } else {
          a := Wait4None;
        }
      case Reaped(_, _, _) => a := LookUp;
      case Looked(_, _, _, _) => a := CheckMonitored;
      case Sending(_, _, _, _) =>
        InvIsSafe(s);
        a := Send;
      case Unmonitoring(_, _) => a := Unmonitor;
    }
  }

  function Zombies(procs: map<Pid, Process>): (ps: set<Pid>)
  {
    set p | p in procs && procs[p].Zombie?
  }

  function StageRank(stage: Stage): (r: nat)
  {
    match stage
    case Idle => 0
    case Looping => 1
    case Unmonitoring(_, _) => 2
    case Sending(_, _, _, _) => 3
    case Looked(_, _, _, _) => 4
    case Reaped(_, _, _) => 5
  }

  function MutexRank(mutex: Mutex): (r: nat)
  {
    match mutex case Free => 0 case Recorded(_, _) => 1 case Forked(_, _) => 2
  }

  /** Lexicographic decrease of mutex, pending signal, queued signals, zombies and stage. */
  predicate Smaller(s': State, s: State)
  {
    var m', m := MutexRank(s'.mutex), MutexRank(s.mutex);
    var z', z := |Zombies(s'.procs)|, |Zombies(s.procs)|;
    m' < m || (m' == m && (
      (!s'.pending && s.pending) || (s'.pending == s.pending && (
        s'.queued < s.queued || (s'.queued == s.queued && (
          z' < z || (z' == z && StageRank(s'.stage) < StageRank(s.stage))))))))
  }

  lemma ReapedZombie(procs: map<Pid, Process>, p: Pid)
    requires p in Zombies(procs)
    ensures |Zombies(procs - {p})| < |Zombies(procs)|
  {
    assert Zombies(procs - {p}) == Zombies(procs) - {p};
  }

  lemma LookUpDecreases(s: State, a: Action)
    requires Enabled(s, a) && (a.Wait4None? || a.LookUp?)
    ensures Smaller(Step(s, a), s)
  {
    hide Zombies, MutexRank;
  }

  lemma CheckDecreases(s: State)
    requires Enabled(s, CheckMonitored)
    ensures Smaller(Step(s, CheckMonitored), s)
  {
    hide Smaller;
    if s.stage.pid in s.monitored && s.stage.found.Some? {
      StageDecreases(s, Sending(s.stage.pid, s.stage.gen, s.stage.status, s.stage.found.value));
    } else {
      StageDecreases(s, Looping);
    }
  }

  /** A step that changes only the stage, downwards. */
  lemma StageDecreases(s: State, stage: Stage)
    requires StageRank(stage) < StageRank(s.stage)
    ensures Smaller(s.(stage := stage), s)
  {
    hide Zombies, MutexRank, StageRank;
  }

  lemma SendDecreases(s: State, a: Action)
    requires Enabled(s, a) && (a.Send? || a.Unmonitor?)
    ensures Smaller(Step(s, a), s)
  {
    hide Zombies, MutexRank;
  }

  lemma SignalDecreases(s: State, a: Action)
    requires Enabled(s, a) && (a.DeliverSignal? || a.Wake? || a.RecordChannel? || a.RecordMonitored?)
    ensures Smaller(Step(s, a), s)
  {
    hide Zombies, StageRank;
  }

  /** Every step of the daemon's own brings it closer to quiescence. */
  lemma InternalDecreases(s: State, a: Action)
    requires Internal(a) && Enabled(s, a)
    ensures Smaller(Step(s, a), s)
  {
    hide Step, Enabled, Smaller;
    match a
    case Wait4Child(p) => ReapDecreases(s, p);
    case Wait4None => LookUpDecreases(s, a);
    case LookUp => LookUpDecreases(s, a);
    case CheckMonitored => CheckDecreases(s);
    case Send => SendDecreases(s, a);
    case Unmonitor => SendDecreases(s, a);
    case _ => SignalDecreases(s, a);
  }

  lemma ReapDecreases(s: State, p: Pid)
    requires Enabled(s, Wait4Child(p))
    ensures Smaller(Step(s, Wait4Child(p)), s)
  {
    hide StageRank, MutexRank;
    ReapedZombie(s.procs, p);
  }

  lemma InternalHistory(s: State, a: Action)
    requires Internal(a) && Enabled(s, a)
    ensures Step(s, a).exits == s.exits && Step(s, a).pidOf == s.pidOf
  {
    hide Step, Enabled;
    if a.Wait4Child? || a.Wait4None? {
      Wait4History(s, a);
    } else if a.LookUp? || a.CheckMonitored? || a.Send? {
      DeliveryHistory(s, a);
    } else {
      OtherHistory(s, a);
    }
  }

  lemma Wait4History(s: State, a: Action)
    requires Enabled(s, a) && (a.Wait4Child? || a.Wait4None?)
    ensures Step(s, a).exits == s.exits && Step(s, a).pidOf == s.pidOf
  {
  }

  lemma DeliveryHistory(s: State, a: Action)
    requires Enabled(s, a) && (a.LookUp? || a.CheckMonitored? || a.Send?)
    ensures Step(s, a).exits == s.exits && Step(s, a).pidOf == s.pidOf
  {
  }

  lemma OtherHistory(s: State, a: Action)
    requires Enabled(s, a) && (a.RecordChannel? || a.RecordMonitored? || a.DeliverSignal? || a.Wake? || a.Unmonitor?)
    ensures Step(s, a).exits == s.exits && Step(s, a).pidOf == s.pidOf
  {
  }

  /** t is reached from s by these actions. */
  ghost predicate Leads(s: State, actions: seq<Action>, t: State)
    decreases |actions|
  {
    if actions == [] then s == t
    else Enabled(s, actions[0]) && Leads(Step(s, actions[0]), actions[1..], t)
  }

  /** From every state of every run the daemon's own steps end in a quiescent state, where all exits
      are delivered. */
  lemma Settle(s: State) returns (actions: seq<Action>, t: State)
    requires Inv(s)
    ensures Leads(s, actions, t) && (forall a | a in actions :: Internal(a))
    ensures Inv(t) && Quiescent(t) && t.exits == s.exits && t.pidOf == s.pidOf
    decreases MutexRank(s.mutex), s.pending, s.queued, |Zombies(s.procs)|, StageRank(s.stage)
  {
    hide Inv, Step, Enabled, Zombies, StageRank, MutexRank;
    if Quiescent(s) {
      actions, t := [], s;
    } else {
      var a := NotStuck(s);
      StepKeepsInv(s, a);
      InternalDecreases(s, a);
      InternalHistory(s, a);
      var rest;
      rest, t := Settle(Step(s, a));
      actions := [a] + rest;
      assert actions[1..] == rest;
    }
  }

  // ----- the condition on pids is exact

  ghost predicate Harm(s: State)
  {
    Misdelivered(s) || Blocked(s) || Lost(s)
  }

  lemma Prepend(s: State, a: Action, rest: seq<Action>, t: State)
    requires Enabled(s, a) && Leads(Step(s, a), rest, t)
    ensures Leads(s, [a] + rest, t)
  {
    assert ([a] + rest)[1..] == rest;
  }

  /** Child g runs with pid p, was started completely, and nothing has been sent to its channel. */
  predicate JustStarted(s: State, p: Pid, g: Gen)
  {
    && s.mutex.Free? && g in s.pidOf && s.pidOf[g] == p
    && s.procs == s.procs[p := Running(g)] && p in s.procs
    && (forall q | q in s.procs && s.procs[q].gen == g :: q == p)
    && p in s.waiting && s.waiting[p] == g && g in s.chans && s.chans[g] == []
    && g !in s.waiters && g !in s.exits && g !in s.sent
  }

  lemma FreshChild(s: State, p: Pid)
    requires Inv(s) && p !in s.procs
    ensures var g := s.next;
            && g !in s.pidOf && g !in s.exits && g !in s.waiters && g !in s.sent && !Holding(s.stage, g)
            && forall q | q in s.procs :: s.procs[q].gen != g
  {
    hide MonitoredOk, WatchedOk, UnclaimedOk, MutexOk, WaitingOk, ExitsOk, NoLostWakeup, UnsentOk, ChannelsOk, Busy;
  }

  lemma StartSequence(s: State, p: Pid) returns (t: State)
    requires Inv(s) && Enabled(s, Fork(p))
    ensures Leads(s, [Fork(p), RecordChannel, RecordMonitored], t)
    ensures JustStarted(t, p, s.next) && p in t.monitored && t.stage == s.stage && s.next !in s.pidOf
    ensures t.pidOf == s.pidOf[s.next := p] && t.waiters == s.waiters && t.chans == s.chans[s.next := []]
    ensures !Holding(t.stage, s.next)
  {
    hide MonitoredOk, WatchedOk, UnclaimedOk, MutexOk, WaitingOk, ExitsOk, NoLostWakeup;
    hide UnsentOk, ChannelsOk, Busy, KernelOk, KeysOk, StageOk, Leads;
    var s1 := Step(s, Fork(p));
    var s2 := Step(s1, RecordChannel);
    t := Step(s2, RecordMonitored);
    OneStep(s2, RecordMonitored);
    Prepend(s1, RecordChannel, [RecordMonitored], t);
    Prepend(s, Fork(p), [RecordChannel] + [RecordMonitored], t);
    assert [Fork(p)] + ([RecordChannel] + [RecordMonitored]) == [Fork(p), RecordChannel, RecordMonitored];
    FreshChild(s, p);
  }

  lemma {:induction false} LeadsOn(s: State, first: seq<Action>, t: State, second: seq<Action>, u: State)
    requires Leads(s, first, t) && Leads(t, second, u)
    ensures Leads(s, first + second, u)
    decreases |first|
  {
    hide Step, Enabled;
    if first == [] {
      assert first + second == second;
    } else {
      LeadsOn(Step(s, first[0]), first[1..], t, second, u);
      assert (first + second)[1..] == first[1..] + second;
    }
  }

  lemma OneStep(s: State, a: Action)
    requires Enabled(s, a)
    ensures Leads(s, [a], Step(s, a))
  {
    assert Leads(Step(s, a), [], Step(s, a));
  }

  /** The status of the old owner of the pid reaches the new child's Wait although that child still runs. */
  lemma ReapedGoesToWrongChild(s: State, p: Pid, g: Gen) returns (actions: seq<Action>, t: State)
    requires JustStarted(s, p, g) && p in s.monitored && s.stage.Reaped? && s.stage.pid == p
    ensures Leads(s, actions, t) && Misdelivered(t)
  {
    hide Leads, JustStarted;
    var s3 := ReapedIsSent(s, p, g);
    var s4 := Step(s3, WaitLookUp(g));
    t := Step(s4, WaitReceive(g));
    OneStep(s3, WaitLookUp(g));
    OneStep(s4, WaitReceive(g));
    LeadsOn(s, [LookUp] + [CheckMonitored] + [Send], s3, [WaitLookUp(g)], s4);
    LeadsOn(s, [LookUp] + [CheckMonitored] + [Send] + [WaitLookUp(g)], s4, [WaitReceive(g)], t);
    actions := [LookUp] + [CheckMonitored] + [Send] + [WaitLookUp(g)] + [WaitReceive(g)];
    assert g in t.waiters && t.waiters[g].Returned? && g !in t.exits;
  }

  lemma ReapedIsSent(s: State, p: Pid, g: Gen) returns (t: State)
    requires JustStarted(s, p, g) && p in s.monitored && s.stage.Reaped? && s.stage.pid == p
    ensures Leads(s, [LookUp] + [CheckMonitored] + [Send], t)
    ensures t.mutex.Free? && g in t.pidOf && t.pidOf[g] == p && p in t.waiting && t.waiting[p] == g
    ensures g in t.chans && t.chans[g] == [s.stage.status] && g !in t.waiters && g !in t.exits
  {
    hide Leads;
    var s1 := Step(s, LookUp);
    var s2 := Step(s1, CheckMonitored);
    t := Step(s2, Send);
    OneStep(s, LookUp);
    OneStep(s1, CheckMonitored);
    OneStep(s2, Send);
    LeadsOn(s, [LookUp], s1, [CheckMonitored], s2);
    LeadsOn(s, [LookUp] + [CheckMonitored], s2, [Send], t);
  }

  /** The reaper stops monitoring the new child, so that its exit is dropped. */
  lemma UnmonitoredExitIsLost(s: State, p: Pid, g: Gen) returns (actions: seq<Action>, t: State)
    requires JustStarted(s, p, g) && s.stage.Unmonitoring? && s.stage.pid == p
    ensures Leads(s, actions, t) && Lost(t)
  {
    hide Leads, JustStarted;
    var s2 := UnmonitoredExits(s, p, g);
    var s3 := Step(s2, Wait4Child(p));
    var s4 := Step(s3, LookUp);
    t := Step(s4, CheckMonitored);
    OneStep(s2, Wait4Child(p));
    OneStep(s3, LookUp);
    OneStep(s4, CheckMonitored);
    LeadsOn(s, [Unmonitor] + [Exit(p, 0)], s2, [Wait4Child(p)], s3);
    LeadsOn(s, [Unmonitor] + [Exit(p, 0)] + [Wait4Child(p)], s3, [LookUp], s4);
    LeadsOn(s, [Unmonitor] + [Exit(p, 0)] + [Wait4Child(p)] + [LookUp], s4, [CheckMonitored], t);
    actions := [Unmonitor] + [Exit(p, 0)] + [Wait4Child(p)] + [LookUp] + [CheckMonitored];
    assert Done(t.mutex, t.pidOf, g) && g in t.exits && g !in t.sent && Dead(t, g) && !Holding(t.stage, g);
  }

  lemma UnmonitoredExits(s: State, p: Pid, g: Gen) returns (t: State)
    requires JustStarted(s, p, g) && s.stage.Unmonitoring? && s.stage.pid == p
    ensures Leads(s, [Unmonitor] + [Exit(p, 0)], t)
    ensures t.mutex.Free? && t.stage.Looping? && p !in t.monitored && g in t.pidOf && g in t.exits && g !in t.sent
    ensures p in t.procs && t.procs[p] == Zombie(g, 0) && forall q | q in t.procs && t.procs[q].gen == g :: q == p
  {
    hide Leads;
    var s1 := Step(s, Unmonitor);
    t := Step(s1, Exit(p, 0));
    OneStep(s, Unmonitor);
    OneStep(s1, Exit(p, 0));
    LeadsOn(s, [Unmonitor], s1, [Exit(p, 0)], t);
  }

  lemma SendThenLost(s: State, p: Pid, g: Gen) returns (actions: seq<Action>, t: State)
    requires JustStarted(s, p, g) && s.stage.Sending? && s.stage.pid == p && s.stage.ch != g
    ensures Leads(s, actions, t) && Harm(t)
  {
    if Blocked(s) {
      actions, t := [], s;
    } else {
      OneStep(s, Send);
      var rest;
      rest, t := UnmonitoredExitIsLost(Step(s, Send), p, g);
      Prepend(s, Send, rest, t);
      actions := [Send] + rest;
    }
  }

  lemma CheckThenLost(s: State, p: Pid, g: Gen) returns (actions: seq<Action>, t: State)
    requires JustStarted(s, p, g) && p in s.monitored
    requires s.stage.Looked? && s.stage.pid == p && s.stage.found.Some? && s.stage.found.value != g
    ensures Leads(s, actions, t) && Harm(t)
  {
    var rest;
    rest, t := SendThenLost(Step(s, CheckMonitored), p, g);
    Prepend(s, CheckMonitored, rest, t);
    actions := [CheckMonitored] + rest;
  }

  lemma WaitIsCrossWired(s: State, p: Pid, g: Gen, earlier: Gen) returns (actions: seq<Action>, t: State)
    requires JustStarted(s, p, g) && earlier in s.pidOf && s.pidOf[earlier] == p && earlier !in s.waiters
    requires earlier != g
    ensures Leads(s, actions, t) && Misdelivered(t)
  {
    t := Step(s, WaitLookUp(earlier));
    OneStep(s, WaitLookUp(earlier));
    actions := [WaitLookUp(earlier)];
    assert earlier in t.waiters && t.waiters[earlier] == Receiving(g);
  }

  /** Whenever a new child gets a pid that the reaper still has in hand, or whose earlier owner has not been
      waited for, some continuation goes wrong: so the condition on pids is exactly what is needed. */
  lemma ReusedPidHarms(s: State, p: Pid) returns (actions: seq<Action>, t: State)
    requires Inv(s) && Enabled(s, Fork(p)) && !Fair(s, Fork(p))
    ensures actions != [] && actions[0] == Fork(p) && Leads(s, actions, t) && Harm(t)
  {
    hide JustStarted, Leads, Misdelivered, Blocked, Lost, KernelOk, UnsentOk;
    hide KeysOk, MutexOk, WaitingOk, MonitoredOk, WatchedOk, UnclaimedOk, ChannelsOk, ExitsOk;
    var g := s.next;
    var u := StartSequence(s, p);
    var rest;
    if Unclaimed(s, p) {
      var h :| h in s.pidOf && s.pidOf[h] == p && h !in s.waiters;
      rest, t := WaitIsCrossWired(u, p, g, h);
    } else {
      match s.stage
      case Reaped(_, _, _) => rest, t := ReapedGoesToWrongChild(u, p, g);
      case Looked(_, _, _, _) => rest, t := CheckThenLost(u, p, g);
      case Sending(_, _, _, _) => rest, t := SendThenLost(u, p, g);
      case Unmonitoring(_, _) => rest, t := UnmonitoredExitIsLost(u, p, g);
    }
    LeadsOn(s, [Fork(p), RecordChannel, RecordMonitored], u, rest, t);
    actions := [Fork(p), RecordChannel, RecordMonitored] + rest;
  }

  // ----- a pid is reused too early

  lemma Extend(actions: seq<Action>, ss: seq<State>, a: Action, t: State)
    requires Run(actions, ss) && Enabled(ss[|actions|], a) && Fair(ss[|actions|], a) && t == Step(ss[|actions|], a)
    ensures Run(actions + [a], ss + [t])
  {
    hide Step, Enabled, Fair;
  }

  /** A started child, waited for and exited. */
  function Exited(p: Pid, pending: bool, queued: nat, stage: Stage): (s: State)
  {
    State(
      map[p := Zombie(0, 0)], 1, Free, map[p := 0], {p}, map[0 := []], stage, pending, queued,
      map[0 := Receiving(0)], map[0 := p], map[0 := 0], {})
  }

  lemma StartWaitExit(p: Pid) returns (actions: seq<Action>, ss: seq<State>)
    ensures Run(actions, ss) && ss[|actions|] == Exited(p, true, 0, Idle)
  {
    var s0 := INITIAL;
    var s1 := Step(s0, Fork(p));
    var s2 := Step(s1, RecordChannel);
    var s3 := Step(s2, RecordMonitored);
    var s4 := Step(s3, WaitLookUp(0));
    var s5 := Step(s4, Exit(p, 0));
    hide Step;
    Extend([], [s0], Fork(p), s1);
    Extend([] + [Fork(p)], [s0] + [s1], RecordChannel, s2);
    actions, ss := [] + [Fork(p)] + [RecordChannel], [s0] + [s1] + [s2];
    Extend(actions, ss, RecordMonitored, s3);
    actions, ss := actions + [RecordMonitored], ss + [s3];
    Extend(actions, ss, WaitLookUp(0), s4);
    actions, ss := actions + [WaitLookUp(0)], ss + [s4];
    Extend(actions, ss, Exit(p, 0), s5);
    actions, ss := actions + [Exit(p, 0)], ss + [s5];
  }

  /** The reaper has taken the child off the kernel's hands and has sent this much of its status. */
  function Collected(p: Pid, stage: Stage, ch: seq<int>, waiter: Waiter, sent: set<Gen>): (s: State)
  {
    State(
      map[], 1, Free, map[p := 0], {p}, map[0 := ch], stage, false, 0, map[0 := waiter], map[0 := p], map[0 := 0], sent)
  }

  lemma SignalAndReap(p: Pid, before: seq<Action>, states: seq<State>) returns (actions: seq<Action>, ss: seq<State>)
    requires Run(before, states) && states[|before|] == Exited(p, true, 0, Idle)
    ensures Run(actions, ss) && ss[|actions|] == Collected(p, Reaped(p, 0, 0), [], Receiving(0), {})
  {
    var s0 := Exited(p, true, 0, Idle);
    var s1 := Step(s0, DeliverSignal);
    var s2 := Step(s1, Wake);
    var s3 := Step(s2, Wait4Child(p));
    assert s3 == Collected(p, Reaped(p, 0, 0), [], Receiving(0), {});
    hide Step, Run;
    Extend(before, states, DeliverSignal, s1);
    actions, ss := before + [DeliverSignal], states + [s1];
    Extend(actions, ss, Wake, s2);
    actions, ss := actions + [Wake], ss + [s2];
    Extend(actions, ss, Wait4Child(p), s3);
    actions, ss := actions + [Wait4Child(p)], ss + [s3];
  }

  lemma DeliverStatus(p: Pid, before: seq<Action>, states: seq<State>) returns (actions: seq<Action>, ss: seq<State>)
    requires Run(before, states) && states[|before|] == Collected(p, Reaped(p, 0, 0), [], Receiving(0), {})
    ensures Run(actions, ss) && ss[|actions|] == Collected(p, Unmonitoring(p, 0), [], Returned(0), {0})
  {
    var s0 := Collected(p, Reaped(p, 0, 0), [], Receiving(0), {});
    var s1 := Step(s0, LookUp);
    var s2 := Step(s1, CheckMonitored);
    var s3 := Step(s2, Send);
    var s4 := Step(s3, WaitReceive(0));
    assert s4 == Collected(p, Unmonitoring(p, 0), [], Returned(0), {0});
    hide Step, Run;
    Extend(before, states, LookUp, s1);
    actions, ss := before + [LookUp], states + [s1];
    Extend(actions, ss, CheckMonitored, s2);
    actions, ss := actions + [CheckMonitored], ss + [s2];
    Extend(actions, ss, Send, s3);
    actions, ss := actions + [Send], ss + [s3];
    Extend(actions, ss, WaitReceive(0), s4);
    actions, ss := actions + [WaitReceive(0)], ss + [s4];
  }

  /** After this fair run a child's Wait has returned and its pid is free, yet starting the next child with that
      pid goes wrong. */
  ghost predicate ReuseGoesWrong(p: Pid, fair: seq<Action>, ss: seq<State>, actions: seq<Action>, t: State)
  {
    && Run(fair, ss) && ss[|fair|].waiters == map[0 := Returned(0)] && p !in ss[|fair|].procs
    && actions != [] && actions[0] == Fork(p) && Leads(ss[|fair|], actions, t) && Harm(t)
  }

  /** There is such a run for every pid: the reaper has not yet stopped monitoring it. */
  lemma EarlyReuseIsReachable(p: Pid)
    ensures exists fair, ss, actions, t :: ReuseGoesWrong(p, fair, ss, actions, t)
  {
    hide Run, Leads, Inv, Step, Harm;
    var fair, ss := StartWaitExit(p);
    fair, ss := SignalAndReap(p, fair, ss);
    fair, ss := DeliverStatus(p, fair, ss);
    RunKeepsInv(fair, ss);
    var actions, t := ReusedPidHarms(ss[|fair|], p);
    assert ReuseGoesWrong(p, fair, ss, actions, t);
  }
}
