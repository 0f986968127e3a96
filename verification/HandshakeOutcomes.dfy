/** How Create ends in every run of the handshake, told from the steps of the two processes alone
    (containerizer/containerizer.go, containerizer/pipe_synchronizer.go). */
module HandshakeOutcomes {
  import opened Handshake

  // ----- what the processes did

  /** How many steps of the host succeeded. */
  function HostSuccesses(actions: seq<Action>): (n: nat)
  {
    if actions == [] then 0
    else HostSuccesses(actions[..|actions| - 1]) + if actions[|actions| - 1] == HostStep(true) then 1 else 0
  }

  /** The outcomes of the container's own steps: reading its configuration, the init steps, becoming the daemon,
      listening, signalling the host; after an init step that fails, signalling the failure. */
  function Own(actions: seq<Action>): (oks: seq<bool>)
  {
    if actions == [] then []
    else
      var oks, last := Own(actions[..|actions| - 1]), actions[|actions| - 1];
      if last.ContainerStep? then oks + [last.ok] else oks
  }

  function Successes(n: nat): (oks: seq<bool>)
    ensures |oks| == n && forall i | 0 <= i < n :: oks[i]
  {
    seq(n, _ => true)
  }

  /** Every step succeeded, the last being the signal to the host. */
  predicate ReportsSuccess(own: seq<bool>)
  {
    own == Successes(STEPS + 4)
  }

  /** Init step k failed. */
  predicate FailedStep(own: seq<bool>, k: nat)
  {
    k < STEPS && Successes(k + 1) + [false] <= own
  }

  /** Init step k failed, and the next step succeeded: it signals the failure. */
  predicate ReportsFailureOf(own: seq<bool>, k: nat)
  {
    k < STEPS && Successes(k + 1) + [false] + [true] <= own
  }

  ghost predicate ReportsFailure(own: seq<bool>)
  {
    exists k: nat :: ReportsFailureOf(own, k)
  }

  /** A step of the host failed, or it stopped waiting. */
  predicate HostGivesUp(actions: seq<Action>)
  {
    HostStep(false) in actions || HostWaitFails in actions
  }

  // ----- the state in terms of them

  function Leading(own: seq<bool>): (n: nat)
    ensures n <= |own| && (forall i | 0 <= i < n :: own[i]) && (n < |own| ==> !own[n])
  {
    if own == [] || !own[0] then 0 else 1 + Leading(own[1..])
  }

  function ContainerAt(own: seq<bool>): (pc: ContainerPc)
  {
    var n := Leading(own);
    if n < |own| then if 1 <= n <= STEPS && |own| == n + 1 then SignalFailure else Exited
    else if n == 0 then ReadConfig
    else if n <= STEPS then InitStep(n - 1)
    else if n == STEPS + 1 then Reexec
    else if n == STEPS + 2 then Listen
    else if n == STEPS + 3 then SignalHost
    else Serve
  }

  /** After a failure at most the signal follows. */
  predicate Stops(own: seq<bool>)
  {
    Leading(own) < |own| ==> |own| <= Leading(own) + 2
  }

  function Sent(own: seq<bool>): (signals: seq<Signal>)
  {
    var n := Leading(own);
    if n == |own| then if n == STEPS + 4 then [Success] else []
    else if 1 <= n <= STEPS && |own| == n + 2 && own[n + 1] then [Error]
    else []
  }

  predicate HostExact(actions: seq<Action>, s: State)
  {
    if HostReceives in actions then
      && !HostGivesUp(actions) && Sent(Own(actions)) != [] && HostSuccesses(actions) == 7
      && s.host == Returned(if Sent(Own(actions))[0] == Error then SignalledError else Nil)
    else if HostGivesUp(actions) then s.host == Returned(OtherError)
    else !s.host.Returned? && HostRank(s.host) == HostSuccesses(actions)
  }

  predicate ContainerExact(actions: seq<Action>, s: State)
  {
    if ContainerWaitFails in actions then
      && HostSuccesses(actions) >= 3 && ContainerReceives !in actions
      && Own(actions) == [] && s.container == Exited
    else if ContainerReceives !in actions then
      && Own(actions) == [] && s.container == if HostSuccesses(actions) < 3 then Absent else WaitForHost
    else HostSuccesses(actions) == 7 && s.container == ContainerAt(Own(actions)) && Stops(Own(actions))
  }

  predicate PipesExact(actions: seq<Action>, s: State)
  {
    && s.toHost == (if HostReceives in actions then [] else Sent(Own(actions)))
    && s.toContainer ==
         (if HostSuccesses(actions) == 7 && ContainerReceives !in actions then [Success] else [])
  }

  predicate Exact(actions: seq<Action>, s: State)
  {
    HostSuccesses(actions) <= 7 && HostExact(actions, s) && ContainerExact(actions, s) && PipesExact(actions, s)
  }

  lemma {:induction false} LeadingNext(own: seq<bool>, ok: bool)
    ensures Leading(own + [ok]) == if Leading(own) == |own| && ok then |own| + 1 else Leading(own)
  {
    if own != [] && own[0] {
      LeadingNext(own[1..], ok);
      assert (own + [ok])[1..] == own[1..] + [ok];
    }
  }

  /** One step of the container. */
  lemma ContainerAtNext(own: seq<bool>, s: State, ok: bool)
    requires s.container == ContainerAt(own) && Stops(own) && Enabled(s, ContainerStep(ok))
    ensures ContainerSteps(s, ok).container == ContainerAt(own + [ok])
    ensures Stops(own + [ok]) && Sent(own) == [] && ContainerSteps(s, ok).toHost == s.toHost + Sent(own + [ok])
    ensures ContainerSteps(s, ok).host == s.host && ContainerSteps(s, ok).toContainer == s.toContainer
  {
    LeadingNext(own, ok);
    hide Leading;
  }

  lemma ActionsNext(actions: seq<Action>, a: Action)
    ensures (actions + [a])[..|actions|] == actions
    ensures HostSuccesses(actions + [a]) == HostSuccesses(actions) + if a == HostStep(true) then 1 else 0
    ensures Own(actions + [a]) == if a.ContainerStep? then Own(actions) + [a.ok] else Own(actions)
    ensures forall b :: b in actions + [a] <==> b in actions || b == a
  {
    assert (actions + [a])[..|actions|] == actions;
  }

  lemma HostStepExact(actions: seq<Action>, s: State, ok: bool)
    requires Exact(actions, s) && Enabled(s, HostStep(ok))
    ensures Exact(actions + [HostStep(ok)], HostSteps(s, ok))
  {
    ActionsNext(actions, HostStep(ok));
    hide HostSuccesses, Own, Sent, ContainerAt, Stops;
  }

  lemma ContainerStepExact(actions: seq<Action>, s: State, ok: bool)
    requires Exact(actions, s) && Enabled(s, ContainerStep(ok))
    ensures Exact(actions + [ContainerStep(ok)], ContainerSteps(s, ok))
  {
    hide HostSuccesses, Own, Sent, ContainerAt, Stops, ContainerSteps, HostSteps;
    ContainerAtNext(Own(actions), s, ok);
    ActionsNext(actions, ContainerStep(ok));
    assert HostReceives !in actions;
  }

  lemma WaitExact(actions: seq<Action>, s: State, a: Action)
    requires Exact(actions, s) && Enabled(s, a) && !a.HostStep? && !a.ContainerStep?
    ensures Exact(actions + [a], Step(s, a))
  {
    ActionsNext(actions, a);
    NothingOwned();
    hide HostSuccesses, Own, Sent, ContainerAt, Stops;
  }

  lemma NothingOwned()
    ensures ContainerAt([]) == ReadConfig && Stops([]) && Sent([]) == []
    ensures forall own :: |Sent(own)| <= 1 && !ContainerAt(own).WaitForHost?
  {
  }

  lemma {:induction false} RunIsExact(actions: seq<Action>, ss: seq<State>)
    requires Run(actions, ss)
    ensures |ss| == |actions| + 1 && Exact(actions, ss[|actions|])
  {
    hide Exact, Step, Enabled;
    if actions == [] {
      InitialExact();
    } else {
      var k := |actions| - 1;
      RunIsExact(actions[..k], ss[..k + 1]);
      assert actions == actions[..k] + [actions[k]] && Enabled(ss[k], actions[k]);
      StepExact(actions[..k], ss[k], actions[k]);
    }
  }

  lemma StepExact(actions: seq<Action>, s: State, a: Action)
    requires Exact(actions, s) && Enabled(s, a)
    ensures Exact(actions + [a], Step(s, a))
  {
    hide Exact, HostSteps, ContainerSteps, Enabled;
    match a
    case HostStep(ok) => HostStepExact(actions, s, ok);
    case ContainerStep(ok) => ContainerStepExact(actions, s, ok);
    case _ => WaitExact(actions, s, a);
  }

  lemma InitialExact()
    ensures Exact([], INITIAL)
  {
  }

  // ----- how Create ends

  lemma SentIs(own: seq<bool>)
    requires Stops(own)
    ensures Sent(own) == [Success] <==> ReportsSuccess(own)
    ensures Sent(own) == [Error] <==> ReportsFailure(own)
  {
    var n := Leading(own);
    if ReportsSuccess(own) {
      assert n == |own|;
    }
    if Sent(own) == [Error] {
      assert own == Successes(n) + [false] + [true];
      assert ReportsFailureOf(own, n - 1);
    }
    if k: nat :| ReportsFailureOf(own, k) {
      assert !own[k + 1] && own[k + 2] && forall i | 0 <= i < k + 1 :: own[i];
      assert n == k + 1;
    }
  }

  /** In every run the result of Create is told by what the processes did: it is nil exactly if it received the signal
      after every step of the container succeeded, the signalled error exactly if it received the signal of an init
      step that failed, any other error exactly if a step of its own failed or it stopped waiting. */
  lemma Outcome(actions: seq<Action>, ss: seq<State>)
    requires Run(actions, ss)
    ensures var host, own := ss[|actions|].host, Own(actions);
      && (host == Returned(Nil) <==> HostReceives in actions && ReportsSuccess(own))
      && (host == Returned(SignalledError) <==> HostReceives in actions && ReportsFailure(own))
      && (host == Returned(OtherError) <==> HostGivesUp(actions))
      && (host.Returned? <==> HostReceives in actions || HostGivesUp(actions))
  {
    hide Own, Sent, ContainerAt, HostSuccesses, ReportsSuccess, ReportsFailure, HostGivesUp;
    RunIsExact(actions, ss);
    NothingOwned();
    SentIs(Own(actions));
    NothingMore(Own(actions));
  }

  lemma NothingMore(own: seq<bool>)
    ensures Sent(own) != [] ==> Sent(own) == [if Sent(own)[0] == Error then Error else Success]
  {
  }

  /** The host can receive exactly while it waits and the container has reported. */
  lemma ReceivesIff(actions: seq<Action>, ss: seq<State>)
    requires Run(actions, ss)
    ensures Enabled(ss[|actions|], HostReceives) <==>
      && HostSuccesses(actions) == 7 && HostReceives !in actions && !HostGivesUp(actions)
      && (ReportsSuccess(Own(actions)) || ReportsFailure(Own(actions)))
  {
    hide Own, Sent, ContainerAt, HostSuccesses, ReportsSuccess, ReportsFailure, HostGivesUp;
    RunIsExact(actions, ss);
    NothingOwned();
    SentIs(Own(actions));
    NothingMore(Own(actions));
  }

  /** An init step that fails and is signalled is reported: unless the host gives up, Create has returned the signalled
      error, or it waits, can receive, and then returns that. */
  lemma FailureIsReported(actions: seq<Action>, ss: seq<State>, k: nat)
    requires Run(actions, ss) && ReportsFailureOf(Own(actions), k) && !HostGivesUp(actions)
    ensures var s := ss[|actions|];
      if HostReceives in actions then s.host == Returned(SignalledError)
      else Enabled(s, HostReceives) && Step(s, HostReceives).host == Returned(SignalledError)
  {
    hide Own, Sent, ContainerAt, HostSuccesses, ReportsSuccess, ReportsFailureOf, HostGivesUp;
    RunIsExact(actions, ss);
    NothingOwned();
    SentIs(Own(actions));
    assert ReportsFailure(Own(actions));
    SomethingOwned(Own(actions), k);
  }

  lemma SomethingOwned(own: seq<bool>, k: nat)
    requires ReportsFailureOf(own, k)
    ensures own != []
  {
  }

  /** Once an init step has failed Create never returns nil. */
  lemma FailureIsNotNil(actions: seq<Action>, ss: seq<State>, k: nat)
    requires Run(actions, ss) && FailedStep(Own(actions), k)
    ensures ss[|actions|].host != Returned(Nil)
  {
    hide Own, ReportsFailure;
    Outcome(actions, ss);
    assert !Own(actions)[k + 1];
  }

  // ----- what can happen next

  /** The container has a step of its own to take: nothing has failed and it has not signalled yet, or an init step has
      just failed. */
  ghost predicate HasStep(own: seq<bool>)
  {
    (|own| < STEPS + 4 && own == Successes(|own|)) || exists k: nat :: JustFailed(own, k)
  }

  predicate JustFailed(own: seq<bool>, k: nat)
  {
    k < STEPS && own == Successes(k + 1) + [false]
  }

  lemma HasStepIff(own: seq<bool>)
    requires Stops(own)
    ensures HasStep(own) <==> !ContainerAt(own).Exited? && !ContainerAt(own).Serve?
    ensures !ContainerAt(own).Absent? && !ContainerAt(own).WaitForHost?
  {
    var n := Leading(own);
    if n == |own| {
      assert own == Successes(n);
    } else if |own| == n + 1 && 1 <= n <= STEPS {
      assert JustFailed(own, n - 1);
    }
    if k: nat :| JustFailed(own, k) {
      assert !own[k + 1] && n == k + 1;
    }
  }

  /** In every run: the host takes its seven steps and then waits, and while it waits it may give up at any time; the
      container waits from its start until it has received the signal or given up, and then takes its steps. */
  lemma EnabledIff(actions: seq<Action>, ss: seq<State>, ok: bool)
    requires Run(actions, ss)
    ensures var s := ss[|actions|];
      var running := HostReceives !in actions && !HostGivesUp(actions);
      var waiting := ContainerReceives !in actions && ContainerWaitFails !in actions;
      && (Enabled(s, HostStep(ok)) <==> running && HostSuccesses(actions) < 7)
      && (Enabled(s, HostWaitFails) <==> running && HostSuccesses(actions) == 7)
      && (Enabled(s, ContainerReceives) <==> waiting && HostSuccesses(actions) == 7)
      && (Enabled(s, ContainerWaitFails) <==> waiting && HostSuccesses(actions) >= 3)
      && (Enabled(s, ContainerStep(ok)) <==> ContainerReceives in actions && HasStep(Own(actions)))
  {
    hide Own, Sent, ContainerAt, HostSuccesses, HasStep, HostGivesUp, Stops, Run, Enabled, Exact;
    RunIsExact(actions, ss);
    HostEnabledIff(actions, ss[|actions|], ok);
    ContainerEnabledIff(actions, ss[|actions|], ok);
  }

  lemma HostEnabledIff(actions: seq<Action>, s: State, ok: bool)
    requires Exact(actions, s)
    ensures var running := HostReceives !in actions && !HostGivesUp(actions);
      && (Enabled(s, HostStep(ok)) <==> running && HostSuccesses(actions) < 7)
      && (Enabled(s, HostWaitFails) <==> running && HostSuccesses(actions) == 7)
  {
    hide Own, Sent, ContainerAt, HostSuccesses, HostGivesUp, ContainerExact, PipesExact;
  }

  lemma ContainerEnabledIff(actions: seq<Action>, s: State, ok: bool)
    requires Exact(actions, s)
    ensures var waiting := ContainerReceives !in actions && ContainerWaitFails !in actions;
      && (Enabled(s, ContainerReceives) <==> waiting && HostSuccesses(actions) == 7)
      && (Enabled(s, ContainerWaitFails) <==> waiting && HostSuccesses(actions) >= 3)
      && (Enabled(s, ContainerStep(ok)) <==> ContainerReceives in actions && HasStep(Own(actions)))
  {
    hide Own, Sent, ContainerAt, HostSuccesses, HostGivesUp, HostExact, HasStep, Stops, HostRank;
    NothingOwned();
    HasStepIff(Own(actions));
  }

  // ----- the trace tells what was done

  predicate HostTrace(n: nat, trace: seq<Event>)
  {
    && (PreparedHost in trace <==> n >= 1) && (RanHookBefore in trace <==> n >= 2) && (Started in trace <==> n >= 3)
    && (RanHookAfter in trace <==> n >= 5) && (Pivoted in trace <==> n >= 6)
  }

  ghost predicate ContainerTrace(own: seq<bool>, trace: seq<Event>)
  {
    var n := Leading(own);
    && (forall k: nat :: Attempted(k) in trace <==> k < STEPS && k + 1 <= n && k + 1 < |own|)
    && (forall k: nat :: Initialized(k) in trace <==> k < STEPS && k + 2 <= n)
    && (forall k: nat :: InitFailed(k) in trace <==> k < STEPS && k + 1 == n && n < |own|)
    && (BecameDaemon in trace <==> n >= STEPS + 2) && (Listening in trace <==> n >= STEPS + 3)
  }

  predicate HostEvent(e: Event)
  {
    e.PreparedHost? || e.RanHookBefore? || e.Started? || e.RanHookAfter? || e.Pivoted?
  }

  lemma HostTraceNext(actions: seq<Action>, s: State, ok: bool)
    requires Exact(actions, s) && Enabled(s, HostStep(ok)) && HostTrace(HostSuccesses(actions), s.trace)
    requires ContainerTrace(Own(actions), s.trace)
    ensures HostTrace(HostSuccesses(actions + [HostStep(ok)]), HostSteps(s, ok).trace)
    ensures ContainerTrace(Own(actions + [HostStep(ok)]), HostSteps(s, ok).trace)
  {
    ActionsNext(actions, HostStep(ok));
    hide HostSuccesses, Own, ContainerExact, PipesExact, Leading;
  }

  lemma ContainerTraceNext(own: seq<bool>, s: State, ok: bool)
    requires s.container == ContainerAt(own) && Stops(own) && Enabled(s, ContainerStep(ok))
    requires ContainerTrace(own, s.trace)
    ensures ContainerTrace(own + [ok], ContainerSteps(s, ok).trace)
    ensures forall e | HostEvent(e) :: e in ContainerSteps(s, ok).trace <==> e in s.trace
  {
    LeadingNext(own, ok);
    hide Leading;
  }

  lemma StepTrace(actions: seq<Action>, s: State, a: Action)
    requires Exact(actions, s) && Enabled(s, a)
    requires HostTrace(HostSuccesses(actions), s.trace) && ContainerTrace(Own(actions), s.trace)
    ensures HostTrace(HostSuccesses(actions + [a]), Step(s, a).trace)
    ensures ContainerTrace(Own(actions + [a]), Step(s, a).trace)
  {
    match a
    case HostStep(ok) => HostTraceNext(actions, s, ok);
    case ContainerStep(ok) =>
      assert s.container == ContainerAt(Own(actions)) && Stops(Own(actions)) by {
        hide HostSuccesses, Own, ContainerAt, Stops, Sent;
      }
      ContainerTraceNext(Own(actions), s, ok);
      ActionsNext(actions, a);
      hide *;
      SameHostTrace(HostSuccesses(actions), s.trace, Step(s, a).trace);
    case _ =>
      ActionsNext(actions, a);
      hide HostSuccesses, Own, HostTrace, ContainerTrace, Exact;
  }

  lemma SameHostTrace(n: nat, trace: seq<Event>, trace': seq<Event>)
    requires HostTrace(n, trace) && forall e | HostEvent(e) :: e in trace' <==> e in trace
    ensures HostTrace(n, trace')
  {
    assert HostEvent(PreparedHost) && HostEvent(RanHookBefore) && HostEvent(Started) && HostEvent(RanHookAfter);
    assert HostEvent(Pivoted);
  }

  /** In every run an event is in the trace exactly if its step was taken. */
  lemma {:induction false} TraceIsExact(actions: seq<Action>, ss: seq<State>)
    requires Run(actions, ss)
    ensures |ss| == |actions| + 1
    ensures HostTrace(HostSuccesses(actions), ss[|actions|].trace)
    ensures ContainerTrace(Own(actions), ss[|actions|].trace)
  {
    hide Step, Enabled, Exact;
    if actions == [] {
      assert ss[0].trace == [];
    } else {
      var k := |actions| - 1;
      hide HostTrace, ContainerTrace;
      TraceIsExact(actions[..k], ss[..k + 1]);
      RunIsExact(actions[..k], ss[..k + 1]);
      assert actions == actions[..k] + [actions[k]] && Enabled(ss[k], actions[k]);
      StepTrace(actions[..k], ss[k], actions[k]);
    }
  }
}
