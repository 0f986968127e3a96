/** The two processes that create a container and the two pipes between them (containerizer/containerizer.go,
    containerizer/pipe_synchronizer.go, containerizer/initc/main.go, container_daemon/initd/start.go). */
module Handshake {

  datatype Signal = Success | Error

  /** Where the host's Create is. Exec starts the container process. */
  datatype HostPc =
    | BeforeClone | HookBefore | Exec | SetPid | HookAfter | Pivot | SignalContainer | WaitForContainer
    | Returned(r: CreateResult)

  datatype CreateResult = Nil | SignalledError | OtherError

  /** Where the container's init process is; from Listen on it has become the daemon. */
  datatype ContainerPc =
    | Absent | WaitForHost | ReadConfig | InitStep(k: nat) | SignalFailure
    | Reexec | Listen | SignalHost | Serve | Exited

  /** The mounts, the unmount, the network and the capabilities step. */
  const STEPS := 7

  /** What has happened, in order. */
  datatype Event =
    | PreparedHost | RanHookBefore | Started | RanHookAfter | Pivoted
    | Attempted(k: nat) | Initialized(k: nat) | InitFailed(k: nat) | BecameDaemon | Listening

  datatype State = State(
    host: HostPc, container: ContainerPc, toContainer: seq<Signal>, toHost: seq<Signal>, trace: seq<Event>)

  const INITIAL := State(BeforeClone, Absent, [], [], [])

  /** The current step of a process with its outcome; a read from a pipe; a wait that times out or cannot
      decode what it reads. */
  datatype Action =
    | HostStep(ok: bool)
    | HostReceives
    | HostWaitFails
    | ContainerStep(ok: bool)
    | ContainerReceives
    | ContainerWaitFails

  predicate Enabled(s: State, a: Action)
  {
    match a
    case HostStep(_) => !s.host.WaitForContainer? && !s.host.Returned?
    case HostReceives => s.host.WaitForContainer? && s.toHost != []
    case HostWaitFails => s.host.WaitForContainer?
    case ContainerStep(_) =>
      !s.container.Absent? && !s.container.WaitForHost? && !s.container.Serve? && !s.container.Exited?
    case ContainerReceives => s.container.WaitForHost? && s.toContainer != []
    case ContainerWaitFails => s.container.WaitForHost?
  }

  function Record(s: State, e: Event): (s': State)
  {
    s.(trace := s.trace + [e])
  }

  function HostSteps(s: State, ok: bool): (s': State)
    requires Enabled(s, HostStep(ok))
  {
    if !ok then s.(host := Returned(OtherError))
    else
      match s.host
      case BeforeClone => Record(s, PreparedHost).(host := HookBefore)
      case HookBefore => Record(s, RanHookBefore).(host := Exec)
      case Exec => Record(s, Started).(host := SetPid, container := WaitForHost)
      case SetPid => s.(host := HookAfter)
      case HookAfter => Record(s, RanHookAfter).(host := Pivot)
      case Pivot => Record(s, Pivoted).(host := SignalContainer)
      case SignalContainer => s.(host := WaitForContainer, toContainer := s.toContainer + [Success])
  }

  function ContainerSteps(s: State, ok: bool): (s': State)
    requires Enabled(s, ContainerStep(ok))
  {
    match s.container
    case ReadConfig => s.(container := if ok then InitStep(0) else Exited)
    case InitStep(k) =>
      var s1 := Record(s, Attempted(k));
      if !ok then Record(s1, InitFailed(k)).(container := SignalFailure)
      else Record(s1, Initialized(k)).(container := if k + 1 < STEPS then InitStep(k + 1) else Reexec)
    case SignalFailure => s.(container := Exited, toHost := if ok then s.toHost + [Error] else s.toHost)
    case Reexec => if ok then Record(s, BecameDaemon).(container := Listen) else s.(container := Exited)
    case Listen => if ok then Record(s, Listening).(container := SignalHost) else s.(container := Exited)
    case SignalHost => if ok then s.(container := Serve, toHost := s.toHost + [Success]) else s.(container := Exited)
  }

  function Step(s: State, a: Action): (s': State)
    requires Enabled(s, a)
  {
    match a
    case HostStep(ok) => HostSteps(s, ok)
    case HostReceives =>
      s.(host := Returned(if s.toHost[0] == Error then SignalledError else Nil), toHost := s.toHost[1..])
    case HostWaitFails => s.(host := Returned(OtherError))
    case ContainerStep(ok) => ContainerSteps(s, ok)
    case ContainerReceives =>
      s.(container := if s.toContainer[0] == Error then Exited else ReadConfig, toContainer := s.toContainer[1..])
    case ContainerWaitFails => s.(container := Exited)
  }

  ghost predicate Run(actions: seq<Action>, ss: seq<State>)
  {
    && |ss| == |actions| + 1 && ss[0] == INITIAL
    && forall i | 0 <= i < |actions| :: Enabled(ss[i], actions[i]) && ss[i + 1] == Step(ss[i], actions[i])
  }

  // ----- the invariant

  function HostRank(pc: HostPc): (r: nat)
  {
    match pc
    case BeforeClone => 0
    case HookBefore => 1
    case Exec => 2
    case SetPid => 3
    case HookAfter => 4
    case Pivot => 5
    case SignalContainer => 6
    case WaitForContainer => 7
    case Returned(_) => 0
  }

  predicate HostOk(host: HostPc, trace: seq<Event>)
  {
    var r := HostRank(host);
    && (r > 0 ==> PreparedHost in trace)
    && (r > 1 ==> RanHookBefore in trace)
    && (r > 2 ==> Started in trace)
    && (r > 4 ==> RanHookAfter in trace)
    && (r > 5 ==> Pivoted in trace)
  }

  predicate HostDone(trace: seq<Event>)
  {
    PreparedHost in trace && RanHookBefore in trace && Started in trace && RanHookAfter in trace && Pivoted in trace
  }

  /** The first k init steps succeeded. */
  predicate FirstStepsDone(k: nat, trace: seq<Event>)
  {
    forall i: nat | i < k :: Initialized(i) in trace
  }

  predicate ContainerDone(trace: seq<Event>)
  {
    FirstStepsDone(STEPS, trace) && BecameDaemon in trace && Listening in trace
  }

  ghost predicate ContainerOk(pc: ContainerPc, trace: seq<Event>)
  {
    match pc
    case Absent => true
    case WaitForHost => true
    case ReadConfig => HostDone(trace)
    case InitStep(k) => k < STEPS && HostDone(trace) && FirstStepsDone(k, trace)
    case SignalFailure => HostDone(trace) && exists k: nat :: InitFailed(k) in trace
    case Reexec => HostDone(trace) && FirstStepsDone(STEPS, trace)
    case Listen => HostDone(trace) && FirstStepsDone(STEPS, trace) && BecameDaemon in trace
    case SignalHost => HostDone(trace) && ContainerDone(trace)
    case Serve => HostDone(trace) && ContainerDone(trace)
    case Exited => true
  }

  ghost predicate PipesOk(toContainer: seq<Signal>, toHost: seq<Signal>, trace: seq<Event>)
  {
    && (toContainer != [] ==> HostDone(trace))
    && (Success in toHost ==> HostDone(trace) && ContainerDone(trace))
    && (Error in toHost ==> exists k: nat :: InitFailed(k) in trace)
  }

  ghost predicate ReturnOk(host: HostPc, trace: seq<Event>)
  {
    && (host == Returned(Nil) ==> HostDone(trace) && ContainerDone(trace))
    && (host == Returned(SignalledError) ==> exists k: nat :: InitFailed(k) in trace)
  }

  /** Init steps are attempted only after the pivot, one after the other. */
  predicate OrderOk(trace: seq<Event>)
  {
    forall i | 0 <= i < |trace| && trace[i].Attempted? ::
      Pivoted in trace[..i] && forall j: nat | j < trace[i].k :: Initialized(j) in trace[..i]
  }

  ghost predicate Inv(s: State)
  {
    && HostOk(s.host, s.trace) && ContainerOk(s.container, s.trace)
    && PipesOk(s.toContainer, s.toHost, s.trace) && ReturnOk(s.host, s.trace) && OrderOk(s.trace)
  }

  /** Everything established stays established when the trace grows. */
  lemma TraceGrows(s: State, e: Event)
    requires Inv(s)
    requires e.Attempted? ==> Pivoted in s.trace && FirstStepsDone(e.k, s.trace)
    ensures Inv(Record(s, e)) && e in Record(s, e).trace && forall x | x in s.trace :: x in Record(s, e).trace
  {
    var trace' := s.trace + [e];
    assert forall x | x in s.trace :: x in trace';
    OrderGrows(s.trace, e);
  }

  lemma OrderGrows(trace: seq<Event>, e: Event)
    requires OrderOk(trace) && (e.Attempted? ==> Pivoted in trace && FirstStepsDone(e.k, trace))
    ensures OrderOk(trace + [e])
  {
    var trace' := trace + [e];
    forall i | 0 <= i < |trace'| && trace'[i].Attempted?
      ensures Pivoted in trace'[..i] && forall j: nat | j < trace'[i].k :: Initialized(j) in trace'[..i]
    {
      assert trace'[..i] == trace[..i];
    }
    assert trace'[..|trace|] == trace;
  }

  lemma HostStepsKeepInv(s: State, ok: bool)
    requires Inv(s) && Enabled(s, HostStep(ok))
    ensures Inv(HostSteps(s, ok))
  {
    hide OrderOk, FirstStepsDone;
    if ok {
      match s.host
      case BeforeClone => TraceGrows(s, PreparedHost);
      case HookBefore => TraceGrows(s, RanHookBefore);
      case Exec => TraceGrows(s, Started);
      case SetPid =>
      case HookAfter => TraceGrows(s, RanHookAfter);
      case Pivot => TraceGrows(s, Pivoted);
      case SignalContainer =>
    }
  }

  lemma InitStepKeepsInv(s: State, ok: bool)
    requires Inv(s) && s.container.InitStep?
    ensures Inv(ContainerSteps(s, ok))
  {
    hide OrderOk;
    var k := s.container.k;
    TraceGrows(s, Attempted(k));
    var s1 := Record(s, Attempted(k));
    assert Inv(s1);
    TraceGrows(s1, if ok then Initialized(k) else InitFailed(k));
  }

  lemma ContainerStepsKeepInv(s: State, ok: bool)
    requires Inv(s) && Enabled(s, ContainerStep(ok))
    ensures Inv(ContainerSteps(s, ok))
  {
    hide OrderOk, FirstStepsDone;
    match s.container
    case ReadConfig => NoneYet(s.trace);
    case InitStep(_) => InitStepKeepsInv(s, ok);
    case SignalFailure =>
    case Reexec => TraceGrows(s, BecameDaemon);
    case Listen => TraceGrows(s, Listening);
    case SignalHost =>
  }

  lemma NoneYet(trace: seq<Event>)
    ensures FirstStepsDone(0, trace)
  {
  }

  lemma StepKeepsInv(s: State, a: Action)
    requires Inv(s) && Enabled(s, a)
    ensures Inv(Step(s, a))
  {
    hide OrderOk, FirstStepsDone, HostSteps, ContainerSteps;
    match a
    case HostStep(ok) => HostStepsKeepInv(s, ok);
    case ContainerStep(ok) => ContainerStepsKeepInv(s, ok);
    case _ =>
  }

  lemma {:induction false} RunKeepsInv(actions: seq<Action>, ss: seq<State>)
    requires Run(actions, ss)
    ensures |ss| == |actions| + 1 && Inv(ss[|actions|])
  {
    hide Inv, Step, Enabled;
    if actions == [] {
      InitialInv();
    } else {
      var k := |actions| - 1;
      RunKeepsInv(actions[..k], ss[..k + 1]);
      assert Enabled(ss[k], actions[k]);
      StepKeepsInv(ss[k], actions[k]);
    }
  }

  lemma InitialInv()
    ensures Inv(INITIAL)
  {
  }

  /** In every run of the two processes Create returns nil only after the host was prepared, both hooks ran,
      the pivot and every init step succeeded, and the daemon listens. */
  lemma CreateMeansReady(actions: seq<Action>, ss: seq<State>)
    requires Run(actions, ss) && ss[|actions|].host == Returned(Nil)
    ensures HostDone(ss[|actions|].trace) && ContainerDone(ss[|actions|].trace)
  {
    RunKeepsInv(actions, ss);
  }

  /** A signalled error is reported only if an init step failed. */
  lemma SignalledErrorIsReal(actions: seq<Action>, ss: seq<State>)
    requires Run(actions, ss) && ss[|actions|].host == Returned(SignalledError)
    ensures exists k: nat :: InitFailed(k) in ss[|actions|].trace
  {
    RunKeepsInv(actions, ss);
  }

  /** No init step is even attempted before the pivot succeeded and all earlier init steps did. */
  lemma InitWaitsForPivot(actions: seq<Action>, ss: seq<State>, i: nat)
    requires Run(actions, ss) && i < |ss[|actions|].trace| && ss[|actions|].trace[i].Attempted?
    ensures var trace := ss[|actions|].trace;
            Pivoted in trace[..i] && forall j: nat | j < trace[i].k :: Initialized(j) in trace[..i]
  {
    RunKeepsInv(actions, ss);
  }

  // ----- runs in which nothing fails

  predicate Succeeds(a: Action)
  {
    a == HostStep(true) || a == ContainerStep(true) || a == HostReceives || a == ContainerReceives
  }

  /** How many steps the two processes still have to take if nothing fails. */
  function HostLeft(pc: HostPc): (n: nat)
  {
    if pc.Returned? then 0 else 8 - HostRank(pc)
  }

  function ContainerLeft(pc: ContainerPc): (n: nat)
  {
    match pc
    case Absent => STEPS + 5
    case WaitForHost => STEPS + 5
    case ReadConfig => STEPS + 4
    case InitStep(k) => if k < STEPS then STEPS + 3 - k else 0
    case Reexec => 3
    case Listen => 2
    case SignalHost => 1
    case SignalFailure => 0
    case Serve => 0
    case Exited => 0
  }

  function Left(s: State): (n: nat)
  {
    HostLeft(s.host) + ContainerLeft(s.container)
  }

  /** Where the two processes and the pipes can be while nothing has failed. */
  predicate OnTrack(s: State)
  {
    && (s.host.Returned? ==> s.host == Returned(Nil) && s.container.Serve?)
    && (s.container.Absent? <==> !s.host.Returned? && HostRank(s.host) <= 2)
    && !s.container.Exited? && !s.container.SignalFailure? && (s.container.InitStep? ==> s.container.k < STEPS)
    && (!s.container.Absent? && !s.container.WaitForHost? ==> s.host.WaitForContainer? || s.host.Returned?)
    && s.toContainer == (if s.container.WaitForHost? && s.host.WaitForContainer? then [Success] else [])
    && s.toHost == (if s.container.Serve? && s.host.WaitForContainer? then [Success] else [])
  }

  lemma StaysOnTrack(s: State, a: Action)
    requires OnTrack(s) && Enabled(s, a) && Succeeds(a)
    ensures OnTrack(Step(s, a)) && Left(Step(s, a)) == Left(s) - 1
  {
  }

  lemma SomeStepSucceeds(s: State) returns (a: Action)
    requires OnTrack(s) && Left(s) > 0
    ensures Enabled(s, a) && Succeeds(a)
  {
    a :=
      if !s.host.WaitForContainer? && !s.host.Returned? then HostStep(true)
      else if s.container.WaitForHost? then ContainerReceives
      else if s.container.Serve? then HostReceives
      else ContainerStep(true);
  }

  lemma {:induction false} SuccessfulPrefix(actions: seq<Action>, ss: seq<State>)
    requires Run(actions, ss) && forall a | a in actions :: Succeeds(a)
    ensures |ss| == |actions| + 1 && OnTrack(ss[|actions|]) && |actions| + Left(ss[|actions|]) == 20
  {
    hide Step, Enabled, Succeeds, Left, OnTrack;
    if actions == [] {
      InitiallyOnTrack();
    } else {
      var k := |actions| - 1;
      SuccessfulPrefix(actions[..k], ss[..k + 1]);
      assert actions[k] in actions && Enabled(ss[k], actions[k]);
      StaysOnTrack(ss[k], actions[k]);
    }
  }

  lemma InitiallyOnTrack()
    ensures OnTrack(INITIAL) && Left(INITIAL) == 20
  {
  }

  /** The two processes never wait for each other in vain: a run in which nothing fails can always go on until
      its twentieth step, and that one makes Create return nil with the daemon serving. */
  lemma SuccessfulRunsComplete(actions: seq<Action>, ss: seq<State>)
    requires Run(actions, ss) && forall a | a in actions :: Succeeds(a)
    ensures |actions| <= 20
    ensures |actions| == 20 <==> ss[|actions|].host == Returned(Nil)
    ensures |actions| == 20 ==> ss[|actions|].container.Serve?
    ensures |actions| < 20 ==> exists a :: Enabled(ss[|actions|], a) && Succeeds(a)
  {
    SuccessfulPrefix(actions, ss);
    if |actions| < 20 {
      var a := SomeStepSucceeds(ss[|actions|]);
    }
  }
}
