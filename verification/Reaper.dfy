/** Starting, reaping and waiting for processes as a transition system
    (containerizer/system/process_reaper_linux.go). */
module Reaper {
  import opened Outcomes

  type Pid = nat

  /** Identity of a process: unlike its pid it is never used twice. */
  type Gen = nat

  datatype Process = Running(gen: Gen) | Zombie(gen: Gen, status: int)

  /** How far the call of Start that holds the mutex has come. */
  datatype Mutex = Free | Forked(pid: Pid, gen: Gen) | Recorded(pid: Pid, gen: Gen)

  /** Where the reaping goroutine is. A channel is named by the child it was made for. */
  datatype Stage =
    | Idle
    | Looping
    | Reaped(pid: Pid, gen: Gen, status: int)
    | Looked(pid: Pid, gen: Gen, status: int, found: Option<Gen>)
    | Sending(pid: Pid, gen: Gen, status: int, ch: Gen)
    | Unmonitoring(pid: Pid, gen: Gen)

  /** A call of Wait after its channel lookup. */
  datatype Waiter = Receiving(ch: Gen) | Returned(exitByte: int)

  datatype State = State(
    procs: map<Pid, Process>,    // children of the daemon, adopted orphans included
    next: Gen,
    mutex: Mutex,
    waiting: map<Pid, Gen>,
    monitored: set<Pid>,
    chans: map<Gen, seq<int>>,   // channels of capacity one
    stage: Stage,
    pending: bool,               // a SIGCHLD not yet put into the channel
    queued: nat,                 // signals in the channel sigChld
    waiters: map<Gen, Waiter>,
    pidOf: map<Gen, Pid>,        // history: the children that Start forked
    exits: map<Gen, int>,        // history: exit statuses
    sent: set<Gen>)              // history: channels that were sent to

  const SIGNAL_BUFFER := 1000

  const INITIAL := State(map[], 0, Free, map[], {}, map[], Idle, false, 0, map[], map[], map[], {})

  datatype Action =
    | Fork(pid: Pid)                    // Start takes the mutex and starts the command
    | RecordChannel
    | RecordMonitored                   // and releases the mutex
    | Adopt(pid: Pid)                   // an orphan is reparented to the daemon
    | Exit(pid: Pid, status: int)
    | DeliverSignal
    | Wake
    | Wait4Child(pid: Pid)
    | Wait4None
    | LookUp
    | CheckMonitored
    | Send
    | Unmonitor
    | WaitLookUp(gen: Gen)
    | WaitReceive(gen: Gen)

  predicate AnyZombie(procs: map<Pid, Process>)
  {
    exists p :: p in procs && procs[p].Zombie?
  }

  predicate Enabled(s: State, a: Action)
  {
    match a
    case Fork(p) => s.mutex.Free? && p !in s.procs
    case RecordChannel => s.mutex.Forked?
    case RecordMonitored => s.mutex.Recorded?
    case Adopt(p) => p !in s.procs
    case Exit(p, _) => p in s.procs && s.procs[p].Running?
    case DeliverSignal => s.pending
    case Wake => s.stage.Idle? && s.queued > 0
    case Wait4Child(p) => s.stage.Looping? && p in s.procs && s.procs[p].Zombie?
    case Wait4None => s.stage.Looping? && !AnyZombie(s.procs)
    case LookUp => s.stage.Reaped? && s.mutex.Free?
    case CheckMonitored => s.stage.Looked?
    case Send => s.stage.Sending? && s.stage.ch in s.chans && s.chans[s.stage.ch] == []
    case Unmonitor => s.stage.Unmonitoring? && s.mutex.Free?
    case WaitLookUp(g) => Done(s.mutex, s.pidOf, g) && g !in s.waiters && s.mutex.Free? && s.pidOf[g] in s.waiting
    case WaitReceive(g) =>
      g in s.waiters && s.waiters[g].Receiving? && s.waiters[g].ch in s.chans && s.chans[s.waiters[g].ch] != []
  }

  function Step(s: State, a: Action): (s': State)
    requires Enabled(s, a)
  {
    match a
    case Fork(p) =>
      s.(
        procs := s.procs[p := Running(s.next)], pidOf := s.pidOf[s.next := p],
        mutex := Forked(p, s.next), next := s.next + 1)
    case RecordChannel =>
      var g := s.mutex.gen;
      s.(waiting := s.waiting[s.mutex.pid := g], chans := s.chans[g := []], mutex := Recorded(s.mutex.pid, g))
    case RecordMonitored => s.(monitored := s.monitored + {s.mutex.pid}, mutex := Free)
    case Adopt(p) => s.(procs := s.procs[p := Running(s.next)], next := s.next + 1)
    case Exit(p, status) =>
      var g := s.procs[p].gen;
      s.(procs := s.procs[p := Zombie(g, status)], exits := s.exits[g := status], pending := true)
    case DeliverSignal =>
      s.(pending := false, queued := if s.queued < SIGNAL_BUFFER then s.queued + 1 else s.queued)
    case Wake => s.(queued := s.queued - 1, stage := Looping)
    case Wait4Child(p) => s.(procs := s.procs - {p}, stage := Reaped(p, s.procs[p].gen, s.procs[p].status))
    case Wait4None => s.(stage := Idle)
    case LookUp =>
      var p := s.stage.pid;
      s.(stage := Looked(p, s.stage.gen, s.stage.status, if p in s.waiting then Some(s.waiting[p]) else None))
    case CheckMonitored =>
      if s.stage.pid in s.monitored && s.stage.found.Some?
      then s.(stage := Sending(s.stage.pid, s.stage.gen, s.stage.status, s.stage.found.value))
      else s.(stage := Looping)
    case Send =>
      var ch := s.stage.ch;
      s.(
        chans := s.chans[ch := [s.stage.status]], sent := s.sent + {ch},
        stage := Unmonitoring(s.stage.pid, s.stage.gen))
    case Unmonitor => s.(monitored := s.monitored - {s.stage.pid}, stage := Looping)
    case WaitLookUp(g) => s.(waiters := s.waiters[g := Receiving(s.waiting[s.pidOf[g]])])
    case WaitReceive(g) =>
      var ch := s.waiters[g].ch;
      s.(chans := s.chans[ch := s.chans[ch][1..]], waiters := s.waiters[g := Returned(s.chans[ch][0] % 256)])
  }

  // ----- when a pid may be used again

  /** The reaper is still busy with a process that had this pid, in a way that a new owner would notice. */
  predicate InHand(s: State, p: Pid)
  {
    match s.stage
    case Idle => false
    case Looping => false
    case Looked(q, _, _, found) => q == p && found.Some?
    case st => st.pid == p
  }

  /** Some earlier child with this pid was started whose Wait has not yet looked up its channel. */
  predicate Unclaimed(s: State, p: Pid)
  {
    exists g :: g in s.pidOf && s.pidOf[g] == p && g !in s.waiters
  }

  /** The kernel gives a new child a pid only when nobody is still after the old owner of that pid. */
  predicate Fair(s: State, a: Action)
  {
    a.Fork? ==> !InHand(s, a.pid) && !Unclaimed(s, a.pid)
  }

  // ----- what goes wrong otherwise

  /** Wait returned something else than the exit byte of its child, or listens on another child's channel;
      or the reaper is blocked on a full channel; or an exit status got lost. */
  ghost predicate Misdelivered(s: State)
  {
    exists g :: g in s.waiters &&
      match s.waiters[g]
      case Receiving(ch) => ch != g
      case Returned(b) => g !in s.exits || b != s.exits[g] % 256
  }

  ghost predicate Blocked(s: State)
  {
    s.stage.Sending? && (s.stage.ch !in s.chans || s.chans[s.stage.ch] != [])
  }

  /** The reaper is busy with process g. */
  predicate Holding(stage: Stage, g: Gen)
  {
    !stage.Idle? && !stage.Looping? && stage.gen == g
  }

  ghost predicate Dead(s: State, g: Gen)
  {
    forall p | p in s.procs :: s.procs[p].gen != g
  }

  ghost predicate Lost(s: State)
  {
    exists g :: Done(s.mutex, s.pidOf, g) && g in s.exits && g !in s.sent && Dead(s, g) && !Holding(s.stage, g)
  }

  // ----- the invariant

  /** Start has returned for child g. */
  predicate Done(mutex: Mutex, pidOf: map<Gen, Pid>, g: Gen)
  {
    g in pidOf && (mutex.Free? || mutex.gen != g)
  }

  /** The started children that the kernel or the reaper has not finished with. */
  ghost function Busy(procs: map<Pid, Process>, pidOf: map<Gen, Pid>, stage: Stage): (gs: set<Gen>)
  {
    set g | g in pidOf && ((pidOf[g] in procs && procs[pidOf[g]].gen == g) || Holding(stage, g))
  }

  /** Identities are fresh, a process has one pid, and statuses are recorded. */
  ghost predicate KernelOk(procs: map<Pid, Process>, next: Gen, pidOf: map<Gen, Pid>, exits: map<Gen, int>)
  {
    && (forall p | p in procs :: procs[p].gen < next)
    && (forall p, q | p in procs && q in procs && procs[p].gen == procs[q].gen :: p == q)
    && (forall p | p in procs && procs[p].gen in pidOf :: pidOf[procs[p].gen] == p)
    && (forall p | p in procs && procs[p].Running? :: procs[p].gen !in exits)
    && (forall p | p in procs && procs[p].Zombie? :: procs[p].gen in exits && exits[procs[p].gen] == procs[p].status)
    && (forall g | g in pidOf :: g < next)
    && (forall g | g in exits :: g < next)
  }

  ghost predicate UnsentOk(procs: map<Pid, Process>, sent: set<Gen>)
  {
    forall p | p in procs :: procs[p].gen !in sent
  }

  ghost predicate KeysOk(mutex: Mutex, pidOf: map<Gen, Pid>, chans: set<Gen>, waiters: set<Gen>, sent: set<Gen>)
  {
    && (forall g | g in chans :: g in pidOf)
    && (forall g | g in waiters :: Done(mutex, pidOf, g))
    && (forall g | g in sent :: Done(mutex, pidOf, g))
    && (forall g | g in pidOf && Done(mutex, pidOf, g) :: g in chans)
  }

  /** The Start in progress. */
  ghost predicate MutexOk(
    mutex: Mutex, pidOf: map<Gen, Pid>, waiting: map<Pid, Gen>, monitored: set<Pid>,
    chans: set<Gen>, waiters: set<Gen>, busy: set<Gen>)
  {
    !mutex.Free? ==>
      && mutex.gen in pidOf && pidOf[mutex.gen] == mutex.pid && mutex.pid !in monitored && mutex.gen in busy
      && (mutex.Forked? ==>
            mutex.gen !in chans && forall h | h in pidOf && pidOf[h] == mutex.pid && h != mutex.gen :: h in waiters)
      && (mutex.Recorded? ==> mutex.pid in waiting && waiting[mutex.pid] == mutex.gen)
  }

  ghost predicate WaitingOk(waiting: map<Pid, Gen>, chans: set<Gen>, pidOf: map<Gen, Pid>)
  {
    forall p | p in waiting :: waiting[p] in chans && waiting[p] in pidOf && pidOf[waiting[p]] == p
  }

  /** A monitored pid is the pid of a busy child. */
  ghost predicate MonitoredOk(
    monitored: set<Pid>, waiting: map<Pid, Gen>, mutex: Mutex, pidOf: map<Gen, Pid>, busy: set<Gen>)
  {
    forall p | p in monitored :: p in waiting && Done(mutex, pidOf, waiting[p]) && waiting[p] in busy
  }

  /** A busy child is monitored. */
  ghost predicate WatchedOk(
    monitored: set<Pid>, waiting: map<Pid, Gen>, mutex: Mutex, pidOf: map<Gen, Pid>, busy: set<Gen>)
  {
    forall g | g in busy && Done(mutex, pidOf, g) ::
      pidOf[g] in waiting && waiting[pidOf[g]] == g && pidOf[g] in monitored
  }

  ghost predicate UnclaimedOk(waiters: set<Gen>, waiting: map<Pid, Gen>, mutex: Mutex, pidOf: map<Gen, Pid>)
  {
    forall g | g in pidOf && Done(mutex, pidOf, g) && g !in waiters :: pidOf[g] in waiting && waiting[pidOf[g]] == g
  }

  /** What the reaper holds. */
  ghost predicate StageOk(
    stage: Stage, procs: map<Pid, Process>, next: Gen, pidOf: map<Gen, Pid>, mutex: Mutex, exits: map<Gen, int>,
    sent: set<Gen>)
  {
    stage.Idle? || stage.Looping? || (
      && stage.gen < next && stage.gen in exits
      && (stage.gen in pidOf ==> pidOf[stage.gen] == stage.pid)
      && (stage.Unmonitoring? || (exits[stage.gen] == stage.status && stage.gen !in sent))
      && (stage.Looked? && stage.gen in pidOf ==> Done(mutex, pidOf, stage.gen) && stage.found == Some(stage.gen))
      && (stage.Looked? && stage.found.Some? ==> stage.found.value in pidOf)
      && (stage.Sending? ==> stage.ch == stage.gen && Done(mutex, pidOf, stage.gen))
      && (stage.Unmonitoring? ==> Done(mutex, pidOf, stage.gen) && stage.gen in sent)
      && ((stage.Looked? && stage.found.None?) || (
            && (stage.pid in procs ==> procs[stage.pid].gen !in pidOf)
            && (!mutex.Free? && mutex.pid == stage.pid ==> mutex.gen == stage.gen && stage.Reaped?))))
  }

  /** Channels hold the status of their child from the send until Wait receives it. */
  ghost predicate ChannelsOk(chans: map<Gen, seq<int>>, sent: set<Gen>, waiters: map<Gen, Waiter>, exits: map<Gen, int>)
  {
    && (forall g | g in chans && g !in sent :: chans[g] == [])
    && (forall g | g in sent :: g in chans && g in exits)
    && (forall g | g in sent && g in waiters && waiters[g].Returned? :: chans[g] == [])
    && (forall g | g in sent && !(g in waiters && waiters[g].Returned?) :: chans[g] == [exits[g]])
    && (forall g | g in waiters && waiters[g].Receiving? :: waiters[g].ch == g)
    && (forall g | g in waiters && waiters[g].Returned? :: g in sent && waiters[g].exitByte == exits[g] % 256)
  }

  /** No exit is forgotten. */
  ghost predicate ExitsOk(pidOf: map<Gen, Pid>, exits: map<Gen, int>, sent: set<Gen>, busy: set<Gen>)
  {
    forall g | g in pidOf && g in exits :: g in sent || g in busy
  }

  /** One signal may stand for many exits, but while there is an exited child either a signal is on its way
      or the reaper is inside its wait4 loop. */
  ghost predicate NoLostWakeup(procs: map<Pid, Process>, pending: bool, queued: nat, stage: Stage)
  {
    AnyZombie(procs) ==> pending || queued > 0 || !stage.Idle?
  }

  ghost predicate Inv(s: State)
  {
    var busy := Busy(s.procs, s.pidOf, s.stage);
    && KernelOk(s.procs, s.next, s.pidOf, s.exits)
    && UnsentOk(s.procs, s.sent)
    && KeysOk(s.mutex, s.pidOf, s.chans.Keys, s.waiters.Keys, s.sent)
    && MutexOk(s.mutex, s.pidOf, s.waiting, s.monitored, s.chans.Keys, s.waiters.Keys, busy)
    && WaitingOk(s.waiting, s.chans.Keys, s.pidOf)
    && MonitoredOk(s.monitored, s.waiting, s.mutex, s.pidOf, busy)
    && WatchedOk(s.monitored, s.waiting, s.mutex, s.pidOf, busy)
    && UnclaimedOk(s.waiters.Keys, s.waiting, s.mutex, s.pidOf)
    && StageOk(s.stage, s.procs, s.next, s.pidOf, s.mutex, s.exits, s.sent)
    && ChannelsOk(s.chans, s.sent, s.waiters, s.exits)
    && ExitsOk(s.pidOf, s.exits, s.sent, busy)
    && NoLostWakeup(s.procs, s.pending, s.queued, s.stage)
  }

  lemma InvIsSafe(s: State)
    requires Inv(s)
    ensures !Misdelivered(s) && !Blocked(s) && !Lost(s)
  {
  }

  lemma InitialInv()
    ensures Inv(INITIAL)
  {
  }

  // ----- one part of the invariant at a time

  /** A new process gets the next identity; pidOf' may record it. */
  lemma NewProcess(
    procs: map<Pid, Process>, next: Gen, pidOf: map<Gen, Pid>, pidOf': map<Gen, Pid>, exits: map<Gen, int>, p: Pid)
    requires KernelOk(procs, next, pidOf, exits) && p !in procs && (pidOf' == pidOf || pidOf' == pidOf[next := p])
    ensures KernelOk(procs[p := Running(next)], next + 1, pidOf', exits)
    ensures next !in pidOf && next !in exits
  {
  }

  lemma NewProcessUnsent(procs: map<Pid, Process>, sent: set<Gen>, p: Pid, g: Gen)
    requires UnsentOk(procs, sent) && p !in procs && g !in sent
    ensures UnsentOk(procs[p := Running(g)], sent)
    ensures AnyZombie(procs[p := Running(g)]) ==> AnyZombie(procs)
  {
    var procs' := procs[p := Running(g)];
    if AnyZombie(procs') {
      var q :| q in procs' && procs'[q].Zombie?;
      assert q in procs && procs[q].Zombie?;
    }
  }

  lemma NewProcessBusy(procs: map<Pid, Process>, pidOf: map<Gen, Pid>, stage: Stage, p: Pid, g: Gen)
    requires p !in procs && g !in pidOf && !Holding(stage, g)
    ensures Busy(procs[p := Running(g)], pidOf, stage) == Busy(procs, pidOf, stage)
    ensures Busy(procs[p := Running(g)], pidOf[g := p], stage) == Busy(procs, pidOf, stage) + {g}
  {
  }

  lemma AdoptStage(
    stage: Stage, procs: map<Pid, Process>, next: Gen, pidOf: map<Gen, Pid>, mutex: Mutex, exits: map<Gen, int>,
    sent: set<Gen>, p: Pid)
    requires StageOk(stage, procs, next, pidOf, mutex, exits, sent) && next !in pidOf
    ensures StageOk(stage, procs[p := Running(next)], next + 1, pidOf, mutex, exits, sent)
    ensures !Holding(stage, next)
  {
  }

  lemma ForkStage(s: State, p: Pid)
    requires StageOk(s.stage, s.procs, s.next, s.pidOf, s.mutex, s.exits, s.sent)
    requires KernelOk(s.procs, s.next, s.pidOf, s.exits) && s.mutex.Free? && !InHand(s, p)
    ensures StageOk(
      s.stage, s.procs[p := Running(s.next)], s.next + 1, s.pidOf[s.next := p], Forked(p, s.next), s.exits, s.sent)
  {
  }

  lemma ForkKeys(pidOf: map<Gen, Pid>, chans: set<Gen>, waiters: set<Gen>, sent: set<Gen>, p: Pid, g: Gen)
    requires KeysOk(Free, pidOf, chans, waiters, sent) && g !in pidOf
    ensures KeysOk(Forked(p, g), pidOf[g := p], chans, waiters, sent) && g !in sent && g !in chans
  {
  }

  lemma ForkWaiting(waiting: map<Pid, Gen>, chans: set<Gen>, waiters: set<Gen>, pidOf: map<Gen, Pid>, p: Pid, g: Gen)
    requires WaitingOk(waiting, chans, pidOf) && UnclaimedOk(waiters, waiting, Free, pidOf) && g !in pidOf
    ensures WaitingOk(waiting, chans, pidOf[g := p]) && UnclaimedOk(waiters, waiting, Forked(p, g), pidOf[g := p])
  {
  }

  lemma ForkExits(pidOf: map<Gen, Pid>, exits: map<Gen, int>, sent: set<Gen>, busy: set<Gen>, p: Pid, g: Gen)
    requires ExitsOk(pidOf, exits, sent, busy)
    ensures ExitsOk(pidOf[g := p], exits, sent, busy + {g})
  {
  }

  lemma ForkMonitored(monitored: set<Pid>, waiting: map<Pid, Gen>, pidOf: map<Gen, Pid>, busy: set<Gen>, p: Pid, g: Gen)
    requires MonitoredOk(monitored, waiting, Free, pidOf, busy) && WatchedOk(monitored, waiting, Free, pidOf, busy)
    requires g !in pidOf && forall h | h in busy :: h in pidOf
    ensures MonitoredOk(monitored, waiting, Forked(p, g), pidOf[g := p], busy + {g})
    ensures WatchedOk(monitored, waiting, Forked(p, g), pidOf[g := p], busy + {g})
  {
  }

  /** A pid that no process has and the reaper does not hold is not monitored. */
  lemma UnusedPidUnmonitored(s: State, p: Pid)
    requires MonitoredOk(s.monitored, s.waiting, s.mutex, s.pidOf, Busy(s.procs, s.pidOf, s.stage))
    requires WaitingOk(s.waiting, s.chans.Keys, s.pidOf)
    requires StageOk(s.stage, s.procs, s.next, s.pidOf, s.mutex, s.exits, s.sent)
    requires p !in s.procs && !InHand(s, p)
    ensures p !in s.monitored
  {
  }

  lemma ForkKeepsInv(s: State, p: Pid)
    requires Inv(s) && Enabled(s, Fork(p)) && Fair(s, Fork(p))
    ensures Inv(Step(s, Fork(p)))
  {
    hide KernelOk, UnsentOk, KeysOk, WaitingOk, MonitoredOk;
    hide WatchedOk, UnclaimedOk, StageOk, ChannelsOk, ExitsOk, NoLostWakeup;
    var busy := Busy(s.procs, s.pidOf, s.stage);
    NewProcess(s.procs, s.next, s.pidOf, s.pidOf[s.next := p], s.exits, p);
    ForkKeys(s.pidOf, s.chans.Keys, s.waiters.Keys, s.sent, p, s.next);
    NewProcessUnsent(s.procs, s.sent, p, s.next);
    AdoptStage(s.stage, s.procs, s.next, s.pidOf, s.mutex, s.exits, s.sent, p);
    NewProcessBusy(s.procs, s.pidOf, s.stage, p, s.next);
    ForkStage(s, p);
    ForkWaiting(s.waiting, s.chans.Keys, s.waiters.Keys, s.pidOf, p, s.next);
    ForkExits(s.pidOf, s.exits, s.sent, busy, p, s.next);
    ForkMonitored(s.monitored, s.waiting, s.pidOf, busy, p, s.next);
    UnusedPidUnmonitored(s, p);
    NoZombieAdded(s.procs, s.procs[p := Running(s.next)], s.pending, s.queued, s.stage);
  }

  lemma NoZombieAdded(procs: map<Pid, Process>, procs': map<Pid, Process>, pending: bool, queued: nat, stage: Stage)
    requires NoLostWakeup(procs, pending, queued, stage) && (AnyZombie(procs') ==> AnyZombie(procs))
    ensures NoLostWakeup(procs', pending, queued, stage)
  {
  }

  lemma AdoptKeepsInv(s: State, p: Pid)
    requires Inv(s) && Enabled(s, Adopt(p))
    ensures Inv(Step(s, Adopt(p)))
  {
    hide KernelOk, UnsentOk, KeysOk, MutexOk, WaitingOk, MonitoredOk;
    hide WatchedOk, UnclaimedOk, StageOk, ChannelsOk, ExitsOk, NoLostWakeup;
    NewProcess(s.procs, s.next, s.pidOf, s.pidOf, s.exits, p);
    UnknownUnsent(s.mutex, s.pidOf, s.chans.Keys, s.waiters.Keys, s.sent, s.next);
    NewProcessUnsent(s.procs, s.sent, p, s.next);
    AdoptStage(s.stage, s.procs, s.next, s.pidOf, s.mutex, s.exits, s.sent, p);
    NewProcessBusy(s.procs, s.pidOf, s.stage, p, s.next);
    NoZombieAdded(s.procs, s.procs[p := Running(s.next)], s.pending, s.queued, s.stage);
  }

  lemma UnknownUnsent(mutex: Mutex, pidOf: map<Gen, Pid>, chans: set<Gen>, waiters: set<Gen>, sent: set<Gen>, g: Gen)
    requires KeysOk(mutex, pidOf, chans, waiters, sent) && g !in pidOf
    ensures g !in sent
  {
  }

  lemma RecordKeys(pidOf: map<Gen, Pid>, chans: set<Gen>, waiters: set<Gen>, sent: set<Gen>, p: Pid, g: Gen)
    requires KeysOk(Forked(p, g), pidOf, chans, waiters, sent) && g in pidOf
    ensures KeysOk(Recorded(p, g), pidOf, chans + {g}, waiters, sent) && g !in sent && g !in waiters
  {
  }

  lemma RecordWaiting(waiting: map<Pid, Gen>, chans: set<Gen>, waiters: set<Gen>, pidOf: map<Gen, Pid>, p: Pid, g: Gen)
    requires WaitingOk(waiting, chans, pidOf) && UnclaimedOk(waiters, waiting, Forked(p, g), pidOf)
    requires g in pidOf && pidOf[g] == p && forall h | h in pidOf && pidOf[h] == p && h != g :: h in waiters
    ensures WaitingOk(waiting[p := g], chans + {g}, pidOf)
    ensures UnclaimedOk(waiters, waiting[p := g], Recorded(p, g), pidOf)
  {
  }

  lemma RecordEmptyChannel(
    chans: map<Gen, seq<int>>, sent: set<Gen>, waiters: map<Gen, Waiter>, exits: map<Gen, int>, g: Gen)
    requires ChannelsOk(chans, sent, waiters, exits) && g !in chans
    ensures ChannelsOk(chans[g := []], sent, waiters, exits)
  {
  }

  lemma RecordWatched(monitored: set<Pid>, waiting: map<Pid, Gen>, pidOf: map<Gen, Pid>, busy: set<Gen>, p: Pid, g: Gen)
    requires MonitoredOk(monitored, waiting, Forked(p, g), pidOf, busy)
    requires WatchedOk(monitored, waiting, Forked(p, g), pidOf, busy)
    requires p !in monitored
    ensures MonitoredOk(monitored, waiting[p := g], Recorded(p, g), pidOf, busy)
    ensures WatchedOk(monitored, waiting[p := g], Recorded(p, g), pidOf, busy)
  {
  }

  /** The reaper's stage depends on the mutex only through the child being started. */
  lemma RecordStage(
    stage: Stage, procs: map<Pid, Process>, next: Gen, pidOf: map<Gen, Pid>, mutex: Mutex, mutex': Mutex,
    exits: map<Gen, int>, sent: set<Gen>)
    requires StageOk(stage, procs, next, pidOf, mutex, exits, sent)
    requires !mutex.Free? && (mutex'.Free? || (mutex'.pid == mutex.pid && mutex'.gen == mutex.gen))
    ensures StageOk(stage, procs, next, pidOf, mutex', exits, sent)
  {
  }

  lemma RecordChannelKeepsInv(s: State)
    requires Inv(s) && Enabled(s, RecordChannel)
    ensures Inv(Step(s, RecordChannel))
  {
    hide KernelOk, UnsentOk, KeysOk, WaitingOk, MonitoredOk;
    hide WatchedOk, UnclaimedOk, StageOk, ChannelsOk, ExitsOk, NoLostWakeup;
    var p, g := s.mutex.pid, s.mutex.gen;
    assert Step(s, RecordChannel).chans.Keys == s.chans.Keys + {g};
    RecordKeys(s.pidOf, s.chans.Keys, s.waiters.Keys, s.sent, p, g);
    RecordWaiting(s.waiting, s.chans.Keys, s.waiters.Keys, s.pidOf, p, g);
    RecordEmptyChannel(s.chans, s.sent, s.waiters, s.exits, g);
    RecordWatched(s.monitored, s.waiting, s.pidOf, Busy(s.procs, s.pidOf, s.stage), p, g);
    RecordStage(s.stage, s.procs, s.next, s.pidOf, s.mutex, Recorded(p, g), s.exits, s.sent);
  }

  lemma StartedKeys(
    pidOf: map<Gen, Pid>, chans: set<Gen>, waiters: set<Gen>, sent: set<Gen>, waiting: map<Pid, Gen>, p: Pid, g: Gen)
    requires KeysOk(Recorded(p, g), pidOf, chans, waiters, sent) && UnclaimedOk(waiters, waiting, Recorded(p, g), pidOf)
    requires g in chans && g in pidOf && pidOf[g] == p && p in waiting && waiting[p] == g
    ensures KeysOk(Free, pidOf, chans, waiters, sent) && UnclaimedOk(waiters, waiting, Free, pidOf)
  {
  }

  lemma StartedMonitored(
    monitored: set<Pid>, waiting: map<Pid, Gen>, pidOf: map<Gen, Pid>, busy: set<Gen>, p: Pid, g: Gen)
    requires MonitoredOk(monitored, waiting, Recorded(p, g), pidOf, busy)
    requires WatchedOk(monitored, waiting, Recorded(p, g), pidOf, busy)
    requires g in pidOf && pidOf[g] == p && p in waiting && waiting[p] == g && g in busy
    ensures MonitoredOk(monitored + {p}, waiting, Free, pidOf, busy)
    ensures WatchedOk(monitored + {p}, waiting, Free, pidOf, busy)
  {
  }

  lemma RecordMonitoredKeepsInv(s: State)
    requires Inv(s) && Enabled(s, RecordMonitored)
    ensures Inv(Step(s, RecordMonitored))
  {
    hide KernelOk, UnsentOk, KeysOk, MonitoredOk, WatchedOk, UnclaimedOk, StageOk, ChannelsOk, ExitsOk, NoLostWakeup;
    var p, g := s.mutex.pid, s.mutex.gen;
    StartedKeys(s.pidOf, s.chans.Keys, s.waiters.Keys, s.sent, s.waiting, p, g);
    StartedMonitored(s.monitored, s.waiting, s.pidOf, Busy(s.procs, s.pidOf, s.stage), p, g);
    RecordStage(s.stage, s.procs, s.next, s.pidOf, s.mutex, Free, s.exits, s.sent);
  }

  lemma ExitKernel(
    procs: map<Pid, Process>, next: Gen, pidOf: map<Gen, Pid>, exits: map<Gen, int>, sent: set<Gen>, p: Pid,
    status: int)
    requires KernelOk(procs, next, pidOf, exits) && UnsentOk(procs, sent) && p in procs && procs[p].Running?
    ensures var g := procs[p].gen;
            && KernelOk(procs[p := Zombie(g, status)], next, pidOf, exits[g := status])
            && UnsentOk(procs[p := Zombie(g, status)], sent)
            && g !in exits && g !in sent
  {
  }

  lemma ExitBusy(procs: map<Pid, Process>, pidOf: map<Gen, Pid>, stage: Stage, p: Pid, status: int)
    requires p in procs
    ensures Busy(procs[p := Zombie(procs[p].gen, status)], pidOf, stage) == Busy(procs, pidOf, stage)
  {
  }

  lemma ExitStage(
    stage: Stage, procs: map<Pid, Process>, next: Gen, pidOf: map<Gen, Pid>, mutex: Mutex, exits: map<Gen, int>,
    sent: set<Gen>, p: Pid, status: int)
    requires StageOk(stage, procs, next, pidOf, mutex, exits, sent) && p in procs && procs[p].gen !in exits
    ensures StageOk(
      stage, procs[p := Zombie(procs[p].gen, status)], next, pidOf, mutex, exits[procs[p].gen := status], sent)
  {
  }

  lemma ExitRecorded(
    chans: map<Gen, seq<int>>, sent: set<Gen>, waiters: map<Gen, Waiter>, exits: map<Gen, int>, pidOf: map<Gen, Pid>,
    busy: set<Gen>, g: Gen, status: int)
    requires ChannelsOk(chans, sent, waiters, exits) && ExitsOk(pidOf, exits, sent, busy)
    requires g !in sent && (g in pidOf ==> g in busy)
    ensures ChannelsOk(chans, sent, waiters, exits[g := status]) && ExitsOk(pidOf, exits[g := status], sent, busy)
  {
  }

  /** A started child that exists is busy. */
  lemma ExistingIsBusy(
    procs: map<Pid, Process>, next: Gen, pidOf: map<Gen, Pid>, exits: map<Gen, int>, stage: Stage, p: Pid)
    requires KernelOk(procs, next, pidOf, exits) && p in procs && procs[p].gen in pidOf
    ensures procs[p].gen in Busy(procs, pidOf, stage) && pidOf[procs[p].gen] == p
  {
  }

  lemma ExitKeepsInv(s: State, p: Pid, status: int)
    requires Inv(s) && Enabled(s, Exit(p, status))
    ensures Inv(Step(s, Exit(p, status)))
  {
    hide KernelOk, UnsentOk, KeysOk, MutexOk, WaitingOk;
    hide MonitoredOk, WatchedOk, UnclaimedOk, StageOk, ChannelsOk, ExitsOk;
    var g := s.procs[p].gen;
    ExitKernel(s.procs, s.next, s.pidOf, s.exits, s.sent, p, status);
    ExitBusy(s.procs, s.pidOf, s.stage, p, status);
    ExitStage(s.stage, s.procs, s.next, s.pidOf, s.mutex, s.exits, s.sent, p, status);
    if g in s.pidOf {
      ExistingIsBusy(s.procs, s.next, s.pidOf, s.exits, s.stage, p);
    }
    ExitRecorded(s.chans, s.sent, s.waiters, s.exits, s.pidOf, Busy(s.procs, s.pidOf, s.stage), g, status);
  }

  lemma SignalKeepsInv(s: State, a: Action)
    requires Inv(s) && Enabled(s, a) && (a.DeliverSignal? || a.Wake?)
    ensures Inv(Step(s, a))
  {
    hide KernelOk, UnsentOk, KeysOk, MutexOk, WaitingOk, MonitoredOk, WatchedOk, UnclaimedOk, ChannelsOk, ExitsOk;
    assert Busy(s.procs, s.pidOf, Step(s, a).stage) == Busy(s.procs, s.pidOf, s.stage);
  }

  lemma ReapKernel(
    procs: map<Pid, Process>, next: Gen, pidOf: map<Gen, Pid>, exits: map<Gen, int>, sent: set<Gen>, p: Pid)
    requires KernelOk(procs, next, pidOf, exits) && UnsentOk(procs, sent) && p in procs
    ensures KernelOk(procs - {p}, next, pidOf, exits) && UnsentOk(procs - {p}, sent)
  {
  }

  lemma ReapBusy(procs: map<Pid, Process>, next: Gen, pidOf: map<Gen, Pid>, exits: map<Gen, int>, p: Pid)
    requires KernelOk(procs, next, pidOf, exits) && p in procs && procs[p].Zombie?
    ensures Busy(procs - {p}, pidOf, Reaped(p, procs[p].gen, procs[p].status)) == Busy(procs, pidOf, Looping)
  {
  }

  lemma ReapStage(s: State, p: Pid)
    requires KernelOk(s.procs, s.next, s.pidOf, s.exits) && UnsentOk(s.procs, s.sent)
    requires MutexOk(
      s.mutex, s.pidOf, s.waiting, s.monitored, s.chans.Keys, s.waiters.Keys, Busy(s.procs, s.pidOf, Looping))
    requires p in s.procs && s.procs[p].Zombie?
    ensures StageOk(
      Reaped(p, s.procs[p].gen, s.procs[p].status), s.procs - {p}, s.next, s.pidOf, s.mutex, s.exits, s.sent)
  {
  }

  lemma Wait4ChildKeepsInv(s: State, p: Pid)
    requires Inv(s) && Enabled(s, Wait4Child(p))
    ensures Inv(Step(s, Wait4Child(p)))
  {
    hide KernelOk, UnsentOk, KeysOk, MutexOk, WaitingOk;
    hide MonitoredOk, WatchedOk, UnclaimedOk, StageOk, ChannelsOk, ExitsOk;
    ReapKernel(s.procs, s.next, s.pidOf, s.exits, s.sent, p);
    ReapBusy(s.procs, s.next, s.pidOf, s.exits, p);
    ReapStage(s, p);
  }

  lemma Wait4NoneKeepsInv(s: State)
    requires Inv(s) && Enabled(s, Wait4None)
    ensures Inv(Step(s, Wait4None))
  {
    hide KernelOk, UnsentOk, KeysOk, MutexOk, WaitingOk, MonitoredOk, WatchedOk, UnclaimedOk, ChannelsOk, ExitsOk;
    assert Busy(s.procs, s.pidOf, Idle) == Busy(s.procs, s.pidOf, s.stage);
  }

  /** The channel the reaper finds for a started child is that child's own. */
  lemma LookUpStage(s: State)
    requires StageOk(s.stage, s.procs, s.next, s.pidOf, s.mutex, s.exits, s.sent) && s.stage.Reaped? && s.mutex.Free?
    requires WatchedOk(s.monitored, s.waiting, s.mutex, s.pidOf, Busy(s.procs, s.pidOf, s.stage))
    requires WaitingOk(s.waiting, s.chans.Keys, s.pidOf)
    ensures StageOk(Step(s, LookUp).stage, s.procs, s.next, s.pidOf, s.mutex, s.exits, s.sent)
  {
    if s.stage.gen in s.pidOf {
      assert s.stage.gen in Busy(s.procs, s.pidOf, s.stage);
    }
  }

  lemma LookUpKeepsInv(s: State)
    requires Inv(s) && Enabled(s, LookUp)
    ensures Inv(Step(s, LookUp))
  {
    hide KernelOk, UnsentOk, KeysOk, MutexOk, WaitingOk;
    hide MonitoredOk, WatchedOk, UnclaimedOk, StageOk, ChannelsOk, ExitsOk;
    assert Busy(s.procs, s.pidOf, Step(s, LookUp).stage) == Busy(s.procs, s.pidOf, s.stage);
    LookUpStage(s);
  }

  /** The reaper goes on to send exactly when it holds a started child; an orphan that uses the pid of
      an earlier child is not mistaken for it. */
  lemma CheckFindsOwn(s: State)
    requires StageOk(s.stage, s.procs, s.next, s.pidOf, s.mutex, s.exits, s.sent) && s.stage.Looked?
    requires WaitingOk(s.waiting, s.chans.Keys, s.pidOf)
    requires MonitoredOk(s.monitored, s.waiting, s.mutex, s.pidOf, Busy(s.procs, s.pidOf, s.stage))
    requires WatchedOk(s.monitored, s.waiting, s.mutex, s.pidOf, Busy(s.procs, s.pidOf, s.stage))
    ensures s.stage.pid in s.monitored && s.stage.found.Some? <==> s.stage.gen in s.pidOf
  {
    var p, g := s.stage.pid, s.stage.gen;
    if g in s.pidOf {
      assert g in Busy(s.procs, s.pidOf, s.stage);
    }
  }

  lemma CheckMonitoredKeepsInv(s: State)
    requires Inv(s) && Enabled(s, CheckMonitored)
    ensures Inv(Step(s, CheckMonitored))
  {
    hide KernelOk, UnsentOk, KeysOk, MutexOk, WaitingOk, MonitoredOk, WatchedOk, UnclaimedOk, ChannelsOk, ExitsOk;
    CheckFindsOwn(s);
    assert Busy(s.procs, s.pidOf, Step(s, CheckMonitored).stage) == Busy(s.procs, s.pidOf, s.stage);
  }

  lemma SendUnsent(s: State)
    requires KernelOk(s.procs, s.next, s.pidOf, s.exits) && UnsentOk(s.procs, s.sent)
    requires StageOk(s.stage, s.procs, s.next, s.pidOf, s.mutex, s.exits, s.sent) && s.stage.Sending?
    ensures UnsentOk(s.procs, s.sent + {s.stage.ch})
    ensures StageOk(
      Unmonitoring(s.stage.pid, s.stage.gen), s.procs, s.next, s.pidOf, s.mutex, s.exits, s.sent + {s.stage.ch})
  {
  }

  lemma SendKeys(
    mutex: Mutex, pidOf: map<Gen, Pid>, chans: set<Gen>, waiters: set<Gen>, sent: set<Gen>, g: Gen, exits: map<Gen,
    int>, busy: set<Gen>)
    requires KeysOk(mutex, pidOf, chans, waiters, sent) && Done(mutex, pidOf, g) && ExitsOk(pidOf, exits, sent, busy)
    ensures KeysOk(mutex, pidOf, chans, waiters, sent + {g}) && ExitsOk(pidOf, exits, sent + {g}, busy)
  {
  }

  lemma SendChannel(chans: map<Gen, seq<int>>, sent: set<Gen>, waiters: map<Gen, Waiter>, exits: map<Gen, int>, g: Gen)
    requires ChannelsOk(chans, sent, waiters, exits) && g in chans && g !in sent && g in exits
    ensures ChannelsOk(chans[g := [exits[g]]], sent + {g}, waiters, exits)
  {
  }

  lemma SendKeepsInv(s: State)
    requires Inv(s) && Enabled(s, Send)
    ensures Inv(Step(s, Send))
  {
    hide KernelOk, UnsentOk, KeysOk, MutexOk, WaitingOk, MonitoredOk, WatchedOk, UnclaimedOk, ChannelsOk, ExitsOk;
    var g := s.stage.gen;
    SendUnsent(s);
    SendKeys(s.mutex, s.pidOf, s.chans.Keys, s.waiters.Keys, s.sent, g, s.exits, Busy(s.procs, s.pidOf, s.stage));
    SendChannel(s.chans, s.sent, s.waiters, s.exits, g);
    assert Step(s, Send).chans.Keys == s.chans.Keys;
    assert Busy(s.procs, s.pidOf, Step(s, Send).stage) == Busy(s.procs, s.pidOf, s.stage);
  }

  lemma UnmonitorBusy(s: State)
    requires StageOk(s.stage, s.procs, s.next, s.pidOf, s.mutex, s.exits, s.sent) && s.stage.Unmonitoring?
    ensures Busy(s.procs, s.pidOf, Looping) == Busy(s.procs, s.pidOf, s.stage) - {s.stage.gen}
  {
  }

  lemma UnmonitorMonitored(
    monitored: set<Pid>, waiting: map<Pid, Gen>, chans: set<Gen>, pidOf: map<Gen, Pid>, busy: set<Gen>, g: Gen,
    exits: map<Gen, int>, sent: set<Gen>)
    requires MonitoredOk(monitored, waiting, Free, pidOf, busy) && WatchedOk(monitored, waiting, Free, pidOf, busy)
    requires WaitingOk(waiting, chans, pidOf) && ExitsOk(pidOf, exits, sent, busy)
    requires g in busy && g in sent && forall h | h in busy :: h in pidOf
    ensures MonitoredOk(monitored - {pidOf[g]}, waiting, Free, pidOf, busy - {g})
    ensures WatchedOk(monitored - {pidOf[g]}, waiting, Free, pidOf, busy - {g})
    ensures ExitsOk(pidOf, exits, sent, busy - {g})
  {
    assert Done(Free, pidOf, g);
  }

  lemma UnmonitorKeepsInv(s: State)
    requires Inv(s) && Enabled(s, Unmonitor)
    ensures Inv(Step(s, Unmonitor))
  {
    hide KernelOk, UnsentOk, KeysOk, WaitingOk, MonitoredOk, WatchedOk, UnclaimedOk, ChannelsOk, ExitsOk;
    UnmonitorBusy(s);
    assert s.stage.gen in Busy(s.procs, s.pidOf, s.stage);
    UnmonitorMonitored(
      s.monitored, s.waiting, s.chans.Keys, s.pidOf, Busy(s.procs, s.pidOf, s.stage), s.stage.gen, s.exits, s.sent);
  }

  lemma WaitLookUpKeys(
    pidOf: map<Gen, Pid>, chans: set<Gen>, waiters: set<Gen>, sent: set<Gen>, waiting: map<Pid, Gen>, g: Gen)
    requires KeysOk(Free, pidOf, chans, waiters, sent) && UnclaimedOk(waiters, waiting, Free, pidOf) && g in pidOf
    requires g !in waiters
    ensures KeysOk(Free, pidOf, chans, waiters + {g}, sent) && UnclaimedOk(waiters + {g}, waiting, Free, pidOf)
    ensures pidOf[g] in waiting && waiting[pidOf[g]] == g
  {
  }

  lemma WaitLookUpChannel(
    chans: map<Gen, seq<int>>, sent: set<Gen>, waiters: map<Gen, Waiter>, exits: map<Gen, int>, g: Gen)
    requires ChannelsOk(chans, sent, waiters, exits) && g !in waiters
    ensures ChannelsOk(chans, sent, waiters[g := Receiving(g)], exits)
  {
  }

  lemma WaitLookUpKeepsInv(s: State, g: Gen)
    requires Inv(s) && Enabled(s, WaitLookUp(g))
    ensures Inv(Step(s, WaitLookUp(g)))
  {
    hide KernelOk, UnsentOk, KeysOk, WaitingOk, MonitoredOk;
    hide WatchedOk, UnclaimedOk, StageOk, ChannelsOk, ExitsOk, NoLostWakeup;
    WaitLookUpKeys(s.pidOf, s.chans.Keys, s.waiters.Keys, s.sent, s.waiting, g);
    WaitLookUpChannel(s.chans, s.sent, s.waiters, s.exits, g);
    assert Step(s, WaitLookUp(g)).waiters.Keys == s.waiters.Keys + {g};
  }

  lemma WaitReceiveChannel(
    chans: map<Gen, seq<int>>, sent: set<Gen>, waiters: map<Gen, Waiter>, exits: map<Gen, int>, g: Gen)
    requires ChannelsOk(chans, sent, waiters, exits) && g in waiters && waiters[g].Receiving? && g in chans
    requires chans[g] != []
    ensures ChannelsOk(chans[g := chans[g][1..]], sent, waiters[g := Returned(chans[g][0] % 256)], exits)
  {
  }

  lemma WaitReceiveKeepsInv(s: State, g: Gen)
    requires Inv(s) && Enabled(s, WaitReceive(g))
    ensures Inv(Step(s, WaitReceive(g)))
  {
    hide KernelOk, UnsentOk, KeysOk, MutexOk, WaitingOk;
    hide MonitoredOk, WatchedOk, UnclaimedOk, StageOk, ExitsOk, NoLostWakeup;
    WaitReceiveChannel(s.chans, s.sent, s.waiters, s.exits, g);
    assert Step(s, WaitReceive(g)).waiters.Keys == s.waiters.Keys;
    assert Step(s, WaitReceive(g)).chans.Keys == s.chans.Keys;
  }

  lemma StepKeepsInv(s: State, a: Action)
    requires Inv(s) && Enabled(s, a) && Fair(s, a)
    ensures Inv(Step(s, a))
  {
    hide Inv, Step;
    match a
    case Fork(p) => ForkKeepsInv(s, p);
    case RecordChannel => RecordChannelKeepsInv(s);
    case RecordMonitored => RecordMonitoredKeepsInv(s);
    case Adopt(p) => AdoptKeepsInv(s, p);
    case Exit(p, status) => ExitKeepsInv(s, p, status);
    case DeliverSignal => SignalKeepsInv(s, a);
    case Wake => SignalKeepsInv(s, a);
    case Wait4Child(p) => Wait4ChildKeepsInv(s, p);
    case Wait4None => Wait4NoneKeepsInv(s);
    case LookUp => LookUpKeepsInv(s);
    case CheckMonitored => CheckMonitoredKeepsInv(s);
    case Send => SendKeepsInv(s);
    case Unmonitor => UnmonitorKeepsInv(s);
    case WaitLookUp(g) => WaitLookUpKeepsInv(s, g);
    case WaitReceive(g) => WaitReceiveKeepsInv(s, g);
  }
}
