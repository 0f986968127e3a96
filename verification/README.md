# Verified model of the container backend

The backend hands out three kinds of resources to containers: a network (a subnet of a dynamic range or a
requested one, and an address in it), a host bridge per subnet, and host ports. It creates containers by a
handshake between two processes, runs processes inside them through a reaping daemon, and compiles outbound rules
into a packet filter chain. This project models these parts and proves what they are meant to guarantee: for every
input, every run and every interleaving of the model's steps.

`dafny verify dfyconfig.toml` checks everything.

| file | what it models |
|---|---|
| IPUtil, Subnets, SubnetPool, SubnetExhaustion | byte-level IPv4 arithmetic, the four selectors, the pool object, its runs and its exhaustion |
| PortPool | the FIFO list of host ports, its fairness and its restart |
| BridgeMgr, BridgeInterleaving | which containers share which bridge; Release split into its locked and its unlocked step |
| Requests | what the network part of a container specification asks for, and what it gets |
| ResourcePool, Rollback | acquiring, restoring and releasing the resources of one container, with every step able to fail |
| Backend, Accounting, BackendRuns, ExactAccounting, Handles | Create, Destroy, NetIn and restore over the pools, and the accounting of networks, ports and bridges over whole runs |
| Replay | what replaying the mappings of a restored container does |
| Restart, RestartRuns | stopping the backend and starting it again from the snapshots of its containers, and when exactly that works |
| Counterexamples | runs in which an operation breaks what one would expect of it |
| Reaper, ReaperRuns, ReaperDelivery | Start, exits, SIGCHLD, wait4, delivery and Wait as a transition system |
| Handshake, HandshakeOutcomes | the creating process, the init process and the two pipes between them, and how Create ends |
| IPTables | outbound rules and the first-match chain they become |
| Rlimits, Env, Text | limits and environments as text, and the string functions they use |
| Identifiers | container IDs and bridge names in base 32 |
| Arithmetic, Collections, Outcomes | powers of two and bits, finite sets and sequences, options and results |

Conventions. Objects that the program updates in place are classes; each method is proved against a function of the
old state, and the lemmas are about those functions. Commands, scripts, files, the kernel and the clock are inputs:
a parameter says whether a step succeeds or what it yields, and every claim holds for all choices. `Panic` is a
run-time panic. Addresses are four bytes held as numbers 0..255; a network is canonical, as `net.ParseCIDR`
returns it.

Some properties one would expect are false of the program as it stands. Each is stated with the exact condition under
which it holds, and with an input or a run from the start that breaks it:

- `Remove` and `Rereserve` accept a network or bridge that clashes with what is allocated
  (`SubnetPool.RemoveKeepsInvIff`, `BridgeMgr.RereserveKeepsInvIff`; `Counterexamples.OverlappingRemoveIsAccepted`,
  `Counterexamples.SecondBridgeIsAccepted`).
- The reaper may misdeliver, block or lose an exit when a new child gets a pid that the reaper still has in
  hand, between `wait4` and `unmonitorPid`, or whose earlier owner has not been waited for
  (`ReaperRuns.ReusedPidHarms`). This can happen even after the earlier child's Wait has returned
  (`ReaperRuns.EarlyReuseIsReachable`).
- A reserved bridge is destroyed when a name is generated that is about to be destroyed or is another subnet's bridge,
  or when a restored container names one that is about to be destroyed (`BridgeInterleaving.UnfairNameHarms`,
  `BridgeInterleaving.UnfairNameIsReachable`).
- A failed acquisition keeps its bridge reservation when the bridge's name could not be saved or read back, and a
  failed restore frees ports that others hold (`Rollback.FailedAcquireRollsBack`, `Rollback.FailedRestoreRollsBack`;
  `Counterexamples.UnsavedNameLeaks`, `Counterexamples.FailedRestoreFreesLivePort`).
- A port pool whose range wraps around 32 bits passes the range check but is not a proper list (`PortPool.New`,
  `PortPool.WrappedRangeIsAccepted`).
- A restart brings back all containers with their networks, ports and bridges, in every order, exactly when nothing was
  lost before, every bridge has a name, and every container either has no mapping of host port 0 or holds all ports
  (`RestartRuns.RestartRecoversIff`). Pools that contain port 0 break this: a container gains a port
  (`Counterexamples.PortZeroIsRemapped`), which may be that of another container, and that one is then not restored
  (`Counterexamples.LaterRestoreFails`).
- A restart keeps the order of the free ports exactly when the list goes once round the range from its first port on
  (`PortPool.RestartKeepsOrderIff`, `PortPool.RestartMayReorder`).
- An environment with empty keys or keys containing '=' is not recovered from its array (`Env.ParseUndoesArray`,
  `Env.BadKeysAreLost`).

Where code and documentation disagree the code is followed: the comment on `GatewayIP` speaks of the maximum address
of a subnet, the code takes the one after the network address (network/subnets/subnets.go:156-159).

## Model

| member | source | states |
|---|---|---|
| IPUtil.Next | network/subnets/ip_util.go:15-25 | the byte loop with carry adds exactly one to the address as a number, and panics exactly at 255.255.255.255 |
| IPUtil.Max | network/subnets/ip_util.go:33-47 | the byte-wise or with the inverted mask is base + 2^(32-p) - 1 |
| IPUtil.MaskValue | network/subnets/ip_util.go:11-13 | masking the four bytes clears exactly the remainder of the address modulo 2^(32-p) |
| IPUtil.ContainsIsInterval | network/subnets/ip_util.go:11-13 | the byte-wise mask test holds exactly for the addresses of the interval of the network |
| IPUtil.NestedOrDisjoint | network/subnets/ip_util.go:11-13 | of two canonical networks one contains the other or they share no address |
| IPUtil.OverlapsIsSharing | network/subnets/ip_util.go:11-13 | overlaps holds if and only if some address lies in both networks |
| Subnets.SelectStaticSubnet | network/subnets/selectors.go:13-25 | refuses exactly the networks that share an address with the dynamic range or with a different allocated subnet |
| Subnets.SelectDynamicSubnet | network/subnets/selectors.go:33-50 | yields the lowest block of four addresses not taken; fails only if all are taken, and then panics exactly if the range ends at the last address |
| Subnets.SelectStaticIP | network/subnets/selectors.go:58-78 | grants exactly the unused addresses of the subnet other than gateway and broadcast; each refusal has its own error |
| Subnets.SelectDynamicIP | network/subnets/selectors.go:86-99 | yields the lowest unused address; fails only if every address of the subnet is used |
| Subnets.IsBlock | network/subnets/selectors.go:39-46 | every /30 that shares an address with the dynamic range is one of its aligned blocks |
| SubnetPool.Pool.Acquire | network/subnets/subnets.go:70-99 | the selected network is recorded, a failure changes nothing, and the pool invariant is kept |
| SubnetPool.Pool.AllocatedSubnets | network/subnets/subnets.go:172-185 | the selectors see exactly the subnets with addresses handed out |
| SubnetPool.Pool.Remove | network/subnets/subnets.go:103-123 | records the network unless that very address is already out in that subnet |
| SubnetPool.Pool.Release | network/subnets/subnets.go:125-147 | takes out the first occurrence by swapping in the last, and drops an emptied subnet; fails exactly if the network is not held |
| SubnetPool.IndexOf | network/subnets/subnets.go:207-215 | finds the first occurrence or reports that there is none |
| SubnetPool.SwapRemoveElems | network/subnets/subnets.go:219-224 | overwriting with the last entry removes that address and no other |
| SubnetPool.AcquireKeepsInv | network/subnets/subnets.go:70-99 | whatever the selectors, an acquired network was not held, and subnets stay pairwise disjoint with distinct usable addresses |
| SubnetPool.StaticRequestExact | network/subnets/selectors.go:13-78 | a request for a given address of a given subnet succeeds if and only if the subnet is outside the dynamic range and clear of other subnets and the address is usable and not out |
| SubnetPool.StaticRequestGranted | network/subnets/subnets.go:70-99 | a static request that nothing speaks against is one the pool can answer with just that network |
| SubnetPool.RemoveKeepsInvIff | network/subnets/subnets.go:113-119 | putting a network back keeps the invariant if and only if its address is usable and its subnet is already allocated or clear of all others |
| SubnetPool.DropHolds | network/subnets/subnets.go:125-147 | after a release exactly the other networks are held |
| SubnetPool.ReleaseUndoesAcquire | network/subnets/subnets.go:125-147 | releasing the network just acquired gives back the very same pool |
| SubnetPool.RunInvariant | network/subnets/subnets.go:70-147 | over every run the pool holds exactly the networks acquired or put back and not released since |
| SubnetPool.LiveNetworksNeverClash | network/subnets/subnets.go:70-147 | over every run two live networks have equal or disjoint subnets and different addresses, and every address is usable: not network, gateway or broadcast |
| SubnetExhaustion.DynamicCount | network/subnets/subnets.go:151-154 | at most Capacity() dynamic subnets are allocated, and that many exactly when no block is left |
| SubnetExhaustion.DynamicAcquireExact | network/subnets/selectors.go:33-50 | a dynamic request succeeds if and only if fewer than Capacity() dynamic subnets are out; it gets the lowest free block and its third address |
| SubnetExhaustion.CapacityAcquires | network/subnets/subnets.go:70-154 | from the empty pool the i-th dynamic request gets block i, exactly the first Capacity() requests succeed |
| SubnetExhaustion.IPCount | network/subnets/selectors.go:86-99 | every address of a subnet is used exactly when all 2^(32-p) - 3 usable ones are out |
| SubnetExhaustion.DynamicIPExact | network/subnets/selectors.go:86-99 | an address request succeeds if and only if fewer than 2^(32-p) - 3 are out (none for p > 30) |
| SubnetExhaustion.StaticSubnetServes | network/subnets/subnets.go:70-99 | repeated requests for one static subnet succeed exactly as long as usable addresses are left |
| PortPool.New | port_pool/port_pool.go:32-59 | the two loops fill the rotated range; the sum is checked after 32-bit wrap-around, and if it wrapped one loop does nothing, zeros are left over and the list is improper |
| PortPool.WrappedRangeIsAccepted | port_pool/port_pool.go:33-51 | the range of two ports from 2^32-1 is accepted and its list is port 0 twice |
| PortPool.Pool.Acquire | port_pool/port_pool.go:61-74 | hands out the head of the list, or reports exhaustion exactly when it is empty |
| PortPool.Pool.Remove | port_pool/port_pool.go:76-98 | takes out the port, and fails exactly if it is not free |
| PortPool.Pool.Release | port_pool/port_pool.go:100-115 | appends a port of the range, as its end wraps, that is not yet free and ignores all others |
| PortPool.Pool.RefreshState | port_pool/port_pool.go:117-124 | saves the 32-bit distance of the next port from the start, for any pool |
| PortPool.FreeAndHeldPartition | port_pool/port_pool.go:32-115 | over every run free and held ports partition the range, and no port is free twice |
| PortPool.ReleasedPortWaits | port_pool/port_pool.go:61-115 | a released port comes up again only after every port free at that moment has left the list |
| PortPool.RestartKeepsPool | port_pool/port_pool.go:32-124 | saving, rebuilding and removing every held port gives the same free ports and the same next port |
| PortPool.RestartKeepsOrderIff | port_pool/port_pool.go:32-124 | the list itself is restored if and only if its ports, counted round the range from the first, come in ascending order |
| PortPool.RestartMayReorder | port_pool/port_pool.go:32-124 | a run after which they do not, and the list comes back in another order |
| BridgeMgr.Mgr.Reserve | network/bridgemgr/mgr.go:64-82 | reuses the subnet's bridge or records a new one, and changes nothing when the bridge cannot be made |
| BridgeMgr.Mgr.Release | network/bridgemgr/mgr.go:84-103 | removes one reservation and asks for the bridge's destruction exactly when no owner is left |
| BridgeMgr.Mgr.Rereserve | network/bridgemgr/mgr.go:105-122 | refuses an empty name and a bridge of another subnet, otherwise records the reservation |
| BridgeMgr.Mgr.Prune | network/bridgemgr/mgr.go:124-141 | destroys exactly the existing bridges with the prefix that nobody has reserved, each as often as it is listed |
| BridgeMgr.RemoveOwner | network/bridgemgr/mgr.go:148-156 | drops the first occurrence of the container, if any |
| BridgeMgr.ReserveKeepsInvIff | network/bridgemgr/mgr.go:64-82 | the three maps stay in agreement if and only if the subnet has a bridge or the generated name is not in use |
| BridgeMgr.ReleaseKeepsInv | network/bridgemgr/mgr.go:84-94 | releasing anything, held or not, keeps the three maps in agreement |
| BridgeMgr.RereserveKeepsInvIff | network/bridgemgr/mgr.go:113-119 | an accepted re-reservation keeps the maps in agreement if and only if the subnet has no bridge or this one |
| BridgeMgr.OwnersAreOutstanding | network/bridgemgr/mgr.go:64-122 | over every run subnets and bridges correspond one to one and each owner list is the multiset of reservations not yet released |
| BridgeMgr.ReservedIffOutstanding | network/bridgemgr/mgr.go:64-146 | over every run a bridge counts as reserved exactly while a reservation of it is outstanding |
| BridgeInterleaving.NoReservedBridgeIsDestroyed | network/bridgemgr/mgr.go:84-103 | in no interleaving of the locked and unlocked steps is a bridge destroyed that has an owner at that moment, as long as no generated name is about to be destroyed or another subnet's bridge and no restored one is about to be destroyed |
| BridgeInterleaving.UnfairNameHarms | network/bridgemgr/mgr.go:64-122 | the converse: from any state of such an interleaving, a name outside that condition has a continuation in which a bridge with an owner is destroyed |
| BridgeInterleaving.UnfairNameIsReachable | network/bridgemgr/mgr.go:64-103 | reserving a bridge and releasing it, before its destruction, leads to a state where generating its name again is outside that condition |
| BridgeInterleaving.ExistenceKeptIff | network/bridgemgr/mgr.go:64-122 | a step keeps every reserved bridge on the host if and only if it does not re-reserve a bridge that is not there |
| BridgeInterleaving.ReservedBridgesExist | network/bridgemgr/mgr.go:64-122 | over every interleaving whose restored bridges exist, all reserved bridges exist |
| BridgeInterleaving.DoomedIsDue | network/bridgemgr/mgr.go:84-103 | in every interleaving the Destroy calls still to be made for a bridge are the releases that left it without an owner less the calls made |
| BridgeInterleaving.NoBridgeIsLeftOver | network/bridgemgr/mgr.go:64-103 | in every interleaving a bridge that the manager made is on the host only while it is reserved or a Destroy call for it is due, unless such a call has failed |
| BridgeInterleaving.BridgeStays | network/bridgemgr/mgr.go:64-103 | a bridge leaves the host only by a Destroy call for it that succeeds |
| Requests.RequestExact | resource_pool/resource_pool.go:780-799 | from any consistent allocation a specification is granted if and only if it can be met: without one, the third address of the lowest free /30 of the dynamic range while fewer than Capacity() are out; for a network address, the lowest free usable address of that network while it fits and one is left; for any other address, that very address while the network fits and the address is usable and free; each refusal has its error |
| Requests.GrantIsUnique | resource_pool/resource_pool.go:780-799 | no two networks meet one specification |
| Requests.ParsedIff | resource_pool/resource_pool.go:784-788 | exactly the malformed specifications are refused before anything is acquired |
| ResourcePool.Pool.Acquire | resource_pool/resource_pool.go:258-324 | a malformed specification changes nothing; otherwise the specification gets the network it asks for and the bridge of its subnet if it can be met and every step succeeds, and the clean-up of whichever step fails is done |
| ResourcePool.Pool.AcquireSystem | resource_pool/resource_pool.go:548-621 | on failure after the bridge's name is saved the system resources are torn down, before that only the directory goes |
| ResourcePool.Pool.ReleaseSystem | resource_pool/resource_pool.go:706-743 | releases the bridge whose name is on file and stops at the first failing step |
| ResourcePool.Pool.ReleasePool | resource_pool/resource_pool.go:538-546 | gives back every listed port and the network |
| ResourcePool.Pool.Release | resource_pool/resource_pool.go:402-420 | gives ports and network back only after the teardown succeeded |
| ResourcePool.Pool.Restore | resource_pool/resource_pool.go:326-400 | takes network, bridge and ports again in that order, with the partial undo of each failure |
| Rollback.ReleaseUndoesReserve | network/bridgemgr/mgr.go:64-103 | releasing a reservation just made restores all three maps |
| Rollback.FailedAcquireRollsBack | resource_pool/resource_pool.go:258-324 | whichever step fails, subnets and ports are as before; the bridge maps too, if and only if the name was saved and could be read back |
| Rollback.FailedRestoreRollsBack | resource_pool/resource_pool.go:353-364 | a restore that fails at a port leaves the subnets as before, and the free ports if and only if every listed port of the range was free |
| Rollback.EarlyFailedRestoreChangesNothing | resource_pool/resource_pool.go:344-351 | a restore refused for its network or its bridge changes nothing at all |
| Backend.LinuxBackend.Create | linux_backend/linux_backend.go:195-229 | a handle in use, too many containers and malformed specifications are refused and change nothing; otherwise a container with the given handle or else its id, the network its specification asks for and the bridge of its subnet is stored and returned if all steps succeed; any other outcome has its own error, stores nothing and gives back what was acquired, except what the teardown steps that fail leave behind |
| Backend.LinuxBackend.Admit | linux_backend/linux_backend.go:214-228 | a container that does not start is released, one that does is stored under its handle |
| Backend.LinuxBackend.Destroy | linux_backend/linux_backend.go:259-280 | removes the container before its clean-up and releases its resources only if the clean-up succeeded; it reports success exactly if both did |
| Backend.LinuxBackend.NetIn | linux_container/linux_container.go:653-687 | the answer and the last recorded mapping are the given ports, the host port taken from the head of the free ports if it is 0 and the container port the host port if it is 0; exhaustion and a failing script have their errors, and an acquired port stays with the container even if the script fails |
| Backend.LinuxBackend.Restore | linux_backend/linux_backend.go:414-425 | succeeds exactly if the pool's part does; then it stores the container and replays the mappings up to the first failure, which does not make it fail |
| Backend.LinuxBackend.Replay | linux_container/linux_container.go:342-347 | maps the listed ports again until one fails |
| BackendRuns.ReleaseKeepsInv | resource_pool/resource_pool.go:402-420 | however a teardown fails, the networks, ports and bridge reservations that stay acquired are those of live containers and those recorded as lost |
| BackendRuns.CreateKeepsInv | linux_backend/linux_backend.go:195-229 | after every outcome of Create each acquired network, port and bridge reservation belongs to one live container or is recorded as lost, owner lists counted with multiplicity |
| BackendRuns.MappedKeepsInv | linux_container/linux_container.go:653-687 | the same for NetIn |
| BackendRuns.RestoreKeepsInv | linux_backend/linux_backend.go:414-425 | the same for the restore of a snapshot that does not clash with what is live, the reservation left by a failing port included |
| BackendRuns.LiveContainersNeverShare | linux_backend/linux_backend.go:195-280 | over every run two live containers share no address and no port, no port of a live container is free, and each owns the bridge of its subnet |
| BackendRuns.StartBackend | main.go:271-493 | setting up the pools and the backend leads to a state from which runs start, for every port range that does not wrap around |
| Handles.CreateStores | linux_backend/linux_backend.go:195-229 | Create stores one container, with the given handle or else its id, if and only if handle, number, specification, network, set-up and start allow it |
| Handles.HandleStays | linux_backend/linux_backend.go:195-280 | over every run a created container stays under its handle until that handle is destroyed, and every further Create of the handle meanwhile is refused as existing and changes nothing |
| Handles.AtMostMax | linux_backend/linux_backend.go:200-207 | over every run there are at most the configured number of containers and one more for each restore; without restores at most the configured number |
| ExactAccounting.CleanIff | linux_backend/linux_backend.go:195-280 | from a tidy state a step loses nothing if and only if none of its losing branches is taken: a reservation that leaks, a clean-up or teardown step that fails, a version that cannot be read, a listed port that is repeated or outside the range; it stays tidy if and only if, besides, a restored container has its bridge on file |
| ExactAccounting.CleanRunLosesNothing | resource_pool/resource_pool.go:402-420 | over every run of steps that stay tidy nothing is ever lost |
| ExactAccounting.AccountingIsExact | linux_backend/linux_backend.go:195-280 | over every such run the networks held, the ports not free, the bridges reserved and the owners listed for them are exactly those of the live containers, each once |
| Replay.ReplayExact | linux_container/linux_container.go:342-347 | replaying takes ports off the head of the free list, one for each mapping of host port 0 it gets to, gives them to the container and touches nothing else |
| Replay.AcquiresAll | linux_container/linux_container.go:342-347 | if all commands succeed as many ports are acquired as there are mappings of host port 0, or all that are free |
| Replay.RemappedIs | linux_container/linux_container.go:684-686 | if no mapping has host port 0, all are recorded a second time, up to the first command that fails |
| Replay.RestoredExact | linux_container/linux_container.go:305-359 | a restored container has the ports and mappings of its snapshot followed by those of the replay, and other containers are as before |
| Replay.KeepsPortsIff | linux_container/linux_container.go:653-663 | a restored container keeps its ports if no mapping has host port 0 or no port is left, and only then if all commands succeed |
| Replay.ReplayTakesOthersPort | linux_container/linux_container.go:653-663 | a container that lists a port which an earlier replay acquired cannot take its ports |
| Restart.RestartRestoresAll | linux_backend/linux_backend.go:414-425 | from any state kept by runs whose bridges have names and whose containers have no mapping of host port 0 or hold all ports, all snapshots are restored in any order, whatever commands fail, into a new backend with the saved port offset; it then holds exactly what they have, hands out the same port next, and has each replayed mapping twice |
| Restart.RestartKeepsResources | resource_pool/resource_pool.go:326-400 | under the same condition, and if nothing had been lost, networks, free ports, next port, owners and both bridge maps are as before, and the free list is if and only if it goes once round the range |
| RestartRuns.RestartRecoversIff | linux_backend/linux_backend.go:414-425 | from any state of any run, restarts bring back the same holdings in every order and whatever commands fail if and only if nothing was lost, every bridge has a name, and every container has no mapping of host port 0 or holds all ports |
| RestartRuns.RunIsOrdinary | linux_container/linux_container.go:653-687 | over every run with a port range above 0, named bridges and snapshots that list host ports, mappings never have host port 0 and bridges never lose their name |
| RestartRuns.RestartAfterRun | linux_backend/linux_backend.go:195-425 | after every run, restarts bring everything back if and only if that condition holds |
| RestartRuns.RestartAfterCleanRun | linux_backend/linux_backend.go:195-425 | the condition holds, and restarts bring everything back, after every clean run with a port range above 0, named bridges and snapshots that list host ports |
| RestartRuns.AccountingAcrossRestart | linux_backend/linux_backend.go:195-425 | from a tidy state that meets the condition, and with the depot as it was, any clean steps after a restart keep the accounting exact |
| Reaper.StepKeepsInv | containerizer/system/process_reaper_linux.go:46-123 | every step of Start, exit, signal, wait4, look-up, send, unmonitor and Wait keeps the invariant, orphans with reused pids included |
| Reaper.InvIsSafe | containerizer/system/process_reaper_linux.go:83-110 | the invariant excludes a wrong status, a reaper blocked on its send and a lost exit |
| ReaperRuns.ReaperIsCorrect | containerizer/system/process_reaper_linux.go:46-123 | in every interleaving Wait returns the exit byte of its own child, the send finds an empty channel, and while an exited child is unreaped a signal is on its way or the reaper is in its loop |
| ReaperRuns.QuiescentDelivered | containerizer/system/process_reaper_linux.go:62-110 | once nothing is under way every exited child has its status in its channel or returned |
| ReaperRuns.NotStuck | containerizer/system/process_reaper_linux.go:75-110 | unless nothing is under way the daemon can always take a step of its own |
| ReaperRuns.InternalDecreases | containerizer/system/process_reaper_linux.go:75-110 | each step of its own brings the daemon closer to having nothing under way |
| ReaperRuns.Settle | containerizer/system/process_reaper_linux.go:75-110 | from every state of every run the daemon's own steps reach a state where all exits so far are delivered |
| ReaperRuns.ReusedPidHarms | containerizer/system/process_reaper_linux.go:46-123 | the converse: from any state where a new child gets a pid in the reaper's hand or not yet waited for, some continuation misdelivers, blocks or loses an exit |
| ReaperRuns.EarlyReuseIsReachable | containerizer/system/process_reaper_linux.go:62-103 | a run from the start after which a child's Wait has returned, its pid is free, and reusing that pid goes wrong |
| ReaperDelivery.StatusIsReal | containerizer/system/process_reaper_linux.go:83-110 | in every run the recorded status of a process is the one some exit of that very process had |
| ReaperDelivery.WaitIsReal | containerizer/system/process_reaper_linux.go:62-73 | in every run what Wait returned for a child is the low byte of the status that child exited with |
| ReaperDelivery.WaitReturns | containerizer/system/process_reaper_linux.go:62-110 | from every state of every run, once a started child has exited, steps of the daemon and of its Wait alone lead to Wait returning the low byte of its status |
| ReaperDelivery.OrphanIsReaped | containerizer/system/process_reaper_linux.go:83-110 | an orphan may be adopted and exit at any time; the daemon's own steps then reap it and send its status to nobody |
| ReaperDelivery.SignalsAreQueued | containerizer/system/process_reaper_linux.go:28-40 | over every run at most a thousand signals are queued, and until so many were delivered none is dropped |
| ReaperDelivery.ExitsAreSignalled | containerizer/system/process_reaper_linux.go:75-81 | over every run a signal is pending exactly if some process exited and none was delivered since |
| ReaperDelivery.OnlyLocksWait | containerizer/system/process_reaper_linux.go:46-123 | starting a command, the look-ups of the reaper and of Wait, and unmonitoring wait for the mutex and can go on once it is free; exits, wait4, the unlocked read of the monitored pids and both ends of the channels do not |
| ReaperDelivery.NobodyWaitsForReaper | containerizer/system/process_reaper_linux.go:46-110 | no step of the kernel or of a caller depends on where the reaping goroutine is |
| Handshake.CreateMeansReady | containerizer/containerizer.go:64-109 | in every run Create returns nil only after both hooks, the pivot and all init steps succeeded and the daemon listens |
| Handshake.SignalledErrorIsReal | containerizer/pipe_synchronizer.go:51-60 | Create reports a signalled error only if some init step failed |
| Handshake.InitWaitsForPivot | containerizer/initc/main.go:63-132 | no init step is attempted before the pivot and every earlier init step succeeded |
| Handshake.SuccessfulRunsComplete | containerizer/containerizer.go:64-126 | the two processes never wait for each other in vain: a run in which no step fails can go on until Create has returned nil and the daemon serves, exactly after its twentieth step |
| Handshake.StepKeepsInv | container_daemon/initd/start.go:74-84 | every step of either process keeps: a success on the pipe to the host means that the container is ready |
| HandshakeOutcomes.Outcome | containerizer/containerizer.go:64-109 | in every run Create has returned nil if and only if it received after every step of the container succeeded, the signalled error if and only if it received after a failed init step was signalled, and another error if and only if a step of its own failed or it stopped waiting |
| HandshakeOutcomes.FailureIsReported | containerizer/containerizer.go:111-126 | in every run in which an init step failed, the container's next step succeeded and the host did not give up, Create has returned the signalled error, or can receive and then returns that |
| HandshakeOutcomes.FailureIsNotNil | containerizer/pipe_synchronizer.go:51-60 | once an init step has failed Create never returns nil |
| HandshakeOutcomes.ReceivesIff | containerizer/pipe_synchronizer.go:32-68 | the host can receive if and only if it took its seven steps, has not returned, and the container reported success or a failure |
| HandshakeOutcomes.EnabledIff | containerizer/containerizer.go:64-126 | in every run which steps can be taken next is told by the steps taken: the host's seven steps and its wait, the container's wait and its own steps up to success or after a failed init step its signal |
| HandshakeOutcomes.TraceIsExact | containerizer/containerizer.go:64-126 | in every run an event is in the trace if and only if its step was taken |
| IPTables.Chain.PrependFilterRule | network/iptables/iptables.go:187-222 | an unknown protocol, or ports without TCP or UDP, inserts nothing; otherwise the networks-by-ports expansion is inserted up to the first command that fails |
| IPTables.Chain.PrependForPorts | network/iptables/iptables.go:202-217 | one filter per port range, each with the network of this round, although one rule record is reused |
| IPTables.Chain.PrependSingleRule | network/iptables/iptables.go:228-285 | an unknown protocol or a failing command inserts nothing; otherwise the filter at the head matches exactly the packets the rule is meant for and has its target |
| IPTables.SingleMatches | network/iptables/iptables.go:237-272 | a compiled filter matches exactly the packets of the rule's protocol, all for All, its range or single address, ports and ICMP type, where a packet carries TCP, UDP, ICMP or something else |
| IPTables.CompiledProtocol | network/iptables/iptables.go:18-23 | the filter names tcp, udp or icmp exactly for these protocols and all otherwise |
| IPTables.CompiledMatches | network/iptables/iptables.go:228-285 | the filter of a single rule matches exactly the packets that rule is meant for |
| IPTables.ExpansionMatches | network/iptables/iptables.go:194-218 | some filter of the expansion matches a packet exactly when the rule does, where an empty list stands for all |
| IPTables.CallVerdict | network/iptables/iptables.go:187-222 | after a successful call the packets of the rule get its target and all others the verdict they had |
| IPTables.FailedCallVerdict | network/iptables/iptables.go:214-216 | a call that fails half-way changes verdicts only of packets its rule matches, and only to its target |
| IPTables.LatestRuleWins | network/iptables/iptables.go:187-285 | over every run of successful calls each packet gets the target of the latest rule it matches, or the old chain's verdict |
| Rlimits.EncodeLimits | container_daemon/rlimits_manager.go:87-137 | joins one entry per limit set, in the order of the source |
| Rlimits.Decode | container_daemon/rlimits_manager.go:161-179 | reads every well-formed entry and skips the others, the last entry of a name deciding |
| Rlimits.ParsedMeaning | container_daemon/rlimits_manager.go:161-179 | a name has a value if and only if some entry gives it that value and no later well-formed entry gives it another |
| Rlimits.ParseEntryExact | container_daemon/rlimits_manager.go:167-174 | an entry is well-formed if and only if it is a name, the first '=' and a text that scans as a number |
| Rlimits.ScanExact | container_daemon/rlimits_manager.go:170-174 | a text scans as a number if and only if blanks and then digits lead it, and the digits denote a number below 2^64 |
| Rlimits.DecodeLimits | container_daemon/rlimits_manager.go:139-159 | returns the very limits whose encoding it is given |
| Rlimits.DecodeUndoesEncode | container_daemon/rlimits_manager.go:87-179 | every choice of the fifteen optional limits survives the round trip, none and 2^64-1 included |
| Rlimits.GetSystemRlimitFlags | container_daemon/rlimits_manager.go:211-275 | the flag 0 is the CPU limit, 1 the file size, and so on up to 14, the real-time priority, each present exactly if the limit is set, and there are no others |
| Rlimits.FlagCount | container_daemon/rlimits_manager.go:211-275 | there are as many flags as limits set |
| Env.NewEnv | process/env.go:13-37 | parses the array, or fails with the error of the first malformed string |
| Env.ParsedMeaning | process/env.go:13-37 | an array parses if and only if every string has a non-empty key before a '=', and each key has the value it is given last |
| Env.Merge | process/env.go:39-51 | the union of the two maps, the second one deciding |
| Env.ParsedConcat | process/env.go:13-51 | parsing a concatenation is merging the two results, or the first failure |
| Env.Array | process/env.go:53-65 | the KEY=value lines of the map, whatever the order of iteration, each before the next: a prefix of it, or smaller in the code of the first character that differs |
| Env.LeqIsLexicographic | process/env.go:62 | the order of the sort is that by the first character that differs, a prefix coming first |
| Env.ArrayUnique | process/env.go:53-65 | all orders of iteration give one and the same array |
| Env.ParseUndoesArray | process/env.go:13-65 | parsing the array gives the map back if and only if every key is non-empty and free of '=' |
| Env.BadKeysAreLost | process/env.go:13-65 | two maps that are not recovered |
| Identifiers.ContainerID | resource_pool/resource_pool.go:422-437 | eleven digits 0 to 9 and a to v that write the counter modulo 2^55 in base 32 |
| Identifiers.DigitsDenote | resource_pool/resource_pool.go:422-437 | n digits write the upper 5n of the counter's 55 bits in base 32 |
| Identifiers.SameContainerID | resource_pool/resource_pool.go:422-437 | two counters give one ID if and only if they are congruent modulo 2^55 |
| Identifiers.ContainerIDsDistinct | resource_pool/resource_pool.go:422-437 | the IDs of any 2^55 consecutive counters are distinct |
| Identifiers.BridgeName | network/bridgemgr/bridge_name_generator.go:17-46 | the prefix followed by as many digits as make fifteen characters |
| Identifiers.BridgeNameDenotes | network/bridgemgr/bridge_name_generator.go:17-46 | fifteen characters: the prefix and the upper digits that fit, or all eleven and zeros when there is room for more |
| Identifiers.SameBridgeName | network/bridgemgr/bridge_name_generator.go:17-46 | two counters give one name if and only if the bits shown agree: all 55 for prefixes of at most four characters, only the upper ones for longer prefixes |
| Identifiers.BridgeNamesDistinct | network/bridgemgr/bridge_name_generator.go:17-46 | with a prefix of at most four characters the names of any 2^55 consecutive counters are distinct |
| Identifiers.LongPrefixRepeats | network/bridgemgr/bridge_name_generator.go:19-32 | with a prefix of five characters 32 consecutive counters give one name |
| Counterexamples.OverlappingRemoveIsAccepted | network/subnets/subnets.go:113-119 | after 10.1.0.0/24 was acquired, Remove accepts an address of 10.1.0.0/25 and two overlapping subnets are allocated |
| Counterexamples.SecondBridgeIsAccepted | network/bridgemgr/mgr.go:113-119 | Rereserve accepts a second bridge for a subnet that has one, and the maps disagree |
| Counterexamples.UnsavedNameLeaks | resource_pool/resource_pool.go:675-697 | a creation whose bridge name cannot be saved ends with no container and an owner left on the bridge |
| Counterexamples.PortZeroIsRemapped | linux_container/linux_container.go:653-663 | in a pool that starts at port 0 a container with port 0 comes back from a restart with ports 0 and 1 |
| Counterexamples.LaterRestoreFails | resource_pool/resource_pool.go:353-364 | in a pool of the ports 0 and 1, each held by a container after a clean run, a restart gives the first container both ports, fails for the second and leaves port 1 free although the first holds it |
| Counterexamples.FailedRestoreFreesLivePort | resource_pool/resource_pool.go:353-364 | a restore that lists a live container's port fails and puts that port back among the free ones |

## Left out

- IPv6 ranges: the dynamic selector hard-codes a four-byte /30 mask.
- Networks that are not canonical: the pool only ever gets them from `net.ParseCIDR`, which masks them.
- Requests: the text of a specification, and the /30 that is appended when it has no mask; a specification is absent, malformed, or an address with its network.
- Slices that share a backing array: lists are values, so an append that writes into shared capacity is not captured.
- Backend: containers and their resources are values in the repository, so two references to one container are not modelled.
- Concurrent backend operations on one handle: Create and Destroy check and act in separate steps; operations are sequential here.
- Prune alongside Reserve, and the unlocked read in RefreshState: start-up and shut-down paths.
- Events, limits and the environment of a restored container: the code appends the events to a list that is already filled and drops the environment. Ports and mappings are modelled exactly.
- Undoing the bridge reservation of a failed restore, or anything after a version that cannot be read: the code does not do it; the model records it as lost.
- Reaper: wait4 is taken to give no error other than "no child processes", each child is waited for at most once, and the unlocked read of the monitored pids is one atomic step.
- Reaper: a channel send or receive is one step, and logging between the steps is not modelled.
- Handshake: a signal is written and read whole; JSON encoding and time are left out, a wait that times out may happen at any moment.
- The effects of iptables, netlink and shell commands: each is a success or a failure. The meaning of a chain is first match, as IPTables.Verdict defines it; the destination of the log chain is not followed.
- Rlimits: Apply and Init, which set the system's limits, and the parsing of /proc.
- Env.Array: the library's sort is represented by an insertion sort; the claims use only that it sorts and permutes.
- Identifiers: the counter is a natural number; its overflow at 2^63 nanoseconds is not modelled. A bridge prefix longer than fifteen characters makes the source loop without end and is excluded.
- Text: strings are sequences of characters, so the byte order used for sorting is the order of characters.
- ProcessIDPool, the keep set of Start, Query and All of the repository, bandwidth conversion, YarnBackend, metrics, logging, stdio streaming, the OOM notifier and flag parsing: easy members or plumbing.
