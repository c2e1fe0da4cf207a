# daemonproxy, modelled and proved

daemonproxy is a single-threaded process supervisor. It is written as a set of
state machines that a main loop steps in turn. This project models the parts of
it that carry the hard invariants and proves what those parts are for.

| files | what they model |
|---|---|
| `RBShape`, `RBRepair`, `RBOrder`, `ContainedRBTree` | the intrusive red/black tree: heap nodes with parent pointers, one shared black sentinel, in-place rotation, insertion and deletion |
| `EventStream` | a controller's output buffer: partial non-blocking writes, the overflow flag and its marker line |
| `CommandFraming` | a controller's input buffer: splitting reads into lines, discarding lines that are too long |
| `Statedump` | the resumable `statedump` command, over tables that change while it is interrupted |
| `ServiceMachine`, `ServiceCommands`, `RestartThrottle` | the service state machine, its intrusive list of active services, its pid index, and the commands that drive it |
| `Clock`, `MainLoop` | the phases of the main loop, write timeouts, and the deadline handed to `select` |
| `ServiceVars`, `ServiceSettings`, `Strseg` | the packed `name=value\0` buffer, the settings kept in it, string order and tokens |
| `FdShuffle` | the parallel move of descriptors in a forked child |
| `FdRegistry` | named descriptors: the array, the object pool, the set of indexed objects and pipe peers |
| `NameIndex` | the name indexes of descriptors and services, run on the red/black tree |
| `Common` | what several modules share |
| `SignalTable` | pending signals and their delivery |
| `CommandHash` | the search for a collision-free command hash, and the 32-bit hash emitted from it |

How to read it. The red/black tree is a heap of class nodes. A ghost zipper (a
subtree and its context) says which tree the pointers hold, and the lemmas in
`RBShape` are about a snapshot of the cells. The other imperative parts are
classes with a `Valid` predicate; their methods follow the branches of the C
functions named above them. Methods such as `EventStream.Run`,
`CommandFraming.Serve`, `Statedump.Run`, `MainLoop.Supervise`,
`MainLoop.RestartRun`, `FdRegistry.Session` and `FdShuffle.Shuffle` state
results about whole runs, over every input and every outcome of a system call:
`Supervise` gives a journal of the deaths, wake-ups and commands read off the
inputs, each entry with the services, events and forks before and after it,
`RestartRun` gives the history its forks are taken from, and `Session` equates the meaning of all names with the fold of the
accepted operations.

System calls are nondeterministic: `write` takes any prefix, blocks or fails;
`read` returns any chunk; `fork` fails or returns a pid that no service has;
allocation succeeds or fails. Their outcomes are logged beside the state
(`Controller.outcomes` and `received`, `Supervisor.forks`, `Vars.grants`,
`Registry.refusals`), and contracts tie what a method answers to the outcomes of
the calls it made.
The clock is positive and never runs backwards.

Places where the code does not do what it seems meant to do are kept as they
are. Each has an input that shows it and the exact condition for when the code
does do it:

- A final newline is appended although complete lines are still buffered
  (src/controller.c:415-419), and the lines run together as one command.
  `CommandFraming.Drain`: from the end of the stream on, framing comes out right
  if and only if no complete line is waiting in the buffer then.
  `CommandFraming.Serve` says the same of a whole stream and its schedule of
  reads and work. `CommandFraming.MergedExample` and
  `CommandFraming.MergedSchedule` are the failing case.
- Descriptor entries that name a closed descriptor can go unnoticed, and the slot
  then gets another entry's file (src/service.c:768-792). `FdShuffle.Shuffle`
  goes through if and only if `FdShuffle.Passes` holds of the table and the
  entries, and says which file each slot gets. `FdShuffle.StaleEntry` gives two
  lists that pass with a closed entry. The entries come from fd_get_fdnum; that
  it can yield the number of a closed descriptor is an assumption here.
- A variable value with a NUL in it (src/service.c:259-320; service.tags passes
  the bytes of a command on) is read back short and can set other variables.
  `ServiceVars.ReadBackExactly` and `ServiceVars.SetIsMapUpdateExactly`: setting
  is a map update if and only if the value has no NUL.
  `ServiceVars.NulMakesAmbiguous` is the failing case.
- `signal.clear 0 -1` is accepted (src/controller.c:1536-1547 and 2208-2213) and
  makes a free slot of the signal table pending without a time.
  `SignalTable.Signals.MarkSeen` says exactly when the table stays in order,
  `SignalTable.EndlessExactly` when a loop that asks for newer signals never
  ends, and `SignalTable.Signals.ClearNothing` is the failing case. The delivery
  loop at src/controller.c:369 then stops only if output blocks, and not at all
  while output is being discarded; what the loop at src/service.c:463 does
  depends on what sigismember says of signal 0.
- `fd.pipe` with one name for both ends gives two objects that name
  (src/fd.c:221-259): `FdRegistry.Registry.NewPipe` keeps names unique if and
  only if the names differ or it fails.
- A full descriptor pool refuses even to rebind a name, because the new object is
  made before the old one is given back: `FdRegistry.FullPoolRefuses`.
- Multipliers from 2 to the 31 on make the emitted C hash with 64-bit products:
  `CommandHash.AgreeExactly`. A table of up to 2 to the 15 entries never gets
  there (`CommandHash.FindParams`).

The comment at scripts/generate_controller_data.pl:31 speaks of 1.5 times the
number of entries while the code uses 1.75; no result here depends on the factor.

## Model

| member | source | states |
|---|---|---|
| ContainedRBTree.RBTree.constructor | src/Contained_RBTree.c:38-45 | an initialised tree is a valid empty one over the shared sentinel |
| ContainedRBTree.RBTree.Add | src/Contained_RBTree.c:56-95 | the tree stays red/black with consistent links, and the new node stands after every key less than or equal to its own and before every greater one; a node already in a tree is refused and nothing changes |
| ContainedRBTree.RBTree.Balance | src/Contained_RBTree.c:254-308 | from one red node under a red parent, recolouring and rotating ends in a tree that is balanced below its root and has the same in-order sequence |
| ContainedRBTree.RBTree.Prune | src/Contained_RBTree.c:310-345 | for every node of every valid tree the result is a valid tree whose in-order sequence is the old one without exactly that node; a node in no tree is refused and nothing changes |
| ContainedRBTree.RBTree.PruneLeaf | src/Contained_RBTree.c:348-392 | a node with at most one child is cut out, all red/black invariants hold again, and the order of the other nodes is kept |
| ContainedRBTree.RBTree.Repair | src/Contained_RBTree.c:391-492 | the repair loop ends, with a red/black tree of the same order, whatever path it takes |
| ContainedRBTree.RBTree.Exchange | src/Contained_RBTree.c:329-342 | the neighbour that was cut out takes over place, links and colour of the doomed node |
| ContainedRBTree.RBTree.RightRotate | src/Contained_RBTree.c:175-180 | a right rotation from either side of the parent gives the rotated tree, links included, in the same order |
| ContainedRBTree.RBTree.LeftRotate | src/Contained_RBTree.c:182-187 | the mirror image |
| ContainedRBTree.RBTree.Find | src/Contained_RBTree.c:97-116 | returns an equal node, the least greater or the greatest smaller one, after at most 2*log2(n+1) visits |
| ContainedRBTree.RBTree.GetNext | src/Contained_RBTree.c:152-173 | the in-order successor, or null after the last node |
| ContainedRBTree.RBTree.GetPrev | src/Contained_RBTree.c:130-150 | the in-order predecessor, or null before the first node |
| ContainedRBTree.RBTree.Enumerate | src/Contained_RBTree.h:74-77 | stepping from the first node yields the whole in-order sequence and then ends |
| ContainedRBTree.RBTree.IterNext | src/fd.c:326-343 | with unique names, going on from any name, present or not, yields the least element strictly above it |
| ContainedRBTree.AddBeside | src/Contained_RBTree.c:56-95 | adding to one tree leaves every other tree on the same sentinel valid and unchanged |
| ContainedRBTree.PruneBeside | src/Contained_RBTree.c:310-345 | removing from one tree leaves every other tree on the same sentinel valid and unchanged |
| RBShape.ZipRotate | src/Contained_RBTree.c:189-252 | the link writes of all four rotations turn a represented tree into its rotation, whatever they leave in the sentinel's parent |
| RBShape.RotateInorder | src/Contained_RBTree.c:189-252 | a rotation keeps the order |
| RBShape.HeightBound | src/Contained_RBTree.c:97-116 | a red/black tree of n nodes is at most 2*log2(n+1) high |
| RBShape.SharedLeaf | src/Contained_RBTree.c:28 | a tree does not depend on the sentinel's parent field |
| RBRepair.InsertPull | src/Contained_RBTree.c:264-272 | with a red uncle, recolouring moves the red pair up two levels and keeps all else |
| RBRepair.InsertTurn | src/Contained_RBTree.c:273-283 | with a black uncle, one rotation restores every invariant |
| RBRepair.ShortRedSibling | src/Contained_RBTree.c:402-414 | a red sibling pushes the work down but lowers the measure, since the parent becomes red |
| RBRepair.ShortBlackNephews | src/Contained_RBTree.c:420-429 | a black sibling with black children passes the shortage up and lowers the measure |
| RBRepair.ShortTurn | src/Contained_RBTree.c:443-484 | a red far nephew ends the shortage by one rotation |
| RBRepair.ShortDone | src/Contained_RBTree.c:487-491 | a shortage at a red node or at the root ends by painting it black |
| RBOrder.NearestAt | src/Contained_RBTree.c:97-116 | where the search stops there is no nearer node |
| RBOrder.NextAbove | src/fd.c:326-343 | the nearest node or its successor is the least one above the name |
| RBOrder.NeighbourTakesPlace | src/Contained_RBTree.c:318-342 | cutting out a neighbour and putting it in the node's place is removing the node |
| RBOrder.AddKeepsSorted | src/Contained_RBTree.c:56-95 | a tree sorted by a total order stays sorted when a node is added by comparing its own key, equal keys included |
| RBOrder.RemoveKeepsSorted | src/Contained_RBTree.c:310-345 | and when a node is removed |
| NameIndex.Index.ByName | src/fd.c:309-315 | on heap nodes: finds an object with the name exactly when there is one |
| NameIndex.Index.Add | src/fd.c:119-151 | the node joins the valid, sorted tree under its name, even if the name is taken |
| NameIndex.Index.Remove | src/fd.c:154-187 | exactly this node leaves the tree, which stays valid and sorted |
| NameIndex.Index.Rebind | src/fd.c:262-284 | adding the new object beside the old holder of its name and then removing that one changes this binding only, and names are one-to-one again |
| EventStream.Run | src/controller.c:1958-2102 | for every run of events, flushes, readiness checks and timeouts and every outcome of write: while open, what the peer received plus the buffer is whole events in the order offered plus whole marker lines, and a gap is marked before the next kept event or the flag is still set; it is closed exactly when a write failed; if no write would have blocked nothing is lost |
| EventStream.GapsAreMarked | src/controller.c:2083-2096 | between a dropped event and any later kept one there is a marker |
| EventStream.Controller.Flush | src/controller.c:2042-2096 | what came of it is what came of the last write: not flushed exactly when that would have blocked, with the time since when noted, and closed exactly when that failed; else everything is with the peer, and the marker was added only to an empty buffer |
| EventStream.Controller.Write | src/controller.c:1958-2029 | an event is appended whole, or dropped with the overflow flag set; it is dropped only after an earlier drop, or when it does not fit although all that could be written was written; the connection closes exactly when a write failed |
| EventStream.Controller.OutBufReady | src/controller.c:2098-2102 | with room for the largest write or an overflow declared it is ready and nothing changes; else it is ready exactly unless the last write of a flush would have blocked |
| CommandFraming.Serve | src/controller.c:383-435 | for every stream and every schedule of reads and work, the records dispatched are those of the stream as a whole; with a final newline appended, if and only if the schedule does not let the stream end while a complete line waits |
| CommandFraming.Drain | src/controller.c:383-435 | from any state after the end of an unterminated stream, the records are those of the stream with a newline if and only if no complete line is in the buffer |
| CommandFraming.MergedExample | src/controller.c:415-419 | on the stream a, newline, b, read whole, the framer dispatches one command, which is not the framing |
| CommandFraming.MergedSchedule | src/controller.c:415-419 | that schedule lets a line wait at the end, and one that works after each line does not |
| CommandFraming.ShortLinesAreCommands | src/controller.c:383-435 | each line that fits is a command, and each longer one is an overflow record with its first character |
| CommandFraming.RecordsDiscard | src/controller.c:392-400 | discarding a full buffer but for its first character does not change what the stream is read as |
| CommandFraming.Framer.NextCommand | src/controller.c:383-435 | the next record is found without losing input, waiting means that no line is complete, and what is in the buffer afterwards is stated exactly |
| CommandFraming.Framer.RunCommand | src/controller.c:454-476 | what is dispatched is the line, or the overflow record |
| CommandFraming.Framer.EndCommand | src/controller.c:517-526 | exactly the handled line leaves the buffer |
| CommandFraming.Framer.ReadMore | src/controller.c:1889-1928 | bytes read are appended in order, within the buffer, and the end of the stream is seen exactly when there is room and nothing is left |
| Statedump.Run | src/controller.c:671-737 | however often it is interrupted and however the tables change, lines come in strictly increasing order, only for objects that existed, and every object present throughout gets each of its lines once, in order; there are as many lines as the output buffer was ready, and each time it was not ended one activation |
| Statedump.Dump.Activate | src/controller.c:699-737 | one activation goes on where the last one stopped, or completes the dump; each line is offered on a yes of the output buffer, and it stops at the first no and at nothing else |
| Statedump.Dump.Seek | src/service.c:853-871 | finds the object stopped at, or the first one after its name |
| Statedump.CoveredResume | src/fd.c:326-343 | resuming after the name of a deleted object skips nothing and repeats nothing |
| Statedump.OfferedOnce | src/controller.c:699-737 | an object present throughout gets parts 1, 2, ... once each and in that order |
| ServiceMachine.SpokenIsMeant | src/controller.c:1748-1769 | the word computed from timestamps and pid is the state's own word if and only if no start is overdue |
| ServiceMachine.Supervisor.SetActive | src/service.c:535-553 | the doubly linked list of active services gains or loses exactly this service; all links stay consistent |
| ServiceMachine.ChainCut | src/service.c:544-550 | unlinking by rewriting the two neighbours gives the list without that service |
| ServiceMachine.ChainPush | src/service.c:536-543 | linking at the head gives the list with that service first |
| ServiceMachine.Supervisor.ChangePid | src/service.c:833-844 | the pid index keeps holding exactly the services with a pid |
| ServiceMachine.Supervisor.ByPid | src/service.c:846-851 | finds the one service with the pid, or none if there is none |
| ServiceMachine.Supervisor.HandleStart | src/service.c:469-491 | a down or starting service starts at the time asked for or now, without a pid, active and announced; others are refused unchanged |
| ServiceMachine.Supervisor.CancelStart | src/service.c:493-504 | only a pending start is cancelled; it is down, inactive and announced |
| ServiceMachine.Supervisor.HandleReaped | src/service.c:510-520 | only a running service becomes reaped, stamped and active |
| ServiceMachine.Supervisor.Reap | src/daemonproxy.c:133-134 | of all services, exactly the running one with that pid becomes reaped, and the loop is hurried exactly if there is one |
| ServiceMachine.Supervisor.Bury | src/service.c:617-627 | a reaped service tells so and is down with all else kept; or, if it is to run again, it is due now, or restart_interval from now if it ran for less than that, which is told twice and hurries the loop |
| ServiceMachine.Supervisor.Run | src/service.c:587-639 | the jumps end, and together they take the service to the state that the restart rules and the result of fork give, with exactly the events told, the fork tried and the wake-up set that this calls for; list and index stay right |
| ServiceMachine.Supervisor.Walk | src/service.c:576-582 | every service that was active is run exactly once, in the order of the list, although services unlink themselves; events, forks and wake-up are those of these runs one after the other, and the other services are untouched |
| ServiceCommands.RunActive | src/service.c:558-583 | signals wake exactly the listening services that can start, each waiting service is run exactly once, and states, events, forks and wake-up are exactly those of these steps; afterwards none is reaped and no start is overdue |
| ServiceCommands.NextIs | src/service.c:558-639 | the wake-up after that is at once exactly if a start was set, and else it is the first pending start or what it was before |
| ServiceCommands.WakeBySignals | src/service.c:563-574 | after all new signals, exactly the called services that could start are due now, each announced once, in order, and the loop is hurried exactly if there is one |
| ServiceCommands.StartService | src/service.c:469-491 | a start by command sets the time asked for or now, is announced and hurries the loop, or is refused without effect |
| ServiceCommands.CommandStart | src/controller.c:1345-1379 | a time too far past, missing arguments or a service that is up are errors without effect; else the start is set |
| ServiceCommands.CancelService | src/controller.c:1355-1361 | a pending start is cancelled and announced, anything else refused without effect; the invariants of the phase are kept |
| ServiceCommands.CreateService | src/service.c:124-145 | a new service, if there is room, is down, listed and inactive, and nothing else changes |
| ServiceCommands.DeleteService | src/controller.c:1437-1450 | a service without a pid leaves all lists and indexes; one with a pid is refused |
| ServiceCommands.SetTriggers | src/service.c:423-433 | the service listens exactly when it has signals, and starts now, announced, if it is called for and can start |
| ServiceCommands.AutoUp | src/controller.c:1290-1321 | an interval out of range is refused without effect; else it is set, or kept for "-", before the triggers are, which may still be refused; the loop is hurried exactly if the service starts |
| ServiceCommands.Statedump | src/controller.c:699-737 | a whole dump in the controllers' phase tells of every service the state it is in |
| ServiceCommands.TellOne | src/controller.c:699-737 | one line of an interrupted dump tells the state that one service is in |
| ServiceCommands.Execute | src/controller.c:1290-1450 | every command takes the values of all services to those of a pure function of the command, answers, tells and hurries the loop as pure functions say, and keeps the invariants of the phase |
| RestartThrottle.ForksApart | src/service.c:587-627 | in every history of clock steps, deaths, fork failures and runs of an auto_restart service, any two successful forks are at least restart_interval apart |
| RestartThrottle.HeldStep | src/service.c:617-626 | what is known since the last fork survives every step, and a new fork comes only after the interval |
| Clock.ReadingsOrdered | src/daemonproxy.c:353-363 | two clock readings are ordered and equal exactly as their seconds and nanoseconds are |
| Clock.Timeout | src/daemonproxy.c:155-161 | the timeout never exceeds the time left, is short of it by less than a microsecond, and has fewer than 1000000 microseconds |
| MainLoop.Client.SetTimeouts | src/controller.c:589-610 | accepted exactly for 0 <= reset <= close <= 0x7FFFFFFF, else unchanged |
| MainLoop.Client.Perform | src/controller.c:259-296 | what happens to a client sets its input and timeouts exactly, offers an open connection just the one event, and closes it exactly when a write failed |
| MainLoop.Client.CheckTimeout | src/controller.c:306-349 | output is written whenever there is some; the client is closed exactly when it is then blocked for its close timeout, its overflow newly set exactly when it is blocked for the reset timeout with its input full, and the wake-up is exactly the earliest it calls for, at once if input waits behind what was flushed |
| MainLoop.CheckTimeouts | src/controller.c:301-356 | the same for all clients at once, with the wake-up the earliest of what it was and what they call for |
| MainLoop.ReapAll | src/daemonproxy.c:130-137 | exactly the running services whose pids were waited for become reaped, and the loop is hurried exactly if there is one |
| MainLoop.RunControllers | src/controller.c:259-357 | whatever commands and output the controllers produce, the services go through exactly the steps the commands call for, each client through what happens to it, none is reaped or overdue, and the wake-up is at once if a controller was busy or a command started a service, else what it was, or the earlier one that the clients call for |
| MainLoop.RunServices | src/daemonproxy.c:130-144 | the deaths waited for, and then signals and one run of each waiting service, take all services, events and forks to exactly what these two steps give, and the wake-up to now if a step hurried the loop and else to the first pending start within 200 seconds |
| MainLoop.Select | src/daemonproxy.c:154-161 | the timeout is the time left to the wake-up, cut to microseconds, or nothing if it is over; so the sleep ends no later than any pending start and any deadline of a blocked client, and within 200 seconds |
| MainLoop.Turn | src/daemonproxy.c:120-184 | one turn takes the services through the steps its input calls for, keeps every invariant, and sleeps exactly as long as services, commands and clients call for, with nothing left to do |
| MainLoop.Supervise | src/daemonproxy.c:119-185 | in every run of the loop the services go through exactly the steps the inputs call for, with exactly the events told and forks tried that these account for; each service.state event names the state its service was in, and the last one about each service names the state it is in |
| MainLoop.RestartRun | src/service.c:587-639 | the real state machine, run under any clock, deaths and fork failures, gives a history of the throttle with these deaths at these times; its forks are exactly those for which fork returned a pid, and come no more often than once in restart_interval |
| MainLoop.ForksSpaced | src/service.c:587-639 | in a recorded history any two forks in a row are restart_interval apart |
| ServiceVars.Vars.GetVar | src/service.c:238-250 | reading the packed buffer is looking the name up among its NUL-terminated tokens, which is map lookup |
| ServiceVars.Vars.SetVar | src/service.c:259-320 | editing the buffer in place, with any value, gives the packing of the tokens with this one set; for values without NUL that is map update or removal; a failed call changes nothing, byte for byte, and a call fails exactly when the text gets longer and either the pool has no room for it or realloc, asked once, refuses |
| ServiceVars.ReadBack | src/service.c:259-320 | whatever was in the buffer, what is read back is the value up to its first NUL |
| ServiceVars.ReadBackExactly | src/service.c:259-320 | so it is the value if and only if that has no NUL |
| ServiceVars.SetIsMapUpdate | src/service.c:259-320 | without a NUL, replacing, dropping or appending an entry changes that key and no other |
| ServiceVars.SetIsMapUpdateExactly | src/service.c:259-320 | setting is a map update if and only if the value has no NUL |
| ServiceVars.SetKeepsWf | src/service.c:259-320 | a value without a NUL keeps the buffer a list of different names with values |
| ServiceVars.NulMakesAmbiguous | src/service.c:238-320 | tags set to x, NUL, args=y are read as x, and args are read as y |
| ServiceVars.LookupIsMap | src/service.c:238-250 | the first entry with the name is the map's value |
| ServiceVars.PatchedIsSet | src/service.c:297-315 | the moved and patched buffer is the packing of the tokens with this one set |
| ServiceVars.PackInjective | src/service.c:238-250 | a buffer can be read in only one way |
| ServiceSettings.Service.Get | src/service.c:322-351 | a getter returns the setting in the packed buffer, or the default if it is unset |
| ServiceSettings.Service.SetText | src/service.c:322-346 | tags and args read back as set if and only if they have no NUL, and then the other settings are kept; the call fails exactly when the variable cannot be stored, and then nothing changes |
| ServiceSettings.Service.SetFds | src/service.c:348-382 | fds read back as set, the elided default included, if and only if they have no NUL; the control flags are membership in the fds given; the call fails exactly when they cannot be stored, which the default always can, and then nothing changes |
| ServiceSettings.Service.SetTriggers | src/service.c:395-425 | triggers are accepted exactly when all are understood and can be stored; they define restart flag and signal set, and read back as set if and only if they have no NUL; a refused call changes nothing |
| ServiceSettings.HasTokens | src/service.c:370-380 | each flag is membership of its name among the tab-separated fields |
| ServiceSettings.ParseTriggers | src/service.c:406-418 | exactly the lists of known triggers are accepted, up to the first empty one |
| ServiceSettings.NoControlByDefault | src/service.c:348-351 | the elided default uses no control handle |
| Strseg.CmpTotalOrder | src/strseg.c:9-18 | string comparison is a total order |
| Strseg.CmpEqual | src/strseg.c:9-18 | two strings compare equal exactly when they are equal |
| Strseg.Compare | src/strseg.c:9-18 | the loop computes that order |
| Strseg.NextToken | src/strseg.c:33-50 | each call yields the next field and leaves the remaining ones |
| Strseg.FieldsJoin | src/strseg.c:20-50 | the fields joined by the separator are the string |
| FdShuffle.Shuffle | src/service.c:768-792 | without failing calls it succeeds if and only if the table and the entries pass; then each slot holds the file its entry named at first, or for a closed entry exactly the low entry's file that took its number, and everything from the count up to FD_SETSIZE is closed, repeated and overlapping entries included |
| FdShuffle.Child.MoveUp | src/service.c:768-780 | low sources are copied out of the way before anything is overwritten; it fails without failing calls exactly when the first low entry is closed |
| FdShuffle.Child.MoveOne | src/service.c:771-779 | the copies of the first low entry fill every unused low number, and each low entry takes the next unused number from the count up |
| FdShuffle.Child.Place | src/service.c:782-790 | every slot gets its file or is closed |
| FdShuffle.Child.CloseRest | src/service.c:792 | the rest up to FD_SETSIZE is closed and nothing else |
| FdShuffle.SourcesOpen | src/service.c:768-790 | after the copies a source is open exactly when it was, or is one of the numbers the copies took, and it holds what its slot is to get |
| FdShuffle.UsesOne | src/service.c:772-779 | each copy uses up an unused low number, which is why the loop ends |
| FdShuffle.StaleEntry | src/service.c:768-792 | the lists 5 0 and 0 1 pass although 5 and 1 are closed, and those slots receive the file of descriptor 0 |
| FdRegistry.Registry.Preallocate | src/fd.c:88-106 | the array lists each of the pool's objects once |
| FdRegistry.Registry.ByName | src/fd.c:309-315 | exactly the object with the name, or none if there is none |
| FdRegistry.Registry.New | src/fd.c:119-151 | one spare object joins array and index, cleared, or nothing changes; it fails exactly when all objects of the pool are live or, without a pool, when memory was refused |
| FdRegistry.Registry.Delete | src/fd.c:154-187 | exactly this object leaves array and index, its peer forgets it, nothing else changes, and a pool stays a permutation of its slots |
| FdRegistry.Registry.NewFile | src/fd.c:262-284 | this name is rebound to the new object and exactly the old holder goes, or nothing changes; it succeeds exactly if the name is no constant and an object is spare or, without a pool, no memory was refused |
| FdRegistry.Registry.NewPipe | src/fd.c:221-259 | these two names are rebound to ends that point at each other and exactly the old holders go, or nothing changes; names stay unique if and only if it fails or the two differ; it succeeds exactly if no name is a constant and two objects are spare or, without a pool, no memory was refused |
| FdRegistry.Rebind | src/fd.c:221-284 | replacing the holders of some names changes those bindings only |
| FdRegistry.Remean | src/fd.c:154-284 | and changes what the other names mean only by taking away peers that went |
| FdRegistry.RemoveName | src/controller.c:1167-1176 | exactly the named object goes if there is one and it is no constant, else nothing changes |
| FdRegistry.Apply | src/fd.c:119-284 | what all names mean afterwards is a pure function of what they meant and the operation, if it was accepted, and it was accepted exactly when allowed and, with a pool, fitting and, without one, not denied memory |
| FdRegistry.Session | src/fd.c:88-284 | after every run of operations, pooled or not, what the names mean is the fold of the accepted operations, each of them accepted exactly when it had to be, and memory was denied exactly as often as the allocator refused |
| FdRegistry.PeersMutual | src/fd.c:154-259 | after every run, a peer is bound, is another name and points back |
| FdRegistry.ConstantsStay | src/fd.c:221-284 | a constant stays bound to the same descriptor for the rest of every run |
| FdRegistry.PoolDecides | src/fd.c:119-151 | with a pool nothing is ever denied memory, so the operations alone determine which are accepted |
| FdRegistry.Determined | src/fd.c:119-284 | without one the operations and the denials of memory do |
| FdRegistry.FullPoolRefuses | src/fd.c:262-284 | a full pool refuses every new binding, even of a name that is bound |
| SignalTable.Signals.Record | src/signal.c:30-45 | used slots stay a prefix with distinct signals, and exactly one slot is written |
| SignalTable.Signals.GetNew | src/signal.c:239-256 | the earliest pending signal after the given time, or none if there is none |
| SignalTable.Signals.MarkSeen | src/signal.c:260-270 | only that signal's count is lowered, not below zero; the table stays valid exactly unless the count is negative, the signal 0 and a slot unused; times stay distinct for every count from 0 on |
| SignalTable.SeenPacked | src/signal.c:260-270 | that condition, for every table |
| SignalTable.Signals.ClearNothing | src/signal.c:239-270 | clearing signal 0 by -1 leaves a slot that is given out for time 0 again and again |
| SignalTable.EndlessExactly | src/signal.c:239-256 | asking with the time of the last answer goes on for ever if and only if it starts from 0 and a pending slot has time 0 |
| SignalTable.AnswersEnd | src/signal.c:239-256 | otherwise there are no more answers than newer slots |
| SignalTable.Signals.Deliver | src/controller.c:365-377 | every later pending signal once, in time order, each with the output buffer ready, and then it stops; it is interrupted only when the buffer is not ready and a signal is left, and goes on where it was |
| SignalTable.Signals.CheckSigwake | src/service.c:456-467 | true exactly when some pending signal is in the service's set |
| SignalTable.NextSignal | src/signal.c:239-256 | moving past the earliest signal leaves strictly fewer and skips none |
| CommandHash.StatesAgree | scripts/generate_controller_data.pl:40-48 | for every string, if the multiplier is an int or the shift 0, the wide and the emitted hash agree modulo 2 to the 32 |
| CommandHash.AgreeExactly | scripts/generate_controller_data.pl:97-104 | for multipliers below 2 to the 32 they agree on all strings if and only if that holds |
| CommandHash.HashesAgree | scripts/generate_controller_data.pl:97-104 | so both name the same bucket |
| CommandHash.PerlHashFn | scripts/generate_controller_data.pl:40-48 | the generator's loop computes its hash |
| CommandHash.CHashFn | scripts/generate_controller_data.pl:97-104 | the emitted loop computes its hash |
| CommandHash.BuildTable | scripts/generate_controller_data.pl:50-62 | fails exactly when two names collide; else each name is in its bucket and nothing else is in the table |
| CommandHash.FindParams | scripts/generate_controller_data.pl:64-74 | the first parameters tried that have no collision, or none if all collide; up to 2 to the 15 entries the multiplier is an int |
| CommandHash.FindCommand | src/controller.c:139-142 | on an accepted table exactly the names of the set are found |

## Left out

- EventStream.Controller.Write: one destination; copying the bytes formatted for one controller to the others is not modelled.
- CommandFraming.Framer.NextCommand: does not deliver signals first; that loop is SignalTable.Signals.Deliver.
- CommandFraming.Framer.RunCommand: does not wait for room in the output buffer and does not call a handler; what is dispatched is recorded.
- CommandFraming.Framer.ReadMore: a read that would block is a schedule without that read, and descriptors received beside the bytes are not modelled.
- Statedump.Run: a table is its names in index order, and one table is dumped; the stages for descriptors, services and signals are not run one after the other.
- Statedump.Dump.Seek: searches the names in a line; the search in heap nodes is ContainedRBTree.RBTree.IterNext.
- ServiceMachine.Supervisor.Reap: assumes that fork never returns a pid still in the index, although a reaped service keeps its pid there until its next start.
- ServiceCommands.RunActive: the new signals are given as a sequence, which SignalTable.Signals.Deliver produces in the same way; the list of services that wake by signals is a sequence, only the active list is modelled with its links.
- ServiceCommands.WakeBySignals: the same.
- ServiceCommands.CommandStart: whether arguments are set is a flag of the command, not read from the variables of ServiceVars.
- ServiceCommands.CreateService: services have no name here; the index by name is NameIndex.
- ServiceCommands.DeleteService: the event that announces the deletion is not among the notices.
- ServiceCommands.Statedump: is not interrupted; an interrupted dump is a run of ServiceCommands.TellOne, and which lines it has is Statedump.Run.
- ServiceCommands.Execute: a service is named by its place in the list, and service.signal, which changes no state, is left out.
- MainLoop.RunControllers: what controllers do is any sequence of commands, events, flushes, timeout settings and departures, not the commands parsed from their input; new connections are not modelled.
- MainLoop.Turn: the log and the control socket are left out, and signals are an input.
- MainLoop.Supervise: two controllers; that the commands come from their input is not modelled.
- ServiceSettings.Service.SetText: that other settings are kept is said of values without NUL only, since it is false of others (ServiceVars.NulMakesAmbiguous); the same goes for SetFds and SetTriggers.
- ServiceSettings.ParseTriggers: looking up a signal name is a parameter, and a failing sigaddset is left out.
- ServiceVars.Vars.SetVar: the buffer is an array of its own, so a pooled service's layout, where it shares memory with the name, is not covered.
- FdShuffle.Shuffle: descriptors from FD_SETSIZE on are not closed, as in the code.
- FdRegistry.Registry.ByName: the index is a set of objects; NameIndex runs the same operations on the tree.
- FdRegistry.Registry.NewPipe: with one name for both ends and an old holder, the code deletes that object twice; the second time changes nothing here, as with a pool, while without one it reads freed memory. The read and write flags of the two ends are left out.
- FdRegistry.Session: pipes have two different names, since NewPipe shows that only then names stay unique.
- SignalTable.Signals.Deliver: pending signals are required to have distinct nonzero times, which the handler does not guarantee for three signals within one clock tick; SignalTable.EndlessExactly covers times of zero.
- SignalTable.Signals.Record: the count argument is ignored as in the code, so counts are not conserved when signals are merged.
- CommandHash.CHashFn: int has 32 bits and long 64, and a 64-bit product that overflows wraps.
- CommandHash.FindCommand: the multiplier is an int or the shift 0; CommandHash.AgreeExactly shows why. The table size is any power of two; how it is computed from the number of commands is left out.
- 64-bit wrap-around of timestamps: times are unbounded integers.
- RBTree_Clear: its loop waits for an end that is never reached, and nothing calls it.
- Signal handlers, merging their slots, and signal names.
- Sockets, opening files, the truncated path kept with a descriptor, and closing descriptors on delete.
- fork and exec themselves, argument vectors and environment.
- Number and size parsing, command arguments and flags: easy members with no state.
- The log, options, daemonizing, the control socket, exec on exit, and the Perl client library.
