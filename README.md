# socket-burst-dampener: the admission-control state machine

The socket burst dampener is a daemon that listens on a TCP port. For each
connection it accepts, it spawns a configured command and hands the
connection to it as the process's standard input and output. It dampens
bursts in two ways:

- it stops accepting, by unregistering the listening socket from the event
  loop, when the number of live handler processes reaches a configured
  maximum;
- it also stops accepting when a connection arrives while at least one
  handler is running and the 1-minute load average is at or above an
  optional ceiling. With no handler running, the load gate always admits.

When a handler process exits, the daemon reaps it. If the daemon was paused
and the load gate now allows, it resumes accepting.

This project models the `Daemon` class of `src/socket_burst_dampener.py`,
which holds the daemon's state: the process table and the `accepting` flag.
It has three modules:

- `Admission` (admission.dfy) is the state machine as values. A `State` is
  the process table (pid to the process and its connection) plus the
  `accepting` flag. Every transition returns the next state together with the
  reader calls it makes on the event loop (`AddReader` / `RemoveReader` on
  the listening socket). `Replay` runs such calls from a given registration,
  and gives `None` on a redundant call. `Run` executes any sequence of
  readability and child-exit events.
- `AdmissionProperties` (admission_properties.dfy) proves the properties of
  that machine. The listener is registered exactly when the daemon is
  accepting, and no reader call is ever redundant. With a positive maximum,
  the table never holds more processes than the maximum. The lemmas also
  cover the load gate, pause idempotence, the cases of the read handler,
  reaping, forward progress (the daemon is never paused with an empty
  table), and the whole enter / run / exit lifecycle.
- `SocketBurstDampener` (daemon.dfy) is the imperative `Daemon` class. It has
  the mutable fields `processes` and `accepting` and the listener's state.
  Its ghost fields are:
  - `registered`, whether the event loop watches the listener;
  - `readerLog`, every reader call made;
  - `terminated`, the pids terminated and waited for at exit.

  Each method is proved to move the object to the state that the
  corresponding `Admission` function gives, and to append exactly that
  function's reader calls to the log. The constructor, `Enter`,
  `SocketReadHandler`, `OnChildExited` and `Exit` establish or keep the class
  invariant `Valid()`. `Valid()` covers the size bound, the registration in
  step with `accepting`, and a reader-call log with no redundant call. The
  helpers keep less:
  - `StopAccepting` keeps `Registration()`: the registration is in step and
    the log replays to it;
  - `StartAccepting`, `ReapChild` and `ReapChildren` keep `Wired()`: the
    listener is registered exactly when accepting, and open while
    accepting. `StartAccepting` keeps `Registration()` too when it held
    before;
  - `OnChildExited` restores the rest of `Valid()` from the lemmas about
    reaping.

  The reaping loop and the shutdown drain loop are `while` loops with their
  invariants.

The operations of the source are modelled as follows:

- The event loop, the operating-system calls and the load-average probe are
  inputs to the methods.
- `load` is the value the probe reads. It is a `real` that is only compared
  with the ceiling.
- A spawned process is a fresh positive pid.
- The results of the non-blocking `wait3` calls are a sequence `waits`. It
  holds reported pids followed by exactly one stop result: pid 0, or the
  "no child processes" error.

## Model

| member | source | states |
|---|---|---|
| SocketBurstDampener.Daemon.constructor | src/socket_burst_dampener.py:28-35 | A new daemon has an empty table, is not accepting and has no socket yet. No reader call has been made. The class invariant holds. |
| SocketBurstDampener.Daemon.StartAccepting | src/socket_burst_dampener.py:42-45 | Sets `accepting` and registers the listener with one `AddReader`. It is called only while not accepting, so the registration stays non-redundant. Nothing else changes. |
| SocketBurstDampener.Daemon.StopAccepting | src/socket_burst_dampener.py:47-50 | When accepting: clears `accepting` and makes exactly one `RemoveReader`. When not accepting: changes nothing and makes no call. Keeps registration in step with `accepting`. |
| SocketBurstDampener.Daemon.Enter | src/socket_burst_dampener.py:84-92 | Opens the listener, then starts accepting. The invariant holds and the listener is registered. |
| SocketBurstDampener.Daemon.SocketReadHandler | src/socket_burst_dampener.py:72-82 | Moves to the state and makes the calls of `Admission.SocketReadHandler`. Keeps the size bound and the registration invariant. |
| SocketBurstDampener.Daemon.ReapChild | src/socket_burst_dampener.py:62-70 | One turn of the reaping loop. Requires the pid to be in the table, since the source's `pop` raises a key error otherwise. Removes that entry and resumes accepting exactly when paused and the gate allows. |
| SocketBurstDampener.Daemon.ReapChildren | src/socket_burst_dampener.py:52-70 | The reaping loop stops at the first pid 0 or "no children" result. It ends in the state `Admission.ReapChildren` gives for the reported pids, with its reader calls. |
| SocketBurstDampener.Daemon.OnChildExited | src/socket_burst_dampener.py:34-35 | The SIGCHLD-driven reap. It keeps the whole class invariant: the size bound, and registration in step with `accepting` with a non-redundant call log. |
| SocketBurstDampener.Daemon.Exit | src/socket_burst_dampener.py:94-109 | Stops accepting, closes the listener and drains the table. Afterwards the table is empty, the daemon is not accepting and the listener is unregistered. Every pid that was in the table is terminated and waited for exactly once, and no other pid is. |
| SocketBurstDampener.StopIsLast | src/socket_burst_dampener.py:55-60 | In a wait trace, a result stops the reaping loop exactly when it is the last one. |
| SocketBurstDampener.NonEmptyHasKey | src/socket_burst_dampener.py:99-100 | Proof helper, a general fact about finite maps: a non-empty table has an entry. The drain loop uses it to pick the entry `popitem` takes. |
| SocketBurstDampener.EmptyIfNoKey | src/socket_burst_dampener.py:99 | Proof helper, a general fact about finite maps: a table with no pid in it is the empty table. |
| Admission.AcceptableLoad | src/socket_burst_dampener.py:37-40 | The load gate `_acceptable_load`: open iff no ceiling is set, the table is empty, or the load is strictly below the ceiling. It carries no contract of its own. Its properties are stated by `AdmissionProperties.IdleGateOpen`, `GateComparesLoad` and `GateMonotone`. |
| Admission.Init | src/socket_burst_dampener.py:31-32 | The state of a new daemon, with an empty table and not accepting. It meets the size bound for every configuration. |
| Admission.StartAccepting | src/socket_burst_dampener.py:42-45 | Keeps the table and sets accepting. Its calls register the listener from the unregistered state. From the registered state they are a redundant registration, which is why callers start accepting only while paused. |
| Admission.StopAccepting | src/socket_burst_dampener.py:47-50 | Keeps the table and clears accepting. Its calls leave the listener unregistered from either registration, with no redundant call. |
| Admission.Enter | src/socket_burst_dampener.py:91 | Keeps the table and starts accepting. From a daemon that is not accepting, the listener ends registered. |
| Admission.SocketReadHandler | src/socket_burst_dampener.py:72-82 | The read handler drops no pid, adds at most the new one, and never switches accepting on. Its cases are stated by the `AdmissionProperties.ReadHandler...` lemmas. |
| Admission.Exit | src/socket_burst_dampener.py:94-109 | Returns the drained state `State(map[], false)` directly, together with the calls of stopping accepting, which leave the listener unregistered with no redundant call. The function does not run the drain. Only the loop of `SocketBurstDampener.Daemon.Exit` proves it. |
| Admission.ReapOne | src/socket_burst_dampener.py:62-70 | Reaping a pid removes exactly that pid from the table. Accepting afterwards is true iff it was true, or the gate allows on the reduced table. The listener is registered iff accepting was switched on. |
| Admission.ReapFirst | src/socket_burst_dampener.py:53-70 | The state after the first `k` turns of the reaping loop. Reaping never switches accepting off. |
| Admission.ReapFirstKeys | src/socket_burst_dampener.py:62 | After `k` turns, a pid is in the table iff it was there before and is not among the first `k` reported. |
| Admission.ReapNext | src/socket_burst_dampener.py:62 | The pid reaped next is still in the table, so `pop` does not fail. This holds when each pid is reported once and all were live. |
| Admission.ReapChildren | src/socket_burst_dampener.py:52-70 | The whole reaping loop. Accepting is never switched off. |
| Admission.ReapKeys | src/socket_burst_dampener.py:62 | After reaping, a pid is in the table iff it was there before and was not reported. |
| Admission.ReapKeeps | src/socket_burst_dampener.py:62 | Reaping leaves every remaining entry unchanged. |
| Admission.ReapShrinks | src/socket_burst_dampener.py:62 | Each turn removes exactly one entry: after `k` turns the table has `k` fewer processes. |
| Admission.RemoveShrinks | src/socket_burst_dampener.py:62 | Proof helper, a general fact about finite maps: removing a key that is present lowers the size by one. |
| Admission.ResumeCallsCompose | src/socket_burst_dampener.py:69-70 | Across turns that never switch accepting off, the listener is registered at most once in total: exactly when accepting goes from off to on. |
| Admission.ExitedPids | src/socket_burst_dampener.py:55-60 | The pids the reaping loop removes are the nonzero pids reported before the stop result, in order. |
| Admission.IndexOfFinds | src/socket_burst_dampener.py:62 | Proof helper, a general fact about sequences: the first-occurrence index is within bounds, finds a pid iff it was reported, and points at it. |
| Admission.IndexOfFirst | src/socket_burst_dampener.py:62 | Proof helper, a general fact about sequences: the first occurrence of a reported pid is at or before any of its positions. |
| Admission.DistinctAppend | src/socket_burst_dampener.py:99-100 | Proof helper, a general fact about sequences: appending an element not yet present keeps a sequence duplicate-free. The drain loop uses it for the terminated pids. |
| AdmissionProperties.ReplayConcat | src/socket_burst_dampener.py:42-50 | Replaying two batches of reader calls is the same as replaying the first, then the second from the registration the first left. |
| AdmissionProperties.IdleGateOpen | src/socket_burst_dampener.py:39 | With an empty table the gate is open for every load and ceiling. `RunKeepsLive` builds forward progress on this. |
| AdmissionProperties.GateComparesLoad | src/socket_burst_dampener.py:37-40 | With a ceiling set and a non-empty table, the gate is open iff the load is strictly below the ceiling. |
| AdmissionProperties.GateMonotone | src/socket_burst_dampener.py:37-40 | The gate stays open when processes are removed or the load drops. |
| AdmissionProperties.StopAcceptingIdempotent | src/socket_burst_dampener.py:47-50 | Pausing clears `accepting` and unregisters exactly once if it was set, with no call otherwise. A second pause changes nothing and makes no call. |
| AdmissionProperties.ReadHandlerAdmits | src/socket_burst_dampener.py:72-80 | Accepting with the gate open: exactly one entry is added (the new pid, running the configured command, on the accepted connection), and every other entry is kept. The daemon pauses, with one `RemoveReader`, iff the table size reaches the maximum. |
| AdmissionProperties.ReadHandlerDenied | src/socket_burst_dampener.py:81-82 | When the gate denies admission, the table is unchanged and the daemon pauses with one `RemoveReader`. |
| AdmissionProperties.ReadHandlerIgnoredWhilePaused | src/socket_burst_dampener.py:73 | While paused, a readability event changes nothing and makes no call. |
| AdmissionProperties.IdleAlwaysAdmits | src/socket_burst_dampener.py:74-78 | Accepting with an empty table: the connection is admitted whatever the load. |
| AdmissionProperties.UnboundedPausesOnlyOnLoad | src/socket_burst_dampener.py:79-82 | With a maximum of 0 (or any maximum below 1), the read handler leaves the daemon accepting iff the gate was open. Only the load gate pauses it. |
| AdmissionProperties.SomeLoadBelowStep | src/socket_burst_dampener.py:69 | Some sample among the first `k` is below the ceiling iff one among the first `k - 1` is, or the `k`-th is. |
| AdmissionProperties.EmptyIffSizeZero | src/socket_burst_dampener.py:39 | Proof helper, a general fact about finite maps: a map is empty iff its size is 0. It links the gate's emptiness test to the size count. |
| AdmissionProperties.ReapResumesIff | src/socket_burst_dampener.py:52-70 | After `k` reaps, accepting is true iff it already was, or at least one child was reaped and either no ceiling is set, the table was emptied, or some load sample read after a removal was below the ceiling. |
| AdmissionProperties.ReapEmptyingResumes | src/socket_burst_dampener.py:69-70 | A reap that empties the table always resumes accepting. |
| AdmissionProperties.SpawnThenReap | src/socket_burst_dampener.py:62-78 | Admitting a connection and then reaping its process gives back the original table. |
| AdmissionProperties.ReapPreservesInv | src/socket_burst_dampener.py:52-70 | Reaping keeps the size bound. |
| AdmissionProperties.ReapReplays | src/socket_burst_dampener.py:69-70 | Reaping registers the listener iff it switches accepting on, and never makes a redundant call. |
| AdmissionProperties.HandlePreservesInv | src/socket_burst_dampener.py:52-82 | Every readability or child-exit event keeps the size bound: with a positive maximum the table holds at most the maximum, and fewer while accepting. |
| AdmissionProperties.HandleReplays | src/socket_burst_dampener.py:52-82 | Every event leaves the listener registered iff accepting, with no redundant reader call. |
| AdmissionProperties.RunPreservesInv | src/socket_burst_dampener.py:52-82 | The size bound holds after any run of events. |
| AdmissionProperties.RunReplays | src/socket_burst_dampener.py:42-82 | Over any run, the reader calls keep registration in step with `accepting`. |
| AdmissionProperties.HandleKeepsLive | src/socket_burst_dampener.py:37-82 | Every event keeps the daemon live: it is accepting or runs some process, so a reap is still to come. Pausing on a connection needs a running process (line 39), and a reap that empties the table resumes accepting (lines 69-70). |
| AdmissionProperties.RunKeepsLive | src/socket_burst_dampener.py:37-82 | Forward progress: after any run of events from a live state the daemon is still live. It is never paused with an empty table, which would leave it wedged. |
| AdmissionProperties.Lifecycle | src/socket_burst_dampener.py:84-109 | Over enter and any run of events, the table never exceeds a positive maximum and the daemon stays live. The listener is registered and unregistered in strict alternation through exit, and ends unregistered. The empty, non-accepting state after exit holds by the definition of `Admission.Exit`. The drain itself is proved by the loop of `SocketBurstDampener.Daemon.Exit`. |

## Left out

- Socket setup is abstracted as the listener being `Unbound`, `Listening` or `Closed`: socket creation, address reuse, bind, listen and non-blocking mode (src/socket_burst_dampener.py:22-24, 85-89). The code binds one IPv4 socket. Dual-stack and multi-listener setup do not appear in the code and are not modelled.
- Process and connection calls are foreign operating-system calls. They are abstracted as pid creation and table removal. This covers `subprocess.Popen`, `terminate`, `wait`, `accept`, and the connection's `shutdown`/`close`. Failures of `accept` or `Popen` are not caught by the code and are not modelled.
- Event-loop registration is the ghost `registered` flag and the `readerLog` of calls. The SIGCHLD handler's installation and removal (lines 90, 97) and `call_soon_threadsafe` are signal plumbing. `OnChildExited` stands for the reap callback they schedule.
- Load average: `os.getloadavg()` is an input, one sample per gate evaluation, with no floating-point semantics. A failing probe is not modelled, because the code does not handle that case.
- `wait3`: its results are an input sequence. The pids it reports are required to be in the table and distinct. The source raises a key error on an unknown pid, and that case is a precondition here.
- `SocketBurstDampener.Daemon.Exit`: draining picks an arbitrary entry each turn. It does not model the last-in-first-out order of `popitem`.
- The command-line interface, logging and event-loop lifecycle (`main`, lines 112-202), packaging, and the end-to-end socket tests are not part of this model.
- The code keeps each connection in the table until its process is reaped or the daemon exits. The model follows the code, not the alternative design in which the daemon closes its copy of the connection right after spawning.
- A maximum of 0 means unbounded. The model follows the code's test `len == processes`, so any maximum below 1 behaves the same way.
