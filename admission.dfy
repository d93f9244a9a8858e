/** The admission-control state machine of the socket burst dampener, as values.

    The daemon's state is its process table (pid to the handler process and
    its connection) and the `accepting` flag.  Every transition yields the
    next state together with the reader calls it makes on the event loop
    (registering or unregistering the listening socket for readability), so
    that the lemmas can state that the listener is registered exactly when
    the daemon is accepting.  The class in daemon.dfy is proved against
    these functions.
 */
module Admission {

  datatype Option<+T> = None | Some(value: T)

  type Pid = int

  /** An accepted connection, identified by its file descriptor. */
  datatype Conn = Conn(fd: int)

  /** A spawned handler process: its pid and the command line it runs. */
  datatype Proc = Proc(pid: Pid, argv: seq<string>)

  /** A row of the process table: the process and the connection it serves. */
  datatype Entry = Entry(proc: Proc, conn: Conn)

  /** The parsed command line the daemon runs with: the maximum number of
      concurrent processes (0, or any value no table size can equal, means
      unbounded), the optional load-average ceiling, and the handler command. */
  datatype Config = Config(processes: int, loadAverage: Option<real>, cmd: string, args: seq<string>)

  datatype State = State(processes: map<Pid, Entry>, accepting: bool)

  /** A call on the event loop about the listening socket. */
  datatype ReaderCall = AddReader | RemoveReader

  /** The outcome of a transition: the next state and the reader calls made, in order. */
  datatype Step = Step(next: State, calls: seq<ReaderCall>)

  /** One result of a non-blocking wait for any child: the pid it reports
      (0 when no child has exited yet), or the error for "no children". */
  datatype Wait = Reported(pid: Pid) | NoChildren

  /** The listener's registration after the event loop carries out `calls`
      in order, starting from `registered`; None when one of the calls
      registers a listener that is already registered or unregisters one
      that is not. */
  function Replay(registered: bool, calls: seq<ReaderCall>): Option<bool>
    decreases |calls|
  {
    if calls == [] then Some(registered)
    else match calls[0]
      case AddReader => if registered then None else Replay(true, calls[1..])
      case RemoveReader => if registered then Replay(false, calls[1..]) else None
  }

  /** The position of the first occurrence of `p` in `pids`, or `|pids|`
      when `p` does not occur. */
  function IndexOf(pids: seq<Pid>, p: Pid): nat
  {
    if pids == [] then 0 else if pids[0] == p then 0 else 1 + IndexOf(pids[1..], p)
  }

  /** `IndexOf` finds `p` exactly when `p` occurs, at a position holding `p`. */
  lemma {:induction false} IndexOfFinds(pids: seq<Pid>, p: Pid)
    ensures IndexOf(pids, p) <= |pids|
    ensures IndexOf(pids, p) < |pids| <==> p in pids
    ensures IndexOf(pids, p) < |pids| ==> pids[IndexOf(pids, p)] == p
  {
    if pids != [] && pids[0] != p {
      IndexOfFinds(pids[1..], p);
      assert p in pids <==> p in pids[1..];
    }
  }

  /** The first occurrence of the pid at position `j` is at `j` or before. */
  lemma {:induction false} IndexOfFirst(pids: seq<Pid>, j: nat)
    requires j < |pids|
    ensures IndexOf(pids, pids[j]) <= j
  {
    if pids[0] != pids[j] {
      IndexOfFirst(pids[1..], j - 1);
    }
  }

  /** No pid occurs twice. */
  predicate Distinct(pids: seq<Pid>)
  {
    forall i, j :: 0 <= i < j < |pids| ==> pids[i] != pids[j]
  }

  /** Appending a pid that does not occur keeps the pids distinct. */
  lemma DistinctAppend(pids: seq<Pid>, p: Pid)
    requires Distinct(pids) && p !in pids
    ensures Distinct(pids + [p])
  {
  }

  /** The load gate: admission is allowed when no ceiling is configured,
      when no process is running, or when the current 1-minute load average
      is strictly below the ceiling. */
  predicate AcceptableLoad(cfg: Config, processes: map<Pid, Entry>, load: real)
  {
    cfg.loadAverage.None? || processes == map[] || load < cfg.loadAverage.value
  }

  /** The invariant the state machine keeps: with a positive maximum, the
      table never holds more processes than the maximum, and while the daemon
      is accepting it holds fewer. */
  predicate Inv(cfg: Config, s: State)
  {
    cfg.processes > 0 ==>
      |s.processes| <= cfg.processes && (s.accepting ==> |s.processes| < cfg.processes)
  }

  /** A freshly constructed daemon: empty table, not accepting.  It meets
      the size bound for every configuration. */
  function Init(): (r: State)
    ensures forall cfg :: Inv(cfg, r)
  {
    State(map[], false)
  }

  /** Set `accepting` and register the listener, keeping the table.  The
      registration is well formed only from a daemon that is not accepting,
      which is why its callers call it only then. */
  function StartAccepting(s: State): (r: Step)
    ensures r.next.processes == s.processes && r.next.accepting
    ensures Replay(s.accepting, r.calls) == if s.accepting then None else Some(true)
  {
    Step(s.(accepting := true), [AddReader])
  }

  /** Clear `accepting` and unregister the listener, if accepting.  The
      table is kept and the listener ends unregistered, with no redundant call. */
  function StopAccepting(s: State): (r: Step)
    ensures r.next.processes == s.processes && !r.next.accepting
    ensures Replay(s.accepting, r.calls) == Some(false)
  {
    if s.accepting then Step(s.(accepting := false), [RemoveReader]) else Step(s, [])
  }

  /** Entering the daemon's context: once the listener is bound, start
      accepting.  From a daemon that is not accepting, the listener ends
      registered. */
  function Enter(s: State): (r: Step)
    ensures r.next.processes == s.processes && r.next.accepting
    ensures !s.accepting ==> Replay(false, r.calls) == Some(true)
  {
    StartAccepting(s)
  }

  /** The table entry for a process spawned with pid `pid` on connection `conn`. */
  function Spawned(cfg: Config, conn: Conn, pid: Pid): Entry
  {
    Entry(Proc(pid, [cfg.cmd] + cfg.args), conn)
  }

  /** The listener became readable.  `load` is the current 1-minute load
      average, `conn` the connection accepted and `pid` the pid of the
      process spawned for it (both are used only when admission happens).
      The handler adds at most the new pid, drops nothing, and never
      switches accepting on. */
  function SocketReadHandler(cfg: Config, s: State, load: real, conn: Conn, pid: Pid): (r: Step)
    ensures s.processes.Keys <= r.next.processes.Keys <= s.processes.Keys + {pid}
    ensures r.next.accepting ==> s.accepting
  {
    if !s.accepting then Step(s, [])
    else if AcceptableLoad(cfg, s.processes, load) then
      var t := s.processes[pid := Spawned(cfg, conn, pid)];
      if |t| == cfg.processes then StopAccepting(State(t, true)) else Step(State(t, true), [])
    else StopAccepting(s)
  }

  /** The reader calls of reaping that takes the daemon from `s` to `t`: the
      listener is registered once, exactly when accepting is switched on. */
  function ResumeCalls(s: State, t: State): seq<ReaderCall>
  {
    if !s.accepting && t.accepting then [AddReader] else []
  }

  /** Two batches of reaps that never switch accepting off make, one after
      the other (appended to any earlier log), the calls of the combined batch. */
  lemma ResumeCallsCompose(log: seq<ReaderCall>, a: State, b: State, c: State)
    requires a.accepting ==> b.accepting
    requires b.accepting ==> c.accepting
    ensures log + ResumeCalls(a, b) + ResumeCalls(b, c) == log + ResumeCalls(a, c)
  {
    if a.accepting || !b.accepting {
      assert ResumeCalls(a, b) == [];
      assert log + ResumeCalls(a, b) == log;
    } else {
      assert ResumeCalls(b, c) == [];
    }
  }

  /** The child `pid` has exited: drop its entry, and resume accepting if the
      daemon was paused and the gate (with load `load`) now allows it.  The
      source raises a key error for a pid not in the table; the daemon's
      method requires the pid to be there, and this function then agrees
      with it. */
  function ReapOne(cfg: Config, s: State, pid: Pid, load: real): (r: Step)
    ensures r.next.processes == s.processes - {pid}
    ensures r.next.accepting == (s.accepting || AcceptableLoad(cfg, s.processes - {pid}, load))
    ensures r.calls == ResumeCalls(s, r.next)
  {
    var t := s.processes - {pid};
    if !s.accepting && AcceptableLoad(cfg, t, load) then StartAccepting(State(t, false))
    else Step(State(t, s.accepting), [])
  }

  /** What the reaping loop needs of the pids it is told about: each is in the
      table (removing one that is not raises a key error), each is reported
      once, and one load sample is given per reap. */
  predicate Reapable(s: State, pids: seq<Pid>, loads: seq<real>)
  {
    |loads| == |pids| && Distinct(pids) && forall i :: 0 <= i < |pids| ==> pids[i] in s.processes
  }

  /** The state after the first `k` turns of the reaping loop, `loads[i]`
      being the load average the gate reads after the i-th removal.
      Accepting is never switched off. */
  function ReapFirst(cfg: Config, s: State, pids: seq<Pid>, loads: seq<real>, k: nat): (r: State)
    requires |loads| == |pids| && k <= |pids|
    ensures s.accepting ==> r.accepting
  {
    if k == 0 then s
    else ReapOne(cfg, ReapFirst(cfg, s, pids, loads, k - 1), pids[k - 1], loads[k - 1]).next
  }

  /** The first `k` reaps remove exactly the first `k` pids from the table. */
  lemma {:induction false} ReapFirstKeys(cfg: Config, s: State, pids: seq<Pid>, loads: seq<real>, k: nat)
    requires |loads| == |pids| && k <= |pids|
    ensures forall p :: p in ReapFirst(cfg, s, pids, loads, k).processes <==> p in s.processes && k <= IndexOf(pids, p)
  {
    if k > 0 {
      ReapFirstKeys(cfg, s, pids, loads, k - 1);
      IndexOfFirst(pids, k - 1);
      forall p
        ensures k - 1 <= IndexOf(pids, p) && p != pids[k - 1] <==> k <= IndexOf(pids, p)
      {
        IndexOfFinds(pids, p);
      }
    }
  }

  /** The pid the reaping loop removes next is still in the table. */
  lemma ReapNext(cfg: Config, s: State, pids: seq<Pid>, loads: seq<real>, k: nat)
    requires Reapable(s, pids, loads) && k < |pids|
    ensures pids[k] in ReapFirst(cfg, s, pids, loads, k).processes
  {
    ReapFirstKeys(cfg, s, pids, loads, k);
    IndexOfFinds(pids, pids[k]);
    IndexOfFirst(pids, k);
  }

  /** Reaping the children `pids` in order: the whole reaping loop, with the
      reader calls it makes.  Accepting is never switched off. */
  function ReapChildren(cfg: Config, s: State, pids: seq<Pid>, loads: seq<real>): (r: Step)
    requires |loads| == |pids|
    ensures s.accepting ==> r.next.accepting
  {
    var t := ReapFirst(cfg, s, pids, loads, |pids|);
    Step(t, ResumeCalls(s, t))
  }

  /** Reaping removes exactly the pids reaped from the table. */
  lemma ReapKeys(cfg: Config, s: State, pids: seq<Pid>, loads: seq<real>)
    requires |loads| == |pids|
    ensures forall p :: p in ReapChildren(cfg, s, pids, loads).next.processes <==> p in s.processes && p !in pids
  {
    ReapFirstKeys(cfg, s, pids, loads, |pids|);
    forall p
      ensures |pids| <= IndexOf(pids, p) <==> p !in pids
    {
      IndexOfFinds(pids, p);
    }
  }

  /** Every entry that is not reaped is kept as it was. */
  lemma {:induction false} ReapKeeps(cfg: Config, s: State, pids: seq<Pid>, loads: seq<real>, k: nat)
    requires |loads| == |pids| && k <= |pids|
    ensures forall p :: p in ReapFirst(cfg, s, pids, loads, k).processes ==>
              p in s.processes && ReapFirst(cfg, s, pids, loads, k).processes[p] == s.processes[p]
  {
    if k > 0 {
      ReapKeeps(cfg, s, pids, loads, k - 1);
      var prev := ReapFirst(cfg, s, pids, loads, k - 1).processes;
      var next := ReapFirst(cfg, s, pids, loads, k).processes;
      assert next == prev - {pids[k - 1]};
      forall p | p in next
        ensures p in s.processes && next[p] == s.processes[p]
      {
        assert p in prev && next[p] == prev[p];
      }
    }
  }

  /** Removing a pid that is in the table shrinks it by one. */
  lemma RemoveShrinks(m: map<Pid, Entry>, pid: Pid)
    requires pid in m
    ensures |m - {pid}| == |m| - 1
  {
    assert (m - {pid}).Keys == m.Keys - {pid};
  }

  /** The table shrinks by exactly the number of pids reaped. */
  lemma {:induction false} ReapShrinks(cfg: Config, s: State, pids: seq<Pid>, loads: seq<real>, k: nat)
    requires Reapable(s, pids, loads) && k <= |pids|
    ensures |ReapFirst(cfg, s, pids, loads, k).processes| == |s.processes| - k
  {
    if k > 0 {
      ReapShrinks(cfg, s, pids, loads, k - 1);
      ReapNext(cfg, s, pids, loads, k - 1);
      var prev := ReapFirst(cfg, s, pids, loads, k - 1).processes;
      assert ReapFirst(cfg, s, pids, loads, k).processes == prev - {pids[k - 1]};
      RemoveShrinks(prev, pids[k - 1]);
    }
  }

  /** A stop result of the wait: no child has exited yet, or there are no children. */
  predicate Stops(w: Wait)
  {
    w.NoChildren? || w.pid == 0
  }

  /** The results the reaping loop sees: pids of exited children, then one stop. */
  predicate WaitTrace(waits: seq<Wait>)
  {
    |waits| > 0 && Stops(waits[|waits| - 1]) && forall i :: 0 <= i < |waits| - 1 ==> !Stops(waits[i])
  }

  /** The pids of the children the reaping loop removes. */
  function ExitedPids(waits: seq<Wait>): (pids: seq<Pid>)
    requires WaitTrace(waits)
    ensures |pids| == |waits| - 1
    ensures forall i :: 0 <= i < |pids| ==> waits[i] == Reported(pids[i]) && pids[i] != 0
  {
    seq(|waits| - 1, i requires 0 <= i < |waits| - 1 => waits[i].pid)
  }

  /** Leaving the daemon's context: the reader calls of stopping accepting,
      and the state the shutdown drain leaves: empty table, not accepting.
      The drain itself is the loop of the daemon's `Exit` method.  The
      listener ends unregistered, with no redundant call. */
  function Exit(s: State): (r: Step)
    ensures r.next.processes == map[] && !r.next.accepting
    ensures Replay(s.accepting, r.calls) == Some(false)
  {
    Step(State(map[], false), StopAccepting(s).calls)
  }

  /** An event the reactor dispatches while the daemon runs. */
  datatype Event =
    | Readable(load: real, conn: Conn, pid: Pid)
    | ChildExited(waits: seq<Wait>, loads: seq<real>)

  /** Whether the event can happen in state `s`: a new process gets a
      positive pid that no live process has; a child-exit notification
      reports live children, once each. */
  predicate Enabled(s: State, e: Event)
  {
    match e
    case Readable(_, _, pid) => pid > 0 && pid !in s.processes
    case ChildExited(waits, loads) => WaitTrace(waits) && Reapable(s, ExitedPids(waits), loads)
  }

  function Handle(cfg: Config, s: State, e: Event): Step
    requires Enabled(s, e)
  {
    match e
    case Readable(load, conn, pid) => SocketReadHandler(cfg, s, load, conn, pid)
    case ChildExited(waits, loads) => ReapChildren(cfg, s, ExitedPids(waits), loads)
  }

  /** Running the events in order from `s`: the final state and every reader
      call made; None when some event cannot happen where it occurs. */
  function Run(cfg: Config, s: State, events: seq<Event>): Option<Step>
    decreases |events|
  {
    if events == [] then Some(Step(s, []))
    else if !Enabled(s, events[0]) then None
    else
      var first := Handle(cfg, s, events[0]);
      match Run(cfg, first.next, events[1..])
      case None => None
      case Some(rest) => Some(Step(rest.next, first.calls + rest.calls))
  }
}
