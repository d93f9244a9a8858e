/** The daemon object of src/socket_burst_dampener.py: the process table and
    the `accepting` flag it updates in place, the listening socket, and (as
    ghost state) what the event loop knows about the listener.  Each method
    is proved to move the object from one state of the Admission machine to
    the state the corresponding function gives. */
module SocketBurstDampener {
  import opened Admission
  import AdmissionProperties

  /** The listening socket: not created yet, bound and listening, or closed. */
  datatype Listener = Unbound | Listening | Closed

  class Daemon {
    const args: Config
    var processes: map<Pid, Entry>
    var accepting: bool
    var listener: Listener

    /** Whether the event loop watches the listener for readability. */
    ghost var registered: bool
    /** Every reader call the daemon has made on the event loop, in order. */
    ghost var readerLog: seq<ReaderCall>
    /** The pids terminated and waited for during shutdown, in order. */
    ghost var terminated: seq<Pid>

    /** The daemon's admission state as a value. */
    ghost function Current(): State
      reads this
    {
      State(processes, accepting)
    }

    /** The listener is registered exactly when the daemon is accepting, and
        a registered listener is open. */
    ghost predicate Wired()
      reads this
    {
      registered == accepting && (accepting ==> listener == Listening)
    }

    /** Moreover, the reader calls made so far replay, without a redundant
        call, to that registration. */
    ghost predicate Registration()
      reads this
    {
      Wired() && Replay(false, readerLog) == Some(registered)
    }

    ghost predicate Valid()
      reads this
    {
      && Registration()
      && Inv(args, Current())
      && (listener == Unbound ==> processes == map[])
      && (listener != Closed ==> terminated == [])
    }

    /** A daemon that has not started: no process, not accepting, no socket. */
    constructor (args: Config)
      ensures Valid()
      ensures this.args == args && Current() == Init() && listener == Unbound
      ensures readerLog == [] && terminated == []
    {
      this.args := args;
      processes := map[];
      accepting := false;
      listener := Unbound;
      registered := false;
      readerLog := [];
      terminated := [];
    }

    /** Set `accepting` and register the listener with the event loop.  Its
        callers call it only while not accepting. */
    method StartAccepting()
      requires Wired() && !accepting && listener == Listening
      modifies this
      ensures Wired() && (old(Registration()) ==> Registration())
      ensures Current() == Admission.StartAccepting(old(Current())).next
      ensures readerLog == old(readerLog) + Admission.StartAccepting(old(Current())).calls
      ensures listener == old(listener) && terminated == old(terminated)
    {
      accepting := true;
      registered := true;
      readerLog := readerLog + [AddReader];
      AdmissionProperties.ReplayConcat(false, old(readerLog), [AddReader]);
    }

    /** Clear `accepting` and unregister the listener, only if accepting. */
    method StopAccepting()
      requires Registration()
      modifies this
      ensures Registration()
      ensures Current() == Admission.StopAccepting(old(Current())).next
      ensures readerLog == old(readerLog) + Admission.StopAccepting(old(Current())).calls
      ensures listener == old(listener) && terminated == old(terminated)
    {
      if accepting {
        accepting := false;
        registered := false;
        readerLog := readerLog + [RemoveReader];
        AdmissionProperties.ReplayConcat(false, old(readerLog), [RemoveReader]);
      }
    }

    /** Bind and listen, then start accepting. */
    method Enter()
      requires Valid() && listener == Unbound
      modifies this
      ensures Valid() && listener == Listening
      ensures Current() == Admission.Enter(old(Current())).next
      ensures readerLog == old(readerLog) + Admission.Enter(old(Current())).calls
      ensures terminated == old(terminated)
    {
      listener := Listening;
      StartAccepting();
      assert Inv(args, Current());
    }

    /** The listener is readable.  `load` is what the load-average probe
        reads, `conn` the connection accepted and `pid` the pid of the
        process spawned for it (a positive pid no live process has). */
    method SocketReadHandler(load: real, conn: Conn, pid: Pid)
      requires Valid() && pid > 0 && pid !in processes
      modifies this
      ensures Valid()
      ensures Current() == Admission.SocketReadHandler(args, old(Current()), load, conn, pid).next
      ensures readerLog == old(readerLog) + Admission.SocketReadHandler(args, old(Current()), load, conn, pid).calls
      ensures listener == old(listener) && terminated == old(terminated)
    {
      if accepting {
        if AcceptableLoad(args, processes, load) {
          var proc := Proc(pid, [args.cmd] + args.args);
          processes := processes[pid := Entry(proc, conn)];
          assert processes.Keys == old(processes).Keys + {pid};
          if |processes| == args.processes {
            StopAccepting();
          }
        } else {
          StopAccepting();
        }
      }
    }

    /** One turn of the reaping loop: drop the exited child `pid` from the
        table (its connection is then shut down and closed) and resume
        accepting if paused and the gate, reading `load`, now allows it. */
    method ReapChild(pid: Pid, load: real)
      requires Wired() && listener == Listening && pid in processes
      modifies this
      ensures Wired()
      ensures Current() == ReapOne(args, old(Current()), pid, load).next
      ensures readerLog == old(readerLog) + ReapOne(args, old(Current()), pid, load).calls
      ensures listener == old(listener) && terminated == old(terminated)
    {
      processes := processes - {pid};
      if !accepting && AcceptableLoad(args, processes, load) {
        StartAccepting();
      }
    }

    /** Reap every child the non-blocking wait reports, until it reports no
        exited child (pid 0) or no children at all.  `waits` are the wait's
        results in order and `loads[i]` the load the gate reads after the
        i-th removal.  Every reported pid must be in the table. */
    method ReapChildren(waits: seq<Wait>, loads: seq<real>)
      requires Wired() && listener == Listening && WaitTrace(waits)
      requires Reapable(Current(), ExitedPids(waits), loads)
      modifies this
      ensures Wired()
      ensures Current() == Admission.ReapChildren(args, old(Current()), ExitedPids(waits), loads).next
      ensures readerLog == old(readerLog) + Admission.ReapChildren(args, old(Current()), ExitedPids(waits), loads).calls
      ensures listener == old(listener) && terminated == old(terminated)
    {
      ghost var pids := ExitedPids(waits);
      ghost var start := Current();
      var i := 0;
      while true
        invariant 0 <= i < |waits|
        invariant Wired() && listener == Listening && terminated == old(terminated)
        invariant Current() == ReapFirst(args, start, pids, loads, i)
        invariant readerLog == old(readerLog) + ResumeCalls(start, Current())
        decreases |waits| - i
      {
        var w := waits[i];
        StopIsLast(waits, i);
        if w.NoChildren? || w.pid == 0 {
          break;
        }
        var pid := w.pid;
        assert pid == pids[i];
        ReapNext(args, start, pids, loads, i);
        ghost var done := Current();
        ReapChild(pid, loads[i]);
        ResumeCallsCompose(old(readerLog), start, done, Current());
        i := i + 1;
      }
    }

    /** The SIGCHLD handler: the event loop runs the reaping loop.  It keeps
        the daemon's invariant: the size bound and the registration of the
        listener in step with `accepting`. */
    method OnChildExited(waits: seq<Wait>, loads: seq<real>)
      requires Valid() && listener == Listening && WaitTrace(waits)
      requires Reapable(Current(), ExitedPids(waits), loads)
      modifies this
      ensures Valid()
      ensures Current() == Admission.ReapChildren(args, old(Current()), ExitedPids(waits), loads).next
      ensures readerLog == old(readerLog) + Admission.ReapChildren(args, old(Current()), ExitedPids(waits), loads).calls
      ensures listener == old(listener) && terminated == old(terminated)
    {
      ghost var pids := ExitedPids(waits);
      ReapChildren(waits, loads);
      AdmissionProperties.ReapReplays(args, old(Current()), pids, loads);
      AdmissionProperties.ReplayConcat(false, old(readerLog), Admission.ReapChildren(args, old(Current()), pids, loads).calls);
      AdmissionProperties.ReapPreservesInv(args, old(Current()), pids, loads);
    }

    /** Stop accepting, close the listener, then terminate, wait for and drop
        every process still in the table. */
    method Exit()
      requires Valid() && listener == Listening
      modifies this
      ensures Valid() && listener == Closed
      ensures Current() == Admission.Exit(old(Current())).next
      ensures readerLog == old(readerLog) + Admission.Exit(old(Current())).calls
      ensures |terminated| == |old(processes)| && Distinct(terminated)
      ensures forall p :: p in terminated <==> p in old(processes)
    {
      StopAccepting();
      listener := Closed;
      ghost var log := readerLog;
      assert Replay(false, log) == Some(false);
      assert log == old(readerLog) + Admission.Exit(old(Current())).calls;
      while |processes| != 0
        invariant !accepting && !registered && listener == Closed && readerLog == log
        invariant processes.Keys <= old(processes).Keys
        invariant forall p :: p in terminated <==> p in old(processes) && p !in processes
        invariant |terminated| + |processes| == |old(processes)| && Distinct(terminated)
        decreases |processes|
      {
        NonEmptyHasKey(processes);
        var pid :| pid in processes;
        DistinctAppend(terminated, pid);
        assert (processes - {pid}).Keys == processes.Keys - {pid};
        processes := processes - {pid};
        terminated := terminated + [pid];
      }
      assert processes.Keys == {};
    }
  }

  /** Exactly the last result of a wait trace stops the reaping loop. */
  lemma StopIsLast(waits: seq<Wait>, i: int)
    requires WaitTrace(waits) && 0 <= i < |waits|
    ensures Stops(waits[i]) <==> i == |waits| - 1
  {
  }

  /** A table without a pid in it is empty. */
  lemma EmptyIfNoKey(m: map<Pid, Entry>)
    requires forall p :: p !in m
    ensures m == map[]
  {
    var none: map<Pid, Entry> := map[];
    assert forall p :: p in m <==> p in none;
  }

  /** A table that is not empty has a pid in it. */
  lemma NonEmptyHasKey(m: map<Pid, Entry>)
    requires |m| != 0
    ensures exists p :: p in m
  {
    if !exists p :: p in m {
      EmptyIfNoKey(m);
    }
  }
}
