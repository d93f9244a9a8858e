/** Properties of the admission-control state machine: the load gate, the
    pause transition, the read handler, reaping, and the invariants every
    run of the daemon keeps. */
module AdmissionProperties {
  import opened Admission

  // ---- Registration of the listener ----

  /** Replaying two batches of reader calls is replaying the first and then
      the second from where the first left the listener. */
  lemma {:induction false} ReplayConcat(registered: bool, a: seq<ReaderCall>, b: seq<ReaderCall>)
    ensures Replay(registered, a + b) ==
              match Replay(registered, a)
              case None => None
              case Some(mid) => Replay(mid, b)
    decreases |a|
  {
    if a == [] {
      assert a + b == b;
    } else {
      assert (a + b)[0] == a[0];
      assert (a + b)[1..] == a[1..] + b;
      match a[0]
      case AddReader => if !registered { ReplayConcat(true, a[1..], b); }
      case RemoveReader => if registered { ReplayConcat(false, a[1..], b); }
    }
  }

  // ---- The load gate ----

  /** Forward progress: with no process running, the gate is open whatever
      the load and the ceiling. */
  lemma IdleGateOpen(cfg: Config, load: real)
    ensures AcceptableLoad(cfg, map[], load)
  {
  }

  /** With a ceiling set and some process running, the gate is open exactly
      when the load is strictly below the ceiling. */
  lemma GateComparesLoad(cfg: Config, processes: map<Pid, Entry>, load: real)
    requires cfg.loadAverage.Some? && processes != map[]
    ensures AcceptableLoad(cfg, processes, load) <==> load < cfg.loadAverage.value
  {
  }

  /** The gate only opens further when processes go away or the load drops. */
  lemma GateMonotone(cfg: Config, t: map<Pid, Entry>, u: map<Pid, Entry>, load: real, lower: real)
    requires u.Keys <= t.Keys && lower <= load
    requires AcceptableLoad(cfg, t, load)
    ensures AcceptableLoad(cfg, u, lower)
  {
    if |t| == 0 {
      assert t.Keys == {};
      assert u.Keys == {};
      assert u == map[];
    }
  }

  // ---- Pausing ----

  /** Pausing is idempotent: it unregisters the listener exactly once when
      the daemon is accepting, and a second pause changes nothing and makes
      no call. */
  lemma StopAcceptingIdempotent(s: State)
    ensures StopAccepting(s).next == s.(accepting := false)
    ensures StopAccepting(s).calls == if s.accepting then [RemoveReader] else []
    ensures StopAccepting(StopAccepting(s).next) == Step(StopAccepting(s).next, [])
  {
  }

  // ---- The read handler ----

  /** With accepting on and the gate open, the handler adds exactly one entry
      (the new process with the configured command line, on the accepted
      connection), keeps every other entry, and pauses exactly when the table
      has reached the maximum. */
  lemma ReadHandlerAdmits(cfg: Config, s: State, load: real, conn: Conn, pid: Pid)
    requires s.accepting && AcceptableLoad(cfg, s.processes, load) && pid !in s.processes
    ensures var r := SocketReadHandler(cfg, s, load, conn, pid);
      && r.next.processes.Keys == s.processes.Keys + {pid}
      && (forall p :: p in s.processes ==> r.next.processes[p] == s.processes[p])
      && r.next.processes[pid].proc == Proc(pid, [cfg.cmd] + cfg.args)
      && r.next.processes[pid].conn == conn
      && |r.next.processes| == |s.processes| + 1
      && (r.next.accepting <==> |s.processes| + 1 != cfg.processes)
      && r.calls == if r.next.accepting then [] else [RemoveReader]
  {
    var t := s.processes[pid := Spawned(cfg, conn, pid)];
    assert t.Keys == s.processes.Keys + {pid};
    assert |t.Keys| == |s.processes.Keys| + 1;
  }

  /** When the gate denies admission the handler accepts nothing, keeps the
      table and pauses. */
  lemma ReadHandlerDenied(cfg: Config, s: State, load: real, conn: Conn, pid: Pid)
    requires s.accepting && !AcceptableLoad(cfg, s.processes, load)
    ensures SocketReadHandler(cfg, s, load, conn, pid) == Step(State(s.processes, false), [RemoveReader])
  {
  }

  /** While paused, a readability event changes nothing. */
  lemma ReadHandlerIgnoredWhilePaused(cfg: Config, s: State, load: real, conn: Conn, pid: Pid)
    requires !s.accepting
    ensures SocketReadHandler(cfg, s, load, conn, pid) == Step(s, [])
  {
  }

  /** With an empty table a new connection is always admitted, whatever the load. */
  lemma IdleAlwaysAdmits(cfg: Config, s: State, load: real, conn: Conn, pid: Pid)
    requires s.accepting && s.processes == map[]
    ensures SocketReadHandler(cfg, s, load, conn, pid).next.processes == map[pid := Spawned(cfg, conn, pid)]
  {
  }

  /** With 0 as the maximum (or any maximum below 1), the count never pauses
      the daemon: after a readability event it is accepting exactly when the
      gate was open. */
  lemma UnboundedPausesOnlyOnLoad(cfg: Config, s: State, load: real, conn: Conn, pid: Pid)
    requires cfg.processes <= 0 && s.accepting
    ensures SocketReadHandler(cfg, s, load, conn, pid).next.accepting <==> AcceptableLoad(cfg, s.processes, load)
  {
    var t := s.processes[pid := Spawned(cfg, conn, pid)];
    assert pid in t.Keys;
    assert |t| >= 1;
  }

  // ---- Reaping ----

  /** Whether one of the first `k` load samples is strictly below the ceiling. */
  predicate SomeLoadBelow(cfg: Config, loads: seq<real>, k: nat)
    requires cfg.loadAverage.Some? && k <= |loads|
  {
    exists i :: 0 <= i < k && loads[i] < cfg.loadAverage.value
  }

  lemma SomeLoadBelowStep(cfg: Config, loads: seq<real>, k: nat)
    requires cfg.loadAverage.Some? && 0 < k <= |loads|
    ensures SomeLoadBelow(cfg, loads, k) <==> SomeLoadBelow(cfg, loads, k - 1) || loads[k - 1] < cfg.loadAverage.value
  {
    if loads[k - 1] < cfg.loadAverage.value {
      assert 0 <= k - 1 < k && loads[k - 1] < cfg.loadAverage.value;
    }
  }

  /** A table is empty exactly when it holds no process. */
  lemma EmptyIffSizeZero(m: map<Pid, Entry>)
    ensures m == map[] <==> |m| == 0
  {
    if |m| == 0 {
      assert m.Keys == {};
    }
  }

  /** After the first `k` reaps the daemon is accepting exactly when it
      already was, or at least one child was reaped and the gate opened after
      one of the removals: no ceiling is set, the table was emptied, or a load
      sample read after a removal was strictly below the ceiling. */
  lemma {:induction false} ReapResumesIff(cfg: Config, s: State, pids: seq<Pid>, loads: seq<real>, k: nat)
    requires Reapable(s, pids, loads) && k <= |pids|
    ensures ReapFirst(cfg, s, pids, loads, k).accepting <==>
              (s.accepting ||
               (k > 0 && (cfg.loadAverage.None? || k == |s.processes| || SomeLoadBelow(cfg, loads, k))))
    decreases k
  {
    if k > 0 {
      ReapShrinks(cfg, s, pids, loads, k);
      EmptyIffSizeZero(ReapFirst(cfg, s, pids, loads, k).processes);
      ReapResumesIff(cfg, s, pids, loads, k - 1);
      if cfg.loadAverage.Some? {
        SomeLoadBelowStep(cfg, loads, k);
      }
    }
  }

  /** A reap that empties the table always resumes accepting. */
  lemma ReapEmptyingResumes(cfg: Config, s: State, pids: seq<Pid>, loads: seq<real>)
    requires Reapable(s, pids, loads) && pids != []
    requires ReapChildren(cfg, s, pids, loads).next.processes == map[]
    ensures ReapChildren(cfg, s, pids, loads).next.accepting
  {
    ReapShrinks(cfg, s, pids, loads, |pids|);
    ReapResumesIff(cfg, s, pids, loads, |pids|);
  }

  /** Round trip: admitting a connection and then reaping its process gives
      back the table the daemon started from. */
  lemma SpawnThenReap(cfg: Config, s: State, load: real, conn: Conn, pid: Pid, later: real)
    requires s.accepting && AcceptableLoad(cfg, s.processes, load) && pid !in s.processes
    ensures var admitted := SocketReadHandler(cfg, s, load, conn, pid).next;
      && pid in admitted.processes
      && ReapOne(cfg, admitted, pid, later).next.processes == s.processes
  {
    var admitted := SocketReadHandler(cfg, s, load, conn, pid).next;
    assert admitted.processes == s.processes[pid := Spawned(cfg, conn, pid)];
    assert admitted.processes - {pid} == s.processes;
  }

  // ---- Invariants of every run ----

  /** Reaping keeps the size bound: the table only shrinks, and accepting is
      switched on only after at least one removal. */
  lemma ReapPreservesInv(cfg: Config, s: State, pids: seq<Pid>, loads: seq<real>)
    requires Inv(cfg, s) && Reapable(s, pids, loads)
    ensures Inv(cfg, ReapChildren(cfg, s, pids, loads).next)
  {
    ReapShrinks(cfg, s, pids, loads, |pids|);
  }

  /** Reaping registers the listener exactly when it switches accepting on,
      and never unregisters it. */
  lemma ReapReplays(cfg: Config, s: State, pids: seq<Pid>, loads: seq<real>)
    requires Reapable(s, pids, loads)
    ensures var r := ReapChildren(cfg, s, pids, loads);
      Replay(s.accepting, r.calls) == Some(r.next.accepting)
  {
  }

  /** Every event keeps the size bound. */
  lemma HandlePreservesInv(cfg: Config, s: State, e: Event)
    requires Inv(cfg, s) && Enabled(s, e)
    ensures Inv(cfg, Handle(cfg, s, e).next)
  {
    match e
    case Readable(load, conn, pid) =>
      if s.accepting && AcceptableLoad(cfg, s.processes, load) {
        ReadHandlerAdmits(cfg, s, load, conn, pid);
      }
    case ChildExited(waits, loads) =>
      ReapPreservesInv(cfg, s, ExitedPids(waits), loads);
  }

  /** Every event leaves the listener registered exactly when the daemon is
      accepting, and never registers or unregisters it redundantly. */
  lemma HandleReplays(cfg: Config, s: State, e: Event)
    requires Enabled(s, e)
    ensures Replay(s.accepting, Handle(cfg, s, e).calls) == Some(Handle(cfg, s, e).next.accepting)
  {
  }

  /** The size bound holds after any run of events from a state that has it. */
  lemma {:induction false} RunPreservesInv(cfg: Config, s: State, events: seq<Event>)
    requires Inv(cfg, s) && Run(cfg, s, events).Some?
    ensures Inv(cfg, Run(cfg, s, events).value.next)
    decreases |events|
  {
    if events != [] {
      HandlePreservesInv(cfg, s, events[0]);
      RunPreservesInv(cfg, Handle(cfg, s, events[0]).next, events[1..]);
    }
  }

  /** Over any run, the reader calls made keep the listener's registration
      in step with `accepting`, with no redundant call. */
  lemma {:induction false} RunReplays(cfg: Config, s: State, events: seq<Event>)
    requires Run(cfg, s, events).Some?
    ensures Replay(s.accepting, Run(cfg, s, events).value.calls) == Some(Run(cfg, s, events).value.next.accepting)
    decreases |events|
  {
    if events != [] {
      var first := Handle(cfg, s, events[0]);
      HandleReplays(cfg, s, events[0]);
      RunReplays(cfg, first.next, events[1..]);
      ReplayConcat(s.accepting, first.calls, Run(cfg, first.next, events[1..]).value.calls);
    }
  }

  // ---- Forward progress ----

  /** The daemon is not wedged: it is accepting, or some process is running,
      so that a reap is still to come and the next one that empties the
      table resumes accepting. */
  predicate Live(s: State)
  {
    s.accepting || s.processes != map[]
  }

  /** Every event keeps the daemon live: pausing on a readability event
      needs a running process (the gate is open on an empty table), and a
      reap that empties the table resumes accepting. */
  lemma HandleKeepsLive(cfg: Config, s: State, e: Event)
    requires Live(s) && Enabled(s, e)
    ensures Live(Handle(cfg, s, e).next)
  {
    match e
    case Readable(load, conn, pid) =>
      if s.accepting && AcceptableLoad(cfg, s.processes, load) {
        ReadHandlerAdmits(cfg, s, load, conn, pid);
      }
    case ChildExited(waits, loads) =>
      var pids := ExitedPids(waits);
      if pids != [] && ReapChildren(cfg, s, pids, loads).next.processes == map[] {
        ReapEmptyingResumes(cfg, s, pids, loads);
      }
  }

  /** After any run of events from a live state the daemon is still live. */
  lemma {:induction false} RunKeepsLive(cfg: Config, s: State, events: seq<Event>)
    requires Live(s) && Run(cfg, s, events).Some?
    ensures Live(Run(cfg, s, events).value.next)
    decreases |events|
  {
    if events != [] {
      HandleKeepsLive(cfg, s, events[0]);
      RunKeepsLive(cfg, Handle(cfg, s, events[0]).next, events[1..]);
    }
  }

  /** The whole life of the daemon: enter, handle any run of events, exit.
      Throughout, with a positive maximum the table never holds more than the
      maximum and the daemon is never wedged.  The state after exit is empty
      and not accepting by the definition of `Exit`.  The listener was
      registered and unregistered in strict alternation and ends unregistered. */
  lemma Lifecycle(cfg: Config, events: seq<Event>)
    requires Run(cfg, Enter(Init()).next, events).Some?
    ensures var st := Run(cfg, Enter(Init()).next, events).value;
      && Inv(cfg, st.next)
      && Live(st.next)
      && Exit(st.next).next == Init()
      && Replay(false, Enter(Init()).calls + st.calls + Exit(st.next).calls) == Some(false)
  {
    var entered := Enter(Init());
    var st := Run(cfg, entered.next, events).value;
    RunPreservesInv(cfg, entered.next, events);
    RunKeepsLive(cfg, entered.next, events);
    RunReplays(cfg, entered.next, events);
    ReplayConcat(false, entered.calls, st.calls);
    ReplayConcat(false, entered.calls + st.calls, Exit(st.next).calls);
  }
}
