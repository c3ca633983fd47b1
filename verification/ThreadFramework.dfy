/**
 * The fields of tst_threads.c, updated in place.  Each method is one critical section (or one
 * write of the master's command section) and is proved against the step it performs.
 */
module ThreadFramework {
  import opened Dispatcher

  class Framework {
    const threads: nat              // num_threads
    const tests: nat
    var test: nat
    var pc: MasterPc
    var cmd: Command
    var cmdCount: nat
    var working: int
    const env: array<Worker>        // struct tst_thread_env_t *thread_env[]

    function Snapshot(): State
      reads this, env
    {
      State(test, pc, cmd, cmdCount, working, env[..])
    }

    /** tst_thread_init: nothing assigned, nothing published, every dispatcher about to start. */
    constructor (c: Config)
      ensures threads == c.threads && tests == c.tests && fresh(env) && env.Length == c.threads
      ensures Snapshot() == Initial(c)
    {
      threads, tests := c.threads, c.tests;
      test, pc, cmd, cmdCount, working := 0, NextTest(c, 0), NullCmd, 0, 0;
      env := new Worker[c.threads](_ => FreshWorker());
      new;
      assert env[..] == Initial(c).workers;
    }

    /** worker_done, then back to the loop head or, after FINALIZE, out of the dispatcher. */
    method WorkerDone(i: nat)
      requires Enabled(Snapshot(), Done(i))
      modifies this`working, this`pc, env
      ensures Snapshot() == Apply(Config(threads, tests), old(Snapshot()), Done(i))
    {
      working := working - 1;
      if working == 0 {
        pc := SignalMaster(pc);
      }
      env[i] := env[i].(pc := if env[i].cmd.FinalizeCmd? then Exited else Ready);
    }

    /** The dispatcher's section under cmd_mutex: wait, or pick the command up. */
    method DispatcherCheck(i: nat)
      requires Enabled(Snapshot(), Check(i))
      modifies env
      ensures Snapshot() == Apply(Config(threads, tests), old(Snapshot()), Check(i))
    {
      var w := env[i];
      if w.count == cmdCount || !Assigned(w) {
        env[i] := w.(pc := Waiting);
      } else {
        env[i] := w.(pc := Picked, cmd := cmd, count := cmdCount);
      }
    }

    /** The calls and returns of one dispatcher, and wake-ups. */
    method DispatcherMove(i: nat, a: Action)
      requires Enabled(Snapshot(), a) && (a == Enter(i) || a == Leave(i) || a == Wake(i))
      modifies env
      ensures Snapshot() == Apply(Config(threads, tests), old(Snapshot()), a)
    {
      if a.Enter? {
        env[i] := Entered(env[i]);
      } else if a.Leave? {
        env[i] := env[i].(pc := Returned);
      } else {
        env[i] := Woken(env[i]);
      }
    }

    /** pthread_cond_broadcast (&cmd_cond): every dispatcher in the wait set leaves it. */
    method BroadcastCmd()
      modifies env
      ensures env[..] == Broadcast(old(env[..]))
    {
      var i := 0;
      while i < env.Length
        invariant 0 <= i <= env.Length
        invariant forall j :: 0 <= j < i ==> env[j] == Woken(old(env[j]))
        invariant forall j :: i <= j < env.Length ==> env[j] == old(env[j])
      {
        env[i] := Woken(env[i]);
        i := i + 1;
      }
    }

    /** The next write, check or call of the master. */
    method MasterAdvance()
      requires Enabled(Snapshot(), MasterStep) && env.Length == threads
      modifies this, env
      ensures Snapshot() == Apply(Config(threads, tests), old(Snapshot()), MasterStep)
    {
      match pc
      case Assigning(i, f) =>
        if i < env.Length {
          env[i] := Write(env[i], f, AssignedTo(f, test));
          pc := if f < CLEANUP_FUNC then Assigning(i, f + 1) else Assigning(i + 1, 0);
        } else {
          working := threads;
          pc := Publishing(0, 0);
        }
      case Publishing(p, g) =>
        if g == 0 {
          cmd := PhaseCmd(p);
          pc := Publishing(p, 1);
        } else if g == 1 {
          cmdCount := cmdCount + 1;
          pc := Publishing(p, if p == 1 || p == 2 then 2 else 3);
        } else if g == 2 {
          working := threads;
          pc := Publishing(p, 3);
        } else {
          BroadcastCmd();
          pc := if p == 3 then Joining(0) else Calling(p);
        }
      case Calling(p) => pc := Barrier(p);
      case Barrier(p) =>
        if working > 0 {
          pc := BarrierWait(p);
        } else if p < 2 {
          pc := Publishing(p + 1, 0);
        } else {
          test := test + 1;
          pc := NextTest(Config(threads, tests), test);
        }
      case Joining(i) => pc := if i < env.Length then Joining(i + 1) else Finished;
    }

    method Perform(a: Action)
      requires Enabled(Snapshot(), a) && env.Length == threads
      modifies this, env
      ensures Snapshot() == Apply(Config(threads, tests), old(Snapshot()), a)
    {
      match a
      case MasterStep => MasterAdvance();
      case MasterWake => pc := Barrier(pc.phase);
      case Check(i) => DispatcherCheck(i);
      case Enter(i) => DispatcherMove(i, a);
      case Leave(i) => DispatcherMove(i, a);
      case Done(i) => WorkerDone(i);
      case Wake(i) => DispatcherMove(i, a);
    }
  }

  /**
   * Whatever scheduler picks the next step, the framework runs all tests and shuts down.  The
   * scheduler may look at the whole state and at the time, but only picks steps that are possible,
   * and spurious wake-ups only finitely often: the last one comes before step quiet.
   */
  method RunAllTests(c: Config, schedule: (nat, State) -> Action, ghost quiet: nat) returns (final: State)
    requires CanFinish(c)
    requires forall n: nat, s: State :: Inv(c, s) && !s.pc.Finished? ==>
      Enabled(s, schedule(n, s)) && (n >= quiet ==> !Spurious(schedule(n, s)))
    ensures Complete(c, final)
  {
    var f := new Framework(c);
    InitialOk(c);
    var n := 0;
    while !f.pc.Finished?
      invariant f.threads == c.threads && f.tests == c.tests && f.env.Length == c.threads
      invariant Inv(c, f.Snapshot())
      decreases if n < quiet then quiet - n else 0, Measure(c)(f.Snapshot())
    {
      ghost var s := f.Snapshot();
      var a := schedule(n, f.Snapshot());
      StepKeeps(c, s, a);
      MeasureDrops(c, s, a);
      f.Perform(a);
      n := n + 1;
    }
    final := f.Snapshot();
    InvMeaning(c, final);
  }
}
