/**
 * The thread framework of tst_threads.c: a master thread drives n dispatcher threads through
 * the init, run and cleanup functions of one test after another.
 *
 * One action is one critical section, one lock-free write, or one function call or return.
 * The master's command section is split into its four writes, because `working` is written
 * in it without `working_mutex`.  A thread inside pthread_cond_wait is in a wait set
 * (`Waiting`, `BarrierWait`) and leaves it when signalled or spuriously.
 */
module Dispatcher {
  import opened Lists
  import opened Runs

  datatype Command = NullCmd | InitCmd | RunCmd | CleanupCmd | FinalizeCmd

  /** threads is num_threads; tests is the number of tests main runs before tst_thread_cleanup. */
  datatype Config = Config(threads: nat, tests: nat)

  /** A field of tst_thread_env_t: NULL, or the env, the init, run or cleanup function of a test. */
  datatype Slot = Null | EnvOf(test: nat) | InitOf(test: nat) | RunOf(test: nat) | CleanupOf(test: nat)

  const ENV := 0
  const INIT_FUNC := 1
  const RUN_FUNC := 2
  const CLEANUP_FUNC := 3

  /** One call of a test function: which command, whose function, whose env. */
  datatype Call = Call(cmd: Command, func: Slot, env: Slot)

  datatype WorkerPc = Ready | Waiting | Picked | Inside | Returned | Exited
  datatype Worker = Worker(pc: WorkerPc, cmd: Command, count: nat, slots: seq<Slot>, log: seq<Call>)

  datatype MasterPc =
    | Assigning(thread: nat, slot: nat)   // tst_thread_assign_all
    | Publishing(phase: nat, stage: nat)  // the section under cmd_mutex; phase 3 is FINALIZE
    | Calling(phase: nat)                 // the master's own call of the test function
    | Barrier(phase: nat)                 // worker_barrier, about to look at working
    | BarrierWait(phase: nat)             // in pthread_cond_wait(&working_cond)
    | Joining(thread: nat)                // pthread_join
    | Finished

  datatype State = State(test: nat, pc: MasterPc, cmd: Command, count: nat, working: int, workers: seq<Worker>)

  datatype Action =
    | MasterStep
    | MasterWake         // spurious
    | Check(i: nat)      // lines 78-86: wait again or pick the command up
    | Enter(i: nat)      // line 105, 112 or 119: read the function pointer and call it
    | Leave(i: nat)      // the function returns
    | Done(i: nat)       // worker_done
    | Wake(i: nat)       // spurious

  function PhaseCmd(phase: nat): Command {
    if phase == 0 then InitCmd else if phase == 1 then RunCmd else if phase == 2 then CleanupCmd else FinalizeCmd
  }

  function FreshWorker(): Worker {
    Worker(Ready, NullCmd, 0, [Null, Null, Null, Null], [])
  }

  /** What the master does once `test` tests are over. */
  function NextTest(c: Config, test: nat): MasterPc {
    if test < c.tests then Assigning(0, 0) else Publishing(3, 0)
  }

  function Initial(c: Config): State {
    State(0, NextTest(c, 0), NullCmd, 0, 0, seq(c.threads, _ => FreshWorker()))
  }

  predicate Spurious(a: Action) { a.MasterWake? || a.Wake? }

  /** cmd_mutex is held by the master between two actions. */
  predicate HoldsCmd(pc: MasterPc) { pc.Publishing? && pc.stage > 0 }

  predicate Enabled(s: State, a: Action) {
    match a
    case MasterStep =>
      (match s.pc
       case BarrierWait(_) => false
       case Joining(i) => i < |s.workers| ==> s.workers[i].pc.Exited?
       case Finished => false
       case _ => true)
    case MasterWake => s.pc.BarrierWait?
    case Check(i) => i < |s.workers| && s.workers[i].pc.Ready? && !HoldsCmd(s.pc)
    case Enter(i) => i < |s.workers| && s.workers[i].pc.Picked?
    case Leave(i) => i < |s.workers| && s.workers[i].pc.Inside?
    case Done(i) => i < |s.workers| && s.workers[i].pc.Returned?
    case Wake(i) => i < |s.workers| && s.workers[i].pc.Waiting?
  }

  /** The three functions are assigned (lines 80-82). */
  predicate Assigned(w: Worker) {
    |w.slots| == 4 && w.slots[INIT_FUNC] != Null && w.slots[RUN_FUNC] != Null && w.slots[CLEANUP_FUNC] != Null
  }

  function Checked(s: State, w: Worker): Worker {
    if w.count == s.count || !Assigned(w) then w.(pc := Waiting)
    else w.(pc := Picked, cmd := s.cmd, count := s.count)
  }

  function FuncSlot(cmd: Command): nat {
    if cmd == InitCmd then INIT_FUNC else if cmd == RunCmd then RUN_FUNC else CLEANUP_FUNC
  }

  function Entered(w: Worker): Worker {
    if w.cmd.FinalizeCmd? || |w.slots| != 4 then w.(pc := Returned)
    else w.(pc := Inside, log := w.log + [Call(w.cmd, w.slots[FuncSlot(w.cmd)], w.slots[ENV])])
  }

  function Woken(w: Worker): Worker {
    if w.pc.Waiting? then w.(pc := Ready) else w
  }

  /** pthread_cond_broadcast (&cmd_cond) */
  function Broadcast(ws: seq<Worker>): (r: seq<Worker>)
    ensures |r| == |ws| && forall i :: 0 <= i < |ws| ==> r[i] == Woken(ws[i])
  {
    seq(|ws|, i requires 0 <= i < |ws| => Woken(ws[i]))
  }

  /** What tst_thread_assign_all writes into a field. */
  function AssignedTo(slot: nat, test: nat): Slot {
    if slot == ENV then EnvOf(test)
    else if slot == INIT_FUNC then InitOf(test)
    else if slot == RUN_FUNC then RunOf(test)
    else CleanupOf(test)
  }

  function Write(w: Worker, slot: nat, v: Slot): Worker {
    if slot < |w.slots| then w.(slots := w.slots[slot := v]) else w
  }

  function MasterNext(c: Config, s: State): State
  {
    match s.pc
    case Assigning(i, f) =>
      if i < |s.workers| then
        s.(workers := s.workers[i := Write(s.workers[i], f, AssignedTo(f, s.test))],
           pc := if f < CLEANUP_FUNC then Assigning(i, f + 1) else Assigning(i + 1, 0))
      else s.(working := c.threads, pc := Publishing(0, 0))
    case Publishing(p, g) =>
      if g == 0 then s.(cmd := PhaseCmd(p), pc := Publishing(p, 1))
      else if g == 1 then s.(count := s.count + 1, pc := Publishing(p, if p == 1 || p == 2 then 2 else 3))
      else if g == 2 then s.(working := c.threads, pc := Publishing(p, 3))
      else s.(workers := Broadcast(s.workers), pc := if p == 3 then Joining(0) else Calling(p))
    case Calling(p) => s.(pc := Barrier(p))
    case Barrier(p) =>
      if s.working > 0 then s.(pc := BarrierWait(p))
      else if p < 2 then s.(pc := Publishing(p + 1, 0))
      else s.(test := s.test + 1, pc := NextTest(c, s.test + 1))
    case Joining(i) => s.(pc := if i < |s.workers| then Joining(i + 1) else Finished)
    case _ => s
  }

  /** pthread_cond_signal (&working_cond) */
  function SignalMaster(pc: MasterPc): MasterPc {
    if pc.BarrierWait? then Barrier(pc.phase) else pc
  }

  function Apply(c: Config, s: State, a: Action): State
    requires Enabled(s, a)
  {
    match a
    case MasterStep => MasterNext(c, s)
    case MasterWake => s.(pc := Barrier(s.pc.phase))
    case Check(i) => s.(workers := s.workers[i := Checked(s, s.workers[i])])
    case Enter(i) => s.(workers := s.workers[i := Entered(s.workers[i])])
    case Leave(i) => s.(workers := s.workers[i := s.workers[i].(pc := Returned)])
    case Done(i) =>
      var w := s.workers[i];
      s.(working := s.working - 1,
         pc := if s.working - 1 == 0 then SignalMaster(s.pc) else s.pc,
         workers := s.workers[i := w.(pc := if w.cmd.FinalizeCmd? then Exited else Ready)])
    case Wake(i) => s.(workers := s.workers[i := Woken(s.workers[i])])
  }

  ghost function Moves(c: Config): (State, Action, State) -> bool {
    (s: State, a: Action, t: State) => Enabled(s, a) && t == Apply(c, s, a)
  }

  ghost predicate IsRun(c: Config, r: Run<State, Action>) {
    Follows(r, Initial(c), Moves(c))
  }

  // ---------------------------------------------------------------------------------------
  // What a worker must have done after m commands
  // ---------------------------------------------------------------------------------------

  /** The m-th command the master publishes, counting from 1. */
  function CmdNo(c: Config, m: nat): Command {
    if m == 0 then NullCmd
    else if m > 3 * c.tests then FinalizeCmd
    else PhaseCmd((m - 1) % 3)
  }

  /** The call of a phase of a test. */
  function CallOf(test: nat, phase: nat): Call {
    if phase == 0 then Call(InitCmd, InitOf(test), EnvOf(test))
    else if phase == 1 then Call(RunCmd, RunOf(test), EnvOf(test))
    else Call(CleanupCmd, CleanupOf(test), EnvOf(test))
  }

  /** The calls of the first m commands: INIT, RUN and CLEANUP of test 0, of test 1, ... */
  function Expected(m: nat): (calls: seq<Call>)
    ensures |calls| == m
    ensures forall j :: 0 <= j < m ==> calls[j] == CallOf(j / 3, j % 3)
  {
    seq(m, j requires 0 <= j < m => CallOf(j / 3, j % 3))
  }

  lemma ExpectedNext(test: nat, p: nat)
    requires p < 3
    ensures Expected(3 * test + p + 1) == Expected(3 * test + p) + [CallOf(test, p)]
  {
    var m := 3 * test + p;
    assert m % 3 == p && m / 3 == test;
  }

  // ---------------------------------------------------------------------------------------
  // The invariant
  // ---------------------------------------------------------------------------------------

  predicate Busy(w: Worker) { w.pc.Picked? || w.pc.Inside? || w.pc.Returned? }

  /** Has not yet done worker_done for the count-th command. */
  predicate IsPending(count: nat, w: Worker) { w.count < count || Busy(w) }

  function Pending(count: nat): Worker -> bool { w => IsPending(count, w) }

  predicate PcOk(c: Config, test: nat, pc: MasterPc) {
    match pc
    case Assigning(i, f) => test < c.tests && i <= c.threads && f <= CLEANUP_FUNC && (i == c.threads ==> f == 0)
    case Publishing(p, g) =>
      && p <= 3 && g <= 3
      && (p < 3 ==> test < c.tests) && (p == 3 ==> test == c.tests)
      && (g == 2 ==> p == 1 || p == 2)
    case Calling(p) => test < c.tests && p < 3
    case Barrier(p) => test < c.tests && p < 3
    case BarrierWait(p) => test < c.tests && p < 3
    case Joining(i) => test == c.tests && i <= c.threads
    case Finished => test == c.tests
  }

  /** cmd_count as the master's position determines it. */
  function Published(test: nat, pc: MasterPc): nat {
    match pc
    case Assigning(_, _) => 3 * test
    case Publishing(p, g) => 3 * test + (if p == 3 then 0 else p) + (if g >= 2 then 1 else 0)
    case Calling(p) => 3 * test + p + 1
    case Barrier(p) => 3 * test + p + 1
    case BarrierWait(p) => 3 * test + p + 1
    case _ => 3 * test + 1
  }

  /** The phase of the command under way or being published; 3 is FINALIZE. */
  function PhaseOf(pc: MasterPc): nat {
    match pc
    case Assigning(_, _) => 0
    case Publishing(p, _) => p
    case Calling(p) => p
    case Barrier(p) => p
    case BarrierWait(p) => p
    case _ => 3
  }

  /** The published command may be executed. */
  predicate Open(pc: MasterPc) { pc.Calling? || pc.Barrier? || pc.BarrierWait? || pc.Joining? || pc.Finished? }

  /** Some workers may be one command behind. */
  predicate Behind(pc: MasterPc) { Open(pc) || (pc.Publishing? && pc.stage >= 2) }

  /** What the test before `test` left in a slot. */
  function Left(slot: nat, test: nat): Slot { if test == 0 then Null else AssignedTo(slot, test - 1) }

  predicate SlotOk(s: State, i: nat, f: nat, v: Slot) {
    match s.pc
    case Assigning(ai, af) => v == if i < ai || (i == ai && f < af) then AssignedTo(f, s.test) else Left(f, s.test)
    case Publishing(p, _) => v == if p == 3 then Left(f, s.test) else AssignedTo(f, s.test)
    case Calling(_) => v == AssignedTo(f, s.test)
    case Barrier(_) => v == AssignedTo(f, s.test)
    case BarrierWait(_) => v == AssignedTo(f, s.test)
    case _ => v == Left(f, s.test)
  }

  predicate SlotsOk(s: State, i: nat, w: Worker) {
    |w.slots| == 4 && forall f :: 0 <= f < 4 ==> SlotOk(s, i, f, w.slots[f])
  }

  function Min(a: nat, b: nat): nat { if a < b then a else b }

  /** How many functions the worker has entered. */
  function Calls(c: Config, w: Worker): nat {
    Min(if w.pc.Picked? && w.count > 0 then w.count - 1 else w.count, 3 * c.tests)
  }

  predicate WorkerOk(c: Config, s: State, w: Worker) {
    && w.count <= s.count <= w.count + 1
    && w.cmd == CmdNo(c, w.count)
    && w.log == Expected(Calls(c, w))
    && (w.count < s.count ==> Behind(s.pc) && (w.pc.Ready? || w.pc.Waiting?))
    && (s.pc.Publishing? && s.pc.stage >= 2 ==> w.count < s.count)
    && (Busy(w) ==> Open(s.pc) && w.count > 0)
    && (w.pc.Inside? ==> w.cmd != FinalizeCmd)
    && (w.pc.Exited? <==> w.cmd == FinalizeCmd && !Busy(w))
    && (w.pc.Waiting? && w.count < s.count ==> HoldsCmd(s.pc) || c.tests == 0)
  }

  predicate WorkingOk(c: Config, s: State) {
    match s.pc
    case Assigning(_, _) => s.working == 0
    case Publishing(p, g) => s.working == if p == 0 || (g == 3 && p < 3) then c.threads else 0
    case Joining(_) => s.working == Count(Pending(s.count), s.workers) - c.threads
    case Finished => s.working == 0 - c.threads
    case BarrierWait(_) => s.working == Count(Pending(s.count), s.workers) && s.working > 0
    case _ => s.working == Count(Pending(s.count), s.workers)
  }

  predicate Inv(c: Config, s: State) {
    && |s.workers| == c.threads
    && PcOk(c, s.test, s.pc)
    && s.count == Published(s.test, s.pc)
    && (Behind(s.pc) || HoldsCmd(s.pc) ==> s.cmd == PhaseCmd(PhaseOf(s.pc)))
    && (forall i :: 0 <= i < |s.workers| ==> WorkerOk(c, s, s.workers[i]))
    && (forall i :: 0 <= i < |s.workers| ==> SlotsOk(s, i, s.workers[i]))
    && WorkingOk(c, s)
    && (s.pc.Joining? ==> forall i :: 0 <= i < s.pc.thread ==> s.workers[i].pc.Exited?)
    && (s.pc.Finished? ==> forall i :: 0 <= i < |s.workers| ==> s.workers[i].pc.Exited?)
  }

  lemma InitialOk(c: Config)
    ensures Inv(c, Initial(c))
  {
    var s := Initial(c);
    forall i | 0 <= i < |s.workers| ensures WorkerOk(c, s, s.workers[i]) && SlotsOk(s, i, s.workers[i]) {
      assert s.workers[i] == FreshWorker();
      assert Expected(0) == [];
    }
  }

  // ---------------------------------------------------------------------------------------
  // Every step keeps the invariant
  // ---------------------------------------------------------------------------------------

  /** What a step of worker i alone, which makes it w, may do to the rest of the state. */
  ghost predicate WorkerStep(c: Config, s: State, i: nat, w: Worker, t: State) {
    && i < |s.workers|
    && (t.pc == s.pc || (s.pc.BarrierWait? && t.pc == SignalMaster(s.pc)))
    && t.test == s.test && t.cmd == s.cmd && t.count == s.count
    && t.workers == s.workers[i := w]
    && w.slots == s.workers[i].slots && WorkerOk(c, s, w)
    && (s.workers[i].pc.Exited? ==> w.pc.Exited?)
    && t.working == s.working - (if IsPending(s.count, s.workers[i]) then 1 else 0) + (if IsPending(s.count, w) then 1 else 0)
    && (t.pc.BarrierWait? ==> t.working > 0)
    && (t.working != s.working ==> Open(s.pc))
  }

  /** While the published command may be picked up, cmd is the command number cmd_count. */
  lemma PublishedCommand(c: Config, s: State)
    requires Inv(c, s) && Behind(s.pc)
    ensures s.cmd == CmdNo(c, s.count)
  {
    var p := PhaseOf(s.pc);
    assert s.count == 3 * s.test + (if p == 3 then 0 else p) + 1;
    if p < 3 {
      assert s.test < c.tests;
      assert (3 * s.test + p) % 3 == p;
    }
  }

  lemma WorkerStepWorking(c: Config, s: State, i: nat, w: Worker, t: State)
    requires Inv(c, s) && WorkerStep(c, s, i, w, t)
    ensures WorkingOk(c, t)
  {
    CountUpdate(Pending(s.count), s.workers, i, w);
    if s.pc.Finished? {
      assert s.workers[i].pc.Exited? && WorkerOk(c, s, s.workers[i]);
      assert w.cmd == FinalizeCmd && !Busy(w);
      PublishedCommand(c, s);
    }
  }

  /** Waking the master concerns no worker. */
  lemma Unmoved(c: Config, s: State, t: State, j: nat, w: Worker)
    requires t.pc == s.pc || (s.pc.BarrierWait? && t.pc == SignalMaster(s.pc))
    requires t.test == s.test && t.cmd == s.cmd && t.count == s.count
    ensures WorkerOk(c, s, w) ==> WorkerOk(c, t, w)
    ensures SlotsOk(s, j, w) ==> SlotsOk(t, j, w)
  {
    if SlotsOk(s, j, w) {
      forall f | 0 <= f < 4 ensures SlotOk(t, j, f, w.slots[f]) { assert SlotOk(s, j, f, w.slots[f]); }
    }
  }

  lemma SameSlots(s: State, j: nat, w: Worker, v: Worker)
    requires SlotsOk(s, j, w) && v.slots == w.slots
    ensures SlotsOk(s, j, v)
  {
    forall f | 0 <= f < 4 ensures SlotOk(s, j, f, v.slots[f]) { assert SlotOk(s, j, f, w.slots[f]); }
  }

  lemma WorkerStepWorker(c: Config, s: State, i: nat, w: Worker, t: State, j: nat)
    requires Inv(c, s) && WorkerStep(c, s, i, w, t) && j < |t.workers|
    ensures WorkerOk(c, t, t.workers[j]) && SlotsOk(t, j, t.workers[j])
  {
    assert WorkerOk(c, s, t.workers[j]);
    assert SlotsOk(s, j, s.workers[j]) && t.workers[j].slots == s.workers[j].slots;
    SameSlots(s, j, s.workers[j], t.workers[j]);
    Unmoved(c, s, t, j, t.workers[j]);
  }

  lemma WorkerStepKeeps(c: Config, s: State, i: nat, w: Worker, t: State)
    requires Inv(c, s) && WorkerStep(c, s, i, w, t)
    ensures Inv(c, t)
  {
    WorkerStepWorking(c, s, i, w, t);
    forall j | 0 <= j < |t.workers| ensures WorkerOk(c, t, t.workers[j]) && SlotsOk(t, j, t.workers[j]) {
      WorkerStepWorker(c, s, i, w, t, j);
    }
  }

  /** A command that is picked up is the command the worker is behind with. */
  lemma PickedUp(c: Config, s: State, w: Worker)
    requires Inv(c, s) && WorkerOk(c, s, w) && w.count < s.count && Assigned(w) && !HoldsCmd(s.pc)
    ensures WorkerOk(c, s, Checked(s, w))
  {
    PublishedCommand(c, s);
    assert Calls(c, Checked(s, w)) == Calls(c, w);
  }

  /** A worker only finds its function pointers null when no test has ever assigned them. */
  lemma NeverAssigned(c: Config, s: State, i: nat)
    requires Inv(c, s) && i < |s.workers| && s.workers[i].count < s.count && !Assigned(s.workers[i])
    ensures c.tests == 0
  {
    var w := s.workers[i];
    assert WorkerOk(c, s, w) && SlotsOk(s, i, w);
    assert SlotOk(s, i, INIT_FUNC, w.slots[INIT_FUNC]) && SlotOk(s, i, RUN_FUNC, w.slots[RUN_FUNC])
      && SlotOk(s, i, CLEANUP_FUNC, w.slots[CLEANUP_FUNC]);
  }

  lemma CheckedOk(c: Config, s: State, i: nat)
    requires Inv(c, s) && Enabled(s, Check(i))
    ensures WorkerOk(c, s, Checked(s, s.workers[i]))
  {
    var w := s.workers[i];
    assert WorkerOk(c, s, w);
    if w.count < s.count {
      if Assigned(w) { PickedUp(c, s, w); } else { NeverAssigned(c, s, i); }
    }
  }

  lemma CheckKeeps(c: Config, s: State, i: nat)
    requires Inv(c, s) && Enabled(s, Check(i))
    ensures Inv(c, Apply(c, s, Check(i)))
  {
    CheckedOk(c, s, i);
    WorkerStepKeeps(c, s, i, Checked(s, s.workers[i]), Apply(c, s, Check(i)));
  }

  lemma CountBound(c: Config, s: State)
    requires Inv(c, s)
    ensures s.count <= 3 * c.tests + 1
  {
  }

  /** Entering a function appends the next expected call: the pointers and the env are those of this test. */
  lemma EnteredLog(c: Config, s: State, i: nat)
    requires Inv(c, s) && Enabled(s, Enter(i)) && s.workers[i].cmd != FinalizeCmd
    ensures Entered(s.workers[i]).log == Expected(s.workers[i].count)
    ensures var log := Entered(s.workers[i]).log;
      log != [] && log[|log| - 1] ==
        match s.cmd
        case InitCmd => Call(InitCmd, InitOf(s.test), EnvOf(s.test))
        case RunCmd => Call(RunCmd, RunOf(s.test), EnvOf(s.test))
        case _ => Call(CleanupCmd, CleanupOf(s.test), EnvOf(s.test))
  {
    var w := s.workers[i];
    assert WorkerOk(c, s, w) && SlotsOk(s, i, w);
    var p := PhaseOf(s.pc);
    var m := 3 * s.test + p;
    assert p < 3 && w.count == m + 1 && w.cmd == PhaseCmd(p) by { PublishedCommand(c, s); CountBound(c, s); }
    assert w.log == Expected(m);
    assert SlotOk(s, i, FuncSlot(w.cmd), w.slots[FuncSlot(w.cmd)]) && SlotOk(s, i, ENV, w.slots[ENV]);
    ExpectedNext(s.test, p);
  }

  lemma EnteredOk(c: Config, s: State, i: nat)
    requires Inv(c, s) && Enabled(s, Enter(i))
    ensures WorkerOk(c, s, Entered(s.workers[i]))
  {
    var w := s.workers[i];
    assert WorkerOk(c, s, w) && SlotsOk(s, i, w);
    CountBound(c, s);
    if w.cmd != FinalizeCmd { EnteredLog(c, s, i); }
  }

  lemma EnterKeeps(c: Config, s: State, i: nat)
    requires Inv(c, s) && Enabled(s, Enter(i))
    ensures Inv(c, Apply(c, s, Enter(i)))
  {
    EnteredOk(c, s, i);
    WorkerStepKeeps(c, s, i, Entered(s.workers[i]), Apply(c, s, Enter(i)));
  }

  lemma DoneKeeps(c: Config, s: State, i: nat)
    requires Inv(c, s) && Enabled(s, Done(i))
    ensures Inv(c, Apply(c, s, Done(i)))
  {
    var w := s.workers[i];
    assert WorkerOk(c, s, w);
    var t := Apply(c, s, Done(i));
    CountUpdate(Pending(s.count), s.workers, i, t.workers[i]);
    WorkerStepKeeps(c, s, i, t.workers[i], t);
  }

  /** Nobody is pending exactly when every worker is idle and up to date. */
  lemma NobodyPending(c: Config, s: State)
    requires Inv(c, s) && s.pc.Barrier? && s.working <= 0
    ensures forall i :: 0 <= i < |s.workers| ==> !IsPending(s.count, s.workers[i])
  {
    CountNone(Pending(s.count), s.workers);
    forall i | 0 <= i < |s.workers| ensures !IsPending(s.count, s.workers[i]) {
      assert !Pending(s.count)(s.workers[i]);
    }
  }

  lemma BarrierWorker(c: Config, s: State, i: nat)
    requires Inv(c, s) && s.pc.Barrier? && i < |s.workers| && (s.working <= 0 ==> !IsPending(s.count, s.workers[i]))
    ensures var t := MasterNext(c, s); WorkerOk(c, t, t.workers[i]) && SlotsOk(t, i, t.workers[i])
  {
    var t := MasterNext(c, s);
    assert WorkerOk(c, s, s.workers[i]) && SlotsOk(s, i, s.workers[i]);
    forall f | 0 <= f < 4 ensures SlotOk(t, i, f, t.workers[i].slots[f]) {
      assert SlotOk(s, i, f, s.workers[i].slots[f]);
    }
  }

  lemma BarrierKeeps(c: Config, s: State)
    requires Inv(c, s) && s.pc.Barrier?
    ensures Inv(c, MasterNext(c, s))
  {
    var t := MasterNext(c, s);
    if s.working <= 0 { NobodyPending(c, s); }
    forall i | 0 <= i < |t.workers| ensures WorkerOk(c, t, t.workers[i]) && SlotsOk(t, i, t.workers[i]) {
      BarrierWorker(c, s, i);
    }
  }

  lemma AssigningKeeps(c: Config, s: State)
    requires Inv(c, s) && s.pc.Assigning?
    ensures Inv(c, MasterNext(c, s))
  {
    var t := MasterNext(c, s);
    var i, f := s.pc.thread, s.pc.slot;
    forall j | 0 <= j < |t.workers| ensures WorkerOk(c, t, t.workers[j]) && SlotsOk(t, j, t.workers[j]) {
      assert WorkerOk(c, s, s.workers[j]) && SlotsOk(s, j, s.workers[j]);
      forall g | 0 <= g < 4 ensures SlotOk(t, j, g, t.workers[j].slots[g]) {
        assert SlotOk(s, j, g, s.workers[j].slots[g]);
      }
    }
  }

  lemma PublishingWorkerKeeps(c: Config, s: State, i: nat)
    requires Inv(c, s) && s.pc.Publishing? && i < |s.workers|
    ensures var t := MasterNext(c, s); WorkerOk(c, t, t.workers[i]) && SlotsOk(t, i, t.workers[i])
  {
    var t := MasterNext(c, s);
    var w := s.workers[i];
    assert WorkerOk(c, s, w) && SlotsOk(s, i, w);
    forall f | 0 <= f < 4 ensures SlotOk(t, i, f, t.workers[i].slots[f]) {
      assert SlotOk(s, i, f, w.slots[f]);
    }
    if s.pc.stage == 3 {
      assert Calls(c, Woken(w)) == Calls(c, w);
      assert WorkerOk(c, t, Woken(w));
    } else {
      assert t.workers[i] == w;
      assert WorkerOk(c, t, w);
    }
  }

  lemma PublishingKeeps(c: Config, s: State)
    requires Inv(c, s) && s.pc.Publishing?
    ensures Inv(c, MasterNext(c, s))
  {
    var t := MasterNext(c, s);
    forall i | 0 <= i < |t.workers| ensures WorkerOk(c, t, t.workers[i]) && SlotsOk(t, i, t.workers[i]) {
      PublishingWorkerKeeps(c, s, i);
    }
    if s.pc.stage == 3 {
      forall i | 0 <= i < |t.workers| ensures Pending(t.count)(t.workers[i]) {
        assert WorkerOk(c, s, s.workers[i]);
      }
      CountAll(Pending(t.count), t.workers);
    }
  }

  lemma LeaveKeeps(c: Config, s: State, i: nat)
    requires Inv(c, s) && Enabled(s, Leave(i))
    ensures Inv(c, Apply(c, s, Leave(i)))
  {
    assert WorkerOk(c, s, s.workers[i]);
    WorkerStepKeeps(c, s, i, s.workers[i].(pc := Returned), Apply(c, s, Leave(i)));
  }

  lemma WakeKeeps(c: Config, s: State, i: nat)
    requires Inv(c, s) && Enabled(s, Wake(i))
    ensures Inv(c, Apply(c, s, Wake(i)))
  {
    assert WorkerOk(c, s, s.workers[i]);
    WorkerStepKeeps(c, s, i, Woken(s.workers[i]), Apply(c, s, Wake(i)));
  }

  lemma MasterWakeKeeps(c: Config, s: State)
    requires Inv(c, s) && Enabled(s, MasterWake)
    ensures Inv(c, Apply(c, s, MasterWake))
  {
    var t := Apply(c, s, MasterWake);
    forall j | 0 <= j < |t.workers| ensures WorkerOk(c, t, t.workers[j]) && SlotsOk(t, j, t.workers[j]) {
      assert WorkerOk(c, s, s.workers[j]) && SlotsOk(s, j, s.workers[j]);
      Unmoved(c, s, t, j, s.workers[j]);
    }
  }

  /** Once all dispatchers have been joined, nobody is pending. */
  lemma JoinedNobodyPending(c: Config, s: State)
    requires Inv(c, s) && s.pc.Joining? && s.pc.thread >= |s.workers|
    ensures Count(Pending(s.count), s.workers) == 0
  {
    forall i | 0 <= i < |s.workers| ensures !Pending(s.count)(s.workers[i]) {
      assert WorkerOk(c, s, s.workers[i]) && s.workers[i].pc.Exited?;
      PublishedCommand(c, s);
    }
    CountNone(Pending(s.count), s.workers);
  }

  lemma OtherMasterWorker(c: Config, s: State, j: nat)
    requires Inv(c, s) && (s.pc.Calling? || s.pc.Joining?) && Enabled(s, MasterStep) && j < |s.workers|
    ensures var t := MasterNext(c, s); WorkerOk(c, t, t.workers[j]) && SlotsOk(t, j, t.workers[j])
  {
    var t := MasterNext(c, s);
    assert WorkerOk(c, s, s.workers[j]) && SlotsOk(s, j, s.workers[j]);
    forall f | 0 <= f < 4 ensures SlotOk(t, j, f, t.workers[j].slots[f]) { assert SlotOk(s, j, f, s.workers[j].slots[f]); }
  }

  lemma OtherMasterWorkers(c: Config, s: State)
    requires Inv(c, s) && (s.pc.Calling? || s.pc.Joining?) && Enabled(s, MasterStep)
    ensures var t := MasterNext(c, s);
      forall j :: 0 <= j < |t.workers| ==> WorkerOk(c, t, t.workers[j]) && SlotsOk(t, j, t.workers[j])
  {
    var t := MasterNext(c, s);
    forall j | 0 <= j < |t.workers| ensures WorkerOk(c, t, t.workers[j]) && SlotsOk(t, j, t.workers[j]) {
      OtherMasterWorker(c, s, j);
    }
  }

  lemma JoiningWorking(c: Config, s: State)
    requires Inv(c, s) && s.pc.Joining? && Enabled(s, MasterStep)
    ensures WorkingOk(c, MasterNext(c, s))
  {
    if s.pc.thread >= |s.workers| { JoinedNobodyPending(c, s); }
  }

  /** The threads joined so far have exited. */
  lemma JoinedExited(c: Config, s: State)
    requires Inv(c, s) && s.pc.Joining? && Enabled(s, MasterStep)
    ensures var t := MasterNext(c, s);
      forall i :: 0 <= i < |t.workers| && (t.pc.Finished? || i < s.pc.thread + 1) ==> t.workers[i].pc.Exited?
  {
  }

  lemma JoiningKeeps(c: Config, s: State)
    requires Inv(c, s) && s.pc.Joining? && Enabled(s, MasterStep)
    ensures Inv(c, MasterNext(c, s))
  {
    OtherMasterWorkers(c, s);
    JoiningWorking(c, s);
    JoinedExited(c, s);
  }

  lemma CallingKeeps(c: Config, s: State)
    requires Inv(c, s) && s.pc.Calling?
    ensures Inv(c, MasterNext(c, s))
  {
    OtherMasterWorkers(c, s);
  }

  lemma StepKeeps(c: Config, s: State, a: Action)
    requires Inv(c, s) && Enabled(s, a)
    ensures Inv(c, Apply(c, s, a))
  {
    match a
    case MasterStep =>
      match s.pc {
        case Assigning(_, _) => AssigningKeeps(c, s);
        case Publishing(_, _) => PublishingKeeps(c, s);
        case Barrier(_) => BarrierKeeps(c, s);
        case Calling(_) => CallingKeeps(c, s);
        case Joining(_) => JoiningKeeps(c, s);
      }
    case MasterWake => MasterWakeKeeps(c, s);
    case Check(i) => CheckKeeps(c, s, i);
    case Enter(i) => EnterKeeps(c, s, i);
    case Leave(i) => LeaveKeeps(c, s, i);
    case Done(i) => DoneKeeps(c, s, i);
    case Wake(i) => WakeKeeps(c, s, i);
  }

  // ---------------------------------------------------------------------------------------
  // Progress: nothing is stuck, and the number of steps is bounded
  // ---------------------------------------------------------------------------------------

  /** tst_thread_cleanup is called only once the functions have been assigned. */
  predicate CanFinish(c: Config) { c.threads == 0 || c.tests > 0 }

  /** A worker that still owes a worker_done can move: it is not asleep, and cmd_mutex is free. */
  lemma PendingCanMove(c: Config, s: State, i: nat) returns (a: Action)
    requires Inv(c, s) && c.tests > 0 && Open(s.pc) && i < |s.workers| && IsPending(s.count, s.workers[i])
    ensures Enabled(s, a) && !Spurious(a)
  {
    var w := s.workers[i];
    assert WorkerOk(c, s, w);
    match w.pc {
      case Picked => a := Enter(i);
      case Inside => a := Leave(i);
      case Returned => a := Done(i);
      case Ready => a := Check(i);
      case _ => assert false;
    }
  }

  lemma Progress(c: Config, s: State) returns (a: Action)
    requires Inv(c, s) && !s.pc.Finished? && CanFinish(c)
    ensures Enabled(s, a) && !Spurious(a)
  {
    a := MasterStep;
    if s.pc.BarrierWait? {
      CountNone(Pending(s.count), s.workers);
      var i :| 0 <= i < |s.workers| && Pending(s.count)(s.workers[i]);
      a := PendingCanMove(c, s, i);
    } else if s.pc.Joining? && s.pc.thread < |s.workers| && !s.workers[s.pc.thread].pc.Exited? {
      var i := s.pc.thread;
      assert WorkerOk(c, s, s.workers[i]);
      PublishedCommand(c, s);
      a := PendingCanMove(c, s, i);
    }
  }

  function PcWeight(pc: WorkerPc): nat {
    match pc case Waiting => 0 case Exited => 0 case Ready => 1 case Returned => 3 case Inside => 4 case Picked => 5
  }

  function WorkerWeight(c: Config): Worker -> nat {
    (w: Worker) => PcWeight(w.pc) + (if w.count <= 3 * c.tests + 1 then 5 * (3 * c.tests + 1 - w.count) else 0)
  }

  /** Steps the master takes in one test: the assignments, then six per phase. */
  function TestSteps(c: Config): nat { 4 * c.threads + 19 }

  /** The master's steps from the top of the loop body for `test` on. */
  function StepsFrom(c: Config, test: nat): nat
  {
    (if test < c.tests then (c.tests - test) * TestSteps(c) else 0) + c.threads + 5
  }

  function PhaseSteps(c: Config, test: nat, phase: nat): nat {
    1 + 6 * (if phase < 2 then 2 - phase else 0) + StepsFrom(c, test + 1)
  }

  function StepsLeft(c: Config, s: State): nat {
    match s.pc
    case Assigning(i, f) =>
      PhaseSteps(c, s.test, 0) + 6 + (if i < c.threads && f <= 3 then 4 * (c.threads - i) - f else 0)
    case Publishing(p, g) =>
      if p == 3 then c.threads + (if g <= 1 then 5 - g else 2)
      else PhaseSteps(c, s.test, p) + (if g < 5 then 5 - g else 0)
    case Calling(p) => PhaseSteps(c, s.test, p) + 1
    case Barrier(p) => PhaseSteps(c, s.test, p)
    case BarrierWait(p) => PhaseSteps(c, s.test, p)
    case Joining(i) => if i <= c.threads then c.threads - i + 1 else 0
    case Finished => 0
  }

  function Measure(c: Config): State -> nat {
    (s: State) => StepsLeft(c, s) * (c.threads + 2) + (if s.pc.Barrier? then 1 else 0) + Sum(WorkerWeight(c), s.workers)
  }

  lemma NextTestSteps(c: Config, test: nat)
    requires test < c.tests
    ensures StepsFrom(c, test) == StepsFrom(c, test + 1) + TestSteps(c)
  {
    assert (c.tests - test) * TestSteps(c) == (c.tests - (test + 1)) * TestSteps(c) + TestSteps(c);
  }

  lemma TestEntry(c: Config, s: State)
    requires s.pc == NextTest(c, s.test)
    ensures StepsLeft(c, s) == StepsFrom(c, s.test)
  {
    if s.test < c.tests { NextTestSteps(c, s.test); }
  }

  lemma StepsDrop(c: Config, s: State)
    requires PcOk(c, s.test, s.pc) && |s.workers| == c.threads
    requires Enabled(s, MasterStep) && !(s.pc.Barrier? && s.working > 0)
    ensures StepsLeft(c, MasterNext(c, s)) < StepsLeft(c, s)
  {
    if s.pc.Barrier? && s.pc.phase == 2 { TestEntry(c, MasterNext(c, s)); }
  }

  /** A worker's action leaves the master where it is, or wakes it at its barrier. */
  lemma WorkerActionFrame(c: Config, s: State, a: Action, i: nat)
    requires Enabled(s, a) && i < |s.workers|
    requires a == Check(i) || a == Enter(i) || a == Leave(i) || a == Done(i) || a == Wake(i)
    ensures var t := Apply(c, s, a);
      && StepsLeft(c, t) == StepsLeft(c, s)
      && t.workers == s.workers[i := t.workers[i]]
      && (t.pc.Barrier? ==> s.pc.Barrier? || a.Done?)
  {
  }

  lemma WeightDrop(c: Config, s: State, a: Action, i: nat)
    requires Inv(c, s) && Enabled(s, a) && i < |s.workers|
    requires a == Check(i) || a == Enter(i) || a == Leave(i) || a == Done(i) || a == Wake(i)
    ensures var w, v := s.workers[i], Apply(c, s, a).workers[i];
      WorkerWeight(c)(v) <= WorkerWeight(c)(w) + (if Spurious(a) then 1 else if a.Done? then -2 else -1)
  {
    CountBound(c, s);
    assert WorkerOk(c, s, s.workers[i]);
  }

  lemma WeightChange(c: Config, s: State, a: Action, i: nat)
    requires Inv(c, s) && Enabled(s, a) && i < |s.workers|
    requires a == Check(i) || a == Enter(i) || a == Leave(i) || a == Done(i) || a == Wake(i)
    ensures Measure(c)(Apply(c, s, a)) <= Measure(c)(s) + (if Spurious(a) then 1 else -1)
  {
    var t := Apply(c, s, a);
    WeightDrop(c, s, a, i);
    WorkerActionFrame(c, s, a, i);
    var before, after := Sum(WorkerWeight(c), s.workers), Sum(WorkerWeight(c), t.workers);
    assert after == before - WorkerWeight(c)(s.workers[i]) + WorkerWeight(c)(t.workers[i]) by {
      SumUpdate(WorkerWeight(c), s.workers, i, t.workers[i]);
    }
  }

  /** The master changes the workers' weights only by the broadcast, by at most one each. */
  lemma BroadcastWeights(c: Config, ws: seq<Worker>)
    ensures Sum(WorkerWeight(c), Broadcast(ws)) <= Sum(WorkerWeight(c), ws) + |ws|
  {
    SumGrowth(WorkerWeight(c), ws, Broadcast(ws));
  }

  lemma WriteWeights(c: Config, ws: seq<Worker>, i: nat, slot: nat, v: Slot)
    requires i < |ws|
    ensures Sum(WorkerWeight(c), ws[i := Write(ws[i], slot, v)]) == Sum(WorkerWeight(c), ws)
  {
    SumUpdate(WorkerWeight(c), ws, i, Write(ws[i], slot, v));
  }

  lemma MasterWeights(c: Config, s: State)
    requires Inv(c, s) && Enabled(s, MasterStep)
    ensures Sum(WorkerWeight(c), MasterNext(c, s).workers)
         <= Sum(WorkerWeight(c), s.workers) + (if s.pc.Publishing? && s.pc.stage == 3 then c.threads else 0)
  {
    if s.pc.Publishing? && s.pc.stage == 3 {
      BroadcastWeights(c, s.workers);
    } else if s.pc.Assigning? && s.pc.thread < |s.workers| {
      WriteWeights(c, s.workers, s.pc.thread, s.pc.slot, AssignedTo(s.pc.slot, s.test));
    }
  }

  /** One step of the master outweighs waking all workers and itself. */
  lemma StepsOutweigh(after: nat, before: nat, threads: nat, y: nat, x: nat)
    requires after < before && y <= x + threads
    ensures after * (threads + 2) + 1 + y < before * (threads + 2) + x
  {
    assert before * (threads + 2) == (before - 1 - after) * (threads + 2) + (after + 1) * (threads + 2);
    assert (after + 1) * (threads + 2) == after * (threads + 2) + threads + 2;
  }

  lemma MasterMeasureDrops(c: Config, s: State)
    requires Inv(c, s) && Enabled(s, MasterStep)
    ensures Measure(c)(MasterNext(c, s)) < Measure(c)(s)
  {
    if !(s.pc.Barrier? && s.working > 0) {
      StepsDrop(c, s);
      MasterWeights(c, s);
      var t := MasterNext(c, s);
      var x, y := Sum(WorkerWeight(c), s.workers), Sum(WorkerWeight(c), t.workers);
      StepsOutweigh(StepsLeft(c, t), StepsLeft(c, s), c.threads, y, x);
    }
  }

  /** Every ordinary step lowers the measure; a spurious wake-up raises it by at most one. */
  lemma MeasureDrops(c: Config, s: State, a: Action)
    requires Inv(c, s) && Enabled(s, a)
    ensures Measure(c)(Apply(c, s, a)) <= Measure(c)(s) + (if Spurious(a) then 1 else -1)
  {
    var t := Apply(c, s, a);
    match a
    case MasterStep => MasterMeasureDrops(c, s);
    case MasterWake =>
    case Check(i) => WeightChange(c, s, a, i);
    case Enter(i) => WeightChange(c, s, a, i);
    case Leave(i) => WeightChange(c, s, a, i);
    case Done(i) => WeightChange(c, s, a, i);
    case Wake(i) => WeightChange(c, s, a, i);
  }

  // ---------------------------------------------------------------------------------------
  // Theorems about runs
  // ---------------------------------------------------------------------------------------

  /** The master is between its broadcast and the return of the barrier. */
  predicate Executing(pc: MasterPc) { pc.Calling? || pc.Barrier? || pc.BarrierWait? }

  /** In a worker's log come, test after test, INIT with the init function, RUN and CLEANUP with theirs. */
  ghost predicate InOrder(log: seq<Call>) {
    forall k: nat ::
      && (3 * k < |log| ==> log[3 * k] == Call(InitCmd, InitOf(k), EnvOf(k)))
      && (3 * k + 1 < |log| ==> log[3 * k + 1] == Call(RunCmd, RunOf(k), EnvOf(k)))
      && (3 * k + 2 < |log| ==> log[3 * k + 2] == Call(CleanupCmd, CleanupOf(k), EnvOf(k)))
  }

  /** The published command is INIT, RUN or CLEANUP in phase 0, 1 and 2. */
  predicate CommandOk(s: State) {
    Executing(s.pc) ==>
      && (s.pc.phase == 0 ==> s.cmd == InitCmd)
      && (s.pc.phase == 1 ==> s.cmd == RunCmd)
      && (s.pc.phase >= 2 ==> s.cmd == CleanupCmd)
  }

  /**
   * Every thread inside a test function executes the published command, and its call is the one in
   * the order that belongs to the test and the phase the master is at.
   */
  ghost predicate Lockstep(s: State) {
    && CommandOk(s)
    && forall i :: 0 <= i < |s.workers| && s.workers[i].pc.Inside? ==>
         var w := s.workers[i];
         Executing(s.pc) && w.cmd == s.cmd && w.count == s.count && |w.log| == 3 * s.test + s.pc.phase + 1
  }

  /** Between a broadcast and the return of the barrier, working counts those who have not done worker_done. */
  ghost predicate WorkingCounts(s: State) {
    Executing(s.pc) ==> s.working == Count(Pending(s.count), s.workers)
  }

  /** Nobody sleeps on a condition that already holds. */
  ghost predicate NoLostWakeup(s: State) {
    && (s.pc.BarrierWait? ==> s.working > 0)
    && forall i :: 0 <= i < |s.workers| && s.workers[i].pc.Waiting? && Assigned(s.workers[i]) ==>
         s.workers[i].count == s.count || HoldsCmd(s.pc)
  }

  /** The calls a worker has made are INIT, RUN, CLEANUP of test 0, 1, ..., one for each command picked up. */
  ghost predicate ExactlyOnce(s: State) {
    forall i :: 0 <= i < |s.workers| ==>
      var w := s.workers[i]; InOrder(w.log) && |w.log| <= w.count <= |w.log| + 1
  }

  /** All threads have run everything and exited; working has gone below zero. */
  ghost predicate Complete(c: Config, s: State) {
    && s.pc.Finished? && s.working == 0 - c.threads && |s.workers| == c.threads
    && forall i :: 0 <= i < |s.workers| ==> s.workers[i].pc.Exited? && |s.workers[i].log| == 3 * c.tests && InOrder(s.workers[i].log)
  }

  lemma InsideMeaning(c: Config, s: State, i: nat)
    requires Inv(c, s) && i < |s.workers| && s.workers[i].pc.Inside?
    ensures var w := s.workers[i];
      Executing(s.pc) && w.cmd == s.cmd && w.count == s.count && |w.log| == 3 * s.test + s.pc.phase + 1
  {
    var w := s.workers[i];
    assert WorkerOk(c, s, w);
    PublishedCommand(c, s);
    var p := PhaseOf(s.pc);
    assert p < 3 && w.count == 3 * s.test + p + 1;
  }

  lemma ExpectedInOrder(m: nat)
    ensures InOrder(Expected(m))
  {
    forall k: nat
      ensures 3 * k < m ==> Expected(m)[3 * k] == CallOf(k, 0)
      ensures 3 * k + 1 < m ==> Expected(m)[3 * k + 1] == CallOf(k, 1)
      ensures 3 * k + 2 < m ==> Expected(m)[3 * k + 2] == CallOf(k, 2)
    {
      assert (3 * k) / 3 == k && (3 * k + 1) / 3 == k && (3 * k + 2) / 3 == k;
      assert (3 * k) % 3 == 0 && (3 * k + 1) % 3 == 1 && (3 * k + 2) % 3 == 2;
    }
  }

  lemma WorkerMeaning(c: Config, s: State, i: nat)
    requires Inv(c, s) && i < |s.workers|
    ensures var w := s.workers[i];
      && InOrder(w.log) && |w.log| <= w.count <= |w.log| + 1
      && (w.pc.Waiting? && Assigned(w) ==> w.count == s.count || HoldsCmd(s.pc))
      && (s.pc.Finished? ==> |w.log| == 3 * c.tests)
  {
    CountBound(c, s);
    ExpectedInOrder(|s.workers[i].log|);
    assert WorkerOk(c, s, s.workers[i]) && SlotsOk(s, i, s.workers[i]);
    assert SlotOk(s, i, INIT_FUNC, s.workers[i].slots[INIT_FUNC]);
  }

  lemma InvMeaning(c: Config, s: State)
    requires Inv(c, s)
    ensures Lockstep(s) && WorkingCounts(s) && NoLostWakeup(s) && ExactlyOnce(s)
    ensures s.pc.Finished? ==> Complete(c, s)
  {
    assert forall i :: 0 <= i < |s.workers| && s.workers[i].pc.Inside? ==>
      var w := s.workers[i];
      Executing(s.pc) && w.cmd == s.cmd && w.count == s.count && |w.log| == 3 * s.test + s.pc.phase + 1 by {
      forall i | 0 <= i < |s.workers| && s.workers[i].pc.Inside? { InsideMeaning(c, s, i); }
    }
    forall i | 0 <= i < |s.workers| { WorkerMeaning(c, s, i); }
  }

  /** The protocol with its invariant and its measure. */
  ghost function Protocol(c: Config): System<State, Action> {
    System(Initial(c), Moves(c), (s: State) => Inv(c, s), Measure(c), (a: Action) => Spurious(a))
  }

  lemma ProtocolSound(c: Config)
    ensures Sound(Protocol(c))
  {
    InitialOk(c);
    forall s, a, t | Inv(c, s) && Moves(c)(s, a, t) ensures Inv(c, t) && Measure(c)(t) <= Measure(c)(s) + (if Spurious(a) then 1 else -1) {
      StepKeeps(c, s, a);
      MeasureDrops(c, s, a);
    }
  }

  lemma RunInv(c: Config, r: Run<State, Action>)
    requires IsRun(c, r)
    ensures forall k :: 0 <= k < |r.states| ==> Inv(c, r.states[k])
  {
    ProtocolSound(c);
    SystemInvariant(Protocol(c), r);
  }

  /** Safety, over every run: any interleaving, any spurious wake-ups, workers starting at any time. */
  lemma RunsAreSafe(c: Config, r: Run<State, Action>, k: nat)
    requires IsRun(c, r) && k < |r.states|
    ensures Lockstep(r.states[k]) && WorkingCounts(r.states[k]) && NoLostWakeup(r.states[k]) && ExactlyOnce(r.states[k])
    ensures r.states[k].pc.Finished? ==> Complete(c, r.states[k])
  {
    RunInv(c, r);
    InvMeaning(c, r.states[k]);
  }

  /** The length of a run is bounded by its spurious wake-ups: every run with finitely many of them ends. */
  lemma RunsAreBounded(c: Config, r: Run<State, Action>)
    requires IsRun(c, r)
    ensures |r.actions| <= Measure(c)(Initial(c)) + 2 * Count((a: Action) => Spurious(a), r.actions)
  {
    ProtocolSound(c);
    SystemBounded(Protocol(c), r);
  }

  /** Without an assigned function no dispatcher ever gets past its wait loop. */
  lemma NeverAssignedNeverExits(c: Config, s: State, i: nat)
    requires Inv(c, s) && c.tests == 0 && i < |s.workers|
    requires s.workers[i].count == 0
    ensures !s.pc.Finished?
    ensures forall a :: Enabled(s, a) ==> Apply(c, s, a).workers[i].count == 0
  {
    assert WorkerOk(c, s, s.workers[i]) && SlotsOk(s, i, s.workers[i]);
    assert SlotOk(s, i, INIT_FUNC, s.workers[i].slots[INIT_FUNC]);
    forall a | Enabled(s, a) ensures Apply(c, s, a).workers[i].count == 0 {
      StepKeeps(c, s, a);
    }
  }

  lemma NeverFinishes(c: Config, r: Run<State, Action>)
    requires IsRun(c, r) && !CanFinish(c)
    ensures forall k :: 0 <= k < |r.states| ==> !r.states[k].pc.Finished?
  {
    var inv := (s: State) => Inv(c, s) && s.workers[0].count == 0;
    InitialOk(c);
    forall s, a, t | inv(s) && Moves(c)(s, a, t) ensures inv(t) {
      StepKeeps(c, s, a);
      NeverAssignedNeverExits(c, s, 0);
    }
    InvariantHolds(r, Initial(c), Moves(c), inv);
    forall k | 0 <= k < |r.states| ensures !r.states[k].pc.Finished? {
      assert inv(r.states[k]);
      NeverAssignedNeverExits(c, r.states[k], 0);
    }
  }

  /** Nothing but a spurious wake-up can happen in s. */
  ghost predicate Stuck(s: State) { forall a :: Enabled(s, a) ==> Spurious(a) }

  /**
   * Liveness and its exact condition: a run that cannot go on has completed, with every call made
   * exactly once by every worker, if and only if there are no workers or some test assigned the
   * functions before tst_thread_cleanup.
   */
  lemma StuckRunsAreComplete(c: Config, r: Run<State, Action>)
    requires IsRun(c, r) && Stuck(r.Last())
    ensures Complete(c, r.Last()) <==> CanFinish(c)
  {
    RunInv(c, r);
    if CanFinish(c) {
      if !r.Last().pc.Finished? {
        var a := Progress(c, r.Last());
      }
      InvMeaning(c, r.Last());
    } else {
      NeverFinishes(c, r);
    }
  }

  /**
   * Every run goes on to a state where only spurious wake-ups are left, and the shutdown is complete
   * there exactly when it can be: without an assigned test the framework does get stuck.
   */
  lemma EveryRunEnds(c: Config, r: Run<State, Action>) returns (q: Run<State, Action>)
    requires IsRun(c, r)
    ensures IsRun(c, q) && Extends(q, r) && Stuck(q.Last())
    ensures Complete(c, q.Last()) <==> CanFinish(c)
  {
    ProtocolSound(c);
    q := RunOn(Protocol(c), r);
    forall a | Enabled(q.Last(), a) ensures Spurious(a) {
      HaltedStep(Protocol(c), q.Last(), a, Apply(c, q.Last(), a));
    }
    StuckRunsAreComplete(c, q);
  }
}
