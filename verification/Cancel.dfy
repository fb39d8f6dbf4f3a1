/** Forwarding termination from the front door to the engine: the atomics and handlers of
    `src/frontend/cancel.rs` and the spawn, watch, wait, forget order of `src/frontend/engine.rs`,
    as a state machine over every interleaving with signals, child exits and PID reuse.

    A handler interrupts the front door's one thread, so main steps wait while a handler runs; a
    handler blocks its own signal, and another signal may nest inside it. */
module Cancel {
  import opened Wrappers

  datatype Signal = Term | Int | Hup

  const SIGNALS: seq<Signal> := [Term, Int, Hup]

  /** Where a running handler is: `pid` is the value it loaded. */
  datatype Stage = Entered | Loaded(pid: int) | Sent | Restored

  datatype Frame = Frame(sig: Signal, stage: Stage)

  /** Where `exec_engine` is. `Reaped` is after the wait returned and before the PID is cleared. */
  datatype Pc = Idle | Spawned | Stored | Installing(done: nat) | Waiting | Reaped

  /** A process as the kernel knows it; one that has exited keeps its PID until it is reaped. */
  datatype Proc = Proc(id: nat, live: bool)

  /** One forwarded signal, and whom it found at that PID. */
  datatype Kill = Kill(sig: Signal, pid: int, target: Option<Proc>, at: Pc, engine: Option<nat>)

  datatype Death = Death(sig: Signal, handled: bool)

  /** The two statics of the module, and which signals have the forwarding handler. */
  datatype Shared = Shared(enginePid: int, installed: bool, handled: set<Signal>, installs: nat)

  datatype State = State(
    pc: Pc, engine: Option<nat>, runPid: nat, sh: Shared,
    table: map<nat, Proc>, nextId: nat,
    frames: seq<Frame>, kills: seq<Kill>, death: Option<Death>)

  datatype Step =
    | Spawn(pid: nat) | StorePid | Swap | Install | Reap | Forget
    | Deliver(sig: Signal) | Handler
    | Exit(pid: nat) | Vanish(pid: nat) | Other(pid: nat)

  const START := State(Idle, None, 0, Shared(0, false, {}, 0), map[], 0, [], [], None)

  predicate MainRuns(s: State) { s.frames == [] && s.death.None? }

  predicate Blocked(s: State, sig: Signal) { exists i :: 0 <= i < |s.frames| && s.frames[i].sig == sig }

  function Top(s: State): Frame
    requires s.frames != []
  {
    s.frames[|s.frames| - 1]
  }

  predicate Enabled(s: State, step: Step) {
    match step
    case Spawn(pid) => MainRuns(s) && s.pc.Idle? && pid > 0 && pid !in s.table
    case StorePid => MainRuns(s) && s.pc.Spawned?
    case Swap => MainRuns(s) && s.pc.Stored?
    case Install => MainRuns(s) && s.pc.Installing? && s.pc.done < |SIGNALS|
    case Reap => MainRuns(s) && s.pc.Waiting? && s.runPid in s.table && !s.table[s.runPid].live
    case Forget => MainRuns(s) && s.pc.Reaped?
    case Deliver(sig) => s.death.None? && !Blocked(s, sig)
    case Handler => s.death.None? && s.frames != []
    case Exit(pid) => pid in s.table
    case Vanish(pid) => pid in s.table && (s.engine != Some(s.table[pid].id) || s.death.Some?)
    case Other(pid) => pid > 0 && pid !in s.table
  }

  function MainStep(s: State, step: Step): State
    requires Enabled(s, step)
    requires step.Spawn? || step.StorePid? || step.Swap? || step.Install? || step.Reap? || step.Forget?
  {
    match step
    case Spawn(pid) =>
      s.(pc := Spawned, engine := Some(s.nextId), runPid := pid,
         table := s.table[pid := Proc(s.nextId, true)], nextId := s.nextId + 1)
    case StorePid => s.(pc := Stored, sh := s.sh.(enginePid := s.runPid))
    case Swap => s.(pc := if s.sh.installed then Waiting else Installing(0), sh := s.sh.(installed := true))
    case Install =>
      s.(pc := if s.pc.done + 1 == |SIGNALS| then Waiting else Installing(s.pc.done + 1),
         sh := s.sh.(handled := s.sh.handled + {SIGNALS[s.pc.done]}, installs := s.sh.installs + 1))
    case Reap => s.(pc := Reaped, table := map p | p in s.table && p != s.runPid :: s.table[p])
    case Forget => s.(pc := Idle, engine := None, sh := s.sh.(enginePid := 0))
  }

  function Found(s: State, pid: int): Option<Proc> {
    if pid > 0 && pid in s.table then Some(s.table[pid]) else None
  }

  /** The handler's four steps: load, kill, restore the default, raise. */
  function HandlerStep(s: State): State
    requires Enabled(s, Handler)
  {
    var below, f := s.frames[..|s.frames| - 1], Top(s);
    match f.stage
    case Entered => s.(frames := below + [Frame(f.sig, Loaded(s.sh.enginePid))])
    case Loaded(pid) =>
      s.(frames := below + [Frame(f.sig, Sent)],
         kills := if pid > 0 then s.kills + [Kill(f.sig, pid, Found(s, pid), s.pc, s.engine)] else s.kills)
    case Sent =>
      s.(frames := below + [Frame(f.sig, Restored)], sh := s.sh.(handled := s.sh.handled - {f.sig}))
    case Restored => s.(death := Some(Death(f.sig, true)))
  }

  function Apply(s: State, step: Step): State
    requires Enabled(s, step)
  {
    match step
    case Deliver(sig) =>
      if sig in s.sh.handled then s.(frames := s.frames + [Frame(sig, Entered)])
      else s.(death := Some(Death(sig, false)))
    case Handler => HandlerStep(s)
    case Exit(pid) => s.(table := s.table[pid := s.table[pid].(live := false)])
    case Vanish(pid) => s.(table := map p | p in s.table && p != pid :: s.table[p])
    case Other(pid) => s.(table := s.table[pid := Proc(s.nextId, true)], nextId := s.nextId + 1)
    case _ => MainStep(s, step)
  }

  /** Every step of the run could be taken when its turn came. */
  predicate Runs(s: State, steps: seq<Step>)
    decreases |steps|
  {
    steps == [] || (Enabled(s, steps[0]) && Runs(Apply(s, steps[0]), steps[1..]))
  }

  function After(s: State, steps: seq<Step>): State
    requires Runs(s, steps)
    decreases |steps|
  {
    if steps == [] then s else After(Apply(s, steps[0]), steps[1..])
  }

  // ---------------------------------------------------------------------
  // The invariant
  // ---------------------------------------------------------------------

  predicate Owned(pc: Pc) { pc.Spawned? || pc.Stored? || pc.Installing? || pc.Waiting? }

  /** A PID is stored exactly from the store to the forget, and it is this run's. */
  predicate PidOk(s: State) {
    && (s.pc.Idle? <==> s.engine.None?)
    && (s.pc.Idle? || s.pc.Spawned? ==> s.sh.enginePid == 0)
    && (!s.pc.Idle? && !s.pc.Spawned? ==> s.sh.enginePid == s.runPid)
    && (!s.pc.Idle? ==> s.runPid > 0)
  }

  /** Until it is reaped this run's PID names the engine; afterwards the engine is nowhere. */
  predicate TableOk(s: State) {
    && (forall p :: p in s.table ==> s.table[p].id < s.nextId)
    && (s.engine.Some? ==> s.engine.value < s.nextId)
    && (Owned(s.pc) && s.death.None? ==> s.runPid in s.table && Some(s.table[s.runPid].id) == s.engine)
    && (forall p, q :: p in s.table && q in s.table && p != q ==> s.table[p].id != s.table[q].id)
    && (s.pc.Reaped? ==> forall p :: p in s.table ==> Some(s.table[p].id) != s.engine)
  }

  predicate Undone(s: State, sig: Signal) {
    exists i :: 0 <= i < |s.frames| && s.frames[i].sig == sig && s.frames[i].stage.Restored?
  }

  /** How many of the three signals have been given the handler. */
  function InstalledCount(s: State): nat {
    if !s.sh.installed then 0 else if s.pc.Installing? then s.pc.done else |SIGNALS|
  }

  /** Each signal is given the handler at most once, in order, and loses it only to a handler that
      is about to raise. */
  predicate HandlersOk(s: State) {
    && (s.pc.Installing? ==> s.sh.installed && s.pc.done < |SIGNALS|)
    && (s.pc.Waiting? || s.pc.Reaped? ==> s.sh.installed)
    && s.sh.installs == InstalledCount(s)
    && (forall i :: 0 <= i < |SIGNALS| ==>
          (i < InstalledCount(s) <==> SIGNALS[i] in s.sh.handled || Undone(s, SIGNALS[i])))
  }

  predicate WasSent(s: State, sig: Signal) {
    exists k :: 0 <= k < |s.kills| && s.kills[k].sig == sig && s.kills[k].pid == s.sh.enginePid &&
                s.kills[k].at == s.pc && s.kills[k].engine == s.engine
  }

  predicate FramesOk(s: State) {
    && (forall i, j :: 0 <= i < j < |s.frames| ==> s.frames[i].sig != s.frames[j].sig)
    && (forall i :: 0 <= i < |s.frames| ==>
          && (s.frames[i].stage.Loaded? ==> s.frames[i].stage.pid == s.sh.enginePid)
          && (s.frames[i].stage.Sent? || s.frames[i].stage.Restored? ==>
                s.sh.enginePid > 0 ==> WasSent(s, s.frames[i].sig))
          && (s.frames[i].stage.Restored? || s.frames[i].sig in s.sh.handled))
  }

  /** Whom a forwarded signal may have found. */
  predicate KillOk(k: Kill) {
    && k.pid > 0 && k.engine.Some? && !k.at.Idle? && !k.at.Spawned?
    && (!k.at.Reaped? ==> k.target.Some? && Some(k.target.value.id) == k.engine)
    && (k.at.Reaped? && k.target.Some? ==> Some(k.target.value.id) != k.engine)
  }

  predicate KillsOk(s: State) {
    && (forall i :: 0 <= i < |s.kills| ==> KillOk(s.kills[i]))
    && (forall i, p :: 0 <= i < |s.kills| && s.kills[i].target.Some? && p in s.table &&
                       s.table[p].live && !s.kills[i].target.value.live ==>
                       s.table[p].id != s.kills[i].target.value.id)
    && (forall i :: 0 <= i < |s.kills| && s.kills[i].target.Some? ==> s.kills[i].target.value.id < s.nextId)
  }

  predicate DeathOk(s: State) {
    s.death.Some? ==>
      if s.death.value.handled then s.sh.enginePid > 0 ==> WasSent(s, s.death.value.sig)
      else !s.pc.Waiting? && !s.pc.Reaped?
  }

  predicate Inv(s: State) {
    PidOk(s) && TableOk(s) && HandlersOk(s) && FramesOk(s) && KillsOk(s) && DeathOk(s)
  }

  predicate IsMain(step: Step) {
    step.Spawn? || step.StorePid? || step.Swap? || step.Install? || step.Reap? || step.Forget?
  }

  predicate IsEnvironment(step: Step) { step.Exit? || step.Vanish? || step.Other? }

  lemma {:induction false} MainKeepsHandlers(s: State, step: Step)
    requires HandlersOk(s) && Enabled(s, step) && IsMain(step)
    requires s.pc.Stored? ==> !s.pc.Installing?
    ensures HandlersOk(MainStep(s, step))
  {
    var t := MainStep(s, step);
    assert s.frames == [] && t.frames == [];
    if step.Install? {
      assert forall i :: 0 <= i < |SIGNALS| && i != s.pc.done ==> SIGNALS[i] != SIGNALS[s.pc.done];
    }
  }

  lemma {:induction false} MainKeepsTable(s: State, step: Step)
    requires PidOk(s) && TableOk(s) && HandlersOk(s) && Enabled(s, step) && IsMain(step)
    ensures PidOk(MainStep(s, step)) && TableOk(MainStep(s, step))
  {
  }

  lemma {:induction false} MainKeepsKills(s: State, step: Step)
    requires TableOk(s) && KillsOk(s) && Enabled(s, step) && IsMain(step)
    ensures KillsOk(MainStep(s, step))
  {
  }

  lemma {:induction false} EnvironmentKeepsTable(s: State, step: Step)
    requires PidOk(s) && TableOk(s) && Enabled(s, step) && IsEnvironment(step)
    ensures PidOk(Apply(s, step)) && TableOk(Apply(s, step))
  {
  }

  lemma {:induction false} EnvironmentKeepsKills(s: State, step: Step)
    requires TableOk(s) && KillsOk(s) && Enabled(s, step) && IsEnvironment(step)
    ensures KillsOk(Apply(s, step))
  {
  }

  lemma {:induction false} EnvironmentKeepsHandlers(s: State, step: Step)
    requires HandlersOk(s) && FramesOk(s) && DeathOk(s) && Enabled(s, step) && IsEnvironment(step)
    ensures HandlersOk(Apply(s, step)) && FramesOk(Apply(s, step)) && DeathOk(Apply(s, step))
  {
    var t := Apply(s, step);
    assert forall sig :: Undone(s, sig) == Undone(t, sig) && WasSent(s, sig) == WasSent(t, sig);
  }

  lemma {:induction false} DeliverCaught(s: State, sig: Signal)
    requires Inv(s) && Enabled(s, Deliver(sig)) && sig in s.sh.handled
    ensures Inv(Apply(s, Deliver(sig)))
  {
    var t := Apply(s, Deliver(sig));
    assert forall other :: WasSent(s, other) == WasSent(t, other);
    forall other ensures Undone(s, other) == Undone(t, other) {
      if Undone(s, other) {
        var i :| 0 <= i < |s.frames| && s.frames[i].sig == other && s.frames[i].stage.Restored?;
        assert t.frames[i] == s.frames[i];
      }
    }
    assert HandlersOk(t);
    assert FramesOk(t);
  }

  /** When a signal's handler is installed. */
  function Place(sig: Signal): (i: nat)
    ensures i < |SIGNALS| && SIGNALS[i] == sig
  {
    if sig.Term? then 0 else if sig.Int? then 1 else 2
  }

  lemma {:induction false} DeliverKills(s: State, sig: Signal)
    requires Inv(s) && Enabled(s, Deliver(sig)) && sig !in s.sh.handled
    ensures Inv(Apply(s, Deliver(sig)))
  {
    var t := Apply(s, Deliver(sig));
    assert forall other :: WasSent(s, other) == WasSent(t, other) && Undone(s, other) == Undone(t, other);
    assert SIGNALS[Place(sig)] == sig;
    assert !Undone(s, sig);
  }

  lemma {:induction false} SameUndone(s: State, t: State)
    requires |s.frames| == |t.frames| > 0
    requires forall i :: 0 <= i < |s.frames| - 1 ==> s.frames[i] == t.frames[i]
    requires !Top(s).stage.Restored? && !Top(t).stage.Restored?
    ensures forall sig :: Undone(s, sig) == Undone(t, sig)
  {
    forall sig ensures Undone(s, sig) == Undone(t, sig) {
      if Undone(s, sig) {
        var i :| 0 <= i < |s.frames| && s.frames[i].sig == sig && s.frames[i].stage.Restored?;
        assert t.frames[i] == s.frames[i];
      }
    }
  }

  lemma {:induction false} SentGrows(s: State, t: State)
    requires s.kills <= t.kills && s.sh.enginePid == t.sh.enginePid && s.pc == t.pc && s.engine == t.engine
    ensures forall sig :: WasSent(s, sig) ==> WasSent(t, sig)
  {
    forall sig | WasSent(s, sig) ensures WasSent(t, sig) {
      var k :| 0 <= k < |s.kills| && s.kills[k].sig == sig && s.kills[k].pid == s.sh.enginePid &&
               s.kills[k].at == s.pc && s.kills[k].engine == s.engine;
      assert t.kills[k] == s.kills[k];
    }
  }

  lemma {:induction false} HandlerLoads(s: State)
    requires Inv(s) && Enabled(s, Handler) && Top(s).stage.Entered?
    ensures Inv(HandlerStep(s))
  {
    var t := HandlerStep(s);
    SameUndone(s, t);
    SentGrows(s, t);
    assert HandlersOk(t);
    assert FramesOk(t);
  }

  lemma {:induction false} SendsSafely(s: State)
    requires PidOk(s) && TableOk(s) && FramesOk(s) && KillsOk(s) && Enabled(s, Handler) && Top(s).stage.Loaded?
    ensures KillsOk(HandlerStep(s))
  {
    var pid, t := Top(s).stage.pid, HandlerStep(s);
    assert pid == s.sh.enginePid;
    if pid > 0 {
      assert KillOk(t.kills[|s.kills|]);
    }
  }

  lemma {:induction false} HandlerSends(s: State)
    requires Inv(s) && Enabled(s, Handler) && Top(s).stage.Loaded?
    ensures Inv(HandlerStep(s))
  {
    var t := HandlerStep(s);
    SendsSafely(s);
    SameUndone(s, t);
    SentGrows(s, t);
    if s.sh.enginePid > 0 {
      assert t.kills[|s.kills|].sig == Top(s).sig;
      assert WasSent(t, Top(s).sig);
    }
    assert HandlersOk(t);
    assert FramesOk(t);
  }

  lemma {:induction false} HandlerRestores(s: State)
    requires Inv(s) && Enabled(s, Handler) && Top(s).stage.Sent?
    ensures Inv(HandlerStep(s))
  {
    var t, sig := HandlerStep(s), Top(s).sig;
    SentGrows(s, t);
    assert t.frames[|s.frames| - 1].stage.Restored?;
    forall other ensures Undone(t, other) <==> Undone(s, other) || other == sig {
      if Undone(s, other) {
        var i :| 0 <= i < |s.frames| && s.frames[i].sig == other && s.frames[i].stage.Restored?;
        assert t.frames[i] == s.frames[i];
      }
    }
    assert HandlersOk(t);
    assert FramesOk(t);
  }

  lemma {:induction false} HandlerRaises(s: State)
    requires Inv(s) && Enabled(s, Handler) && Top(s).stage.Restored?
    ensures Inv(HandlerStep(s))
  {
    var t := HandlerStep(s);
    assert forall other :: WasSent(s, other) == WasSent(t, other) && Undone(s, other) == Undone(t, other);
  }

  lemma {:induction false} StepKeepsInv(s: State, step: Step)
    requires Inv(s) && Enabled(s, step)
    ensures Inv(Apply(s, step))
  {
    if IsMain(step) {
      MainKeepsHandlers(s, step);
      MainKeepsTable(s, step);
      MainKeepsKills(s, step);
    } else if IsEnvironment(step) {
      EnvironmentKeepsTable(s, step);
      EnvironmentKeepsKills(s, step);
      EnvironmentKeepsHandlers(s, step);
    } else if step.Deliver? {
      if step.sig in s.sh.handled { DeliverCaught(s, step.sig); } else { DeliverKills(s, step.sig); }
    } else if Top(s).stage.Entered? {
      HandlerLoads(s);
    } else if Top(s).stage.Loaded? {
      HandlerSends(s);
    } else if Top(s).stage.Sent? {
      HandlerRestores(s);
    } else {
      HandlerRaises(s);
    }
  }

  /** Every reachable state keeps the invariant, whatever the interleaving. */
  lemma {:induction false} RunsKeepInv(s: State, steps: seq<Step>)
    requires Inv(s) && Runs(s, steps)
    ensures Inv(After(s, steps))
    decreases |steps|
  {
    if steps != [] {
      StepKeepsInv(s, steps[0]);
      RunsKeepInv(Apply(s, steps[0]), steps[1..]);
    }
  }

  // ---------------------------------------------------------------------
  // What every run promises
  // ---------------------------------------------------------------------

  /** Only this run's PID is ever signalled, and never after the forget or before the store. Until
      the wait returns that PID is the engine; from then to the forget it is nobody or a stranger. */
  lemma {:induction false} ForwardsOnlyToThisRun(steps: seq<Step>, i: nat)
    requires Runs(START, steps) && i < |After(START, steps).kills|
    ensures var k := After(START, steps).kills[i];
            && k.engine.Some? && !k.at.Idle? && !k.at.Spawned?
            && (k.at.Reaped? ==> k.target.None? || k.target.value.id != k.engine.value)
            && (!k.at.Reaped? ==> k.target.Some? && k.target.value.id == k.engine.value)
  {
    RunsKeepInv(START, steps);
    assert KillOk(After(START, steps).kills[i]);
  }

  /** A front door that a signal ends while it waits has caught that signal and passed it to the
      engine first, and the engine had not exited then if it has not exited yet. */
  lemma {:induction false} WaitingDeathIsForwarded(steps: seq<Step>)
    requires Runs(START, steps)
    ensures var s := After(START, steps);
            s.pc.Waiting? && s.death.Some? ==>
              && s.death.value.handled
              && exists k :: 0 <= k < |s.kills| && s.kills[k].sig == s.death.value.sig &&
                             s.kills[k].engine == s.engine && s.kills[k].target.Some? &&
                             Some(s.kills[k].target.value.id) == s.engine &&
                             (s.kills[k].target.value.live || !EngineLives(s))
  {
    RunsKeepInv(START, steps);
    var s := After(START, steps);
    if s.pc.Waiting? && s.death.Some? {
      assert WasSent(s, s.death.value.sig);
      var k :| 0 <= k < |s.kills| && s.kills[k].sig == s.death.value.sig &&
               s.kills[k].pid == s.sh.enginePid && s.kills[k].at == s.pc && s.kills[k].engine == s.engine;
      assert KillOk(s.kills[k]);
      if EngineLives(s) {
        var p :| p in s.table && Some(s.table[p].id) == s.engine && s.table[p].live;
        assert s.kills[k].target.value.live;
      }
    }
  }

  ghost predicate EngineLives(s: State) {
    exists p :: p in s.table && Some(s.table[p].id) == s.engine && s.table[p].live
  }

  /** However many engines are watched, each of the three handlers is installed at most once. */
  lemma {:induction false} InstalledOnce(steps: seq<Step>)
    requires Runs(START, steps)
    ensures After(START, steps).sh.installs <= |SIGNALS|
    ensures After(START, steps).pc.Waiting? ==> After(START, steps).sh.installs == |SIGNALS|
  {
    RunsKeepInv(START, steps);
  }

  predicate IsUndisturbed(s: State) {
    s.frames == [] && s.death.None? && Owned(s.pc) && s.runPid in s.table && s.table[s.runPid].live
  }

  function StepsLeft(f: Frame): nat {
    match f.stage
    case Entered => 3
    case Loaded(_) => 2
    case Sent => 1
    case Restored => 0
  }

  /** The handler on top, run to its end with nothing in between. */
  function Finished(s: State): State
    requires s.frames != [] && s.death.None?
    decreases StepsLeft(Top(s))
  {
    if Top(s).stage.Restored? then HandlerStep(s) else Finished(HandlerStep(s))
  }

  /** A signal, answered with nothing in between. */
  function Answered(s: State, sig: Signal): State
    requires s.frames == [] && s.death.None?
  {
    var t := Apply(s, Deliver(sig));
    if t.death.Some? then t else Finished(t)
  }

  /** When this run's watch has got far enough for a signal to be passed on. */
  predicate Watched(s: State, sig: Signal) {
    || s.pc.Waiting?
    || (s.pc.Installing? && Place(sig) < s.pc.done)
    || (s.pc.Stored? && s.sh.installed)
  }

  lemma {:induction false} LoneHandler(s: State, f: Frame)
    requires s.frames == [f] && s.death.None?
    ensures HandlerStep(s) ==
            match f.stage
            case Entered => s.(frames := [Frame(f.sig, Loaded(s.sh.enginePid))])
            case Loaded(pid) => Told(s, f.sig, pid).(frames := [Frame(f.sig, Sent)])
            case Sent => s.(frames := [Frame(f.sig, Restored)], sh := s.sh.(handled := s.sh.handled - {f.sig}))
            case Restored => s.(death := Some(Death(f.sig, true)))
  {
    assert s.frames[..0] == [];
    assert forall g: Frame :: [] + [g] == [g];
  }

  function Told(s: State, sig: Signal, pid: int): State {
    if pid > 0 then s.(kills := s.kills + [Kill(sig, pid, Found(s, pid), s.pc, s.engine)]) else s
  }

  lemma {:induction false} FinishedFrom(s: State, next: State)
    requires s.frames != [] && s.death.None? && HandlerStep(s) == next
    ensures Top(s).stage.Restored? ==> Finished(s) == next
    ensures !Top(s).stage.Restored? ==> Finished(s) == Finished(next)
  {
  }

  lemma {:induction false} AnsweredCaught(s: State, sig: Signal)
    requires s.frames == [] && s.death.None? && sig in s.sh.handled
    ensures var t := Answered(s, sig);
            && t.death == Some(Death(sig, true)) && t.table == s.table
            && t.kills == Told(s, sig, s.sh.enginePid).kills
  {
    var told := Told(s, sig, s.sh.enginePid);
    var caught := s.(frames := [Frame(sig, Entered)]);
    var loaded := s.(frames := [Frame(sig, Loaded(s.sh.enginePid))]);
    var sent := told.(frames := [Frame(sig, Sent)]);
    var restored := told.(frames := [Frame(sig, Restored)], sh := s.sh.(handled := s.sh.handled - {sig}));
    assert s.frames + [Frame(sig, Entered)] == [Frame(sig, Entered)];
    LoneHandler(caught, Frame(sig, Entered));
    FinishedFrom(caught, loaded);
    LoneHandler(loaded, Frame(sig, Loaded(s.sh.enginePid)));
    FinishedFrom(loaded, sent);
    LoneHandler(sent, Frame(sig, Sent));
    FinishedFrom(sent, restored);
    LoneHandler(restored, Frame(sig, Restored));
    FinishedFrom(restored, restored.(death := Some(Death(sig, true))));
  }

  lemma {:induction false} HandledWhen(s: State, sig: Signal)
    requires HandlersOk(s) && s.frames == []
    ensures sig in s.sh.handled <==> Place(sig) < InstalledCount(s)
  {
    assert SIGNALS[Place(sig)] == sig && !Undone(s, sig);
  }

  lemma {:induction false} AnsweredUncaught(s: State, sig: Signal)
    requires s.frames == [] && s.death.None? && sig !in s.sh.handled
    ensures Answered(s, sig) == s.(death := Some(Death(sig, false)))
  {
  }

  lemma {:induction false} WatchedWhen(s: State, sig: Signal)
    requires Inv(s) && IsUndisturbed(s)
    ensures Watched(s, sig) <==> sig in s.sh.handled && s.sh.enginePid > 0
    ensures s.sh.enginePid > 0 ==> s.sh.enginePid == s.runPid
  {
    HandledWhen(s, sig);
  }

  /** From any reachable moment with a running engine and no handler running, a signal that is
      answered with nothing in between ends the front door, and reaches the engine exactly when the
      watch had stored the PID and that signal's handler was in place; otherwise the engine is left
      running and unsignalled. */
  lemma {:induction false} ForwardedExactly(steps: seq<Step>, sig: Signal)
    requires Runs(START, steps) && IsUndisturbed(After(START, steps))
    ensures var s := After(START, steps);
            var t := Answered(s, sig);
            && t.death.Some? && t.death.value.sig == sig && t.table == s.table
            && (Watched(s, sig) ==> t.kills == s.kills + [Kill(sig, s.runPid, Some(s.table[s.runPid]), s.pc, s.engine)])
            && (!Watched(s, sig) ==> t.kills == s.kills)
  {
    RunsKeepInv(START, steps);
    var s := After(START, steps);
    WatchedWhen(s, sig);
    if sig in s.sh.handled { AnsweredCaught(s, sig); } else { AnsweredUncaught(s, sig); }
  }

  /** From every reachable wait with the engine running and no handler, a run in which a signal is
      forwarded to a process that was never this front door's engine: the engine is reaped, its PID
      is reused, and the signal comes before the forget. */
  lemma {:induction false} StrangerCanBeSignalled(steps: seq<Step>, sig: Signal)
    requires Runs(START, steps) && IsUndisturbed(After(START, steps)) && After(START, steps).pc.Waiting?
    ensures exists more ::
              && Runs(START, steps + more)
              && IsStrangerHit(After(START, steps), After(START, steps + more), sig)
  {
    RunsKeepInv(START, steps);
    var s := After(START, steps);
    var more := StrangerIsHit(s, sig);
    Chain(START, steps, more);
    assert Runs(START, steps + more) && IsStrangerHit(s, After(START, steps + more), sig);
  }

  lemma {:induction false} StrangerIsHit(s: State, sig: Signal) returns (more: seq<Step>)
    requires Inv(s) && IsUndisturbed(s) && s.pc.Waiting?
    ensures Runs(s, more) && IsStrangerHit(s, After(s, more), sig)
  {
    HandledWhen(s, sig);
    var lost, hit := [Exit(s.runPid), Reap, Other(s.runPid)], [Deliver(sig), Handler, Handler];
    PidReused(s);
    SignalHitsPid(After(s, lost), sig);
    Chain(s, lost, hit);
    more := lost + hit;
  }

  predicate IsStrangerHit(before: State, after: State, sig: Signal) {
    && |after.kills| == |before.kills| + 1
    && var k := after.kills[|before.kills|];
       k.sig == sig && k.engine == before.engine && k.target.Some? && k.target.value.live &&
       Some(k.target.value.id) != before.engine
  }

  lemma {:induction false} PidReused(s: State)
    requires Inv(s) && IsUndisturbed(s) && s.pc.Waiting?
    ensures var lost := [Exit(s.runPid), Reap, Other(s.runPid)];
            && Runs(s, lost)
            && var t := After(s, lost);
               && t.frames == [] && t.death.None? && t.sh == s.sh && t.kills == s.kills && t.engine == s.engine
               && t.runPid == s.runPid && t.runPid in t.table && t.table[t.runPid] == Proc(s.nextId, true)
  {
    var a := Apply(s, Exit(s.runPid));
    assert a.table[s.runPid].live == false && a.runPid == s.runPid && a.pc.Waiting?;
    var b := Apply(a, Reap);
    assert s.runPid !in b.table;
    var c := Apply(b, Other(s.runPid));
    assert Runs(b, [Other(s.runPid)]) && After(b, [Other(s.runPid)]) == c;
    assert Runs(a, [Reap, Other(s.runPid)]) && After(a, [Reap, Other(s.runPid)]) == c;
  }

  lemma {:induction false} SignalHitsPid(s: State, sig: Signal)
    requires s.frames == [] && s.death.None? && sig in s.sh.handled
    requires s.sh.enginePid > 0 && s.sh.enginePid in s.table
    ensures var hit := [Deliver(sig), Handler, Handler];
            && Runs(s, hit)
            && After(s, hit).kills ==
               s.kills + [Kill(sig, s.sh.enginePid, Some(s.table[s.sh.enginePid]), s.pc, s.engine)]
  {
    var a := Apply(s, Deliver(sig));
    assert a.frames == [Frame(sig, Entered)];
    var b := Apply(a, Handler);
    assert b.frames == [Frame(sig, Loaded(s.sh.enginePid))] && b.kills == s.kills;
    var c := Apply(b, Handler);
    assert Runs(b, [Handler]) && After(b, [Handler]) == c;
    assert Runs(a, [Handler, Handler]) && After(a, [Handler, Handler]) == c;
  }

  lemma {:induction false} Chain(s: State, first: seq<Step>, rest: seq<Step>)
    requires Runs(s, first) && Runs(After(s, first), rest)
    ensures Runs(s, first + rest) && After(s, first + rest) == After(After(s, first), rest)
    decreases |first|
  {
    if first == [] {
      assert first + rest == rest;
    } else {
      assert (first + rest)[1..] == first[1..] + rest;
      Chain(Apply(s, first[0]), first[1..], rest);
    }
  }

  // ---------------------------------------------------------------------
  // The module's own functions, run with nothing in between
  // ---------------------------------------------------------------------

  const U32: int := 0x1_0000_0000

  /** `pid as i32`. */
  function AsI32(pid: nat): int
    requires pid < U32
  {
    if pid < U32 / 2 then pid else pid - U32
  }

  class FrontDoor {
    var enginePid: int
    var installed: bool
    var handled: set<Signal>
    var installs: nat

    function Statics(): Shared
      reads this
    {
      Shared(enginePid, installed, handled, installs)
    }

    constructor ()
      ensures Statics() == START.sh
    {
      enginePid, installed, handled, installs := 0, false, {}, 0;
    }

    method Install()
      modifies this
      ensures enginePid == old(enginePid) && installed
      ensures old(installed) ==> Statics() == old(Statics())
      ensures !old(installed) ==> handled == {Term, Int, Hup} + old(handled) && installs == old(installs) + |SIGNALS|
    {
      var was := installed;
      installed := true;
      if was { return; }
      var i := 0;
      while i < |SIGNALS|
        invariant 0 <= i <= |SIGNALS| && installed && enginePid == old(enginePid)
        invariant installs == old(installs) + i
        invariant forall sig :: sig in handled <==> sig in old(handled) || Place(sig) < i
      {
        handled := handled + {SIGNALS[i]};
        installs := installs + 1;
        i := i + 1;
      }
    }

    /** `watch_engine`: the steps of the machine from the store to the wait. */
    method WatchEngine(pid: nat, before: State) returns (after: State)
      requires pid < U32 / 2
      requires before.sh == Statics() && MainRuns(before) && before.pc.Spawned? && before.runPid == pid
      modifies this
      ensures enginePid == pid && installed
      ensures exists steps :: Runs(before, steps) && After(before, steps) == after
      ensures after == before.(pc := Waiting, sh := Statics())
    {
      enginePid := AsI32(pid);
      after := Apply(before, StorePid);
      ghost var stored := after;
      Install();
      after := before.(pc := Waiting, sh := Statics());
      QuietWatch(stored, after);
      assert Runs(before, [StorePid] + WatchSteps(stored)) &&
        After(before, [StorePid] + WatchSteps(stored)) == after by {
        assert ([StorePid] + WatchSteps(stored))[1..] == WatchSteps(stored);
      }
    }

    /** `forget_engine`. */
    method ForgetEngine(before: State) returns (after: State)
      requires before.sh == Statics() && MainRuns(before) && before.pc.Reaped?
      modifies this
      ensures enginePid == 0 && after == Apply(before, Forget) && after.sh == Statics()
    {
      enginePid := 0;
      after := Apply(before, Forget);
    }
  }

  ghost function WatchSteps(stored: State): seq<Step> {
    if stored.sh.installed then [Swap] else [Swap, Install, Install, Install]
  }

  lemma {:induction false} QuietWatch(stored: State, after: State)
    requires MainRuns(stored) && stored.pc.Stored?
    requires stored.sh.installed ==> after == stored.(pc := Waiting)
    requires !stored.sh.installed ==>
               after == stored.(pc := Waiting, sh := Shared(stored.sh.enginePid, true,
                                {Term, Int, Hup} + stored.sh.handled, stored.sh.installs + 3))
    ensures Runs(stored, WatchSteps(stored)) && After(stored, WatchSteps(stored)) == after
  {
    var a := Apply(stored, Swap);
    if !stored.sh.installed {
      var b := Apply(a, Install);
      var c := Apply(b, Install);
      var d := Apply(c, Install);
      assert d.sh.handled == after.sh.handled;
      assert Runs(c, [Install]) && After(c, [Install]) == after;
      assert Runs(b, [Install, Install]) && After(b, [Install, Install]) == after;
      assert Runs(a, [Install, Install, Install]) && After(a, [Install, Install, Install]) == after;
    } else {
      assert Runs(a, []) && After(a, []) == after;
    }
  }
}
