/** The protocol of `nixnas-switch` (switch.nix): wrappers that may die at any step, transient
    units owned by PID 1, a lock file with inodes, orphaned flock holders and a result file.
    One step of a run is one action of one party. */
module Switch {
  import opened Text

  datatype Mode = ForSwitch | ForBoot | ForTest

  const MODES: seq<Mode> := [ForSwitch, ForBoot, ForTest]

  // ---- PID 1, the kernel and the processes. ----

  /** How far a live switch-to-configuration got with the lock file. */
  datatype Phase = Fresh | Opened(ino: nat) | Locked(ino: nat)
  datatype Proc = Proc(unit: Option<nat>, at: Phase)

  /** systemd's SERVICE_RESULT and EXIT_STATUS of a finished unit. */
  datatype Outcome = Outcome(result: string, status: string)

  datatype Stage = Active | Stopping(outcome: Outcome) | Reported
  datatype Unit = Unit(mode: Mode, stage: Stage)

  /** `lock` is the inode at the lock path; `orphans` the inodes held by inherited fds;
      `results` the result files; `ended` what each unit's run came to, and whether its
      ExecStopPost hook could write that down. */
  datatype Sys = Sys(units: map<nat, Unit>, procs: map<nat, Proc>, orphans: set<nat>, lock: Option<nat>,
                     results: map<Mode, Outcome>, ended: map<nat, (Outcome, bool)>,
                     nextIno: nat, nextPid: nat, nextUnit: nat)

  predicate Loaded(y: Sys, m: Mode) { exists u <- y.units :: y.units[u].mode == m }

  /** Some open file description holds the flock of the inode. */
  predicate Held(y: Sys, i: nat) { i in y.orphans || exists p <- y.procs :: y.procs[p].at == Locked(i) }

  datatype SysStep =
    | External                                        // a switch started by other means
    | Open(pid: nat) | TryLock(pid: nat)
    | Finish(pid: nat, outcome: Outcome, orphan: bool) // ends or is killed, maybe leaving its fd behind
    | Capture(unit: nat, written: bool) | Collect(unit: nat)
    | OrphanExit(ino: nat)

  /** A process is gone: its unit, if any, runs its ExecStopPost next. */
  function Gone(y: Sys, pid: nat, outcome: Outcome): Sys
    requires pid in y.procs
  {
    var u := y.procs[pid].unit;
    var z := y.(procs := y.procs - {pid});
    if u.Some? && u.value in y.units then z.(units := y.units[u.value := y.units[u.value].(stage := Stopping(outcome))]) else z
  }

  function StartProc(y: Sys, unit: Option<nat>): Sys {
    y.(procs := y.procs[y.nextPid := Proc(unit, Fresh)], nextPid := y.nextPid + 1)
  }

  function SysNext(y: Sys, step: SysStep): Option<Sys> {
    match step
    case External => Some(StartProc(y, None))
    case Open(p) =>
      if p !in y.procs || y.procs[p].at != Fresh then None
      else if y.lock.Some? then Some(y.(procs := y.procs[p := y.procs[p].(at := Opened(y.lock.value))]))
      else Some(y.(procs := y.procs[p := y.procs[p].(at := Opened(y.nextIno))], lock := Some(y.nextIno), nextIno := y.nextIno + 1))
    case TryLock(p) =>
      if p !in y.procs || !y.procs[p].at.Opened? then None
      else if Held(y, y.procs[p].at.ino) then Some(Gone(y, p, Outcome("exit-code", "11")))
      else Some(y.(procs := y.procs[p := y.procs[p].(at := Locked(y.procs[p].at.ino))]))
    case Finish(p, outcome, orphan) =>
      if p !in y.procs then None
      else
        var z := Gone(y, p, outcome);
        Some(if orphan && y.procs[p].at.Locked? then z.(orphans := y.orphans + {y.procs[p].at.ino}) else z)
    case Capture(u, written) =>
      if u !in y.units || !y.units[u].stage.Stopping? then None
      else
        var o := y.units[u].stage.outcome;
        Some(y.(units := y.units[u := y.units[u].(stage := Reported)], ended := y.ended[u := (o, written)],
                results := if written then y.results[y.units[u].mode := o] else y.results))
    case Collect(u) =>
      if u !in y.units || y.units[u].stage != Reported then None else Some(y.(units := y.units - {u}))
    case OrphanExit(i) =>
      if i !in y.orphans then None else Some(y.(orphans := y.orphans - {i}))
  }

  // ---- The wrappers. ----

  /** The script's program counter, in script order. */
  datatype Pc = Check(k: nat) | Probe | Pgrep | Rm | Clear | Start
              | Wait | Poll | Recheck | Report | Exited(code: nat) | Dead

  datatype Wrapper = Wrapper(mode: Mode, pc: Pc, unit: Option<nat>)

  datatype State = State(sys: Sys, wrappers: map<nat, Wrapper>)

  /** The largest number `exit` accepts; for more it complains and the shell exits 2. */
  const SHELL_MAX: nat := 0x7FFF_FFFF_FFFF_FFFF

  /** The exit status the script derives from the result file. */
  function ExitCode(o: Outcome): nat {
    if o.result == "success" then 0
    else if o.status == "" || !(forall c <- o.status :: IsDigit(c)) || o.status == "0" then 1
    else if Val(o.status) > SHELL_MAX then 2
    else Val(o.status) % 256
  }

  /** One action of a wrapper. With `atomic`, the probe of the lock, the pgrep and the rm of
      the stale file are one action; without it they are three. */
  function WrapperNext(y: Sys, w: Wrapper, atomic: bool): Option<(Sys, Wrapper)> {
    match w.pc
    case Check(k) =>
      if k >= 3 then Some((y, w.(pc := Probe)))
      else Some((y, w.(pc := if Loaded(y, MODES[k]) then Exited(1) else Check(k + 1))))
    case Probe =>
      if y.lock.None? || !Held(y, y.lock.value) then Some((y, w.(pc := Clear)))
      else if !atomic then Some((y, w.(pc := Pgrep)))
      else if y.procs != map[] then Some((y, w.(pc := Exited(1))))
      else Some((y.(lock := None), w.(pc := Clear)))
    case Pgrep => Some((y, w.(pc := if y.procs != map[] then Exited(1) else Rm)))
    case Rm => Some((y.(lock := None), w.(pc := Clear)))
    case Clear => Some((y.(results := y.results - {w.mode}), w.(pc := Start)))
    case Start =>
      // systemd-run refuses a unit name that is already loaded.
      if Loaded(y, w.mode) then Some((y, w.(pc := Exited(1))))
      else
        var u := y.nextUnit;
        var z := StartProc(y, Some(u));
        Some((z.(units := y.units[u := Unit(w.mode, Active)], nextUnit := u + 1), w.(pc := Wait, unit := Some(u))))
    case Wait => Some((y, w.(pc := if w.mode in y.results then Report else Poll)))
    case Poll => Some((y, w.(pc := if Loaded(y, w.mode) then Wait else Recheck)))
    case Recheck => Some((y, w.(pc := if w.mode in y.results then Wait else Exited(1))))
    case Report => Some((y, w.(pc := Exited(if w.mode in y.results then ExitCode(y.results[w.mode]) else 1))))
    case Exited(_) => None
    case Dead => None
  }

  // ---- Runs. ----

  datatype Step =
    | Spawn(w: nat, mode: Mode)   // somebody runs nixnas-switch
    | Advance(w: nat)             // a wrapper's next action
    | StartFails(w: nat)          // systemd-run fails for another reason
    | Kill(w: nat)                // the session dies, at any point
    | ByOthers(step: SysStep)

  function Next(s: State, step: Step, atomic: bool): Option<State> {
    match step
    case Spawn(w, mode) =>
      if w in s.wrappers then None else Some(s.(wrappers := s.wrappers[w := Wrapper(mode, Check(0), None)]))
    case Advance(w) =>
      if w !in s.wrappers then None
      else (match WrapperNext(s.sys, s.wrappers[w], atomic)
            case None => None
            case Some((y, v)) => Some(State(y, s.wrappers[w := v])))
    case StartFails(w) =>
      if w !in s.wrappers || s.wrappers[w].pc != Start then None
      else Some(s.(wrappers := s.wrappers[w := s.wrappers[w].(pc := Exited(1))]))
    case Kill(w) =>
      if w !in s.wrappers || s.wrappers[w].pc.Exited? then None
      else Some(s.(wrappers := s.wrappers[w := s.wrappers[w].(pc := Dead)]))
    case ByOthers(step) =>
      match SysNext(s.sys, step) case None => None case Some(y) => Some(s.(sys := y))
  }

  /** The state a run of steps leads to; None if some step was not possible. */
  function Exec(s: State, steps: seq<Step>, atomic: bool): Option<State>
    decreases |steps|
  {
    if steps == [] then Some(s)
    else
      var n := |steps| - 1;
      match Exec(s, steps[..n], atomic) case None => None case Some(t) => Next(t, steps[n], atomic)
  }

  /** A quiet machine: nothing loaded, nobody waiting; orphans of killed switches may still
      hold the lock file or inodes long unlinked. */
  ghost predicate Init(s: State) {
    && s.wrappers == map[] && s.sys.units == map[] && s.sys.procs == map[] && s.sys.ended == map[]
    && (s.sys.lock.Some? ==> s.sys.lock.value < s.sys.nextIno)
  }

  // ---- One unit per mode. ----

  ghost predicate OneUnitPerMode(y: Sys) {
    && (forall u, v :: u in y.units && v in y.units && u != v ==> y.units[u].mode != y.units[v].mode)
    && (forall u <- y.units :: u < y.nextUnit)
  }

  /** All a wrapper's action can do to the rest of the machine. */
  lemma WrapperEffect(y: Sys, w: Wrapper, atomic: bool)
    requires WrapperNext(y, w, atomic).Some?
    ensures var z := WrapperNext(y, w, atomic).value.0;
            || z == y
            || (w.pc == Clear && z == y.(results := y.results - {w.mode}))
            || ((w.pc == Rm || y.procs == map[]) && z == y.(lock := None))
            || (w.pc == Start && !Loaded(y, w.mode) && z == StartUnit(y, w.mode))
    ensures w.pc == Rm ==> WrapperNext(y, w, atomic).value.0 == y.(lock := None)
  {}

  function StartUnit(y: Sys, mode: Mode): Sys {
    StartProc(y, Some(y.nextUnit)).(units := y.units[y.nextUnit := Unit(mode, Active)], nextUnit := y.nextUnit + 1)
  }

  /** A system step starts no unit: the units left keep their modes. */
  lemma UnitsOnlyGo(y: Sys, step: SysStep)
    requires SysNext(y, step).Some?
    ensures var z := SysNext(y, step).value;
            z.nextUnit == y.nextUnit && z.units.Keys <= y.units.Keys
            && forall u <- z.units :: z.units[u].mode == y.units[u].mode
  {}

  lemma UnitsStep(s: State, step: Step, atomic: bool)
    requires OneUnitPerMode(s.sys) && Next(s, step, atomic).Some?
    ensures OneUnitPerMode(Next(s, step, atomic).value.sys)
  {
    match step
    case Spawn(w, mode) =>
    case StartFails(w) =>
    case Kill(w) =>
    case Advance(w) => WrapperEffect(s.sys, s.wrappers[w], atomic);
    case ByOthers(other) => UnitsOnlyGo(s.sys, other);
  }

  /** No run, of either system, ever has two loaded units of one mode. */
  lemma {:induction false} UnitsNeverDouble(s: State, steps: seq<Step>, atomic: bool)
    requires OneUnitPerMode(s.sys) && Exec(s, steps, atomic).Some?
    ensures OneUnitPerMode(Exec(s, steps, atomic).value.sys)
    decreases |steps|
  {
    if steps != [] {
      var n := |steps| - 1;
      UnitsNeverDouble(s, steps[..n], atomic);
      UnitsStep(Exec(s, steps[..n], atomic).value, steps[n], atomic);
    }
  }

  // ---- Exclusion through the lock. ----

  /** The inode a process has opened or locked. */
  function Ino(p: Proc): Option<nat> {
    match p.at case Fresh => None case Opened(i) => Some(i) case Locked(i) => Some(i)
  }

  /** Every live switch that has opened the lock file has the inode now at the lock path. */
  ghost predicate AtPath(y: Sys) {
    forall p <- y.procs :: Ino(y.procs[p]).Some? ==> y.lock == Ino(y.procs[p])
  }

  /** No flock is held by two live switches. */
  ghost predicate FlockExclusive(y: Sys) {
    && (forall p, q :: p in y.procs && q in y.procs && p != q && y.procs[p].at.Locked? ==> y.procs[q].at != y.procs[p].at)
    && (forall p <- y.procs :: p < y.nextPid)
  }

  ghost predicate LockInv(y: Sys) { AtPath(y) && FlockExclusive(y) }

  /** Two activations overlap: two live switches are past the lock. */
  ghost predicate Overlap(y: Sys) {
    exists p, q :: p in y.procs && q in y.procs && p != q && y.procs[p].at.Locked? && y.procs[q].at.Locked?
  }

  lemma InvExcludes(y: Sys)
    requires LockInv(y)
    ensures !Overlap(y)
  {
    forall p, q | p in y.procs && q in y.procs && p != q
      ensures !(y.procs[p].at.Locked? && y.procs[q].at.Locked?)
    {
      var i, j := Ino(y.procs[p]), Ino(y.procs[q]);
    }
  }

  /** The step removes the lock file under a live switch that has it open. */
  ghost predicate RemovesInUse(s: State, step: Step) {
    step.Advance? && step.w in s.wrappers && s.wrappers[step.w].pc == Rm &&
    exists p <- s.sys.procs :: Ino(s.sys.procs[p]).Some?
  }

  /** What a system step can do to the processes and the lock path: nothing, a new process,
      one process gone, or one process a step further with the lock file. */
  ghost predicate ProcsMove(y: Sys, z: Sys) {
    || (z.procs == y.procs && z.lock == y.lock && z.nextPid == y.nextPid)
    || (z.procs == y.procs[y.nextPid := Proc(None, Fresh)] && z.lock == y.lock && z.nextPid == y.nextPid + 1)
    || (exists p <- y.procs :: z.procs == y.procs - {p} && z.lock == y.lock && z.nextPid == y.nextPid)
    || (exists p <- y.procs :: z.nextPid == y.nextPid && Moves(y, z, p))
  }

  lemma ProcEffect(y: Sys, step: SysStep)
    requires SysNext(y, step).Some?
    ensures ProcsMove(y, SysNext(y, step).value)
  {
    match step
    case Open(p) => OpenMoves(y, p);
    case TryLock(p) =>
      if Held(y, y.procs[p].at.ino) { GoneMoves(y, p, Outcome("exit-code", "11")); } else { LockMoves(y, p); }
    case Finish(p, outcome, orphan) => GoneMoves(y, p, outcome);
    case _ =>
  }

  lemma GoneMoves(y: Sys, p: nat, outcome: Outcome)
    requires p in y.procs
    ensures var z := Gone(y, p, outcome); z.procs == y.procs - {p} && z.lock == y.lock && z.nextPid == y.nextPid
  {}

  lemma OpenMoves(y: Sys, p: nat)
    requires SysNext(y, Open(p)).Some?
    ensures var z := SysNext(y, Open(p)).value; p in y.procs && z.nextPid == y.nextPid && Moves(y, z, p)
  {}

  lemma LockMoves(y: Sys, p: nat)
    requires SysNext(y, TryLock(p)).Some? && !Held(y, y.procs[p].at.ino)
    ensures var z := SysNext(y, TryLock(p)).value; p in y.procs && z.nextPid == y.nextPid && Moves(y, z, p)
  {}

  /** Process `p` opens the lock file, or takes the flock of the inode it has open. */
  ghost predicate Moves(y: Sys, z: Sys, p: nat)
    requires p in y.procs
  {
    var was := y.procs[p];
    if was.at == Fresh then
      z.lock.Some? && (y.lock.Some? ==> z.lock == y.lock) && (y.lock.None? ==> z.lock.value == y.nextIno)
      && z.procs == y.procs[p := was.(at := Opened(z.lock.value))]
    else
      was.at.Opened? && !Held(y, was.at.ino) && z.lock == y.lock && z.procs == y.procs[p := was.(at := Locked(was.at.ino))]
  }

  lemma FlockMoves(y: Sys, z: Sys, p: nat)
    requires FlockExclusive(y) && p in y.procs && z.nextPid == y.nextPid && Moves(y, z, p)
    ensures FlockExclusive(z)
  {
    if y.procs[p].at.Opened? { NotHeld(y, y.procs[p].at.ino); }
  }

  lemma NotHeld(y: Sys, i: nat)
    requires !Held(y, i)
    ensures forall q <- y.procs :: y.procs[q].at != Locked(i)
  {}

  /** flock exclusion is the kernel's: every step keeps it. */
  lemma FlockStep(s: State, step: Step, atomic: bool)
    requires FlockExclusive(s.sys) && Next(s, step, atomic).Some?
    ensures FlockExclusive(Next(s, step, atomic).value.sys)
  {
    match step
    case Spawn(w, mode) =>
    case StartFails(w) =>
    case Kill(w) =>
    case Advance(w) => WrapperEffect(s.sys, s.wrappers[w], atomic);
    case ByOthers(other) =>
      FlockSys(s.sys, other);
  }

  lemma FlockSys(y: Sys, step: SysStep)
    requires FlockExclusive(y) && SysNext(y, step).Some?
    ensures FlockExclusive(SysNext(y, step).value)
  {
    ProcEffect(y, step);
    var z := SysNext(y, step).value;
    if p :| p in y.procs && z.nextPid == y.nextPid && Moves(y, z, p) { FlockMoves(y, z, p); }
  }

  lemma PathSys(y: Sys, step: SysStep)
    requires AtPath(y) && SysNext(y, step).Some?
    ensures AtPath(SysNext(y, step).value)
  {
    ProcEffect(y, step);
    var z := SysNext(y, step).value;
    if p :| p in y.procs && z.nextPid == y.nextPid && Moves(y, z, p) {
      assert forall q <- y.procs :: Ino(y.procs[q]).Some? ==> z.lock == y.lock;
    }
  }

  /** A step keeps every live switch on the inode at the path exactly when it does not
      remove the file in use. */
  lemma PathStep(s: State, step: Step, atomic: bool)
    requires AtPath(s.sys) && Next(s, step, atomic).Some?
    ensures AtPath(Next(s, step, atomic).value.sys) <==> !RemovesInUse(s, step)
  {
    match step
    case Spawn(w, mode) =>
    case StartFails(w) =>
    case Kill(w) =>
    case Advance(w) => WrapperEffect(s.sys, s.wrappers[w], atomic);
    case ByOthers(other) => PathSys(s.sys, other);
  }

  /** In the run so far no step removed the lock file in use. */
  ghost predicate CleanRun(s: State, steps: seq<Step>, atomic: bool)
    decreases |steps|
  {
    steps == [] ||
    var n := |steps| - 1;
    CleanRun(s, steps[..n], atomic) &&
    (Exec(s, steps[..n], atomic).Some? ==> !RemovesInUse(Exec(s, steps[..n], atomic).value, steps[n]))
  }

  /** Every state of the run keeps the live switches on the inode at the path. */
  ghost predicate AlwaysAtPath(s: State, steps: seq<Step>, atomic: bool)
    decreases |steps|
  {
    (Exec(s, steps, atomic).Some? ==> AtPath(Exec(s, steps, atomic).value.sys)) &&
    (steps != [] ==> AlwaysAtPath(s, steps[..|steps| - 1], atomic))
  }

  /** The lock invariant holds throughout a run exactly when the run removes no lock file
      in use: the gap between pgrep and rm is the protocol's only weak point. */
  lemma {:induction false} PathIff(s: State, steps: seq<Step>, atomic: bool)
    requires AtPath(s.sys) && Exec(s, steps, atomic).Some?
    ensures AlwaysAtPath(s, steps, atomic) <==> CleanRun(s, steps, atomic)
    decreases |steps|
  {
    if steps != [] {
      var n := |steps| - 1;
      PathIff(s, steps[..n], atomic);
      var t := Exec(s, steps[..n], atomic).value;
      if AlwaysAtPath(s, steps[..n], atomic) {
        AtEnd(s, steps[..n], atomic);
        PathStep(t, steps[n], atomic);
      }
    }
  }

  lemma AtEnd(s: State, steps: seq<Step>, atomic: bool)
    requires AlwaysAtPath(s, steps, atomic) && Exec(s, steps, atomic).Some?
    ensures AtPath(Exec(s, steps, atomic).value.sys)
  {}

  lemma {:induction false} FlockAlways(s: State, steps: seq<Step>, atomic: bool)
    requires FlockExclusive(s.sys) && Exec(s, steps, atomic).Some?
    ensures FlockExclusive(Exec(s, steps, atomic).value.sys)
    decreases |steps|
  {
    if steps != [] {
      var n := |steps| - 1;
      FlockAlways(s, steps[..n], atomic);
      FlockStep(Exec(s, steps[..n], atomic).value, steps[n], atomic);
    }
  }

  /** With the three actions taken as one, no wrapper is ever between pgrep and rm. */
  ghost predicate NoneAtRm(s: State) { forall w <- s.wrappers :: s.wrappers[w].pc != Pgrep && s.wrappers[w].pc != Rm }

  lemma AtomicStep(s: State, step: Step)
    requires NoneAtRm(s) && Next(s, step, true).Some?
    ensures NoneAtRm(Next(s, step, true).value) && !RemovesInUse(s, step)
  {
    if step.Advance? {
      var w := s.wrappers[step.w];
      assert WrapperNext(s.sys, w, true).value.1.pc !in {Pgrep, Rm};
    }
  }

  lemma {:induction false} AtomicIsClean(s: State, steps: seq<Step>)
    requires NoneAtRm(s) && Exec(s, steps, true).Some?
    ensures CleanRun(s, steps, true) && NoneAtRm(Exec(s, steps, true).value)
    decreases |steps|
  {
    if steps != [] {
      var n := |steps| - 1;
      AtomicIsClean(s, steps[..n]);
      AtomicStep(Exec(s, steps[..n], true).value, steps[n]);
    }
  }

  /** As one action or as three: activations overlap in no state that a run reaches without
      removing the lock file in use. */
  lemma CleanExcludes(s: State, steps: seq<Step>, atomic: bool)
    requires Init(s) && Exec(s, steps, atomic).Some? && CleanRun(s, steps, atomic)
    ensures var y := Exec(s, steps, atomic).value.sys; LockInv(y) && !Overlap(y)
  {
    PathIff(s, steps, atomic);
    AtEnd(s, steps, atomic);
    FlockAlways(s, steps, atomic);
    InvExcludes(Exec(s, steps, atomic).value.sys);
  }

  /** With the probe, the pgrep and the rm as one action: whatever wrappers are killed and
      whatever orphans remain, in every reachable state each live switch past the lock holds
      the inode at the lock path, and no two activations overlap. */
  lemma AtomicExclusion(s: State, steps: seq<Step>)
    requires Init(s) && Exec(s, steps, true).Some?
    ensures var y := Exec(s, steps, true).value.sys; LockInv(y) && !Overlap(y)
  {
    AtomicIsClean(s, steps);
    CleanExcludes(s, steps, true);
  }
}
