/** Whether activations exclude each other: once a live switch has lost the inode at the lock
    path two activations can come to overlap, and from every quiet machine the script's three
    separate actions can bring that about. */
module SwitchLost {
  import opened Text
  import opened Switch
  import SwitchRace

  /** Inodes in use by live switches and at the path were allocated. */
  ghost predicate InoInv(y: Sys) {
    && (y.lock.Some? ==> y.lock.value < y.nextIno)
    && (forall p <- y.procs :: Ino(y.procs[p]).Some? ==> Ino(y.procs[p]).value < y.nextIno)
  }

  lemma InoSys(y: Sys, step: SysStep)
    requires InoInv(y) && SysNext(y, step).Some?
    ensures InoInv(SysNext(y, step).value)
  {
    ProcEffect(y, step);
    var z := SysNext(y, step).value;
    FreshInodes(y, step);
    hide SysNext, Held;
    if p :| p in y.procs && z.nextPid == y.nextPid && Moves(y, z, p) {
      assert forall q <- z.procs :: q != p ==> z.procs[q] == y.procs[q];
    }
  }

  lemma FreshInodes(y: Sys, step: SysStep)
    requires SysNext(y, step).Some?
    ensures var z := SysNext(y, step).value;
            z.nextIno >= y.nextIno && (z.lock == y.lock || (z.lock.Some? && z.lock.value < z.nextIno))
  {}

  lemma InoStep(s: State, step: Step, atomic: bool)
    requires InoInv(s.sys) && Next(s, step, atomic).Some?
    ensures InoInv(Next(s, step, atomic).value.sys)
  {
    match step
    case Spawn(w, mode) =>
    case StartFails(w) =>
    case Kill(w) =>
    case Advance(w) => WrapperEffect(s.sys, s.wrappers[w], atomic);
    case ByOthers(other) => InoSys(s.sys, other);
  }

  lemma {:induction false} Always(s: State, steps: seq<Step>, atomic: bool)
    requires Init(s) && Exec(s, steps, atomic).Some?
    ensures InoInv(Exec(s, steps, atomic).value.sys) && FlockExclusive(Exec(s, steps, atomic).value.sys)
    decreases |steps|
  {
    FlockAlways(s, steps, atomic);
    if steps != [] {
      var n := |steps| - 1;
      Always(s, steps[..n], atomic);
      InoStep(Exec(s, steps[..n], atomic).value, steps[n], atomic);
    }
  }

  // ---- From a lost path to an overlap. ----

  /** One more step by others. */
  lemma Extend(s: State, steps: seq<Step>, step: SysStep, atomic: bool) returns (more: seq<Step>)
    requires Init(s) && Exec(s, steps, atomic).Some? && SysNext(Exec(s, steps, atomic).value.sys, step).Some?
    ensures steps <= more && Exec(s, more, atomic).Some? && Exec(s, more, atomic).value.wrappers == Exec(s, steps, atomic).value.wrappers
    ensures var y := Exec(s, more, atomic).value.sys;
            y == SysNext(Exec(s, steps, atomic).value.sys, step).value && InoInv(y) && FlockExclusive(y)
  {
    more := steps + [ByOthers(step)];
    assert more[..|more| - 1] == steps;
    Always(s, more, atomic);
  }

  /** An orphan of the inode, if there is one, exits. */
  lemma DropOrphan(s: State, steps: seq<Step>, i: nat, atomic: bool) returns (more: seq<Step>)
    requires Init(s) && Exec(s, steps, atomic).Some?
    ensures steps <= more && Exec(s, more, atomic).Some? && Exec(s, more, atomic).value.wrappers == Exec(s, steps, atomic).value.wrappers
    ensures var y, z := Exec(s, steps, atomic).value.sys, Exec(s, more, atomic).value.sys;
            z == y.(orphans := y.orphans - {i}) && InoInv(z) && FlockExclusive(z)
  {
    var y := Exec(s, steps, atomic).value.sys;
    if i in y.orphans {
      more := Extend(s, steps, OrphanExit(i), atomic);
    } else {
      more := steps;
      Always(s, steps, atomic);
      assert y.orphans - {i} == y.orphans;
    }
  }

  /** Some live switch holds an inode that is not the one at the path. */
  ghost predicate Astray(y: Sys, r: nat) { r in y.procs && y.procs[r].at.Locked? && y.lock != Some(y.procs[r].at.ino) }

  /** A switch that lost the path takes, or another one already has, the lost inode's flock. */
  lemma LockLost(s: State, steps: seq<Step>, atomic: bool) returns (more: seq<Step>, r: nat)
    requires Init(s) && Exec(s, steps, atomic).Some? && !AtPath(Exec(s, steps, atomic).value.sys)
    ensures steps <= more && Exec(s, more, atomic).Some? && Astray(Exec(s, more, atomic).value.sys, r)
  {
    var y := Exec(s, steps, atomic).value.sys;
    var p :| p in y.procs && Ino(y.procs[p]).Some? && y.lock != Ino(y.procs[p]);
    var i := Ino(y.procs[p]).value;
    more, r := steps, p;
    if y.procs[p].at.Opened? {
      if q :| q in y.procs && y.procs[q].at == Locked(i) {
        r := q;
      } else {
        more := DropOrphan(s, steps, i, atomic);
        assert !Held(y.(orphans := y.orphans - {i}), i);
        more := Extend(s, more, TryLock(p), atomic);
      }
    }
  }

  /** A switch started by other means takes the flock of the inode at the path. */
  lemma LockPath(s: State, steps: seq<Step>, r: nat, atomic: bool) returns (more: seq<Step>)
    requires Init(s) && Exec(s, steps, atomic).Some? && Astray(Exec(s, steps, atomic).value.sys, r)
    ensures steps <= more && Exec(s, more, atomic).Some? && Overlap(Exec(s, more, atomic).value.sys)
  {
    Always(s, steps, atomic);
    var y := Exec(s, steps, atomic).value.sys;
    var j := if y.lock.Some? then y.lock.value else y.nextIno;
    assert y.procs[r].at.ino != j;
    if q :| q in y.procs && y.procs[q].at == Locked(j) {
      more := steps;
    } else {
      var n := y.nextPid;
      more := DropOrphan(s, steps, j, atomic);
      NewHolder(y.(orphans := y.orphans - {j}), j);
      more := Extend(s, more, External, atomic);
      more := Extend(s, more, Open(n), atomic);
      more := Extend(s, more, TryLock(n), atomic);
      var end := Exec(s, more, atomic).value.sys;
      assert end.procs[n].at.Locked? && end.procs[r].at.Locked? && n != r;
    }
  }

  /** A new process opens and locks an inode at the path that nobody holds. */
  lemma NewHolder(y: Sys, j: nat)
    requires j == (if y.lock.Some? then y.lock.value else y.nextIno) && !Held(y, j) && y.nextPid !in y.procs
    ensures var n, a := y.nextPid, SysNext(y, External);
            var b := if a.Some? then SysNext(a.value, Open(n)) else None;
            var c := if b.Some? then SysNext(b.value, TryLock(n)) else None;
            c.Some? && c.value.procs == y.procs[n := Proc(None, Locked(j))] && c.value.units == y.units && c.value.lock == Some(j)
  {
    var n := y.nextPid;
    var b := SysNext(SysNext(y, External).value, Open(n)).value;
    assert b.procs == y.procs[n := Proc(None, Opened(j))] && b.orphans == y.orphans;
    assert !Held(b, j);
  }

  /** From every reachable state in which a live switch lost the path, an overlap is reachable. */
  lemma LostOverlaps(s: State, steps: seq<Step>, atomic: bool) returns (more: seq<Step>)
    requires Init(s) && Exec(s, steps, atomic).Some? && !AtPath(Exec(s, steps, atomic).value.sys)
    ensures steps <= more && Exec(s, more, atomic).Some? && Overlap(Exec(s, more, atomic).value.sys)
  {
    var lost, r := LockLost(s, steps, atomic);
    more := LockPath(s, lost, r, atomic);
  }

  // ---- The three separate actions, from any quiet machine. ----

  /** A switch ran, was killed, and left an orphan that holds the lock. */
  ghost predicate Stale(t: State) {
    && t.wrappers == map[] && t.sys.units == map[] && t.sys.procs == map[]
    && t.sys.lock.Some? && t.sys.lock.value in t.sys.orphans
  }

  lemma LeaveStale(s: State) returns (steps: seq<Step>)
    requires Init(s)
    ensures Exec(s, steps, false).Some? && Stale(Exec(s, steps, false).value)
  {
    var y := s.sys;
    var j := if y.lock.Some? then y.lock.value else y.nextIno;
    var n := y.nextPid;
    steps := DropOrphan(s, [], j, false);
    NewHolder(y.(orphans := y.orphans - {j}), j);
    steps := Extend(s, steps, External, false);
    steps := Extend(s, steps, Open(n), false);
    steps := Extend(s, steps, TryLock(n), false);
    LastHolder(Exec(s, steps, false).value.sys, n, j);
    steps := Extend(s, steps, Finish(n, Outcome("signal", "KILL"), true), false);
  }

  /** The one live switch dies and leaves its descriptor behind. */
  lemma LastHolder(y: Sys, n: nat, j: nat)
    requires y.procs == map[n := Proc(None, Locked(j))]
    ensures var z := SysNext(y, Finish(n, Outcome("signal", "KILL"), true));
            z.Some? && z.value == y.(procs := map[], orphans := y.orphans + {j})
  {}

  /** A wrapper finds the stale lock and no live process, and is about to remove the file. */
  lemma ReachRm(s: State, steps: seq<Step>) returns (more: seq<Step>)
    requires Init(s) && Exec(s, steps, false).Some? && Stale(Exec(s, steps, false).value)
    ensures Exec(s, more, false) ==
            Some(Exec(s, steps, false).value.(wrappers := map[0 := Wrapper(ForSwitch, Rm, None)]))
  {
    hide Exec, Next;
    var t := Exec(s, steps, false).value;
    assert Held(t.sys, t.sys.lock.value);
    more, t := SwitchRace.PassCheck(s, steps, t, 0, ForSwitch);
    SwitchRace.AdvanceNext(t, 0);
    more, t := SwitchRace.Extend(s, more, t, Advance(0));
    assert t.wrappers[0] == Wrapper(ForSwitch, Pgrep, None);
    SwitchRace.AdvanceNext(t, 0);
    more, t := SwitchRace.Extend(s, more, t, Advance(0));
    assert t.wrappers == map[0 := Wrapper(ForSwitch, Rm, None)];
  }

  /** A switch started by other means opens the file just before the wrapper removes it. */
  lemma RemoveInUse(s: State, steps: seq<Step>) returns (more: seq<Step>)
    requires Init(s) && Exec(s, steps, false).Some?
    requires var t := Exec(s, steps, false).value;
             t.wrappers == map[0 := Wrapper(ForSwitch, Rm, None)] && t.sys.lock.Some? && t.sys.procs == map[]
    ensures Exec(s, more, false).Some? && !AtPath(Exec(s, more, false).value.sys)
  {
    hide Exec, Next;
    var n := Exec(s, steps, false).value.sys.nextPid;
    more := Extend(s, steps, External, false);
    more := Extend(s, more, Open(n), false);
    var t := Exec(s, more, false).value;
    assert t.sys.procs[n].at.Opened?;
    SwitchRace.AdvanceNext(t, 0);
    more, t := SwitchRace.Extend(s, more, t, Advance(0));
    assert t.sys.lock == None && Ino(t.sys.procs[n]).Some?;
  }

  /** Some run from here leads to overlapping activations. */
  ghost predicate CanOverlap(s: State, atomic: bool) {
    exists run :: Exec(s, run, atomic).Some? && Overlap(Exec(s, run, atomic).value.sys)
  }

  /** From every quiet machine, whatever orphans and lock file it has: the script's three
      actions can lead to overlapping activations, and only their not being one can. */
  lemma OverlapIff(s: State, atomic: bool)
    requires Init(s)
    ensures CanOverlap(s, atomic) <==> !atomic
  {
    hide Exec, Overlap;
    if atomic {
      forall run | Exec(s, run, true).Some? ensures !Overlap(Exec(s, run, true).value.sys) { AtomicExclusion(s, run); }
    } else {
      var steps := LeaveStale(s);
      steps := ReachRm(s, steps);
      steps := RemoveInUse(s, steps);
      steps := LostOverlaps(s, steps, false);
    }
  }
}
