/** Why the atomicity assumption of the lock hygiene is needed: a run of the three separate
    actions in which two activations of different modes overlap. */
module SwitchRace {
  import opened Text
  import opened Switch

  /** One more step of a run. */
  lemma Extend(s: State, steps: seq<Step>, t: State, step: Step) returns (more: seq<Step>, u: State)
    requires Exec(s, steps, false) == Some(t) && Next(t, step, false).Some?
    ensures more == steps + [step] && u == Next(t, step, false).value && Exec(s, more, false) == Some(u)
  {
    more, u := steps + [step], Next(t, step, false).value;
    assert more[..|more| - 1] == steps;
  }

  /** With no unit loaded, a new wrapper gets through its unit check. */
  lemma PassCheck(s: State, steps: seq<Step>, t: State, w: nat, mode: Mode) returns (more: seq<Step>, u: State)
    requires Exec(s, steps, false) == Some(t) && t.sys.units == map[] && w !in t.wrappers
    ensures Exec(s, more, false) == Some(u)
    ensures u == t.(wrappers := t.wrappers[w := Wrapper(mode, Probe, None)])
  {
    hide Exec, Next;
    assert Next(t, Spawn(w, mode), false) == Some(t.(wrappers := t.wrappers[w := Wrapper(mode, Check(0), None)])) by { SpawnNext(t, w, mode); }
    more, u := Extend(s, steps, t, Spawn(w, mode));
    for k := 0 to 4
      invariant Exec(s, more, false) == Some(u)
      invariant u == t.(wrappers := t.wrappers[w := Wrapper(mode, if k == 4 then Probe else Check(k), None)])
    {
      AdvanceNext(u, w);
      more, u := Extend(s, more, u, Advance(w));
    }
  }

  lemma SpawnNext(t: State, w: nat, mode: Mode)
    requires w !in t.wrappers
    ensures Next(t, Spawn(w, mode), false) == Some(t.(wrappers := t.wrappers[w := Wrapper(mode, Check(0), None)]))
  {}

  lemma AdvanceNext(t: State, w: nat)
    requires w in t.wrappers && WrapperNext(t.sys, t.wrappers[w], false).Some?
    ensures var (y, v) := WrapperNext(t.sys, t.wrappers[w], false).value;
            Next(t, Advance(w), false) == Some(State(y, t.wrappers[w := v]))
  {}

  lemma OthersNext(t: State, step: SysStep)
    requires SysNext(t.sys, step).Some?
    ensures Next(t, ByOthers(step), false) == Some(t.(sys := SysNext(t.sys, step).value))
  {}

  /** From the cleared result file to a live switch past the lock. */
  lemma Activate(s: State, steps: seq<Step>, t: State, w: nat) returns (more: seq<Step>, u: State)
    requires Exec(s, steps, false) == Some(t) && w in t.wrappers && t.wrappers[w].pc == Clear
    requires !Loaded(t.sys, t.wrappers[w].mode) && t.sys.nextPid !in t.sys.procs
    requires !Held(t.sys, if t.sys.lock.Some? then t.sys.lock.value else t.sys.nextIno)
    ensures Exec(s, more, false) == Some(u)
    ensures u.wrappers == t.wrappers[w := Wrapper(t.wrappers[w].mode, Wait, Some(t.sys.nextUnit))]
    ensures u.sys.results == t.sys.results - {t.wrappers[w].mode} && u.sys.ended == t.sys.ended
    ensures var i := if t.sys.lock.Some? then t.sys.lock.value else t.sys.nextIno;
            && u.sys.lock == Some(i) && u.sys.nextPid == t.sys.nextPid + 1 && u.sys.orphans == t.sys.orphans
            && u.sys.nextIno == t.sys.nextIno + (if t.sys.lock.Some? then 0 else 1)
            && u.sys.procs == t.sys.procs[t.sys.nextPid := Proc(Some(t.sys.nextUnit), Locked(i))]
            && u.sys.units == t.sys.units[t.sys.nextUnit := Unit(t.wrappers[w].mode, Active)]
            && u.sys.nextUnit == t.sys.nextUnit + 1
  {
    hide Exec, Next;
    var p := t.sys.nextPid;
    AdvanceNext(t, w);
    more, u := Extend(s, steps, t, Advance(w));
    assert !Loaded(u.sys, t.wrappers[w].mode);
    AdvanceNext(u, w);
    more, u := Extend(s, more, u, Advance(w));
    LockIt(u.sys, p, t.sys.nextUnit, t.sys.procs);
    OthersNext(u, Open(p));
    more, u := Extend(s, more, u, ByOthers(Open(p)));
    OthersNext(u, TryLock(p));
    more, u := Extend(s, more, u, ByOthers(TryLock(p)));
  }

  /** A fresh process opens and locks an inode that nobody holds. */
  lemma LockIt(y: Sys, p: nat, unit: nat, others: map<nat, Proc>)
    requires p !in others && y.procs == others[p := Proc(Some(unit), Fresh)]
    requires var i := if y.lock.Some? then y.lock.value else y.nextIno;
             i !in y.orphans && forall q <- others :: others[q].at != Locked(i)
    ensures var i := if y.lock.Some? then y.lock.value else y.nextIno;
            var z := SysNext(y, Open(p));
            && z.Some? && SysNext(z.value, TryLock(p)) ==
               Some(y.(procs := others[p := Proc(Some(unit), Locked(i))], lock := Some(i),
                       nextIno := y.nextIno + if y.lock.Some? then 0 else 1))
  {
    var i := if y.lock.Some? then y.lock.value else y.nextIno;
    var z := SysNext(y, Open(p)).value;
    assert forall q <- z.procs :: q != p ==> z.procs[q] == others[q];
    assert !Held(z, i);
    assert z.procs[p := Proc(Some(unit), Locked(i))] == others[p := Proc(Some(unit), Locked(i))];
  }

  /** The start: an orphan of a killed switch holds the lock. */
  const STALE_LOCK := State(Sys(map[], map[], {0}, Some(0), map[], map[], 1, 0, 0), map[])

  /** `switch` finds the stale lock and no live process; the orphan dies; `boot` starts and
      takes the lock; then `switch` removes the file in use and locks a new one. */
  lemma NonAtomicOverlap() returns (steps: seq<Step>, t: State)
    ensures Init(STALE_LOCK) && Exec(STALE_LOCK, steps, false) == Some(t)
    ensures Overlap(t.sys) && !CleanRun(STALE_LOCK, steps, false)
  {
    var s := STALE_LOCK;
    steps, t := PassCheck(s, [], s, 1, ForSwitch);
    steps, t := PassCheck(s, steps, t, 2, ForBoot);
    steps, t := ReachRm(s, steps, t);
    steps, t := Activate(s, steps, t, 2);
    assert t.sys.procs[0].at == Locked(0);
    steps, t := Extend(s, steps, t, Advance(1));
    assert !Held(t.sys, 1);
    assert !Loaded(t.sys, ForSwitch);
    steps, t := Activate(s, steps, t, 1);
    assert t.sys.procs[1].at == Locked(1) && t.sys.procs[0].at == Locked(0);
    if CleanRun(s, steps, false) {
      PathIff(s, steps, false);
      AtEnd(s, steps, false);
      FlockAlways(s, steps, false);
      InvExcludes(t.sys);
    }
  }

  /** Wrapper 1 probes and looks for processes; the orphan exits; wrapper 2 sees a free lock. */
  lemma ReachRm(s: State, steps: seq<Step>, t: State) returns (more: seq<Step>, u: State)
    requires Exec(s, steps, false) == Some(t)
    requires t == State(STALE_LOCK.sys, map[1 := Wrapper(ForSwitch, Probe, None), 2 := Wrapper(ForBoot, Probe, None)])
    ensures Exec(s, more, false) == Some(u)
    ensures u == State(STALE_LOCK.sys.(orphans := {}), map[1 := Wrapper(ForSwitch, Rm, None), 2 := Wrapper(ForBoot, Clear, None)])
  {
    hide Exec, Next;
    assert Held(t.sys, 0);
    AdvanceNext(t, 1);
    more, u := Extend(s, steps, t, Advance(1));
    AdvanceNext(u, 1);
    more, u := Extend(s, more, u, Advance(1));
    OthersNext(u, OrphanExit(0));
    more, u := Extend(s, more, u, ByOthers(OrphanExit(0)));
    assert u.sys.orphans == {} && !Held(u.sys, 0);
    AdvanceNext(u, 2);
    more, u := Extend(s, more, u, Advance(2));
    assert u.wrappers == map[1 := Wrapper(ForSwitch, Rm, None), 2 := Wrapper(ForBoot, Clear, None)];
  }

  // ---- Two wrappers of one mode. ----

  /** A machine with nothing left over. */
  const IDLE := State(Sys(map[], map[], {}, None, map[], map[], 0, 0, 0), map[])

  /** A live unit's switch ends and the unit is reported and collected. */
  lemma RunUnit(s: State, steps: seq<Step>, t: State, p: nat, u: nat, o: Outcome) returns (more: seq<Step>, v: State)
    requires Exec(s, steps, false) == Some(t)
    requires p in t.sys.procs && t.sys.procs[p].unit == Some(u) && u in t.sys.units
    ensures Exec(s, more, false) == Some(v) && v.wrappers == t.wrappers
    ensures v.sys.units == t.sys.units - {u} && v.sys.procs == t.sys.procs - {p} && v.sys.orphans == t.sys.orphans
    ensures v.sys.results == t.sys.results[t.sys.units[u].mode := o] && v.sys.ended == t.sys.ended[u := (o, true)]
    ensures v.sys.lock == t.sys.lock && v.sys.nextPid == t.sys.nextPid && v.sys.nextUnit == t.sys.nextUnit
  {
    hide Exec, Next;
    OthersNext(t, Finish(p, o, false));
    more, v := Extend(s, steps, t, ByOthers(Finish(p, o, false)));
    OthersNext(v, Capture(u, true));
    more, v := Extend(s, more, v, ByOthers(Capture(u, true)));
    OthersNext(v, Collect(u));
    more, v := Extend(s, more, v, ByOthers(Collect(u)));
    assert v.sys.units == t.sys.units - {u};
  }

  /** The honest report needs its condition: here wrapper 1's unit fails, wrapper 2 of the
      same mode clears that result and its own unit succeeds, and wrapper 1 exits 0. */
  lemma SecondWrapperMisleads() returns (steps: seq<Step>, t: State)
    ensures Init(IDLE) && Exec(IDLE, steps, false) == Some(t)
    ensures 1 in t.wrappers && t.wrappers[1].pc == Exited(0) && t.wrappers[1].unit == Some(0)
    ensures 0 in t.sys.ended && t.sys.ended[0].0.result != "success"
  {
    hide Exec, Next;
    steps, t := FirstFails();
    steps, t := PassCheck(IDLE, steps, t, 2, ForSwitch);
    AdvanceNext(t, 2);
    steps, t := Extend(IDLE, steps, t, Advance(2));
    steps, t := Activate(IDLE, steps, t, 2);
    steps, t := RunUnit(IDLE, steps, t, 1, 1, Outcome("success", "0"));
    AdvanceNext(t, 1);
    steps, t := Extend(IDLE, steps, t, Advance(1));
    AdvanceNext(t, 1);
    steps, t := Extend(IDLE, steps, t, Advance(1));
  }

  lemma FirstFails() returns (steps: seq<Step>, t: State)
    ensures Exec(IDLE, steps, false) == Some(t)
    ensures t.wrappers == map[1 := Wrapper(ForSwitch, Wait, Some(0))]
    ensures t.sys.units == map[] && t.sys.procs == map[] && t.sys.orphans == {}
    ensures t.sys.lock == Some(0) && t.sys.nextPid == 1 && t.sys.nextUnit == 1
    ensures t.sys.ended == map[0 := (Outcome("exit-code", "1"), true)]
  {
    steps, t := PassCheck(IDLE, [], IDLE, 1, ForSwitch);
    AdvanceNext(t, 1);
    steps, t := Extend(IDLE, steps, t, Advance(1));
    steps, t := Activate(IDLE, steps, t, 1);
    steps, t := RunUnit(IDLE, steps, t, 0, 0, Outcome("exit-code", "1"));
    assert t.sys.units == map[] && t.sys.procs == map[];
  }
}
