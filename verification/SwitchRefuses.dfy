/** When `nixnas-switch` refuses, and when it goes ahead: the unit check and the lock hygiene
    before the start. */
module SwitchRefuses {
  import opened Text
  import opened Switch

  /** Where a mode stands in the check's list. */
  function Place(m: Mode): nat { match m case ForSwitch => 0 case ForBoot => 1 case ForTest => 2 }

  /** The wrapper has not got past the check of the mode. */
  predicate HeldUp(pc: Pc, m: Mode) { (pc.Check? && pc.k <= Place(m)) || pc == Exited(1) || pc == Dead }

  lemma HeldUpStep(s: State, step: Step, w: nat, m: Mode, atomic: bool)
    requires w in s.wrappers && HeldUp(s.wrappers[w].pc, m) && Loaded(s.sys, m) && Next(s, step, atomic).Some?
    ensures var t := Next(s, step, atomic).value; w in t.wrappers && HeldUp(t.wrappers[w].pc, m)
  {
    assert MODES[Place(m)] == m;
  }

  /** A unit of the mode is loaded in every state of the run up to its last step. */
  ghost predicate AlwaysLoaded(s: State, steps: seq<Step>, m: Mode, atomic: bool)
    decreases |steps|
  {
    steps == [] ||
    var n := |steps| - 1;
    AlwaysLoaded(s, steps[..n], m, atomic) &&
    (match Exec(s, steps[..n], atomic) case None => true case Some(t) => Loaded(t.sys, m))
  }

  /** While a unit of any mode is loaded, a wrapper that starts its check never gets past it:
      it exits 1 or dies there, and starts nothing. */
  lemma {:induction false} RefusesWhileLoaded(s: State, steps: seq<Step>, w: nat, m: Mode, atomic: bool)
    requires w in s.wrappers && s.wrappers[w].pc == Check(0)
    requires AlwaysLoaded(s, steps, m, atomic) && Exec(s, steps, atomic).Some?
    ensures var t := Exec(s, steps, atomic).value; w in t.wrappers && HeldUp(t.wrappers[w].pc, m)
    decreases |steps|
  {
    if steps != [] {
      var n := |steps| - 1;
      RefusesWhileLoaded(s, steps[..n], w, m, atomic);
      HeldUpStep(Exec(s, steps[..n], atomic).value, steps[n], w, m, atomic);
    }
  }

  /** The wrapper's own next actions, undisturbed. */
  function Alone(y: Sys, v: Wrapper, atomic: bool, n: nat): (Sys, Wrapper)
    decreases n
  {
    if n == 0 then (y, v)
    else match WrapperNext(y, v, atomic)
         case None => (y, v)
         case Some((z, u)) => Alone(z, u, atomic, n - 1)
  }

  /** With no unit loaded the check passes. */
  lemma PassesCheck(y: Sys, v: Wrapper, atomic: bool)
    requires y.units == map[] && v.pc == Check(0)
    ensures Alone(y, v, atomic, 4) == (y, v.(pc := Probe))
  {
    var v1, v2, v3 := v.(pc := Check(1)), v.(pc := Check(2)), v.(pc := Check(3));
    assert WrapperNext(y, v, atomic) == Some((y, v1)) && WrapperNext(y, v1, atomic) == Some((y, v2));
    assert WrapperNext(y, v2, atomic) == Some((y, v3)) && WrapperNext(y, v3, atomic) == Some((y, v.(pc := Probe)));
    assert Alone(y, v3, atomic, 1) == Alone(y, v.(pc := Probe), atomic, 0);
    assert Alone(y, v2, atomic, 2) == Alone(y, v3, atomic, 1);
    assert Alone(y, v1, atomic, 3) == Alone(y, v2, atomic, 2);
  }

  /** From the probe the wrapper, left alone, does exactly this: it goes ahead with a free lock
      or none, refuses when the lock is held and a switch is alive, and removes the file when it
      is held and none is. */
  lemma HygieneAlone(y: Sys, v: Wrapper, atomic: bool)
    requires v.pc == Probe
    ensures var held := y.lock.Some? && Held(y, y.lock.value);
            var (z, u) := Alone(y, v, atomic, if !held || atomic then 1 else if y.procs != map[] then 2 else 3);
            && u.pc == (if held && y.procs != map[] then Exited(1) else Clear)
            && z == (if held && y.procs == map[] then y.(lock := None) else y)
  {
    if y.lock.Some? && Held(y, y.lock.value) && !atomic {
      var p := v.(pc := Pgrep);
      assert WrapperNext(y, v, atomic) == Some((y, p));
      if y.procs != map[] {
        assert Alone(y, p, atomic, 1) == Alone(y, v.(pc := Exited(1)), atomic, 0);
      } else {
        var q := v.(pc := Rm);
        assert WrapperNext(y, p, atomic) == Some((y, q));
        assert Alone(y, p, atomic, 2) == Alone(y, q, atomic, 1);
        assert WrapperNext(y, q, atomic) == Some((y.(lock := None), v.(pc := Clear)));
        assert Alone(y, q, atomic, 1) == Alone(y.(lock := None), v.(pc := Clear), atomic, 0);
      }
    } else {
      assert Alone(y, v, atomic, 1) == (var n := WrapperNext(y, v, atomic).value; Alone(n.0, n.1, atomic, 0));
    }
  }

  /** From there it clears the mode's old result and starts one unit of the mode with one
      process, unless one is loaded by then. */
  lemma StartsAlone(y: Sys, v: Wrapper, atomic: bool)
    requires v.pc == Clear
    ensures var (z, u) := Alone(y, v, atomic, 2);
            if Loaded(y, v.mode) then u.pc == Exited(1) && z.units == y.units && z.procs == y.procs
            else
              && u.pc == Wait && u.unit == Some(y.nextUnit) && v.mode !in z.results
              && z.units == y.units[y.nextUnit := Unit(v.mode, Active)]
              && z.procs == y.procs[y.nextPid := Proc(Some(y.nextUnit), Fresh)]
  {
    var c := y.(results := y.results - {v.mode});
    assert Loaded(c, v.mode) == Loaded(y, v.mode);
    assert WrapperNext(y, v, atomic) == Some((c, v.(pc := Start)));
    assert Alone(y, v, atomic, 2) == Alone(c, v.(pc := Start), atomic, 1);
    assert Alone(c, v.(pc := Start), atomic, 1) == (var n := WrapperNext(c, v.(pc := Start), atomic).value; Alone(n.0, n.1, atomic, 0));
  }

  /** A switch that finds the lock held gives up, and its unit ends with status 11. */
  lemma ContendedEnds(y: Sys, p: nat, u: nat)
    requires p in y.procs && y.procs[p].at.Opened? && Held(y, y.procs[p].at.ino)
    requires y.procs[p].unit == Some(u) && u in y.units
    ensures var z := SysNext(y, TryLock(p));
            && z.Some? && z.value.procs == y.procs - {p}
            && z.value.units == y.units[u := y.units[u].(stage := Stopping(Outcome("exit-code", "11")))]
  {}
}
