/** The other half of the honest report: after any step that disturbs a waiting wrapper, the
    run can go on so that the wrapper's exit status is false. */
module SwitchMislead {
  import opened Text
  import opened Switch
  import opened SwitchWait
  import opened SwitchHonest

  /** The wrapper exited before its unit ended, or with another status than its end calls for. */
  ghost predicate Misreports(s: State, w: nat) {
    && w in s.wrappers && s.wrappers[w].pc.Exited? && s.wrappers[w].unit.Some?
    && var u := s.wrappers[w].unit.value;
       u !in s.sys.ended || s.wrappers[w].pc.code != Code(s.sys.ended[u])
  }

  lemma Extend(s: State, steps: seq<Step>, step: Step, atomic: bool) returns (more: seq<Step>, t: State)
    requires Exec(s, steps, atomic).Some? && Next(Exec(s, steps, atomic).value, step, atomic).Some?
    ensures more == steps + [step] && Some(t) == Exec(s, more, atomic) == Next(Exec(s, steps, atomic).value, step, atomic)
  {
    more := steps + [step];
    assert more[..|more| - 1] == steps;
    t := Exec(s, more, atomic).value;
  }

  /** One action of a watching wrapper that finds a result and a unit of its mode loaded. */
  function Onward(pc: Pc, code: nat): Pc {
    match pc case Wait => Report case Poll => Wait case Recheck => Wait case _ => Exited(code)
  }

  lemma ActOnce(t: State, w: nat, atomic: bool)
    requires w in t.wrappers && Watching(t.wrappers[w])
    requires var m := t.wrappers[w].mode; m in t.sys.results && Loaded(t.sys, m)
    ensures var v := t.wrappers[w];
            Next(t, Advance(w), atomic) == Some(t.(wrappers := t.wrappers[w := v.(pc := Onward(v.pc, ExitCode(t.sys.results[v.mode])))]))
  {}

  /** It goes on to exit with what that result says. */
  lemma ReportNow(s: State, steps: seq<Step>, w: nat, atomic: bool) returns (more: seq<Step>)
    requires Exec(s, steps, atomic).Some?
    requires var t := Exec(s, steps, atomic).value;
             w in t.wrappers && Watching(t.wrappers[w]) && t.wrappers[w].mode in t.sys.results && Loaded(t.sys, t.wrappers[w].mode)
    ensures steps <= more && Exec(s, more, atomic).Some?
    ensures var t, end := Exec(s, steps, atomic).value, Exec(s, more, atomic).value;
            && end.sys == t.sys && w in end.wrappers && end.wrappers[w].unit == t.wrappers[w].unit
            && end.wrappers[w].pc == Exited(ExitCode(t.sys.results[t.wrappers[w].mode]))
  {
    hide Exec, Next, Loaded;
    more := steps;
    var t := Exec(s, steps, atomic).value;
    for k := 0 to 3
      invariant steps <= more && Exec(s, more, atomic) == Some(t) && t.sys == Exec(s, steps, atomic).value.sys
      invariant w in t.wrappers && t.wrappers[w].unit == Exec(s, steps, atomic).value.wrappers[w].unit
      invariant t.wrappers[w].mode == Exec(s, steps, atomic).value.wrappers[w].mode
      invariant t.wrappers[w].pc == Exited(ExitCode(t.sys.results[t.wrappers[w].mode])) || Watching(t.wrappers[w])
      invariant k > 0 && Watching(t.wrappers[w]) ==> t.wrappers[w].pc == Wait || t.wrappers[w].pc == Report
      invariant k > 1 && Watching(t.wrappers[w]) ==> t.wrappers[w].pc == Report
      invariant k > 2 ==> !Watching(t.wrappers[w])
    {
      if Watching(t.wrappers[w]) {
        ActOnce(t, w, atomic);
        more, t := Extend(s, more, Advance(w), atomic);
      }
    }
  }

  /** An outcome that calls for another status. */
  function Opposite(code: nat): (o: Outcome)
    ensures ExitCode(o) != code
  {
    if code == 0 then Outcome("signal", "TERM") else Outcome("success", "0")
  }

  /** Another unit of the mode runs while the wrapper still watches its own, which has ended. */
  ghost predicate Supplanted(t: State, w: nat, v: nat, p: nat) {
    && w in t.wrappers && Watching(t.wrappers[w]) && t.wrappers[w].unit.value in t.sys.ended
    && v in t.sys.units && t.sys.units[v] == Unit(t.wrappers[w].mode, Active) && v != t.wrappers[w].unit.value
    && p in t.sys.procs && t.sys.procs[p].unit == Some(v)
  }

  /** That unit ends the other way, and the wrapper reports its end instead. */
  lemma SupplantedMisleads(s: State, steps: seq<Step>, w: nat, v: nat, p: nat, atomic: bool) returns (more: seq<Step>)
    requires Exec(s, steps, atomic).Some? && Supplanted(Exec(s, steps, atomic).value, w, v, p)
    ensures steps <= more && Exec(s, more, atomic).Some? && Misreports(Exec(s, more, atomic).value, w)
  {
    var t := Exec(s, steps, atomic).value;
    var m, u := t.wrappers[w].mode, t.wrappers[w].unit.value;
    var o := Opposite(Code(t.sys.ended[u]));
    EndsAs(t.sys, v, p, o);
    hide Exec, SysNext;
    more, t := Extend(s, steps, ByOthers(Finish(p, o, false)), atomic);
    more, t := Extend(s, more, ByOthers(Capture(v, true)), atomic);
    assert t.sys.results[m] == o && Loaded(t.sys, m);
    more := ReportNow(s, more, w, atomic);
  }

  /** A unit's process ends, and its hook records the outcome. */
  lemma EndsAs(y: Sys, v: nat, p: nat, o: Outcome)
    requires v in y.units && y.units[v].stage == Active && p in y.procs && y.procs[p].unit == Some(v)
    ensures var a := SysNext(y, Finish(p, o, false));
            var b := if a.Some? then SysNext(a.value, Capture(v, true)) else None;
            && b.Some? && v in b.value.units && b.value.units[v].mode == y.units[v].mode
            && b.value.results == y.results[y.units[v].mode := o] && b.value.ended == y.ended[v := (o, true)]
  {}

  /** Another wrapper of the mode, about to start, starts that unit. */
  lemma StartSupplants(t: State, x: nat, w: nat, atomic: bool)
    requires LinkInv(t.sys) && x in t.wrappers && w in t.wrappers && x != w && t.wrappers[x].mode == t.wrappers[w].mode
    requires t.wrappers[x].pc == Start && !Loaded(t.sys, t.wrappers[x].mode)
    requires Watching(t.wrappers[w]) && t.wrappers[w].unit.value in t.sys.ended
    ensures var next := Next(t, Advance(x), atomic);
            next.Some? && Supplanted(next.value, w, t.sys.nextUnit, t.sys.nextPid)
  {}

  /** From every reachable state that a step disturbing the wrapper leads to, the run can go on
      so that the wrapper's exit status is false. */
  lemma DisturbedMisleads(s: State, steps: seq<Step>, step: Step, w: nat, atomic: bool) returns (more: seq<Step>)
    requires Init(s) && Exec(s, steps, atomic).Some? && Undisturbed(s, steps, w, atomic)
    requires var t := Exec(s, steps, atomic).value;
             w in t.wrappers && Next(t, step, atomic).Some? && Disturbs(t, step, w)
    ensures steps + [step] <= more && Exec(s, more, atomic).Some? && Misreports(Exec(s, more, atomic).value, w)
  {
    RunTracks(s, steps, w, atomic);
    var t := Exec(s, steps, atomic).value;
    var after, u := Extend(s, steps, step, atomic);
    if step.w == w {
      StaleStart(t, w, atomic);
      more := ReportNow(s, after, w, atomic);
    } else if t.wrappers[step.w].pc == Start {
      EndedIfUnloaded(t, w);
      StartSupplants(t, step.w, w, atomic);
      more := SupplantedMisleads(s, after, w, t.sys.nextUnit, t.sys.nextPid, atomic);
    } else {
      more := ClearedMisleads(s, steps, step, w, atomic);
    }
  }

  lemma StaleStart(t: State, w: nat, atomic: bool)
    requires w in t.wrappers && LinkInv(t.sys) && Disturbs(t, Advance(w), w)
    ensures var u := Next(t, Advance(w), atomic);
            && u.Some? && w in u.value.wrappers && Watching(u.value.wrappers[w])
            && u.value.wrappers[w].mode in u.value.sys.results && Loaded(u.value.sys, u.value.wrappers[w].mode)
            && u.value.wrappers[w].unit.value !in u.value.sys.ended
  {
    var u := Next(t, Advance(w), atomic).value;
    assert u.sys.units[t.sys.nextUnit].mode == t.wrappers[w].mode;
  }

  lemma EndedIfUnloaded(t: State, w: nat)
    requires w in t.wrappers && Tracks(t, w) && Watching(t.wrappers[w]) && !Loaded(t.sys, t.wrappers[w].mode)
    ensures t.wrappers[w].unit.value in t.sys.ended
  {}

  /** A cleared result: the unit is collected if it is still loaded, and the other wrapper
      goes on to start its own. */
  lemma ClearedMisleads(s: State, steps: seq<Step>, step: Step, w: nat, atomic: bool) returns (more: seq<Step>)
    requires Init(s) && Exec(s, steps, atomic).Some?
    requires var t := Exec(s, steps, atomic).value;
             && w in t.wrappers && LinkInv(t.sys) && Tracks(t, w) && Next(t, step, atomic).Some? && Disturbs(t, step, w)
             && step.w != w && t.wrappers[step.w].pc == Clear
    ensures steps + [step] <= more && Exec(s, more, atomic).Some? && Misreports(Exec(s, more, atomic).value, w)
  {
    var t := Exec(s, steps, atomic).value;
    var v, x := t.wrappers[w], step.w;
    var u := v.unit.value;
    ClearedState(t, x, w, atomic);
    var c;
    more, c := Extend(s, steps, step, atomic);
    if u in c.sys.units {
      CollectOne(c.sys, u, v.mode);
      more, c := Extend(s, more, ByOthers(Collect(u)), atomic);
    }
    LinkAlways(s, more, atomic);
    StartSupplants(c, x, w, atomic);
    var d;
    var n, p := c.sys.nextUnit, c.sys.nextPid;
    more, d := Extend(s, more, Advance(x), atomic);
    more := SupplantedMisleads(s, more, w, n, p, atomic);
  }

  lemma ClearedState(t: State, x: nat, w: nat, atomic: bool)
    requires w in t.wrappers && Tracks(t, w) && x != w && Disturbs(t, Advance(x), w) && t.wrappers[x].pc == Clear
    ensures var c := Next(t, Advance(x), atomic);
            && c.Some? && c.value.sys == t.sys.(results := t.sys.results - {t.wrappers[w].mode})
            && c.value.wrappers == t.wrappers[x := t.wrappers[x].(pc := Start)]
    ensures var u := t.wrappers[w].unit.value;
            && u in t.sys.ended && (u in t.sys.units ==> t.sys.units[u].stage == Reported)
            && forall k <- t.sys.units :: t.sys.units[k].mode == t.wrappers[w].mode <==> k == u
  {}

  lemma CollectOne(y: Sys, u: nat, m: Mode)
    requires u in y.units && y.units[u].stage == Reported
    requires forall k <- y.units :: y.units[k].mode == m <==> k == u
    ensures SysNext(y, Collect(u)) == Some(y.(units := y.units - {u})) && !Loaded(y.(units := y.units - {u}), m)
  {}
}
