/** The wrapper that survives reports what became of its own unit, and does report: exactly as
    long as no other wrapper of its mode interferes. */
module SwitchHonest {
  import opened Text
  import opened Switch
  import opened SwitchWait

  /** Every process of a unit is that active unit's one process, numbers are not reused, and
      the units whose end is recorded are the reported ones. */
  ghost predicate LinkInv(y: Sys) {
    && (forall p <- y.procs :: p < y.nextPid && (y.procs[p].unit.Some? ==>
          y.procs[p].unit.value in y.units && y.units[y.procs[p].unit.value].stage == Active))
    && (forall p, q :: p in y.procs && q in y.procs && p != q && y.procs[p].unit.Some? ==> y.procs[q].unit != y.procs[p].unit)
    && (forall u <- y.units :: u < y.nextUnit && (u in y.ended <==> y.units[u].stage == Reported))
    && (forall u <- y.ended :: u < y.nextUnit)
  }

  /** Unit `u` is the only one of its mode, and the result file says what became of it: nothing
      until its hook ran, then its outcome if the hook could write. */
  ghost predicate Follows(y: Sys, m: Mode, u: nat) {
    && u < y.nextUnit
    && (forall v <- y.units :: y.units[v].mode == m <==> v == u)
    && (if u in y.units && y.units[u].stage != Reported then m !in y.results && u !in y.ended
        else u in y.ended && (if y.ended[u].1 then m in y.results && y.results[m] == y.ended[u].0 else m !in y.results))
  }

  /** The exit status that tells the truth about a unit's end. */
  function Code(end: (Outcome, bool)): nat { if end.1 then ExitCode(end.0) else 1 }

  /** The wrapper started its unit and has not yet reported. */
  predicate Watching(v: Wrapper) { v.unit.Some? && Detached(v.pc) && !v.pc.Exited? && v.pc != Dead }

  /** Where wrapper `w` stands with its unit. */
  ghost predicate Tracks(s: State, w: nat)
    requires w in s.wrappers
  {
    var v, y := s.wrappers[w], s.sys;
    match v.unit
    case None => !Detached(v.pc) || v.pc == Exited(1) || v.pc == Dead
    case Some(u) =>
      && u < y.nextUnit
      && if Watching(v) then
           Follows(y, v.mode, u) && (v.pc == Recheck ==> u !in y.units) && (v.pc == Report ==> v.mode in y.results)
         else
           v.pc == Dead || (v.pc.Exited? && u in y.ended && v.pc.code == Code(y.ended[u]))
  }

  /** The step takes the wrapper's own result from it: another wrapper of the mode clears a
      result that is there, or starts a unit, while this one watches; or it starts its own
      unit over a result that another one left. */
  ghost predicate Disturbs(s: State, step: Step, w: nat)
    requires w in s.wrappers
  {
    var v, y := s.wrappers[w], s.sys;
    step.Advance? && step.w in s.wrappers && s.wrappers[step.w].mode == v.mode &&
    var pc := s.wrappers[step.w].pc;
    if step.w == w then pc == Start && !Loaded(y, v.mode) && v.mode in y.results
    else Watching(v) && ((pc == Clear && v.mode in y.results) || (pc == Start && !Loaded(y, v.mode)))
  }

  // ---- System steps keep the two invariants. ----

  lemma GoneLink(y: Sys, p: nat, o: Outcome)
    requires LinkInv(y) && p in y.procs
    ensures LinkInv(Gone(y, p, o))
  {
    var u, z := y.procs[p].unit, Gone(y, p, o);
    assert z.units.Keys == y.units.Keys && forall v <- y.units :: u != Some(v) ==> z.units[v] == y.units[v];
  }

  lemma GoneFollows(y: Sys, p: nat, o: Outcome, m: Mode, u: nat)
    requires LinkInv(y) && p in y.procs && Follows(y, m, u)
    ensures Follows(Gone(y, p, o), m, u)
  {
    var z := Gone(y, p, o);
    assert z.units.Keys == y.units.Keys && forall v <- y.units :: z.units[v].mode == y.units[v].mode;
  }

  lemma SysLink(y: Sys, step: SysStep)
    requires LinkInv(y) && SysNext(y, step).Some?
    ensures LinkInv(SysNext(y, step).value)
  {
    match step
    case External => ExternalKeeps(y);
    case Open(p) => LockKeeps(y, step, p);
    case TryLock(p) =>
      if Held(y, y.procs[p].at.ino) { GoneLink(y, p, Outcome("exit-code", "11")); } else { LockKeeps(y, step, p); }
    case Finish(p, o, orphan) => GoneLink(y, p, o);
    case Capture(v, written) => CaptureLink(y, v, written);
    case Collect(v) => CollectLink(y, v);
    case OrphanExit(i) =>
  }

  lemma SysFollows(y: Sys, step: SysStep, m: Mode, u: nat)
    requires LinkInv(y) && SysNext(y, step).Some? && Follows(y, m, u)
    ensures Follows(SysNext(y, step).value, m, u)
  {
    match step
    case External =>
    case Open(p) => LockKeeps(y, step, p);
    case TryLock(p) =>
      if Held(y, y.procs[p].at.ino) { GoneFollows(y, p, Outcome("exit-code", "11"), m, u); } else { LockKeeps(y, step, p); }
    case Finish(p, o, orphan) => GoneFollows(y, p, o, m, u);
    case Capture(v, written) => CaptureFollows(y, v, written, m, u);
    case Collect(v) =>
    case OrphanExit(i) =>
  }

  lemma ExternalKeeps(y: Sys)
    requires LinkInv(y)
    ensures LinkInv(StartProc(y, None))
  {}

  lemma LockKeeps(y: Sys, step: SysStep, p: nat)
    requires LinkInv(y) && SysNext(y, step).Some? && p in y.procs
    requires step == Open(p) || (step == TryLock(p) && !Held(y, y.procs[p].at.ino))
    ensures var z := SysNext(y, step).value;
            LinkInv(z) && z.units == y.units && z.results == y.results && z.ended == y.ended && z.nextUnit == y.nextUnit
  {
    SameUnits(y, step, p);
    hide SysNext, Held;
  }

  /** Opening and locking move one process's phase and leave everything about units alone. */
  lemma SameUnits(y: Sys, step: SysStep, p: nat)
    requires SysNext(y, step).Some? && p in y.procs
    requires step == Open(p) || (step == TryLock(p) && !Held(y, y.procs[p].at.ino))
    ensures var z := SysNext(y, step).value;
            && z.units == y.units && z.results == y.results && z.ended == y.ended
            && z.nextUnit == y.nextUnit && z.nextPid == y.nextPid
            && z.procs.Keys == y.procs.Keys && forall q <- y.procs :: z.procs[q].unit == y.procs[q].unit
  {}

  lemma CollectLink(y: Sys, v: nat)
    requires LinkInv(y) && SysNext(y, Collect(v)).Some?
    ensures LinkInv(SysNext(y, Collect(v)).value)
  {}

  lemma CaptureLink(y: Sys, v: nat, written: bool)
    requires LinkInv(y) && SysNext(y, Capture(v, written)).Some?
    ensures LinkInv(SysNext(y, Capture(v, written)).value)
  {
    var z := SysNext(y, Capture(v, written)).value;
    assert z.units.Keys == y.units.Keys && forall x <- y.units :: x != v ==> z.units[x] == y.units[x];
  }

  lemma CaptureFollows(y: Sys, v: nat, written: bool, m: Mode, u: nat)
    requires LinkInv(y) && SysNext(y, Capture(v, written)).Some? && Follows(y, m, u)
    ensures Follows(SysNext(y, Capture(v, written)).value, m, u)
  {
    var z := SysNext(y, Capture(v, written)).value;
    assert z.units.Keys == y.units.Keys && forall x <- y.units :: z.units[x].mode == y.units[x].mode;
  }

  /** System steps load nothing, write a result only for a unit they end, undo no recorded
      end, and number no unit. */
  lemma SysMonotone(y: Sys, step: SysStep, m: Mode)
    requires LinkInv(y) && SysNext(y, step).Some?
    ensures var z := SysNext(y, step).value;
            && (m in y.results ==> m in z.results)
            && (m in z.results && m !in y.results ==> Loaded(y, m))
            && z.units.Keys <= y.units.Keys && z.nextUnit == y.nextUnit
            && (forall u <- y.ended :: u in z.ended && z.ended[u] == y.ended[u])
  {}

  lemma TracksOthers(s: State, step: SysStep, w: nat)
    requires w in s.wrappers && LinkInv(s.sys) && Tracks(s, w) && SysNext(s.sys, step).Some?
    ensures Tracks(s.(sys := SysNext(s.sys, step).value), w)
  {
    hide Follows, LinkInv, SysNext;
    var v := s.wrappers[w];
    SysMonotone(s.sys, step, v.mode);
    if Watching(v) { SysFollows(s.sys, step, v.mode, v.unit.value); }
  }

  // ---- Wrapper steps. ----

  lemma StartKeepsLink(y: Sys, mode: Mode)
    requires LinkInv(y)
    ensures LinkInv(StartUnit(y, mode))
  {
    assert forall p <- y.procs :: y.procs[p].unit.Some? ==> y.procs[p].unit.value in y.units;
  }

  /** A unit started where none of the mode is loaded is followed from the start exactly when
      no result was left over. */
  lemma StartFollowsIff(y: Sys, m: Mode)
    requires LinkInv(y) && !Loaded(y, m)
    ensures Follows(StartUnit(y, m), m, y.nextUnit) <==> m !in y.results
  {
    var z := StartUnit(y, m);
    assert forall v <- y.units :: v != y.nextUnit && z.units[v] == y.units[v];
  }

  /** The wrapper's own action. */
  lemma TracksOwn(s: State, w: nat, atomic: bool)
    requires w in s.wrappers && LinkInv(s.sys) && Tracks(s, w) && Next(s, Advance(w), atomic).Some?
    requires !Disturbs(s, Advance(w), w)
    ensures Tracks(Next(s, Advance(w), atomic).value, w)
  {
    var v := s.wrappers[w];
    WrapperEffect(s.sys, v, atomic);
    if v.pc == Start {
      if !Loaded(s.sys, v.mode) { StartFollowsIff(s.sys, v.mode); }
    }
  }

  /** Another wrapper's action: what it can do to a unit being followed. */
  lemma OthersFollow(y: Sys, x: Wrapper, atomic: bool, m: Mode, u: nat)
    requires LinkInv(y) && Follows(y, m, u) && WrapperNext(y, x, atomic).Some?
    ensures Follows(WrapperNext(y, x, atomic).value.0, m, u) <==>
            !(x.mode == m && ((x.pc == Clear && m in y.results) || (x.pc == Start && !Loaded(y, m))))
  {
    var z := WrapperNext(y, x, atomic).value.0;
    if x.pc == Start && !Loaded(y, x.mode) {
      StartedFollows(y, x.mode, m, u);
    } else if x.pc == Clear {
      assert z == y.(results := y.results - {x.mode});
    } else {
      WrapperEffect(y, x, atomic);
    }
  }

  lemma StartedFollows(y: Sys, mode: Mode, m: Mode, u: nat)
    requires LinkInv(y) && Follows(y, m, u)
    ensures Follows(StartUnit(y, mode), m, u) <==> mode != m
  {
    var z := StartUnit(y, mode);
    assert z.units[y.nextUnit].mode == mode && u != y.nextUnit;
    assert forall v <- y.units :: z.units[v] == y.units[v];
  }

  lemma WrapperLink(y: Sys, x: Wrapper, atomic: bool)
    requires LinkInv(y) && WrapperNext(y, x, atomic).Some?
    ensures var z := WrapperNext(y, x, atomic).value.0;
            LinkInv(z) && z.ended == y.ended && z.nextUnit >= y.nextUnit
  {
    WrapperEffect(y, x, atomic);
    StartKeepsLink(y, x.mode);
  }

  lemma TracksWrapper(s: State, x: nat, w: nat, atomic: bool)
    requires w in s.wrappers && x != w && LinkInv(s.sys) && Tracks(s, w) && !Disturbs(s, Advance(x), w)
    requires Next(s, Advance(x), atomic).Some?
    ensures Tracks(Next(s, Advance(x), atomic).value, w)
  {
    var v := s.wrappers[w];
    WrapperLink(s.sys, s.wrappers[x], atomic);
    if Watching(v) {
      OthersFollow(s.sys, s.wrappers[x], atomic, v.mode, v.unit.value);
      OthersSeen(s.sys, s.wrappers[x], atomic, v.mode);
    }
    hide Follows, LinkInv, WrapperNext;
  }

  /** What another wrapper's action can change of what the watching one looks at. */
  lemma OthersSeen(y: Sys, x: Wrapper, atomic: bool, m: Mode)
    requires LinkInv(y) && WrapperNext(y, x, atomic).Some?
    requires !(x.mode == m && ((x.pc == Clear && m in y.results) || (x.pc == Start && !Loaded(y, m))))
    ensures var z := WrapperNext(y, x, atomic).value.0;
            && (m in z.results <==> m in y.results)
            && forall u <- z.units :: u in y.units || u == y.nextUnit
  {
    WrapperEffect(y, x, atomic);
  }

  // ---- Runs. ----

  lemma LinkStep(s: State, step: Step, atomic: bool)
    requires LinkInv(s.sys) && Next(s, step, atomic).Some?
    ensures LinkInv(Next(s, step, atomic).value.sys)
  {
    match step
    case Spawn(x, mode) =>
    case StartFails(x) =>
    case Kill(x) =>
    case Advance(x) => WrapperLink(s.sys, s.wrappers[x], atomic);
    case ByOthers(other) => SysLink(s.sys, other);
  }

  /** The bookkeeping invariant holds in every run from a quiet machine. */
  lemma {:induction false} LinkAlways(s: State, steps: seq<Step>, atomic: bool)
    requires Init(s) && Exec(s, steps, atomic).Some?
    ensures LinkInv(Exec(s, steps, atomic).value.sys)
    decreases |steps|
  {
    if steps != [] {
      var n := |steps| - 1;
      LinkAlways(s, steps[..n], atomic);
      LinkStep(Exec(s, steps[..n], atomic).value, steps[n], atomic);
    }
  }

  lemma TracksStep(s: State, step: Step, w: nat, atomic: bool)
    requires w in s.wrappers && LinkInv(s.sys) && Tracks(s, w) && Next(s, step, atomic).Some? && !Disturbs(s, step, w)
    ensures var t := Next(s, step, atomic).value; w in t.wrappers && t.wrappers[w].mode == s.wrappers[w].mode && Tracks(t, w)
  {
    hide LinkInv, Follows, Disturbs;
    match step
    case Spawn(x, mode) =>
    case StartFails(x) =>
    case Kill(x) =>
    case Advance(x) => if x == w { TracksOwn(s, w, atomic); } else { TracksWrapper(s, x, w, atomic); }
    case ByOthers(other) => TracksOthers(s, other, w);
  }

  /** A watching wrapper follows its unit. */
  ghost predicate FollowsNow(s: State, w: nat) {
    w in s.wrappers && Watching(s.wrappers[w]) ==> Follows(s.sys, s.wrappers[w].mode, s.wrappers[w].unit.value)
  }

  /** A disturbing step always breaks it, ... */
  lemma DisturbedLoses(s: State, step: Step, w: nat, atomic: bool)
    requires w in s.wrappers && LinkInv(s.sys) && Tracks(s, w) && Next(s, step, atomic).Some? && Disturbs(s, step, w)
    ensures !FollowsNow(Next(s, step, atomic).value, w)
  {
    var v, x := s.wrappers[w], s.wrappers[step.w];
    if step.w == w {
      StartFollowsIff(s.sys, v.mode);
    } else {
      OthersFollow(s.sys, x, atomic, v.mode, v.unit.value);
    }
    hide Follows, LinkInv;
  }

  /** ... and no step of the run so far did. */
  ghost predicate Undisturbed(s: State, steps: seq<Step>, w: nat, atomic: bool)
    decreases |steps|
  {
    steps == [] ||
    var n := |steps| - 1;
    Undisturbed(s, steps[..n], w, atomic) &&
    (match Exec(s, steps[..n], atomic) case None => true case Some(t) => w in t.wrappers ==> !Disturbs(t, steps[n], w))
  }

  /** In every state of the run a watching wrapper follows its unit. */
  ghost predicate AlwaysFollows(s: State, steps: seq<Step>, w: nat, atomic: bool)
    decreases |steps|
  {
    (Exec(s, steps, atomic).Some? ==> FollowsNow(Exec(s, steps, atomic).value, w)) &&
    (steps != [] ==> AlwaysFollows(s, steps[..|steps| - 1], w, atomic))
  }

  ghost predicate Ready(s: State, w: nat) { LinkInv(s.sys) && (w in s.wrappers ==> Tracks(s, w)) }

  lemma ReadyStep(s: State, step: Step, w: nat, atomic: bool)
    requires Ready(s, w) && Next(s, step, atomic).Some? && (w in s.wrappers ==> !Disturbs(s, step, w))
    ensures Ready(Next(s, step, atomic).value, w)
  {
    LinkStep(s, step, atomic);
    if w in s.wrappers { TracksStep(s, step, w, atomic); }
    hide LinkInv, Follows, Disturbs;
  }

  lemma {:induction false} RunTracks(s: State, steps: seq<Step>, w: nat, atomic: bool)
    requires Ready(s, w) && Undisturbed(s, steps, w, atomic) && Exec(s, steps, atomic).Some?
    ensures Ready(Exec(s, steps, atomic).value, w)
    decreases |steps|
  {
    hide Ready, Disturbs, Next;
    if steps != [] {
      var n := |steps| - 1;
      RunTracks(s, steps[..n], w, atomic);
      ReadyStep(Exec(s, steps[..n], atomic).value, steps[n], w, atomic);
    }
  }

  /** In a run from a quiet machine any wrapper follows its own unit as long as it watches,
      exactly when no step of the run disturbs it. */
  lemma FollowsIff(s: State, steps: seq<Step>, w: nat, atomic: bool)
    requires Init(s) && Exec(s, steps, atomic).Some?
    ensures AlwaysFollows(s, steps, w, atomic) <==> Undisturbed(s, steps, w, atomic)
  {
    FollowsRun(s, steps, w, atomic);
  }

  lemma {:induction false} FollowsRun(s: State, steps: seq<Step>, w: nat, atomic: bool)
    requires Ready(s, w) && Exec(s, steps, atomic).Some?
    ensures AlwaysFollows(s, steps, w, atomic) <==> Undisturbed(s, steps, w, atomic)
    decreases |steps|
  {
    hide Disturbs, Next, LinkInv, Follows;
    if steps != [] {
      var n := |steps| - 1;
      FollowsRun(s, steps[..n], w, atomic);
      var t := Exec(s, steps[..n], atomic).value;
      if Undisturbed(s, steps[..n], w, atomic) {
        RunTracks(s, steps[..n], w, atomic);
        if w in t.wrappers && Disturbs(t, steps[n], w) {
          DisturbedLoses(t, steps[n], w, atomic);
        } else {
          RunTracks(s, steps, w, atomic);
        }
      }
    }
  }

  /** The report of any wrapper that no step disturbed, in any run from a quiet machine: it
      exits without a unit only with 1, and otherwise after its unit ended, with 0 exactly
      when the hook recorded an outcome that exits 0, which for the outcomes systemd reports
      means success, and otherwise with the unit's own status where that is a plain number. */
  lemma HonestExit(s: State, steps: seq<Step>, w: nat, atomic: bool)
    requires Init(s) && Exec(s, steps, atomic).Some? && Undisturbed(s, steps, w, atomic)
    ensures var t := Exec(s, steps, atomic).value;
            w in t.wrappers && t.wrappers[w].pc.Exited? ==>
              if t.wrappers[w].unit.None? then t.wrappers[w].pc.code == 1
              else
                var u := t.wrappers[w].unit.value;
                && u in t.sys.ended
                && (t.wrappers[w].pc.code == 0 <==> t.sys.ended[u].1 && ExitCode(t.sys.ended[u].0) == 0)
                && (Canonical(t.sys.ended[u].0) ==>
                      (t.wrappers[w].pc.code == 0 <==> t.sys.ended[u].1 && t.sys.ended[u].0.result == "success"))
                && (if t.sys.ended[u].1 then Tells(t.wrappers[w].pc.code, t.sys.ended[u].0) else t.wrappers[w].pc.code == 1)
  {
    RunTracks(s, steps, w, atomic);
    var t := Exec(s, steps, atomic).value;
    if w in t.wrappers && t.wrappers[w].pc.Exited? && t.wrappers[w].unit.Some? {
      var end := t.sys.ended[t.wrappers[w].unit.value];
      if Canonical(end.0) { ExitZeroIsSuccess(end.0); }
      ExitTells(end.0);
    }
  }

  // ---- The wait loop ends. ----

  /** How many of its own actions a waiting wrapper still needs once its unit is gone. */
  function Rank(pc: Pc, present: bool): nat {
    match pc
    case Report => 1
    case Wait => if present then 2 else 3
    case Poll => if present then 4 else 2
    case Recheck => if present then 3 else 1
    case _ => 0
  }

  ghost predicate UnitGone(s: State, w: nat) {
    && w in s.wrappers && s.wrappers[w].unit.Some? && LinkInv(s.sys) && Tracks(s, w)
    && s.wrappers[w].unit.value !in s.sys.units
  }

  function Left(s: State, w: nat): nat
    requires w in s.wrappers
  {
    Rank(s.wrappers[w].pc, s.wrappers[w].mode in s.sys.results)
  }

  /** Once the unit is gone, no other step changes what the wrapper will see, unless it
      disturbs it. */
  lemma GoneStable(s: State, step: Step, w: nat, atomic: bool)
    requires UnitGone(s, w) && !Disturbs(s, step, w) && Next(s, step, atomic).Some? && !Of(step, w)
    ensures var t := Next(s, step, atomic).value; UnitGone(t, w) && Left(t, w) == Left(s, w)
  {
    TracksStep(s, step, w, atomic);
    LinkStep(s, step, atomic);
    var t := Next(s, step, atomic).value;
    var v := s.wrappers[w];
    assert t.wrappers[w] == v;
    if step.ByOthers? {
      SysMonotone(s.sys, step.step, v.mode);
    } else if step.Advance? {
      OthersKeepGone(s, step.w, w, atomic);
    }
    hide LinkInv, Follows, Disturbs, Next;
  }

  lemma OthersKeepGone(s: State, x: nat, w: nat, atomic: bool)
    requires UnitGone(s, w) && x != w && !Disturbs(s, Advance(x), w) && Next(s, Advance(x), atomic).Some?
    ensures var t := Next(s, Advance(x), atomic).value;
            s.wrappers[w].unit.value !in t.sys.units
            && (Watching(s.wrappers[w]) ==> (s.wrappers[w].mode in t.sys.results <==> s.wrappers[w].mode in s.sys.results))
  {
    WrapperEffect(s.sys, s.wrappers[x], atomic);
    if Watching(s.wrappers[w]) { OthersSeen(s.sys, s.wrappers[x], atomic, s.wrappers[w].mode); }
  }

  /** Its own action is possible until it exits, and brings the exit one action nearer. */
  lemma GoneAdvance(s: State, w: nat, atomic: bool)
    requires UnitGone(s, w) && Watching(s.wrappers[w])
    ensures Next(s, Advance(w), atomic).Some?
    ensures var t := Next(s, Advance(w), atomic).value;
            && UnitGone(t, w) && Left(t, w) < Left(s, w)
            && (Left(t, w) == 0 <==> t.wrappers[w].pc.Exited?)
  {
    TracksOwn(s, w, atomic);
    LinkStep(s, Advance(w), atomic);
  }

  function Actions(steps: seq<Step>, w: nat): nat {
    if steps == [] then 0 else Actions(steps[..|steps| - 1], w) + if steps[|steps| - 1] == Advance(w) then 1 else 0
  }

  lemma {:induction false} GoneRun(s: State, steps: seq<Step>, w: nat, atomic: bool)
    requires UnitGone(s, w) && Watching(s.wrappers[w])
    requires Undisturbed(s, steps, w, atomic) && Exec(s, steps, atomic).Some? && Kill(w) !in steps
    ensures var t := Exec(s, steps, atomic).value;
            UnitGone(t, w) && t.wrappers[w].pc != Dead && (Watching(t.wrappers[w]) ==> Left(t, w) + Actions(steps, w) <= Left(s, w))
    decreases |steps|
  {
    hide Left, Disturbs, LinkInv, Tracks;
    if steps != [] {
      var n := |steps| - 1;
      assert steps[n] in steps && forall x <- steps[..n] :: x in steps;
      GoneRun(s, steps[..n], w, atomic);
      GoneOne(Exec(s, steps[..n], atomic).value, steps[n], w, atomic);
    } else {
      assert Actions(steps, w) == 0;
    }
  }

  lemma GoneOne(s: State, step: Step, w: nat, atomic: bool)
    requires UnitGone(s, w) && s.wrappers[w].pc != Dead && !Disturbs(s, step, w) && step != Kill(w)
    requires Next(s, step, atomic).Some?
    ensures var t := Next(s, step, atomic).value;
            && UnitGone(t, w) && t.wrappers[w].pc != Dead
            && (Watching(t.wrappers[w]) ==>
                  Watching(s.wrappers[w]) && Left(t, w) + (if step == Advance(w) then 1 else 0) <= Left(s, w))
  {
    if step == Advance(w) {
      GoneAdvance(s, w, atomic);
    } else {
      GoneStable(s, step, w, atomic);
      assert !Of(step, w);
    }
  }

  /** In any run from a quiet machine: once the unit of a watching, undisturbed wrapper is
      gone, four actions of the wrapper end its wait loop however the others run, and until
      then it can always act. */
  lemma WaitEnds(s: State, before: seq<Step>, after: seq<Step>, w: nat, atomic: bool)
    requires Init(s) && Exec(s, before, atomic).Some? && Undisturbed(s, before, w, atomic)
    requires var t := Exec(s, before, atomic).value;
             && w in t.wrappers && Watching(t.wrappers[w]) && t.wrappers[w].unit.value !in t.sys.units
             && Exec(t, after, atomic).Some? && Undisturbed(t, after, w, atomic) && Kill(w) !in after
    ensures var end := Exec(Exec(s, before, atomic).value, after, atomic).value;
            && w in end.wrappers
            && (Actions(after, w) >= 4 ==> end.wrappers[w].pc.Exited?)
            && (end.wrappers[w].pc.Exited? || Next(end, Advance(w), atomic).Some?)
  {
    RunTracks(s, before, w, atomic);
    var t := Exec(s, before, atomic).value;
    GoneRun(t, after, w, atomic);
    var end := Exec(t, after, atomic).value;
    if Watching(end.wrappers[w]) { GoneAdvance(end, w, atomic); }
  }
}
