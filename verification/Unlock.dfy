/** The storage target and the order in which its units start (storage/connect.nix):
    the units that configuration generates, and every run a service manager that honours
    After= can make of them. */
module Unlock {
  import opened Text
  import opened Names

  datatype Unit = Member(name: string) | Import(pool: string) | Target

  /** `storage.unlock`, `storage.zfsPools`, and whether the store is in hot mode. */
  datatype Host = Host(unlock: map<string, string>, pools: seq<string>, hot: bool)

  ghost function Members(h: Host): set<Unit> { set n <- h.unlock :: Member(n) }
  ghost function Imports(h: Host): set<Unit> { set p <- h.pools :: Import(p) }

  /** What the target wants; in hot mode the members are already open. */
  ghost function Wants(h: Host): set<Unit> { (if h.hot then {} else Members(h)) + Imports(h) }

  /** The member before this one in name order. */
  ghost function Before(h: Host, name: string): set<Unit> {
    if name in h.unlock && Order(h.unlock.Keys, name) > 0
    then {Member(AttrNames(h.unlock.Keys)[Order(h.unlock.Keys, name) - 1])}
    else {}
  }

  ghost function After(h: Host, u: Unit): set<Unit> {
    match u
    case Member(n) => Before(h, n)
    case Import(p) => if h.hot || p !in h.pools then {} else Members(h)
    case Target => if h.unlock == map[] then {} else Wants(h)
  }

  /** What raising the target queues. The target is defined only when members are declared. */
  ghost function Jobs(h: Host): set<Unit> { if h.unlock == map[] then {} else {Target} + Wants(h) }

  // ---- The ordering has no cycle. ----

  ghost function Rank(h: Host, u: Unit): nat {
    match u
    case Member(n) => if n in h.unlock then Order(h.unlock.Keys, n) else 0
    case Import(_) => |h.unlock.Keys|
    case Target => |h.unlock.Keys| + 1
  }

  lemma AfterDescends(h: Host, u: Unit, v: Unit)
    requires v in After(h, u)
    ensures Rank(h, v) < Rank(h, u)
  {
    AttrNamesSorted(h.unlock.Keys);
    match u
    case Member(n) => OrderAt(h.unlock.Keys, Order(h.unlock.Keys, n) - 1);
    case Import(p) => assert v.Member? && v.name in h.unlock;
    case Target => assert v.Member? ==> v.name in h.unlock;
  }

  ghost predicate Chain(h: Host, path: seq<Unit>) {
    forall i :: 0 <= i < |path| - 1 ==> path[i + 1] in After(h, path[i])
  }

  /** In either mode no unit is, however indirectly, ordered after itself. */
  lemma NoCycle(h: Host, path: seq<Unit>)
    requires |path| > 1 && Chain(h, path)
    ensures path[0] != path[|path| - 1]
  {
    Descends(h, path);
  }

  lemma {:induction false} Descends(h: Host, path: seq<Unit>)
    requires |path| > 1 && Chain(h, path)
    ensures Rank(h, path[|path| - 1]) < Rank(h, path[0])
  {
    AfterDescends(h, path[0], path[1]);
    if |path| > 2 {
      forall i | 0 <= i < |path[1..]| - 1 ensures path[1..][i + 1] in After(h, path[1..][i]) {
        assert path[i + 2] in After(h, path[i + 1]);
      }
      Descends(h, path[1..]);
    }
  }

  // ---- Runs. ----

  datatype Phase = Waiting | Asking | Running | Done(ok: bool)

  /** Where each job is, whether the shared passphrase is in the kernel keyring, how often
      the operator was prompted, and how many prompts got no right answer. */
  datatype State = State(phase: map<Unit, Phase>, cached: bool, prompts: nat, misses: nat)

  datatype Step =
    | Begin(u: Unit)                /** a member without a cached passphrase asks */
    | Skip(u: Unit)                 /** its device never appears, say */
    | Right(u: Unit)
    | Wrong(u: Unit, again: bool)   /** a wrong answer or none: asked again, or given up */
    | End(u: Unit, ok: bool)

  ghost function Start(h: Host): State { State(map u <- Jobs(h) :: Waiting, false, 0, 0) }

  /** After= holds a job back only while a job it names is unfinished, failed or not. */
  ghost predicate Ready(h: Host, s: State, u: Unit) {
    u in s.phase && s.phase[u] == Waiting && forall v <- After(h, u) :: v in s.phase ==> s.phase[v].Done?
  }

  ghost predicate Can(h: Host, s: State, step: Step) {
    match step
    case Begin(u) => Ready(h, s, u)
    case Skip(u) => Ready(h, s, u) && u != Target
    case Right(u) => u in s.phase && s.phase[u] == Asking
    case Wrong(u, _) => u in s.phase && s.phase[u] == Asking
    case End(u, ok) => u in s.phase && s.phase[u] == Running && (u == Target ==> ok)
  }

  function Do(s: State, step: Step): State {
    match step
    case Begin(u) =>
      if u.Member? && !s.cached then s.(phase := s.phase[u := Asking], prompts := s.prompts + 1)
      else s.(phase := s.phase[u := Running])
    case Skip(u) => s.(phase := s.phase[u := Done(false)])
    case Right(u) => s.(phase := s.phase[u := Running], cached := true)
    case Wrong(u, again) =>
      if again then s.(prompts := s.prompts + 1, misses := s.misses + 1)
      else s.(phase := s.phase[u := Done(false)], misses := s.misses + 1)
    case End(u, ok) => s.(phase := s.phase[u := Done(ok)])
  }

  /** The state after the steps, if the ordering allows them. */
  ghost function Run(h: Host, steps: seq<Step>): Option<State> {
    if steps == [] then Some(Start(h))
    else
      match Run(h, steps[..|steps| - 1])
      case None => None
      case Some(s) => var step := steps[|steps| - 1]; if Can(h, s, step) then Some(Do(s, step)) else None
  }

  // ---- Every run keeps the order. ----

  ghost predicate Ordered(h: Host, s: State) {
    && s.phase.Keys == Jobs(h)
    && forall u, v :: u in s.phase && v in s.phase && v in After(h, u) && s.phase[u] != Waiting ==> s.phase[v].Done?
  }

  lemma StepOrdered(h: Host, s: State, step: Step)
    requires Ordered(h, s) && Can(h, s, step)
    ensures Ordered(h, Do(s, step))
  {
    hide After, Jobs;
    assert step.u in s.phase;
    assert Do(s, step).phase.Keys == s.phase.Keys;
  }

  lemma {:induction false} RunOrdered(h: Host, steps: seq<Step>)
    requires Run(h, steps).Some?
    ensures Ordered(h, Run(h, steps).value)
  {
    hide Can, Ordered, Do;
    if steps == [] {
      StartOrdered(h);
    } else {
      RunOrdered(h, steps[..|steps| - 1]);
      StepOrdered(h, Run(h, steps[..|steps| - 1]).value, steps[|steps| - 1]);
    }
  }

  lemma StartOrdered(h: Host)
    ensures Ordered(h, Start(h))
  {
  }

  ghost predicate Busy(s: State, u: Unit) { u in s.phase && (s.phase[u] == Asking || s.phase[u] == Running) }

  /** A member past waiting has every member before it finished. */
  lemma {:induction false} EarlierDone(h: Host, s: State, a: string, b: string)
    requires Ordered(h, s) && !h.hot && a in h.unlock && b in h.unlock && LexLess(a, b)
    requires Member(b) in s.phase && s.phase[Member(b)] != Waiting
    ensures Member(a) in s.phase && s.phase[Member(a)].Done?
    decreases Order(h.unlock.Keys, b)
  {
    hide AttrNames, LexLess, Jobs, Ordered;
    OrderFollowsNames(h.unlock.Keys, a, b);
    var c := Previous(h, s, b);
    if c != a {
      OrderFollowsNames(h.unlock.Keys, a, c);
      EarlierDone(h, s, a, c);
    }
  }

  lemma Previous(h: Host, s: State, b: string) returns (c: string)
    requires Ordered(h, s) && !h.hot && b in h.unlock && Order(h.unlock.Keys, b) > 0
    requires Member(b) in s.phase && s.phase[Member(b)] != Waiting
    ensures c in h.unlock && Order(h.unlock.Keys, c) == Order(h.unlock.Keys, b) - 1
    ensures Member(c) in s.phase && s.phase[Member(c)].Done?
  {
    var keys := h.unlock.Keys;
    AttrNamesSorted(keys);
    OrderAt(keys, Order(keys, b) - 1);
    c := AttrNames(keys)[Order(keys, b) - 1];
    assert Member(c) in After(h, Member(b)) && Member(c) in Jobs(h);
  }

  /** Usb mode, any run: the members open one at a time, a pool is imported only after every
      member finished, and the target comes up only after everything it wants finished. */
  lemma UsbOrder(h: Host, steps: seq<Step>)
    requires !h.hot && Run(h, steps).Some?
    ensures var s := Run(h, steps).value;
            (forall a, b :: Busy(s, Member(a)) && Busy(s, Member(b)) ==> a == b) &&
            (forall p, n :: Import(p) in s.phase && s.phase[Import(p)] != Waiting && n in h.unlock ==>
              Member(n) in s.phase && s.phase[Member(n)].Done?) &&
            (Target in s.phase && s.phase[Target] != Waiting ==> forall u <- s.phase :: u == Target || s.phase[u].Done?)
  {
    RunOrdered(h, steps);
    var s := Run(h, steps).value;
    hide Run;
    forall a, b | Busy(s, Member(a)) && Busy(s, Member(b)) ensures a == b { OneBusy(h, s, a, b); }
    forall p, n | Import(p) in s.phase && s.phase[Import(p)] != Waiting && n in h.unlock
      ensures Member(n) in s.phase && s.phase[Member(n)].Done?
    {
      assert Member(n) in After(h, Import(p)) && Member(n) in Jobs(h);
    }
  }

  /** In either mode: once the target starts, every job it was raised with has finished. */
  lemma TargetLast(h: Host, steps: seq<Step>)
    requires Run(h, steps).Some?
    ensures var s := Run(h, steps).value;
            Target in s.phase && s.phase[Target] != Waiting ==>
              (forall u <- s.phase :: u == Target || s.phase[u].Done?) && forall p <- h.pools :: Import(p) in s.phase
  {
    RunOrdered(h, steps);
  }

  lemma OneBusy(h: Host, s: State, a: string, b: string)
    requires Ordered(h, s) && !h.hot && Busy(s, Member(a)) && Busy(s, Member(b))
    ensures a == b
  {
    assert Member(a) in Jobs(h) && Member(b) in Jobs(h);
    LexTotal(a, b);
    if LexLess(a, b) { EarlierDone(h, s, a, b); } else if LexLess(b, a) { EarlierDone(h, s, b, a); }
  }

  /** Hot mode, any run: no member is opened again and nothing waits on one. */
  lemma HotNeverUnlocks(h: Host, steps: seq<Step>, u: Unit)
    requires h.hot && Run(h, steps).Some? && u in Jobs(h)
    ensures var s := Run(h, steps).value;
            !u.Member? && (forall v <- After(h, u) :: v.Import?) && s.prompts == 0 && forall v <- s.phase :: !v.Member?
  {
    RunOrdered(h, steps);
    HotPrompts(h, steps);
  }

  lemma {:induction false} HotPrompts(h: Host, steps: seq<Step>)
    requires h.hot && Run(h, steps).Some?
    ensures Run(h, steps).value.prompts == 0 && forall v <- Run(h, steps).value.phase :: Run(h, steps).value.phase[v] != Asking
  {
    if steps != [] {
      var before := steps[..|steps| - 1];
      HotPrompts(h, before);
      RunOrdered(h, before);
    }
  }

  // ---- One passphrase, one prompt. ----

  ghost predicate Idle(s: State) { forall u <- s.phase :: s.phase[u] != Asking }

  /** While nobody is being asked, every prompt but the one right answer was a miss. */
  ghost predicate Counted(s: State) {
    && (forall u <- s.phase :: s.phase[u] == Asking ==> u.Member? && !s.cached)
    && s.prompts == s.misses + (if s.cached || !Idle(s) then 1 else 0)
  }

  /** Members take turns, so an asking member asks alone ... */
  lemma OnlyAsker(h: Host, s: State, u: Unit)
    requires !h.hot && Ordered(h, s) && Counted(s) && u in s.phase && s.phase[u] == Asking
    ensures forall v <- s.phase :: s.phase[v] == Asking ==> v == u
  {
    hide Ordered;
    forall v | v in s.phase && s.phase[v] == Asking ensures v == u { OneBusy(h, s, u.name, v.name); }
  }

  /** ... and nobody asks when a member's turn comes. */
  lemma NobodyAsks(h: Host, s: State, u: Unit)
    requires !h.hot && Counted(s) && u.Member? && u in s.phase && s.phase[u] == Waiting && Ordered(h, Do(s, Begin(u)))
    ensures Idle(s)
  {
    hide Ordered;
    var t := Do(s, Begin(u));
    forall v | v in s.phase && s.phase[v] == Asking ensures v == u { OneBusy(h, t, u.name, v.name); }
  }

  lemma Settle(s: State, t: State, u: Unit)
    requires u in s.phase && u in t.phase && t.phase == s.phase[u := t.phase[u]] && t.phase[u] != Asking
    requires forall v <- s.phase :: s.phase[v] == Asking ==> v == u
    ensures Idle(t)
  {
  }

  lemma StepCounted(h: Host, s: State, step: Step)
    requires !h.hot && Ordered(h, s) && Counted(s) && Can(h, s, step) && Ordered(h, Do(s, step))
    ensures Counted(Do(s, step))
  {
    hide Ordered;
    var t, u := Do(s, step), step.u;
    match step
    case Begin(_) =>
      if u.Member? {
        NobodyAsks(h, s, u);
        assert t.phase[u] == Asking || s.cached;
        if s.cached { Settle(s, t, u); }
      } else {
        SameAskers(s, t, u);
      }
    case Skip(_) => SameAskers(s, t, u);
    case End(_, _) => SameAskers(s, t, u);
    case Right(_) =>
      OnlyAsker(h, s, u);
      Settle(s, t, u);
    case Wrong(_, again) =>
      if again {
        assert t.phase == s.phase;
      } else {
        OnlyAsker(h, s, u);
        Settle(s, t, u);
      }
  }

  lemma SameAskers(s: State, t: State, u: Unit)
    requires u in s.phase && u in t.phase && t.phase == s.phase[u := t.phase[u]] && t.phase[u] != Asking && s.phase[u] != Asking
    ensures forall v <- s.phase :: s.phase[v] == Asking <==> t.phase[v] == Asking
    ensures Idle(s) <==> Idle(t)
  {
    if !Idle(s) {
      var v :| v in s.phase && s.phase[v] == Asking;
      assert v in t.phase && t.phase[v] == Asking;
    }
  }

  lemma {:induction false} RunCounted(h: Host, steps: seq<Step>)
    requires !h.hot && Run(h, steps).Some?
    ensures Counted(Run(h, steps).value)
  {
    hide Can, Ordered, Do;
    if steps != [] {
      var before := steps[..|steps| - 1];
      RunCounted(h, before);
      RunOrdered(h, before);
      RunOrdered(h, steps);
      StepCounted(h, Run(h, before).value, steps[|steps| - 1]);
    }
  }

  /** With one passphrase for all members the operator is prompted at most once more than
      there were prompts without a right answer: once in all when every answer is right. */
  lemma OnePrompt(h: Host, steps: seq<Step>)
    requires Run(h, steps).Some?
    ensures Run(h, steps).value.misses <= Run(h, steps).value.prompts <= Run(h, steps).value.misses + 1 || h.hot
    ensures h.hot ==> Run(h, steps).value.prompts == 0
  {
    if h.hot { HotPrompts(h, steps); } else { RunCounted(h, steps); }
  }

  // ---- Nothing gets stuck. ----

  ghost predicate Stuck(h: Host, s: State) { forall step :: !Can(h, s, step) }

  /** A job none of whose predecessors is unfinished is always able to move. */
  lemma {:induction false} StuckIsDone(h: Host, s: State, u: Unit)
    requires Ordered(h, s) && Stuck(h, s) && u in s.phase
    ensures s.phase[u].Done?
    decreases Rank(h, u)
  {
    forall v | v in After(h, u) && v in s.phase ensures s.phase[v].Done? {
      AfterDescends(h, u, v);
      StuckIsDone(h, s, v);
    }
    assert !Can(h, s, Begin(u)) && !Can(h, s, Right(u)) && !Can(h, s, End(u, true));
  }

  ghost predicate TargetSound(s: State) { Target in s.phase ==> s.phase[Target] != Done(false) && s.phase[Target] != Asking }

  lemma {:induction false} RunTarget(h: Host, steps: seq<Step>)
    requires Run(h, steps).Some?
    ensures TargetSound(Run(h, steps).value)
  {
    if steps != [] {
      var before := steps[..|steps| - 1];
      RunTarget(h, before);
      assert Run(h, before).Some?;
    }
  }

  /** A run that can go no further has raised the target and tried every import, whatever
      failed on the way, provided a member is declared; without one there is no target and
      no import is ever started. */
  lemma TargetIsRaised(h: Host, steps: seq<Step>)
    requires Run(h, steps).Some? && Stuck(h, Run(h, steps).value)
    ensures var s := Run(h, steps).value;
            (Target in s.phase && s.phase[Target] == Done(true) <==> h.unlock != map[]) &&
            forall p :: Import(p) in s.phase && s.phase[Import(p)].Done? <==> p in h.pools && h.unlock != map[]
  {
    RunOrdered(h, steps);
    RunTarget(h, steps);
    var s := Run(h, steps).value;
    hide Run;
    forall u | u in s.phase ensures s.phase[u].Done? { StuckIsDone(h, s, u); }
  }

  /** Steps left before every job is done, wrong answers aside. */
  ghost function Left(phase: map<Unit, Phase>, jobs: set<Unit>): nat
    requires jobs <= phase.Keys
    decreases |jobs|
  {
    if jobs == {} then 0 else Weight(phase[Pick(jobs)]) + Left(phase, jobs - {Pick(jobs)})
  }

  function Weight(p: Phase): nat {
    match p case Waiting => 3 case Asking => 2 case Running => 1 case Done(_) => 0
  }

  /** Moving one job changes the sum by exactly its own change. */
  lemma {:induction false} LeftMoves(phase: map<Unit, Phase>, jobs: set<Unit>, u: Unit, p: Phase)
    requires jobs <= phase.Keys && u in phase
    ensures Left(phase[u := p], jobs) == Left(phase, jobs) + (if u in jobs then Weight(p) - Weight(phase[u]) else 0)
    decreases |jobs|
  {
    if jobs != {} {
      var v := Pick(jobs);
      LeftMoves(phase, jobs - {v}, u, p);
    }
  }

  ghost function Pick(jobs: set<Unit>): (u: Unit)
    requires jobs != {}
    ensures u in jobs
  {
    var u :| u in jobs; u
  }

  lemma {:induction false} LeftAtMost(phase: map<Unit, Phase>, jobs: set<Unit>)
    requires jobs <= phase.Keys
    ensures Left(phase, jobs) <= 3 * |jobs|
    decreases |jobs|
  {
    if jobs != {} { LeftAtMost(phase, jobs - {Pick(jobs)}); }
  }

  lemma StepLeft(h: Host, s: State, step: Step)
    requires Can(h, s, step)
    ensures var t := Do(s, step);
            t.phase.Keys == s.phase.Keys && Left(t.phase, t.phase.Keys) - t.misses < Left(s.phase, s.phase.Keys) - s.misses
  {
    var t, u := Do(s, step), step.u;
    if t.phase != s.phase {
      assert t.phase.Keys == s.phase.Keys;
      LeftMoves(s.phase, s.phase.Keys, u, t.phase[u]);
    }
  }

  /** Every run ends: it has at most three steps a job and one for each missed prompt. */
  lemma {:induction false} RunEnds(h: Host, steps: seq<Step>)
    requires Run(h, steps).Some?
    ensures var s := Run(h, steps).value;
            |steps| + Left(s.phase, s.phase.Keys) <= 3 * |Jobs(h)| + s.misses
  {
    hide Can, Do;
    if steps == [] {
      assert Start(h).phase.Keys == Jobs(h);
      LeftAtMost(Start(h).phase, Jobs(h));
    } else {
      RunEnds(h, steps[..|steps| - 1]);
      StepLeft(h, Run(h, steps[..|steps| - 1]).value, steps[|steps| - 1]);
    }
  }
}
