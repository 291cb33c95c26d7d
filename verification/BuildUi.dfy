/** The stateful BUILD & FLASH screen: fields rewritten key by key and event by event, proved
    to follow the state machine of BuildFlow. */
module BuildUi {
  import opened Text
  import opened KeyLog
  import opened BuildFlow
  import opened BuildSession

  /** The pane keeps at most this many log lines, and is cut in chunks. */
  const MAX_LOG_LINES: nat := 10_000
  const TRIM_CHUNK: nat := 2_000

  datatype BuildEvent = Line(text: string) | Built(image: Option<Image>, statOk: bool)

  function Lines(events: seq<BuildEvent>): seq<string> {
    if events == [] then []
    else Lines(events[..|events| - 1]) + (if events[|events| - 1].Line? then [events[|events| - 1].text] else [])
  }

  /** The lines of a batch are those of its parts, in order. */
  lemma {:induction false} LinesConcat(a: seq<BuildEvent>, b: seq<BuildEvent>)
    ensures Lines(a + b) == Lines(a) + Lines(b)
    decreases |b|
  {
    if b == [] {
      assert a + b == a;
    } else {
      LinesConcat(a, b[..|b| - 1]);
      assert (a + b)[..|a + b| - 1] == a + b[..|b| - 1];
    }
  }

  lemma LinesOne(text: string, built: BuildEvent)
    requires built.Built?
    ensures Lines([Line(text)]) == [text] && Lines([built]) == []
  {
    assert [Line(text)][..0] == [] && [built][..0] == [];
  }

  /** The last terminal event of a batch counts. */
  lemma {:induction false} LastBuiltIs(before: seq<BuildEvent>, built: BuildEvent, rest: seq<BuildEvent>)
    requires built.Built? && forall e <- rest :: e.Line?
    ensures LastBuilt(before + [built] + rest) == Some(built)
    decreases |rest|
  {
    var all := before + [built] + rest;
    if rest != [] {
      LastBuiltIs(before, built, rest[..|rest| - 1]);
      assert all[|all| - 1] == rest[|rest| - 1] && rest[|rest| - 1] in rest;
      assert all[..|all| - 1] == before + [built] + rest[..|rest| - 1];
    }
  }

  function LastBuilt(events: seq<BuildEvent>): (r: Option<BuildEvent>)
    ensures r.Some? ==> r.value.Built?
  {
    if events == [] then None
    else if events[|events| - 1].Built? then Some(events[|events| - 1])
    else LastBuilt(events[..|events| - 1])
  }

  /** Lines dropped from the front of a log of `n` lines. */
  function Cut(n: nat): nat { if n > MAX_LOG_LINES then n - (MAX_LOG_LINES - TRIM_CHUNK) else 0 }

  /** A key enters the build or the flash exactly by starting its worker. */
  lemma KeyStarts(s: Flow, key: Key, env: Env)
    requires BuildFlow.Valid(s)
    ensures var r := OnKey(s, key, env);
            r.flow.Some? ==>
              && (r.flow.value.stage.Building? <==> s.stage.Building? || r.build.Some?)
              && (r.flow.value.stage.Flashing? <==> s.stage.Flashing? || r.flash.Some?)
    ensures var r := OnKey(s, key, env);
            && (r.build.Some? ==> s.stage.PassConfirm?) && (r.flash.Some? ==> Arming(s.stage))
            && (r.flow.None? ==> r.build.None? && r.flash.None?)
  {}

  class BuildUi {
    var disks: seq<Disk>
    var selected: nat
    var pickError: bool
    var picked: Option<Target>
    var backup: bool
    var stage: Stage
    var built: Option<Image>
    var building: bool
    var flashing: bool
    var log: seq<string>
    var scroll: nat
    var follow: bool

    function View(): Flow
      reads this
    {
      Flow(disks, selected, pickError, picked, backup, stage, built)
    }

    /** A receiver is held exactly while its worker runs. */
    ghost predicate Sane()
      reads this
    {
      BuildFlow.Valid(View()) && (building <==> stage.Building?) && (flashing <==> stage.Flashing?)
    }

    constructor (available: bool, listing: Option<seq<Disk>>)
      ensures Sane() && View() == Opened(available, listing)
    {
      disks := if available && listing.Some? then listing.value else [];
      selected, pickError, picked, backup := 0, false, None, true;
      stage := if available then PickDevice else Unavailable;
      built, building, flashing, log, scroll, follow := None, false, false, [], 0, true;
    }

    method RefreshDisks(listing: Option<seq<Disk>>)
      modifies this`disks, this`selected
      ensures View() == Refreshed(old(View()), listing)
    {
      match listing {
        case Some(found) => disks := found;
        case None => disks := [];
      }
      selected := Min(selected, Sub(|disks|, 1));
    }

    method ArmFlash() returns (job: Option<FlashJob>)
      modifies this`stage, this`flashing
      ensures Some(View()) == BuildFlow.ArmFlash(old(View())).flow && job == BuildFlow.ArmFlash(old(View())).flash
      ensures flashing == (old(flashing) || job.Some?)
    {
      if picked.None? || built.None? { return None; }
      stage, flashing := Flashing, true;
      return Some(FlashJob(built.value, picked.value, backup));
    }

    /** The stick list: move, refresh, pick. */
    method ListKey(key: Key, env: Env)
      requires stage.PickDevice? && !key.Esc?
      modifies this`selected, this`disks, this`pickError, this`picked, this`stage
      ensures Some(View()) == BuildFlow.OnKey(old(View()), key, env).flow
    {
      match key {
        case Up => selected := Sub(selected, 1);
        case Down => selected := Min(selected + 1, Sub(|disks|, 1));
        case Enter =>
          if selected >= |disks| { return; }
          var name := disks[selected].name;
          match env.bytes(name) {
            case None => pickError := true;
            case Some(bytes) =>
              if bytes < MIN_IMAGE_BYTES {
                pickError := true;
              } else {
                picked, pickError, stage := Some(Target(name, bytes)), false, PassFirst("", false);
              }
          }
        case Char(c) =>
          if c == 'k' { selected := Sub(selected, 1); }
          else if c == 'j' { selected := Min(selected + 1, Sub(|disks|, 1)); }
          else if c == 'r' { RefreshDisks(env.listing); }
        case _ =>
      }
    }

    /** The two passphrase fields. */
    method PassKey(key: Key, env: Env) returns (build: Option<BuildJob>)
      requires Sane() && (stage.PassFirst? || stage.PassConfirm?) && !key.Esc?
      modifies this`stage, this`building, this`log
      ensures Some(View()) == BuildFlow.OnKey(old(View()), key, env).flow && build == BuildFlow.OnKey(old(View()), key, env).build
      ensures building == build.Some?
    {
      build := None;
      match stage {
        case PassFirst(buf, complaint) =>
          if !key.Enter? { stage := PassFirst(Edit(buf, key), complaint); }
          else { stage := if buf == "" then PassFirst("", true) else PassConfirm(buf, ""); }
        case PassConfirm(first, again) =>
          if !key.Enter? { stage := PassConfirm(first, Edit(again, key)); }
          else if first == again {
            build := Some(BuildJob(first, if picked.Some? then picked.value.bytes else 0));
            log, stage, building := [], Building, true;
          } else { stage := PassFirst("", true); }
      }
    }

    /** Mid-build only the log pane moves. */
    method ScrollKey(key: Key)
      modifies this`scroll, this`follow
    {
      if key.Up? { follow, scroll := false, Sub(scroll, 1); }
      else if key.Down? { scroll := scroll + 1; }
      else if key == Char('f') { follow := true; }
    }

    method NameEntered(typed: string, env: Env) returns (job: Option<FlashJob>)
      requires Sane() && stage.FlashConfirm? && stage.typed == typed
      modifies this`stage, this`flashing
      ensures var r := ConfirmEnter(old(View()), typed, env); Some(View()) == r.flow && job == r.flash
      ensures flashing == job.Some?
    {
      job := None;
      if Trim(typed) != picked.value.name {
        stage := FlashConfirm("", true);
        return;
      }
      match env.preflight {
        case Root => job := ArmFlash();
        case NeedsSudo => stage := FlashSudo("", false);
        case NoSudo => stage := Done(false);
      }
    }

    method SudoEntered(entered: string, env: Env) returns (job: Option<FlashJob>)
      requires Sane() && stage.FlashSudo? && stage.sudo == entered
      modifies this`stage, this`flashing
      ensures var r := SudoEnter(old(View()), entered, env); Some(View()) == r.flow && job == r.flash
      ensures flashing == job.Some?
    {
      job := None;
      match env.auth(entered) {
        case Accepted => job := ArmFlash();
        case Wrong => stage := FlashSudo("", true);
        case Missing => stage := Done(false);
        case AuthError => stage := Done(false);
      }
    }

    /** From the review to the write. */
    method ArmKey(key: Key, env: Env) returns (job: Option<FlashJob>)
      requires Sane() && (Arming(stage) || (stage.FlashReview? && !key.Esc?))
      modifies this`stage, this`flashing, this`backup
      ensures var r := BuildFlow.OnKey(old(View()), key, env); Some(View()) == r.flow && job == r.flash
      ensures flashing == job.Some?
    {
      job := None;
      match stage {
        case FlashReview => if key.Enter? && ImageFits(View()) { stage := FlashBackupAsk; }
        case FlashBackupAsk =>
          if key.Esc? { stage := FlashReview; }
          else if IsAnswer(key) { backup, stage := IsYes(key), FlashConfirm("", false); }
        case FlashConfirm(typed, mismatch) =>
          if key.Esc? { stage := FlashReview; }
          else if key.Enter? { job := NameEntered(typed, env); }
          else { stage := FlashConfirm(Edit(typed, key), mismatch); }
        case FlashSudo(buf, wrong) =>
          if key.Esc? { stage := FlashReview; }
          else if key.Enter? { job := SudoEntered(buf, env); }
          else { stage := FlashSudo(Edit(buf, key), wrong); }
      }
    }

    /** `on_key`; `closed` when the screen is backed out of. */
    method OnKey(key: Key, env: Env) returns (closed: bool, build: Option<BuildJob>, job: Option<FlashJob>)
      requires Sane()
      modifies this
      ensures var r := BuildFlow.OnKey(old(View()), key, env);
              build == r.build && job == r.flash && closed == r.flow.None? && (r.flow.Some? ==> View() == r.flow.value)
      ensures Sane()
    {
      KeyKeeps(View(), key, env);
      KeyStarts(View(), key, env);
      closed, build, job := false, None, None;
      match stage {
        case Unavailable => closed := key.Esc? || key.Enter?;
        case Done(_) => closed := key.Esc? || key.Enter?;
        case Building => ScrollKey(key);
        case Flashing =>
        case PickDevice => if key.Esc? { closed := true; } else { ListKey(key, env); }
        case PassFirst(_, _) => if key.Esc? { closed := true; } else { build := PassKey(key, env); }
        case PassConfirm(_, _) => if key.Esc? { closed := true; } else { build := PassKey(key, env); }
        case FlashReview => if key.Esc? { closed := true; } else { job := ArmKey(key, env); }
        case _ => job := ArmKey(key, env);
      }
    }

    /** The build half of `drain_events`: lines to the bounded pane, then the verdict. */
    method DrainBuild(events: seq<BuildEvent>)
      requires Sane() && building
      modifies this
      ensures Sane()
      ensures var all := old(log) + Lines(events);
              log == all[Cut(|all|)..] && |log| == if |all| > 10_000 then 8_000 else |all|
      ensures scroll == Sub(old(scroll), Cut(|old(log) + Lines(events)|))
      ensures View() == match LastBuilt(events)
                        case None => old(View())
                        case Some(b) => BuildDone(old(View()), b.image, b.statOk)
    {
      ghost var before := log;
      var done: Option<BuildEvent> := None;
      for i := 0 to |events|
        invariant View() == old(View()) && building && !flashing && scroll == old(scroll)
        invariant log == before + Lines(events[..i]) && done == LastBuilt(events[..i])
        invariant done.Some? ==> done.value.Built?
      {
        assert events[..i + 1][..i] == events[..i];
        match events[i] {
          case Line(text) => log := log + [text];
          case Built(_, _) => done := Some(events[i]);
        }
      }
      assert events[..|events|] == events;
      if |log| > MAX_LOG_LINES {
        var cut := |log| - (MAX_LOG_LINES - TRIM_CHUNK);
        log, scroll := log[cut..], Sub(scroll, cut);
      }
      if done.Some? { Receive(done.value.image, done.value.statOk); }
    }

    method Receive(image: Option<Image>, statOk: bool)
      modifies this`building, this`built, this`stage
      ensures View() == BuildDone(old(View()), image, statOk) && !building
    {
      building := false;
      match image {
        case Some(i) =>
          built := Some(Image(i.path, if statOk then i.size else 0));
          stage := FlashReview;
        case None => stage := Done(false);
      }
    }

    /** The flash half of `drain_events`. */
    method DrainFlash(events: seq<FlashEvent>)
      requires Sane() && flashing
      modifies this
      ensures Sane()
      ensures View() == match LastFinish(events) case None => old(View()) case Some(ok) => old(View()).(stage := Done(ok))
    {
      var done: Option<bool> := None;
      for i := 0 to |events|
        invariant View() == old(View()) && flashing && !building && done == LastFinish(events[..i])
      {
        assert events[..i + 1][..i] == events[..i];
        if events[i].Finished? { done := Some(events[i].ok); }
      }
      assert events[..|events|] == events;
      if done.Some? {
        flashing, stage := false, Done(done.value);
      }
    }

    /** `drain_events`: what either worker sent since the last frame. */
    method DrainEvents(build: seq<BuildEvent>, flash: seq<FlashEvent>)
      requires Sane()
      modifies this
      ensures Sane()
      ensures var built := if old(building) then LastBuilt(build) else None;
              var shown := if built.Some? then BuildDone(old(View()), built.value.image, built.value.statOk) else old(View());
              View() == if old(flashing) && LastFinish(flash).Some? then shown.(stage := Done(LastFinish(flash).value)) else shown
    {
      hide BuildFlow.Valid;
      if building { DrainBuild(build); }
      if flashing { DrainFlash(flash); }
    }
  }

  // ---- The screen in use. ----

  /** What reaches the screen: a key, or the workers' events since the last frame. */
  datatype UiInput = Keyed(key: Key, env: Env) | Events(build: seq<BuildEvent>, flash: seq<FlashEvent>)

  function AsInputs(input: UiInput): seq<Input> {
    match input
    case Keyed(key, env) => [Press(key, env)]
    case Events(build, flash) =>
      (match LastBuilt(build) case None => [] case Some(b) => [BuildEnds(b.image, b.statOk)])
      + (match LastFinish(flash) case None => [] case Some(ok) => [FlashEnds(ok)])
  }

  function AllInputs(inputs: seq<UiInput>): seq<Input> {
    if inputs == [] then [] else AllInputs(inputs[..|inputs| - 1]) + AsInputs(inputs[|inputs| - 1])
  }

  /** The workers started so far are those of the session. */
  ghost predicate Builds(builds: seq<BuildJob>, t: Session) {
    |builds| == |t.builds| && forall i :: 0 <= i < |builds| ==> builds[i] == t.builds[i].job
  }

  ghost predicate Flashes(flashes: seq<FlashJob>, t: Session) {
    |flashes| == |t.flashes| && forall i :: 0 <= i < |flashes| ==> flashes[i] == t.flashes[i].job
  }

  /** The stateful screen shows the session's screen until it is closed. */
  ghost predicate InStep(ui: BuildUi, closed: bool, t: Session)
    reads ui
  {
    if closed then t.flow.None? else ui.Sane() && t.flow == Some(ui.View())
  }

  /** One input to the screen is that much of the session, and a worker it starts is the one
      the session adds. */
  method Feed(ui: BuildUi, input: UiInput, ghost t: Session) returns (closed: bool, build: Option<BuildJob>, flash: Option<FlashJob>)
    requires Sound(t) && InStep(ui, false, t)
    modifies ui
    ensures var u := Play(t, AsInputs(input));
            InStep(ui, closed, u) && BuildAdded(t, u, build) && FlashAdded(t, u, flash)
  {
    hide Shows, BuildAuthorised, FlashAuthorised, BuildFlow.OnKey, BuildFlow.Valid, Logged, NextPass, NextMarks;
    closed, build, flash := false, None, None;
    match input
    case Keyed(key, env) =>
      PlayOne(t, Press(key, env));
      StageStep(t.flow.value, key, env);
      closed, build, flash := ui.OnKey(key, env);
    case Events(fromBuild, fromFlash) =>
      ui.DrainEvents(fromBuild, fromFlash);
      PlayBatch(t, LastBuilt(fromBuild), LastFinish(fromFlash));
  }

  ghost predicate BuildAdded(t: Session, u: Session, build: Option<BuildJob>) {
    if build.None? then u.builds == t.builds
    else |u.builds| == |t.builds| + 1 && u.builds[..|t.builds|] == t.builds && u.builds[|t.builds|].job == build.value
  }

  ghost predicate FlashAdded(t: Session, u: Session, flash: Option<FlashJob>) {
    if flash.None? then u.flashes == t.flashes
    else |u.flashes| == |t.flashes| + 1 && u.flashes[..|t.flashes|] == t.flashes && u.flashes[|t.flashes|].job == flash.value
  }

  lemma PlayOne(t: Session, input: Input)
    ensures Play(t, [input]) == Step(t, input)
  {
    assert [input][1..] == [];
  }

  lemma PlayBatch(t: Session, built: Option<BuildEvent>, finish: Option<bool>)
    requires built.Some? ==> built.value.Built?
    ensures var first := match built case None => [] case Some(b) => [BuildEnds(b.image, b.statOk)];
            var last := match finish case None => [] case Some(ok) => [FlashEnds(ok)];
            var u := if built.Some? then Step(t, BuildEnds(built.value.image, built.value.statOk)) else t;
            Play(t, first + last) == if finish.Some? then Step(u, FlashEnds(finish.value)) else u
  {
    hide Step;
    var first := match built case None => [] case Some(b) => [BuildEnds(b.image, b.statOk)];
    var last := match finish case None => [] case Some(ok) => [FlashEnds(ok)];
    PlayOn(t, first, last);
    if built.Some? { PlayOne(t, first[0]); }
    if finish.Some? { PlayOne(Play(t, first), last[0]); }
  }

  /** The same for a screen that may be closed, which nothing reaches. */
  method Offer(ui: BuildUi, wasClosed: bool, input: UiInput, ghost t: Session)
    returns (closed: bool, build: Option<BuildJob>, flash: Option<FlashJob>)
    requires Sound(t) && InStep(ui, wasClosed, t)
    modifies ui
    ensures var u := Play(t, AsInputs(input));
            Sound(u) && InStep(ui, closed, u) && BuildAdded(t, u, build) && FlashAdded(t, u, flash)
  {
    hide Sound, AsInputs;
    PlaySound(t, AsInputs(input));
    closed, build, flash := wasClosed, None, None;
    if wasClosed {
      ClosedStays(t, AsInputs(input));
    } else {
      closed, build, flash := Feed(ui, input, t);
    }
  }

  lemma BuildsGrow(builds: seq<BuildJob>, t: Session, u: Session, build: Option<BuildJob>)
    requires Builds(builds, t) && BuildAdded(t, u, build)
    ensures Builds(if build.Some? then builds + [build.value] else builds, u)
  {
    assert build.Some? ==> forall i :: 0 <= i < |t.builds| ==> u.builds[i] == u.builds[..|t.builds|][i];
  }

  lemma FlashesGrow(flashes: seq<FlashJob>, t: Session, u: Session, flash: Option<FlashJob>)
    requires Flashes(flashes, t) && FlashAdded(t, u, flash)
    ensures Flashes(if flash.Some? then flashes + [flash.value] else flashes, u)
  {
    assert flash.Some? ==> forall i :: 0 <= i < |t.flashes| ==> u.flashes[i] == u.flashes[..|t.flashes|][i];
  }

  /** The screen under any keys and events starts exactly the workers of the session, so each
      of them is authorised by the keys pressed. */
  method Drive(available: bool, listing: Option<seq<Disk>>, inputs: seq<UiInput>)
    returns (builds: seq<BuildJob>, flashes: seq<FlashJob>)
    ensures var end := Play(Begin(available, listing), AllInputs(inputs));
            && Builds(builds, end) && Flashes(flashes, end) && |builds| <= 1 && |flashes| <= 1
            && (forall b <- end.builds :: BuildAuthorised(b))
            && (forall f <- end.flashes :: FlashAuthorised(f, end.builds, end.reported))
  {
    hide Sound, BuildAuthorised, FlashAuthorised, BuildFlow.Valid, Step, AsInputs, BuildAdded, FlashAdded;
    var ui := new BuildUi(available, listing);
    EveryStartAuthorised(available, listing, []);
    ghost var begin := Begin(available, listing);
    ghost var t := begin;
    builds, flashes := [], [];
    assert Builds(builds, begin) && Flashes(flashes, begin);
    hide Builds, Flashes, AllInputs, Play;
    var closed := false;
    NoInputsYet(begin, inputs);
    for i := 0 to |inputs|
      invariant fresh(ui) && Sound(t) && t == Play(begin, AllInputs(inputs[..i]))
      invariant InStep(ui, closed, t) && Builds(builds, t) && Flashes(flashes, t)
    {
      OneMoreInput(begin, inputs, i);
      var build, flash;
      closed, build, flash := Offer(ui, closed, inputs[i], t);
      ghost var u := Play(t, AsInputs(inputs[i]));
      BuildsGrow(builds, t, u, build);
      FlashesGrow(flashes, t, u, flash);
      builds := if build.Some? then builds + [build.value] else builds;
      flashes := if flash.Some? then flashes + [flash.value] else flashes;
      t := u;
    }
    assert inputs[..|inputs|] == inputs;
    EveryStartAuthorised(available, listing, AllInputs(inputs));
    SameCount(builds, flashes, t);
  }

  lemma NoInputsYet(t: Session, inputs: seq<UiInput>)
    ensures t == Play(t, AllInputs(inputs[..0]))
  {}

  lemma OneMoreInput(t: Session, inputs: seq<UiInput>, i: nat)
    requires i < |inputs|
    ensures Play(t, AllInputs(inputs[..i + 1])) == Play(Play(t, AllInputs(inputs[..i])), AsInputs(inputs[i]))
  {
    assert inputs[..i + 1][..i] == inputs[..i];
    PlayOn(t, AllInputs(inputs[..i]), AsInputs(inputs[i]));
  }

  lemma SameCount(builds: seq<BuildJob>, flashes: seq<FlashJob>, t: Session)
    requires Builds(builds, t) && Flashes(flashes, t)
    ensures |builds| == |t.builds| && |flashes| == |t.flashes|
  {}

  lemma {:induction false} ClosedStays(t: Session, inputs: seq<Input>)
    ensures t.flow.None? ==> Play(t, inputs) == t
    decreases inputs
  {
    if inputs != [] && t.flow.None? { ClosedStays(t, inputs[1..]); }
  }
}
