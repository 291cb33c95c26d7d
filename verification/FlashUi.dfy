/** The stateful FLASH screen: fields rewritten key by key, proved to follow the state machine. */
module FlashUi {
  import opened Text
  import opened KeyLog
  import opened FlashScreen
  import opened FlashSession

  class FlashUi {
    var image: Option<Image>
    var disks: seq<Disk>
    var selected: nat
    var backup: bool
    var storePass: Option<string>
    var phase: Phase
    var receiving: bool
    var gaugeTitle: string
    var progress: (nat, nat)

    function View(): Screen
      reads this
    {
      Screen(image, disks, selected, backup, storePass, phase)
    }

    /** A receiver is held exactly while the worker runs. */
    ghost predicate Sane()
      reads this
    {
      FlashScreen.Valid(View()) && (receiving <==> phase.Running?)
    }

    constructor (image: Option<Image>, listing: Option<seq<Disk>>)
      ensures Sane() && View() == Opened(image, listing)
    {
      this.image := image;
      disks := if listing.Some? then listing.value else [];
      selected := 0;
      backup := true;
      storePass := None;
      phase := if image.Some? then Devices else Done(false);
      receiving := false;
      gaugeTitle, progress := "", (0, 0);
    }

    method RefreshDisks(listing: Option<seq<Disk>>)
      modifies this`disks, this`selected
      ensures View() == Refreshed(old(View()), listing)
    {
      match listing {
        case Some(found) => disks := found;
        case None => disks := [];
      }
      selected := Min(selected, Sub(|disks|, 1));
    }

    /** `arm`; the image is there in every state that gets here. */
    method Arm() returns (launch: Option<Launch>)
      requires image.Some?
      modifies this`storePass, this`phase, this`receiving
      ensures Some(View()) == FlashScreen.Arm(old(View())).screen && launch == FlashScreen.Arm(old(View())).launch
      ensures receiving == (old(receiving) || launch.Some?)
    {
      if selected >= |disks| { return None; }
      var grow := GrowsToFill(View());
      launch := Some(Launch(image.value, disks[selected], backup, grow, storePass));
      storePass := None;
      receiving := true;
      phase := Running;
    }

    /** The device list: move, refresh, choose. */
    method DeviceKey(key: Key, env: Env)
      requires phase.Devices? && !key.Esc?
      modifies this`selected, this`disks, this`phase
      ensures Some(View()) == FlashScreen.OnKey(old(View()), key, env).screen
    {
      match key {
        case Up => selected := Sub(selected, 1);
        case Down => selected := Min(selected + 1, Sub(|disks|, 1));
        case Enter => if selected < |disks| { phase := Summary; }
        case Char(c) =>
          if c == 'k' { selected := Sub(selected, 1); }
          else if c == 'j' { selected := Min(selected + 1, Sub(|disks|, 1)); }
          else if c == 'r' { RefreshDisks(env.listing); }
        case _ =>
      }
    }

    /** `on_key`; `closed` when the screen is backed out of. */
    method OnKey(key: Key, env: Env) returns (closed: bool, launch: Option<Launch>)
      requires Sane()
      modifies this
      ensures var r := FlashScreen.OnKey(old(View()), key, env);
              launch == r.launch && closed == r.screen.None? && (r.screen.Some? ==> View() == r.screen.value)
      ensures Sane()
    {
      KeyKeeps(View(), key, env);
      closed, launch := false, None;
      match phase {
        case Devices =>
          if key.Esc? { closed := true; } else { DeviceKey(key, env); }
        case Summary =>
          if key.Esc? { phase := Devices; }
          else if key.Enter? && ImageFits(View()) { phase := BackupAsk; }
        case BackupAsk =>
          if key.Esc? { phase := Summary; }
          else if IsAnswer(key) {
            backup := IsYes(key);
            phase := if GrowsToFill(View()) then StorePass("") else Confirm("", false);
          }
        case StorePass(buf) =>
          if key.Esc? { phase := Summary; }
          else if key.Enter? {
            storePass := if buf == "" then None else Some(buf);
            phase := Confirm("", false);
          } else { phase := StorePass(Edit(buf, key)); }
        case Confirm(typed, mismatch) =>
          if key.Esc? { phase := Summary; }
          else if key.Enter? { launch := NameEntered(typed, env); }
          else { phase := Confirm(Edit(typed, key), mismatch); }
        case SudoPass(buf, wrong) =>
          if key.Esc? { phase := Summary; }
          else if key.Enter? { launch := SudoEntered(buf, env); }
          else { phase := SudoPass(Edit(buf, key), wrong); }
        case Running =>
        case Done(_) => closed := key.Esc? || key.Enter?;
      }
    }

    method NameEntered(typed: string, env: Env) returns (launch: Option<Launch>)
      requires Sane() && phase.Confirm? && phase.typed == typed
      modifies this`storePass, this`phase, this`receiving
      ensures var r := ConfirmEnter(old(View()), typed, env); Some(View()) == r.screen && launch == r.launch
      ensures receiving == launch.Some?
    {
      launch := None;
      phase := Confirm("", phase.mismatch);
      if selected >= |disks| { return; }
      if Trim(typed) != disks[selected].name {
        phase := Confirm("", true);
        return;
      }
      match env.preflight {
        case Root => launch := Arm();
        case NeedsSudo => phase := SudoPass("", false);
        case NoSudo => phase := Done(false);
      }
    }

    method SudoEntered(entered: string, env: Env) returns (launch: Option<Launch>)
      requires Sane() && phase.SudoPass? && phase.sudo == entered
      modifies this`storePass, this`phase, this`receiving
      ensures var r := SudoEnter(old(View()), entered, env); Some(View()) == r.screen && launch == r.launch
      ensures receiving == launch.Some?
    {
      launch := None;
      phase := SudoPass("", phase.wrong);
      match env.auth(entered) {
        case Accepted => launch := Arm();
        case Wrong => phase := SudoPass("", true);
        case Missing => phase := Done(false);
        case AuthError => phase := Done(false);
      }
    }

    /** `drain_events`: everything the worker sent since the last frame. */
    method DrainEvents(events: seq<FlashEvent>)
      requires Sane()
      modifies this
      ensures Sane()
      ensures var verdict := if old(receiving) then LastFinish(events) else None;
              View() == old(View()).(phase := if verdict.Some? then Done(verdict.value) else old(phase))
    {
      if !receiving { return; }
      var done: Option<bool> := None;
      for i := 0 to |events|
        invariant View() == old(View()) && receiving
        invariant done == LastFinish(events[..i])
      {
        assert events[..i + 1][..i] == events[..i];
        match events[i] {
          case PhaseTitle(title) => gaugeTitle, progress := title, (0, 0);
          case Progress(d, total) => progress := (d, total);
          case Finished(ok) => done := Some(ok);
        }
      }
      assert events[..|events|] == events;
      if done.Some? {
        receiving := false;
        phase := Done(done.value);
      }
    }
  }

  // ---- The screen in use. ----

  /** What reaches the screen: a key, or the worker's events since the last frame. */
  datatype UiInput = Keyed(key: Key, env: Env) | Events(batch: seq<FlashEvent>)

  function AsInputs(input: UiInput): seq<Input> {
    match input
    case Keyed(key, env) => [Press(key, env)]
    case Events(batch) => match LastFinish(batch) case None => [] case Some(ok) => [WorkerDone(ok)]
  }

  function AllInputs(inputs: seq<UiInput>): seq<Input> {
    if inputs == [] then [] else AllInputs(inputs[..|inputs| - 1]) + AsInputs(inputs[|inputs| - 1])
  }

  /** The workers started so far are those of the session. */
  ghost predicate Launches(launches: seq<Launch>, t: Session) {
    |launches| == |t.launches| && forall i :: 0 <= i < |launches| ==> launches[i] == t.launches[i].launch
  }

  /** The stateful screen shows the session's screen until it is closed. */
  ghost predicate InStep(ui: FlashUi, closed: bool, t: Session)
    reads ui
  {
    if closed then t.screen.None? else ui.Sane() && t.screen == Some(ui.View())
  }

  /** One input to the screen is one step of the session. */
  method Feed(ui: FlashUi, input: UiInput, ghost t: Session) returns (closed: bool, launch: Option<Launch>)
    requires Sound(t) && InStep(ui, false, t)
    modifies ui
    ensures var u := Play(t, AsInputs(input));
            && InStep(ui, closed, u)
            && (launch.None? ==> u.launches == t.launches)
            && (launch.Some? ==> |u.launches| == |t.launches| + 1 && u.launches[..|t.launches|] == t.launches
                                 && u.launches[|t.launches|].launch == launch.value)
  {
    hide Shows, Authorised, FlashScreen.Valid, FlashScreen.OnKey;
    closed, launch := false, None;
    match input
    case Keyed(key, env) =>
      PlayOne(t, Press(key, env));
      closed, launch := ui.OnKey(key, env);
    case Events(batch) =>
      ui.DrainEvents(batch);
      if LastFinish(batch).Some? { PlayOne(t, WorkerDone(LastFinish(batch).value)); }
  }

  lemma PlayOne(t: Session, input: Input)
    requires Sound(t)
    ensures Play(t, [input]) == Step(t, input)
  {
    StepSound(t, input);
    assert [input][1..] == [];
  }

  /** The screen under any keys and events starts exactly the workers of the session, so each
      of them is authorised by the keys pressed. */
  method Drive(image: Option<Image>, listing: Option<seq<Disk>>, inputs: seq<UiInput>) returns (launches: seq<Launch>)
    ensures Sound(Begin(image, listing))
    ensures var end := Play(Begin(image, listing), AllInputs(inputs));
            Launches(launches, end) && forall l <- end.launches :: Authorised(l)
    ensures |launches| <= 1 && forall l <- launches :: Some(l.image) == image
  {
    hide Shows, Authorised, FlashScreen.Valid;
    var ui := new FlashUi(image, listing);
    EveryLaunchAuthorised(image, listing, []);
    ghost var begin := Begin(image, listing);
    ghost var t := begin;
    launches := [];
    var closed := false;
    for i := 0 to |inputs|
      invariant fresh(ui) && Sound(t) && t == Play(begin, AllInputs(inputs[..i]))
      invariant InStep(ui, closed, t) && Launches(launches, t)
    {
      assert inputs[..i + 1][..i] == inputs[..i];
      PlayOn(begin, AllInputs(inputs[..i]), AsInputs(inputs[i]));
      PlaySound(t, AsInputs(inputs[i]));
      ClosedStays(t, AsInputs(inputs[i]));
      if !closed {
        var launch;
        closed, launch := Feed(ui, inputs[i], t);
        launches := if launch.Some? then launches + [launch.value] else launches;
      }
      t := Play(t, AsInputs(inputs[i]));
    }
    assert inputs[..|inputs|] == inputs;
    EveryLaunchAuthorised(image, listing, AllInputs(inputs));
  }

  lemma {:induction false} ClosedStays(t: Session, inputs: seq<Input>)
    requires Sound(t)
    ensures t.screen.None? ==> Play(t, inputs) == t
    decreases inputs
  {
    if inputs != [] && t.screen.None? { ClosedStays(t, inputs[1..]); }
  }
}
