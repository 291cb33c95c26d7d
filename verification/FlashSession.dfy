/** What every sequence of keys and worker events on the FLASH screen guarantees. */
module FlashSession {
  import opened Text
  import opened KeyLog
  import opened FlashScreen

  /** The passphrase part of a visit is settled. */
  predicate PassSettled(log: seq<Seen<Disk>>, m: Marks, grows: bool, pass: Option<string>) {
    if grows then PassEntered(log, m, pass) else m.passEnd == m.answer
  }

  /** What the key log must show in each phase. */
  predicate Shows(s: Screen, log: seq<Seen<Disk>>, m: Marks)
    requires PastSummary(s.phase) ==> SelectedDisk(s).Some?
  {
    match s.phase
    case StorePass(buf) =>
      && Visit(log, m, SelectedDisk(s).value, s.backup)
      && Entry(log, m.answer + 1, |log|, OnStorePass) && buf == Edited(log[m.answer + 1..])
    case Confirm(typed, _) =>
      && Visit(log, m, SelectedDisk(s).value, s.backup) && PassSettled(log, m, GrowsToFill(s), s.storePass)
      && NameField(log, m) && Entry(log, m.open, |log|, OnConfirm) && typed == Edited(log[m.open..])
    case SudoPass(_, _) =>
      && Visit(log, m, SelectedDisk(s).value, s.backup) && PassSettled(log, m, GrowsToFill(s), s.storePass)
      && NameAccepted(log, m, SelectedDisk(s).value.name)
    case _ => true
  }

  ghost predicate Sound(t: Session) {
    && (t.screen.Some? ==> Valid(t.screen.value) && Shows(t.screen.value, t.log, t.marks))
    && forall l <- t.launches :: Authorised(l)
  }

  // ---- One more key in the log. ----

  lemma PassGrows(log: seq<Seen<Disk>>, x: Seen<Disk>, m: Marks, grows: bool, pass: Option<string>)
    requires PassSettled(log, m, grows, pass)
    ensures PassSettled(log + [x], m, grows, pass)
  {
    if grows { assert (log + [x])[m.answer + 1..m.passEnd] == log[m.answer + 1..m.passEnd]; }
  }

  // ---- The phases in turn. ----

  function Logged(s: Screen, log: seq<Seen<Disk>>, key: Key): seq<Seen<Disk>> { log + [Seen(TagOf(s.phase), SelectedDisk(s), key)] }

  function NextMarks(s: Screen, log: seq<Seen<Disk>>, m: Marks, key: Key, env: Env): Marks
    requires Valid(s)
  {
    Marked(m, s, key, OnKey(s, key, env).screen, |log|)
  }

  /** The claim for one key on one phase. */
  ghost predicate KeySound(s: Screen, log: seq<Seen<Disk>>, m: Marks, key: Key, env: Env)
    requires Valid(s)
  {
    var r := OnKey(s, key, env);
    var log', m' := Logged(s, log, key), NextMarks(s, log, m, key, env);
    && (r.screen.Some? ==> Valid(r.screen.value) && Shows(r.screen.value, log', m'))
    && (r.launch.Some? ==> Authorised(Launched(r.launch.value, log', m')))
  }

  lemma AnswerSound(s: Screen, log: seq<Seen<Disk>>, m: Marks, key: Key, env: Env)
    requires Valid(s) && s.phase.BackupAsk?
    ensures KeySound(s, log, m, key, env)
  {
    KeyKeeps(s, key, env);
    var log' := Logged(s, log, key);
    assert log'[|log'|..] == [];
  }

  lemma StorePassSound(s: Screen, log: seq<Seen<Disk>>, m: Marks, key: Key, env: Env)
    requires Valid(s) && s.phase.StorePass? && Shows(s, log, m)
    ensures KeySound(s, log, m, key, env)
  {
    KeyKeeps(s, key, env);
    if !key.Esc? {
      var x := Seen(TagOf(s.phase), SelectedDisk(s), key);
      VisitGrows(log, x, m, SelectedDisk(s).value, s.backup);
      EntryGrows(log, x, m.answer + 1, OnStorePass);
      assert (log + [x])[|log| + 1..] == [];
    }
  }

  /** A worker armed on this screen is entitled to what it is given. */
  lemma ArmAuthorised(s: Screen, log: seq<Seen<Disk>>, m: Marks)
    requires s.image.Some? && SelectedDisk(s).Some? && ImageFits(s)
    requires Visit(log, m, SelectedDisk(s).value, s.backup) && PassSettled(log, m, GrowsToFill(s), s.storePass)
    requires NameAccepted(log, m, SelectedDisk(s).value.name)
    ensures Arm(s).launch.Some? && Authorised(Launched(Arm(s).launch.value, log, m))
  {}

  lemma ConfirmSound(s: Screen, log: seq<Seen<Disk>>, m: Marks, key: Key, env: Env)
    requires Valid(s) && s.phase.Confirm? && Shows(s, log, m)
    ensures KeySound(s, log, m, key, env)
  {
    hide Visit, PassSettled, NameField, Entry, Edited, Authorised;
    if key.Enter? {
      NameSound(s, log, m, env);
    } else if !key.Esc? {
      var x := Seen(TagOf(s.phase), SelectedDisk(s), key);
      VisitGrows(log, x, m, SelectedDisk(s).value, s.backup);
      PassGrows(log, x, m, GrowsToFill(s), s.storePass);
      NameFieldGrows(log, x, m);
      EntryGrows(log, x, m.open, OnConfirm);
    }
  }

  /** Enter on the typed name. */
  lemma NameSound(s: Screen, log: seq<Seen<Disk>>, m: Marks, env: Env)
    requires Valid(s) && s.phase.Confirm? && Shows(s, log, m)
    ensures KeySound(s, log, m, Enter, env)
  {
    hide Visit, PassSettled, NameField, Entry, NameAccepted, Authorised, Edited, Trim;
    var disk := SelectedDisk(s).value;
    var x := Seen(OnConfirm, Some(disk), Enter);
    var closed, reopened := m.(enter := |log|), m.(enter := |log|, open := |log| + 1);
    VisitGrows(log, x, m, disk, s.backup);
    PassGrows(log, x, m, GrowsToFill(s), s.storePass);
    NameClosed(log, m, disk, disk.name);
    MarksOfVisit(log + [x], m, closed, disk, s.backup, GrowsToFill(s), s.storePass);
    MarksOfVisit(log + [x], m, reopened, disk, s.backup, GrowsToFill(s), s.storePass);
    ConfirmEnterKeeps(s, s.phase.typed, env);
    if Trim(s.phase.typed) == disk.name {
      ArmAuthorised(s, log + [x], closed);
    }
  }

  /** Visit and passphrase do not depend on where the name field is. */
  lemma MarksOfVisit(log: seq<Seen<Disk>>, m: Marks, n: Marks, disk: Disk, backup: bool, grows: bool, pass: Option<string>)
    requires n.answer == m.answer && n.passEnd == m.passEnd
    requires Visit(log, m, disk, backup) && PassSettled(log, m, grows, pass)
    ensures Visit(log, n, disk, backup) && PassSettled(log, n, grows, pass) && m.passEnd < |log|
  {}

  lemma SudoSound(s: Screen, log: seq<Seen<Disk>>, m: Marks, key: Key, env: Env)
    requires Valid(s) && s.phase.SudoPass? && Shows(s, log, m)
    ensures KeySound(s, log, m, key, env)
  {
    hide Visit, PassSettled, NameAccepted, Authorised;
    if !key.Esc? {
      var x := Seen(TagOf(s.phase), SelectedDisk(s), key);
      VisitGrows(log, x, m, SelectedDisk(s).value, s.backup);
      PassGrows(log, x, m, GrowsToFill(s), s.storePass);
      NameAcceptedGrows(log, x, m, SelectedDisk(s).value.name);
      if key.Enter? {
        SudoEnterKeeps(s, s.phase.sudo, env);
        ArmAuthorised(s, log + [x], m);
        ArmIgnoresPhase(s, SudoPass("", s.phase.wrong));
      }
    }
  }

  lemma ArmIgnoresPhase(s: Screen, phase: Phase)
    requires s.image.Some?
    ensures Arm(s.(phase := phase)).launch == Arm(s).launch
  {}

  lemma OtherSound(s: Screen, log: seq<Seen<Disk>>, m: Marks, key: Key, env: Env)
    requires Valid(s) && !PastSummary(s.phase)
    ensures KeySound(s, log, m, key, env)
  {
    KeyKeeps(s, key, env);
  }

  lemma StepSound(t: Session, input: Input)
    requires Sound(t)
    ensures Sound(Step(t, input))
  {
    if t.screen.Some? && input.Press? {
      var s := t.screen.value;
      match s.phase
      case BackupAsk => AnswerSound(s, t.log, t.marks, input.key, input.env);
      case StorePass(_) => StorePassSound(s, t.log, t.marks, input.key, input.env);
      case Confirm(_, _) => ConfirmSound(s, t.log, t.marks, input.key, input.env);
      case SudoPass(_, _) => SudoSound(s, t.log, t.marks, input.key, input.env);
      case _ => OtherSound(s, t.log, t.marks, input.key, input.env);
      assert KeySound(s, t.log, t.marks, input.key, input.env);
    }
  }

  // ---- Every key sequence. ----

  function Begin(image: Option<Image>, listing: Option<seq<Disk>>): Session {
    Session(Some(Opened(image, listing)), [], Marks(0, 0, 0, 0), [])
  }

  /** The session any inputs lead to; each key finds the screen in a state it can handle,
      so the screen never arms without an image. */
  function Play(t: Session, inputs: seq<Input>): Session
    requires Sound(t)
    decreases inputs
  {
    if inputs == [] then t
    else
      StepSound(t, inputs[0]);
      Play(Step(t, inputs[0]), inputs[1..])
  }

  lemma {:induction false} PlaySound(t: Session, inputs: seq<Input>)
    requires Sound(t)
    ensures Sound(Play(t, inputs))
    decreases inputs
  {
    hide Shows, Authorised, Step;
    if inputs != [] {
      StepSound(t, inputs[0]);
      PlaySound(Step(t, inputs[0]), inputs[1..]);
    }
  }

  lemma {:induction false} PlayOn(t: Session, first: seq<Input>, more: seq<Input>)
    requires Sound(t)
    ensures Sound(Play(t, first)) && Play(t, first + more) == Play(Play(t, first), more)
    decreases first
  {
    hide Shows, Authorised, Step;
    if first == [] {
      assert first + more == more;
    } else {
      StepSound(t, first[0]);
      PlayOn(Step(t, first[0]), first[1..], more);
      assert (first + more)[1..] == first[1..] + more;
    }
  }

  // ---- One image, one worker. ----

  /** Every worker so far was given the image the screen was opened with, and there is at most
      one: none before the screen runs it. */
  ghost predicate OneWorker(t: Session, image: Option<Image>) {
    && (t.screen.Some? ==> t.screen.value.image == image)
    && (forall l <- t.launches :: Some(l.launch.image) == image)
    && |t.launches| <= 1
    && (t.screen.Some? && !t.screen.value.phase.Running? && !t.screen.value.phase.Done? ==> t.launches == [])
  }

  predicate Fires(s: Screen, key: Key, env: Env)
    requires Valid(s)
  {
    key.Enter? &&
    (match s.phase
     case Confirm(typed, _) => Trim(typed) == SelectedDisk(s).value.name && env.preflight.Root?
     case SudoPass(sudo, _) => env.auth(sudo).Accepted?
     case _ => false)
  }

  /** A key starts a worker exactly when it is Enter on the disk's typed name as root, or on a
      password that sudo accepts; the worker gets the screen's own image and answers, and the
      screen forgets the passphrase. */
  lemma KeyStartsIff(s: Screen, key: Key, env: Env)
    requires Valid(s)
    ensures var r := OnKey(s, key, env);
            && (r.launch.Some? <==> Fires(s, key, env))
            && (r.launch.Some? ==>
                  var Launch(image, disk, backup, grow, pass) := r.launch.value;
                  && Some(image) == s.image && Some(disk) == SelectedDisk(s) && backup == s.backup && pass == s.storePass
                  && (grow <==> disk.size.Some? && image.size < disk.size.value)
                  && r.screen == Some(s.(phase := Running, storePass := None)))
            && (s.phase.Running? || s.phase.Done? ==> r.screen.None? || r.screen.value.phase == s.phase)
  {}

  /** Where the two questions lead when they start nothing: a wrong name and a wrong password are
      asked again from empty, a right name may lead to the password, and no sudo or a failing
      one ends the screen as failed. */
  lemma Refused(s: Screen, env: Env)
    requires Valid(s) && !Fires(s, Enter, env)
    ensures var r := OnKey(s, Enter, env);
            match s.phase
            case Confirm(typed, _) =>
              r.screen == Some(s.(phase :=
                if Trim(typed) != SelectedDisk(s).value.name then Confirm("", true)
                else if env.preflight.NeedsSudo? then SudoPass("", false) else Done(false)))
            case SudoPass(sudo, _) =>
              r.screen == Some(s.(phase := if env.auth(sudo).Wrong? then SudoPass("", true) else Done(false)))
            case _ => true
  {}

  /** Esc starts nothing: past the summary it goes back there with every answer kept, from there
      to the list, and from the list or a finished worker off the screen. So at most three of
      them back out of every phase but a running worker, which ignores them. */
  lemma EscBacksOut(s: Screen, env: Env)
    requires Valid(s)
    ensures OnKey(s, Esc, env) ==
            Reply(if s.phase.Devices? || s.phase.Done? then None
                  else Some(s.(phase := if s.phase.Running? then Running else if s.phase.Summary? then Devices else Summary)), None)
    ensures var a := OnKey(s, Esc, env);
            var b := if a.screen.Some? then OnKey(a.screen.value, Esc, env) else a;
            var c := if b.screen.Some? then OnKey(b.screen.value, Esc, env) else b;
            (c.screen.None? || s.phase.Running?) && a.launch.None? && b.launch.None? && c.launch.None?
  {}

  lemma StepOneWorker(t: Session, input: Input, image: Option<Image>)
    requires Sound(t) && OneWorker(t, image)
    ensures OneWorker(Step(t, input), image)
  {
    if t.screen.Some? && input.Press? {
      KeyKeeps(t.screen.value, input.key, input.env);
      KeyStartsIff(t.screen.value, input.key, input.env);
      hide OnKey, Valid, Shows, Authorised;
    }
  }

  lemma {:induction false} PlayOneWorker(t: Session, inputs: seq<Input>, image: Option<Image>)
    requires Sound(t) && OneWorker(t, image)
    ensures OneWorker(Play(t, inputs), image)
    decreases inputs
  {
    hide Shows, Authorised, Step, OneWorker;
    if inputs != [] {
      StepSound(t, inputs[0]);
      StepOneWorker(t, inputs[0], image);
      PlayOneWorker(Step(t, inputs[0]), inputs[1..], image);
    }
  }

  /** Over every sequence of keys and worker events, at most one worker is started, with the
      image the screen was opened with and only on the disk
      whose bare name was typed in that same visit, of known size at least the image's or of
      unknown size, with the backup answer given for that disk, and any grow with the
      passphrase entered for that disk. */
  lemma EveryLaunchAuthorised(image: Option<Image>, listing: Option<seq<Disk>>, inputs: seq<Input>)
    ensures Sound(Begin(image, listing))
    ensures var end := Play(Begin(image, listing), inputs);
            && |end.launches| <= 1
            && forall l <- end.launches :: Authorised(l) && Some(l.launch.image) == image
  {
    OpenedValid(image, listing);
    PlaySound(Begin(image, listing), inputs);
    PlayOneWorker(Begin(image, listing), inputs, image);
  }
}
