/** What every sequence of keys and worker events on the BUILD & FLASH screen guarantees. */
module BuildSession {
  import opened Text
  import opened KeyLog
  import opened BuildFlow

  datatype Input = Press(key: Key, env: Env) | BuildEnds(image: Option<Image>, statOk: bool) | FlashEnds(ok: bool)

  /** Places of the first half: the pick, the start of the passphrase, and its Enter. */
  datatype PassMarks = PassMarks(pick: nat, open: nat, enter: nat)

  /** A started build and a started flash, with the keys that led to each. */
  datatype BuildStart = BuildStart(job: BuildJob, target: Target, log: seq<Seen<Target>>, marks: PassMarks)
  datatype FlashStart = FlashStart(job: FlashJob, log: seq<Seen<Target>>, marks: Marks)

  /** What the build's last event said of the image, and whether the screen could stat it. */
  datatype Reported = Reported(image: Image, statOk: bool)

  datatype Session = Session(flow: Option<Flow>, log: seq<Seen<Target>>, pm: PassMarks, m: Marks,
                             builds: seq<BuildStart>, flashes: seq<FlashStart>, reported: Option<Reported>)

  function TagOf(t: Stage): Tag {
    match t
    case PickDevice => OnList case PassFirst(_, _) => OnPassFirst case PassConfirm(_, _) => OnPassConfirm
    case FlashReview => OnReview case FlashBackupAsk => OnBackupAsk case FlashConfirm(_, _) => OnConfirm
    case FlashSudo(_, _) => OnSudoPass case _ => OnOther
  }

  /** What the key is about: the picked stick, or on the list the stick it would pick. */
  function Subject(s: Flow, env: Env): Option<Target> {
    if s.stage.PickDevice? then
      match SelectedDisk(s)
      case None => None
      case Some(d) => match env.bytes(d.name) case None => None case Some(b) => Some(Target(d.name, b))
    else s.picked
  }

  function Logged(s: Flow, log: seq<Seen<Target>>, key: Key, env: Env): seq<Seen<Target>> {
    log + [Seen(TagOf(s.stage), Subject(s, env), key)]
  }

  function NextPass(pm: PassMarks, s: Flow, key: Key, next: Option<Flow>, i: nat): PassMarks {
    var m1 := if s.stage.PickDevice? then pm.(pick := i) else pm;
    var m2 := if s.stage.PassFirst? && key.Enter? then m1.(enter := i) else m1;
    if next.Some? && next.value.stage.PassFirst? && (!s.stage.PassFirst? || key.Enter?) then m2.(open := i + 1) else m2
  }

  function NextMarks(m: Marks, s: Flow, key: Key, next: Option<Flow>, i: nat): Marks {
    var m1 := if s.stage.FlashBackupAsk? then m.(answer := i, passEnd := i) else m;
    var m2 := if s.stage.FlashConfirm? && key.Enter? then m1.(enter := i) else m1;
    if next.Some? && next.value.stage.FlashConfirm? && (!s.stage.FlashConfirm? || key.Enter?) then m2.(open := i + 1) else m2
  }

  function Step(t: Session, input: Input): Session {
    if t.flow.None? then t
    else
      var s := t.flow.value;
      match input
      case BuildEnds(image, statOk) =>
        if !s.stage.Building? then t
        else t.(flow := Some(BuildDone(s, image, statOk)), reported := if image.Some? then Some(Reported(image.value, statOk)) else None)
      case FlashEnds(ok) => if s.stage.Flashing? then t.(flow := Some(s.(stage := Done(ok)))) else t
      case Press(key, env) =>
        var r := OnKey(s, key, env);
        var log := Logged(s, t.log, key, env);
        var pm, m := NextPass(t.pm, s, key, r.flow, |t.log|), NextMarks(t.m, s, key, r.flow, |t.log|);
        t.(flow := r.flow, log := log, pm := pm, m := m,
           builds := if r.build.Some? && s.picked.Some? then t.builds + [BuildStart(r.build.value, s.picked.value, log, pm)] else t.builds,
           flashes := if r.flash.Some? then t.flashes + [FlashStart(r.flash.value, log, m)] else t.flashes)
  }

  // ---- What a started worker was entitled to. ----

  /** The target was picked by Enter on the list, and every later key was about it. */
  predicate PickedAt(log: seq<Seen<Target>>, pick: nat, target: Target) {
    && pick < |log| && log[pick].tag == OnList && log[pick].key.Enter?
    && forall j :: pick <= j < |log| ==> log[j].target == Some(target)
  }

  /** A whole text entry under a tag, closed by Enter. */
  predicate Typed(log: seq<Seen<Target>>, from: nat, to: nat, tag: Tag, text: string) {
    Entry(log, from, to, tag) && to < |log| && log[to].tag == tag && log[to].key.Enter? && Edited(log[from..to]) == text
  }

  /** The same non-empty passphrase was typed twice in a row for a stick of at least 4 GiB,
      and the image is sized to that stick. */
  predicate BuildAuthorised(b: BuildStart) {
    var n := |b.log| - 1;
    && n >= 0 && PickedAt(b.log, b.marks.pick, b.target)
    && b.target.bytes >= MIN_IMAGE_BYTES && b.job.bytes == b.target.bytes && b.job.pass != ""
    && b.marks.pick < b.marks.open
    && Typed(b.log, b.marks.open, b.marks.enter, OnPassFirst, b.job.pass)
    && Typed(b.log, b.marks.enter + 1, n, OnPassConfirm, b.job.pass)
  }

  /** The recorded image is the reported one, at its true size if that could be read. */
  predicate Records(built: Image, reported: Option<Reported>) {
    reported.Some? && built.path == reported.value.image.path
    && (reported.value.statOk ==> built.size == reported.value.image.size)
  }

  /** The flash is of the stick the build was sized to, under its typed name and the answer
      given for it, with the image the build reported, no larger than it by its recorded size,
      which is the real one whenever it could be read. */
  predicate FlashAuthorised(f: FlashStart, builds: seq<BuildStart>, reported: Option<Reported>) {
    && |builds| == 1 && f.job.target == builds[0].target
    && Visit(f.log, f.marks, f.job.target, f.job.backup) && f.marks.passEnd == f.marks.answer
    && NameAccepted(f.log, f.marks, f.job.target.name)
    && f.job.image.size <= f.job.target.bytes && Records(f.job.image, reported)
  }

  // ---- The invariant. ----

  predicate Shows(s: Flow, t: Session)
    requires Valid(s)
  {
    match s.stage
    case PassFirst(buf, _) =>
      && PickedAt(t.log, t.pm.pick, s.picked.value) && t.pm.pick < t.pm.open
      && Entry(t.log, t.pm.open, |t.log|, OnPassFirst) && buf == Edited(t.log[t.pm.open..])
    case PassConfirm(first, again) =>
      && PickedAt(t.log, t.pm.pick, s.picked.value) && t.pm.pick < t.pm.open
      && Typed(t.log, t.pm.open, t.pm.enter, OnPassFirst, first)
      && Entry(t.log, t.pm.enter + 1, |t.log|, OnPassConfirm) && again == Edited(t.log[t.pm.enter + 1..])
    case FlashConfirm(typed, _) =>
      && Visit(t.log, t.m, s.picked.value, s.backup) && t.m.passEnd == t.m.answer
      && NameField(t.log, t.m) && Entry(t.log, t.m.open, |t.log|, OnConfirm) && typed == Edited(t.log[t.m.open..])
    case FlashSudo(_, _) =>
      && Visit(t.log, t.m, s.picked.value, s.backup) && t.m.passEnd == t.m.answer
      && NameAccepted(t.log, t.m, s.picked.value.name)
    case _ => true
  }

  /** Before the build nothing was started; from then on one build, of the picked stick. */
  predicate Started(s: Flow, t: Session) {
    && (s.stage.PickDevice? || s.stage.Unavailable? || s.stage.PassFirst? || s.stage.PassConfirm? ==> t.builds == [])
    && (s.stage.Building? || s.stage.FlashReview? || Arming(s.stage) || s.stage.Flashing? ==>
          |t.builds| == 1 && s.picked == Some(t.builds[0].target))
    && (t.builds == [] || s.stage.Building? ==> t.flashes == [])
    && (s.stage.FlashReview? || Arming(s.stage) ==> s.built.Some? && Records(s.built.value, t.reported))
    && (t.flashes != [] ==> s.stage.Flashing? || s.stage.Done?)
  }

  ghost predicate Sound(t: Session) {
    && (t.flow.Some? ==> Valid(t.flow.value) && Shows(t.flow.value, t) && Started(t.flow.value, t))
    && (forall b <- t.builds :: BuildAuthorised(b))
    && (forall f <- t.flashes :: FlashAuthorised(f, t.builds, t.reported)) && |t.flashes| <= 1
  }

  // ---- One more key. ----

  lemma PickedGrows(log: seq<Seen<Target>>, x: Seen<Target>, pick: nat, target: Target)
    requires PickedAt(log, pick, target) && x.target == Some(target)
    ensures PickedAt(log + [x], pick, target)
  {}

  lemma TypedGrows(log: seq<Seen<Target>>, x: Seen<Target>, from: nat, to: nat, tag: Tag, text: string)
    requires Typed(log, from, to, tag, text)
    ensures Typed(log + [x], from, to, tag, text)
  {
    assert (log + [x])[from..to] == log[from..to];
  }

  /** The claim for one key. */
  ghost predicate KeySound(t: Session, key: Key, env: Env)
    requires Sound(t) && t.flow.Some?
  {
    var r := OnKey(t.flow.value, key, env);
    var u := Step(t, Press(key, env));
    && (r.flow.Some? ==> Valid(r.flow.value) && Shows(r.flow.value, u))
    && (r.build.Some? ==> u.builds == t.builds + [u.builds[|u.builds| - 1]] && BuildAuthorised(u.builds[|u.builds| - 1]))
    && (r.build.None? ==> u.builds == t.builds)
    && (r.flash.Some? ==> FlashAuthorised(FlashStart(r.flash.value, u.log, u.m), t.builds, t.reported))
  }

  lemma PickSound(t: Session, key: Key, env: Env)
    requires Sound(t) && t.flow.Some? && t.flow.value.stage.PickDevice?
    ensures KeySound(t, key, env)
  {
    hide BuildAuthorised, FlashAuthorised, Typed, Visit, NameField, NameAccepted, PickedAt, Entry, Edited, Records, Started, BuildFlow.Valid;
    var s := t.flow.value;
    PickKeeps(s, key, env);
    PickedNow(t.log, Seen(OnList, Subject(s, env), key));
  }

  /** Enter on the list picks, and the passphrase field opens empty. */
  lemma PickedNow(log: seq<Seen<Target>>, x: Seen<Target>)
    ensures x.tag == OnList && x.key.Enter? && x.target.Some? ==> PickedAt(log + [x], |log|, x.target.value)
    ensures Entry(log + [x], |log| + 1, |log| + 1, OnPassFirst) && Edited((log + [x])[|log| + 1..]) == ""
  {
    Reopened(log, x);
  }

  lemma PassFirstSound(t: Session, key: Key, env: Env)
    requires Sound(t) && t.flow.Some? && t.flow.value.stage.PassFirst?
    ensures KeySound(t, key, env)
  {
    var s := t.flow.value;
    KeyKeeps(s, key, env);
    var x := Seen(OnPassFirst, s.picked, key);
    PickedGrows(t.log, x, t.pm.pick, s.picked.value);
    EntryGrows(t.log, x, t.pm.open, OnPassFirst);
    assert (t.log + [x])[|t.log| + 1..] == [];
  }

  lemma PassConfirmSound(t: Session, key: Key, env: Env)
    requires Sound(t) && t.flow.Some? && t.flow.value.stage.PassConfirm?
    ensures KeySound(t, key, env)
  {
    hide PickedAt, Entry, Edited, Typed, BuildAuthorised;
    var s := t.flow.value;
    KeyKeeps(s, key, env);
    var x := Seen(OnPassConfirm, s.picked, key);
    PickedGrows(t.log, x, t.pm.pick, s.picked.value);
    TypedGrows(t.log, x, t.pm.open, t.pm.enter, OnPassFirst, s.stage.first);
    EntryGrows(t.log, x, t.pm.enter + 1, OnPassConfirm);
    Reopened(t.log, x);
    if key.Enter? && s.stage.first == s.stage.again {
      SecondClosed(t.log, x, t.pm, s.stage.again);
      BuildNow(t.log + [x], t.pm, s.picked.value, s.stage.first);
    }
  }

  lemma Reopened(log: seq<Seen<Target>>, x: Seen<Target>)
    ensures Entry(log + [x], |log| + 1, |log| + 1, OnPassFirst) && Edited((log + [x])[|log| + 1..]) == ""
  {
    assert (log + [x])[|log| + 1..] == [];
  }

  lemma SecondClosed(log: seq<Seen<Target>>, x: Seen<Target>, pm: PassMarks, again: string)
    requires Entry(log, pm.enter + 1, |log|, OnPassConfirm) && again == Edited(log[pm.enter + 1..])
    requires x.tag == OnPassConfirm && x.key.Enter?
    ensures Typed(log + [x], pm.enter + 1, |log|, OnPassConfirm, again)
  {
    assert (log + [x])[pm.enter + 1..|log|] == log[pm.enter + 1..];
  }

  lemma BuildNow(log: seq<Seen<Target>>, pm: PassMarks, target: Target, pass: string)
    requires PickedAt(log, pm.pick, target) && pm.pick < pm.open && target.bytes >= MIN_IMAGE_BYTES && pass != ""
    requires Typed(log, pm.open, pm.enter, OnPassFirst, pass)
    requires log != [] && Typed(log, pm.enter + 1, |log| - 1, OnPassConfirm, pass)
    ensures BuildAuthorised(BuildStart(BuildJob(pass, target.bytes), target, log, pm))
  {}

  lemma AnswerSound(t: Session, key: Key, env: Env)
    requires Sound(t) && t.flow.Some? && t.flow.value.stage.FlashBackupAsk?
    ensures KeySound(t, key, env)
  {
    var s := t.flow.value;
    KeyKeeps(s, key, env);
    var log := Logged(s, t.log, key, env);
    assert log[|log|..] == [];
  }

  lemma ConfirmSound(t: Session, key: Key, env: Env)
    requires Sound(t) && t.flow.Some? && t.flow.value.stage.FlashConfirm?
    ensures KeySound(t, key, env)
  {
    hide Visit, NameField, NameAccepted, Entry, Edited, Trim, BuildAuthorised;
    var s := t.flow.value;
    var target := s.picked.value;
    var x := Seen(OnConfirm, s.picked, key);
    KeyKeeps(s, key, env);
    if !key.Esc? {
      VisitGrows(t.log, x, t.m, target, s.backup);
      if key.Enter? {
        NameSound(t, env);
      } else {
        NameFieldGrows(t.log, x, t.m);
        EntryGrows(t.log, x, t.m.open, OnConfirm);
      }
    }
  }

  /** Enter on the typed name. */
  lemma NameSound(t: Session, env: Env)
    requires Sound(t) && t.flow.Some? && t.flow.value.stage.FlashConfirm?
    ensures KeySound(t, Enter, env)
  {
    hide Visit, NameField, NameAccepted, Entry, Edited, Trim, PickedAt, Typed, BuildAuthorised, FlashAuthorised;
    var s := t.flow.value;
    var target := s.picked.value;
    var x := Seen(OnConfirm, s.picked, Enter);
    var closed, reopened := t.m.(enter := |t.log|), t.m.(enter := |t.log|, open := |t.log| + 1);
    assert OnKey(s, Enter, env) == ConfirmEnter(s, s.stage.typed, env);
    hide OnKey, BuildFlow.Valid;
    ConfirmEnterKeeps(s, s.stage.typed, env);
    VisitGrows(t.log, x, t.m, target, s.backup);
    NameClosed(t.log, t.m, target, target.name);
    VisitMarks(t.log + [x], t.m, closed, target, s.backup);
    VisitMarks(t.log + [x], t.m, reopened, target, s.backup);
    if Trim(s.stage.typed) == target.name { FlashNow(t, t.log + [x], closed); }
  }

  /** A flash armed on this screen is entitled to what it is given. */
  lemma FlashNow(t: Session, log: seq<Seen<Target>>, m: Marks)
    requires Sound(t) && t.flow.Some? && Arming(t.flow.value.stage)
    requires var target := t.flow.value.picked.value;
             Visit(log, m, target, t.flow.value.backup) && m.passEnd == m.answer && NameAccepted(log, m, target.name)
    ensures ArmFlash(t.flow.value).flash.Some?
    ensures FlashAuthorised(FlashStart(ArmFlash(t.flow.value).flash.value, log, m), t.builds, t.reported)
  {
    hide Visit, NameAccepted, Shows, BuildAuthorised;
  }

  lemma VisitMarks(log: seq<Seen<Target>>, m: Marks, n: Marks, target: Target, backup: bool)
    requires Visit(log, m, target, backup) && n.answer == m.answer
    ensures Visit(log, n, target, backup) && m.answer < |log|
  {}

  lemma SudoSound(t: Session, key: Key, env: Env)
    requires Sound(t) && t.flow.Some? && t.flow.value.stage.FlashSudo?
    ensures KeySound(t, key, env)
  {
    hide Visit, NameAccepted, BuildAuthorised, FlashAuthorised;
    var s := t.flow.value;
    var x := Seen(OnSudoPass, s.picked, key);
    if key.Enter? { SudoEnterKeeps(s, s.stage.sudo, env); }
    if !key.Esc? {
      VisitGrows(t.log, x, t.m, s.picked.value, s.backup);
      NameAcceptedGrows(t.log, x, t.m, s.picked.value.name);
      FlashNow(t, t.log + [x], t.m);
    }
  }

  lemma OtherSound(t: Session, key: Key, env: Env)
    requires Sound(t) && t.flow.Some?
    requires var g := t.flow.value.stage; g.Unavailable? || g.Building? || g.FlashReview? || g.Flashing? || g.Done?
    ensures KeySound(t, key, env)
  {
    KeyKeeps(t.flow.value, key, env);
  }

  lemma KeyIsSound(t: Session, key: Key, env: Env)
    requires Sound(t) && t.flow.Some?
    ensures KeySound(t, key, env)
  {
    match t.flow.value.stage
    case PickDevice => PickSound(t, key, env);
    case PassFirst(_, _) => PassFirstSound(t, key, env);
    case PassConfirm(_, _) => PassConfirmSound(t, key, env);
    case FlashBackupAsk => AnswerSound(t, key, env);
    case FlashConfirm(_, _) => ConfirmSound(t, key, env);
    case FlashSudo(_, _) => SudoSound(t, key, env);
    case _ => OtherSound(t, key, env);
  }

  predicate Early(g: Stage) { g.PickDevice? || g.Unavailable? || g.PassFirst? || g.PassConfirm? }
  predicate Late(g: Stage) { g.FlashReview? || Arming(g) || g.Flashing? }

  /** Where a key can lead: to the build from the passphrases alone, to the flash from the
      arming stages alone, and never back to before the build. */
  lemma StageStep(s: Flow, key: Key, env: Env)
    requires Valid(s)
    ensures var r, g := OnKey(s, key, env), s.stage;
            && (r.build.Some? ==> g.PassConfirm? && s.picked.Some? && r.flow.Some? && r.flow.value.stage.Building?)
            && (r.flash.Some? ==> Arming(g) && r.flow.Some? && r.flow.value.stage.Flashing?)
            && (r.flow.Some? ==>
                  var h := r.flow.value.stage;
                  && (Early(g) ==> Early(h) || (h.Building? && r.build.Some?))
                  && (g.Building? ==> h.Building?) && (Late(g) ==> Late(h) || h.Done?) && (g.Done? ==> h.Done?)
                  && (g.Flashing? ==> h.Flashing?))
  {
    match s.stage
    case FlashConfirm(typed, _) => if key.Enter? { ConfirmStage(s, typed, env); }
    case FlashSudo(buf, _) => if key.Enter? { SudoStage(s, buf, env); }
    case _ =>
  }

  lemma ConfirmStage(s: Flow, typed: string, env: Env)
    requires Valid(s) && s.stage.FlashConfirm?
    ensures var r := ConfirmEnter(s, typed, env);
            && r.build.None? && r.flow.Some? && (Late(r.flow.value.stage) || r.flow.value.stage.Done?)
            && (r.flash.Some? ==> r.flow.value.stage.Flashing?)
  {}

  lemma SudoStage(s: Flow, entered: string, env: Env)
    requires Valid(s) && s.stage.FlashSudo?
    ensures var r := SudoEnter(s, entered, env);
            && r.build.None? && r.flow.Some? && (Late(r.flow.value.stage) || r.flow.value.stage.Done?)
            && (r.flash.Some? ==> r.flow.value.stage.Flashing?)
  {}

  /** Once built, no key starts over. */
  lemma StartedStep(t: Session, key: Key, env: Env)
    requires Sound(t) && t.flow.Some? && OnKey(t.flow.value, key, env).flow.Some?
    ensures Started(OnKey(t.flow.value, key, env).flow.value, Step(t, Press(key, env)))
  {
    hide OnKey, Shows, BuildAuthorised, FlashAuthorised;
    KeyKeeps(t.flow.value, key, env);
    StageStep(t.flow.value, key, env);
  }

  lemma PressSound(t: Session, key: Key, env: Env)
    requires Sound(t) && t.flow.Some?
    ensures Sound(Step(t, Press(key, env)))
  {
    hide Shows, BuildAuthorised, FlashAuthorised, OnKey;
    KeyIsSound(t, key, env);
    StageStep(t.flow.value, key, env);
    if OnKey(t.flow.value, key, env).flow.Some? { StartedStep(t, key, env); }
  }

  lemma StepSound(t: Session, input: Input)
    requires Sound(t)
    ensures Sound(Step(t, input))
  {
    if t.flow.Some? {
      match input
      case Press(key, env) => PressSound(t, key, env);
      case _ =>
    }
  }

  function Begin(available: bool, listing: Option<seq<Disk>>): Session {
    Session(Some(Opened(available, listing)), [], PassMarks(0, 0, 0), Marks(0, 0, 0, 0), [], [], None)
  }

  /** The session any inputs lead to. */
  function Play(t: Session, inputs: seq<Input>): Session
    decreases inputs
  {
    if inputs == [] then t else Play(Step(t, inputs[0]), inputs[1..])
  }

  lemma {:induction false} PlayOn(t: Session, first: seq<Input>, more: seq<Input>)
    ensures Play(t, first + more) == Play(Play(t, first), more)
    decreases first
  {
    if first == [] {
      assert first + more == more;
    } else {
      PlayOn(Step(t, first[0]), first[1..], more);
      assert (first + more)[1..] == first[1..] + more;
    }
  }

  lemma {:induction false} PlaySound(t: Session, inputs: seq<Input>)
    requires Sound(t)
    ensures Sound(Play(t, inputs))
    decreases inputs
  {
    hide Sound, Step;
    if inputs != [] {
      StepSound(t, inputs[0]);
      PlaySound(Step(t, inputs[0]), inputs[1..]);
    }
  }

  /** Over every sequence of keys and worker events: at most one build, under a non-empty
      passphrase typed twice the same, sized to a picked stick of at least 4 GiB, and at most
      one flash, only of that same stick after its typed name, with the image the build
      reported. */
  lemma EveryStartAuthorised(available: bool, listing: Option<seq<Disk>>, inputs: seq<Input>)
    ensures Sound(Begin(available, listing))
    ensures var end := Play(Begin(available, listing), inputs);
            && |end.builds| <= 1 && |end.flashes| <= 1
            && (forall b <- end.builds :: BuildAuthorised(b) && b.target.bytes >= 0x1_0000_0000)
            && (forall f <- end.flashes :: FlashAuthorised(f, end.builds, end.reported))
  {
    var begin := Begin(available, listing);
    assert Sound(begin);
    PlaySound(begin, inputs);
    OneBuild(begin, inputs);
  }

  lemma {:induction false} OneBuild(t: Session, inputs: seq<Input>)
    requires Sound(t) && |t.builds| <= 1
    ensures |Play(t, inputs).builds| <= 1
    decreases inputs
  {
    if inputs != [] {
      StepSound(t, inputs[0]);
      if t.flow.Some? && inputs[0].Press? {
        KeyIsSound(t, inputs[0].key, inputs[0].env);
        StageStep(t.flow.value, inputs[0].key, inputs[0].env);
      }
      OneBuild(Step(t, inputs[0]), inputs[1..]);
    }
  }

  /** A key starts the build exactly when it is Enter on the same passphrase again, and the flash
      exactly when it is Enter on the stick's typed name as root, or on a password that sudo
      accepts. */
  predicate Fires(s: Flow, key: Key, env: Env)
    requires BuildFlow.Valid(s)
  {
    key.Enter? &&
    (match s.stage
     case FlashConfirm(typed, _) => Trim(typed) == s.picked.value.name && env.preflight.Root?
     case FlashSudo(sudo, _) => env.auth(sudo).Accepted?
     case _ => false)
  }

  lemma KeyStartsIff(s: Flow, key: Key, env: Env)
    requires BuildFlow.Valid(s)
    ensures var r := OnKey(s, key, env);
            && (r.build.Some? <==> s.stage.PassConfirm? && key.Enter? && s.stage.first == s.stage.again)
            && (r.build.Some? ==> r.build == Some(BuildJob(s.stage.first, s.picked.value.bytes)))
            && (r.flash.Some? <==> Fires(s, key, env))
            && (r.flash.Some? ==> r.flash == Some(FlashJob(s.built.value, s.picked.value, s.backup)))
  {}

  /** Where the questions lead when they start nothing: an empty or different passphrase starts
      over, a wrong name and a wrong password are asked again from empty, a right name may lead
      to the password, and no sudo or a failing one ends the screen as failed. */
  lemma Refused(s: Flow, env: Env)
    requires BuildFlow.Valid(s) && !Fires(s, Enter, env)
    ensures var r := OnKey(s, Enter, env);
            match s.stage
            case PassFirst(buf, _) => r.flow == Some(s.(stage := if buf == "" then PassFirst("", true) else PassConfirm(buf, "")))
            case PassConfirm(first, again) => first != again ==> r.flow == Some(s.(stage := PassFirst("", true)))
            case FlashConfirm(typed, _) =>
              r.flow == Some(s.(stage :=
                if Trim(typed) != s.picked.value.name then FlashConfirm("", true)
                else if env.preflight.NeedsSudo? then FlashSudo("", false) else Done(false)))
            case FlashSudo(sudo, _) =>
              r.flow == Some(s.(stage := if env.auth(sudo).Wrong? then FlashSudo("", true) else Done(false)))
            case _ => true
  {}

  /** Esc starts nothing: while a flash is being armed it goes back to the review with every
      answer kept, and from any other stage off the screen, unless a worker runs. So at most two
      of them back out of every stage but those. */
  lemma EscBacksOut(s: Flow, env: Env)
    requires BuildFlow.Valid(s)
    ensures OnKey(s, Esc, env) ==
            Reply(if s.stage.Building? || s.stage.Flashing? then Some(s) else if Arming(s.stage) then Some(s.(stage := FlashReview)) else None,
                  None, None)
    ensures var a := OnKey(s, Esc, env);
            var b := if a.flow.Some? then OnKey(a.flow.value, Esc, env) else a;
            (b.flow.None? || s.stage.Building? || s.stage.Flashing?) && a.build.None? && a.flash.None? && b.build.None? && b.flash.None?
  {}

  /** A stick is picked exactly when its size can be read and is at least 4 GiB; otherwise the
      list stays, with the reason. */
  lemma PickIff(s: Flow, env: Env)
    requires s.stage.PickDevice? && SelectedDisk(s).Some?
    ensures var r, name := OnKey(s, Enter, env), SelectedDisk(s).value.name;
            && r.flow.Some?
            && (r.flow.value.stage.PassFirst? <==> env.bytes(name).Some? && env.bytes(name).value >= 0x1_0000_0000)
            && (r.flow.value.stage.PassFirst? ==> r.flow.value.picked == Some(Target(name, env.bytes(name).value)))
            && (!r.flow.value.stage.PassFirst? ==> r.flow == Some(s.(pickError := true)))
  {}
}
