/** The ordinary way through BUILD & FLASH: for any listed stick of at least 4 GiB, the keys an
    operator would press start exactly the build and the flash asked for, also where they
    should not, with an image whose size could not be read. */
module BuildOrdinary {
  import opened Text
  import opened KeyLog
  import opened BuildFlow
  import opened BuildSession

  function Keys(keys: seq<Key>, env: Env): seq<Input> {
    if keys == [] then [] else [Press(keys[0], env)] + Keys(keys[1..], env)
  }

  function Jobs(t: Session): (seq<BuildJob>, seq<FlashJob>) { (BuildJobs(t.builds), FlashJobs(t.flashes)) }

  function BuildJobs(builds: seq<BuildStart>): seq<BuildJob> {
    if builds == [] then [] else BuildJobs(builds[..|builds| - 1]) + [builds[|builds| - 1].job]
  }

  function FlashJobs(flashes: seq<FlashStart>): seq<FlashJob> {
    if flashes == [] then [] else FlashJobs(flashes[..|flashes| - 1]) + [flashes[|flashes| - 1].job]
  }

  function Added<T>(s: seq<T>, x: Option<T>): seq<T> { if x.Some? then s + [x.value] else s }

  /** One key: the screen it leaves, and the workers so far. */
  lemma OneKey(t: Session, key: Key, more: seq<Key>, rest: seq<Input>, env: Env) returns (u: Session)
    requires t.flow.Some? && BuildFlow.Valid(t.flow.value)
    ensures Play(t, Keys([key] + more, env) + rest) == Play(u, Keys(more, env) + rest)
    ensures var r := OnKey(t.flow.value, key, env);
            u.flow == r.flow && Jobs(u) == (Added(Jobs(t).0, r.build), Added(Jobs(t).1, r.flash))
  {
    u := Step(t, Press(key, env));
    assert Keys([key] + more, env) == [Press(key, env)] + Keys(more, env) by { assert ([key] + more)[1..] == more; }
    assert (Keys([key] + more, env) + rest)[1..] == Keys(more, env) + rest;
    var r := OnKey(t.flow.value, key, env);
    BuildNeedsTarget(t.flow.value, key, env);
    hide OnKey, Logged, NextPass, NextMarks;
    if r.build.Some? { assert u.builds[..|u.builds| - 1] == t.builds; }
    if r.flash.Some? { assert u.flashes[..|u.flashes| - 1] == t.flashes; }
  }

  lemma BuildNeedsTarget(s: Flow, key: Key, env: Env)
    requires BuildFlow.Valid(s)
    ensures OnKey(s, key, env).build.Some? ==> s.picked.Some?
  {
    StageStep(s, key, env);
  }

  lemma {:induction false} Downs(t: Session, n: nat, more: seq<Key>, rest: seq<Input>, env: Env) returns (u: Session)
    requires t.flow.Some? && t.flow.value.stage.PickDevice? && t.flow.value.selected + n < |t.flow.value.disks|
    ensures Play(t, Keys(Times(Down, n) + more, env) + rest) == Play(u, Keys(more, env) + rest)
    ensures u.flow == Some(t.flow.value.(selected := t.flow.value.selected + n)) && Jobs(u) == Jobs(t)
    decreases n
  {
    hide Jobs, Play, Keys;
    if n == 0 {
      assert Times(Down, 0) + more == more;
      u := t;
    } else {
      var v := OneKey(t, Down, Times(Down, n - 1) + more, rest, env);
      assert Times(Down, n) + more == [Down] + (Times(Down, n - 1) + more);
      SameJobs(t, v);
      u := Downs(v, n - 1, more, rest, env);
    }
  }

  lemma SameJobs(t: Session, u: Session)
    requires Jobs(u) == (Added(Jobs(t).0, None), Added(Jobs(t).1, None))
    ensures Jobs(u) == Jobs(t)
  {}

  /** A key that starts nothing. */
  lemma Quietly(t: Session, key: Key, more: seq<Key>, rest: seq<Input>, env: Env) returns (u: Session)
    requires t.flow.Some? && BuildFlow.Valid(t.flow.value)
    requires OnKey(t.flow.value, key, env).build.None? && OnKey(t.flow.value, key, env).flash.None?
    ensures Play(t, Keys([key] + more, env) + rest) == Play(u, Keys(more, env) + rest)
    ensures u.flow == OnKey(t.flow.value, key, env).flow && Jobs(u) == Jobs(t)
  {
    hide OnKey, Play, Jobs, BuildFlow.Valid, Keys;
    u := OneKey(t, key, more, rest, env);
    SameJobs(t, u);
  }

  lemma FirstBuild(t: Session, u: Session, build: BuildJob)
    requires Jobs(t) == ([], []) && Jobs(u) == (Added(Jobs(t).0, Some(build)), Added(Jobs(t).1, None))
    ensures Jobs(u) == ([build], [])
  {
    assert Added([], Some(build)) == [build];
  }

  lemma FirstFlash(t: Session, u: Session, build: BuildJob, flash: FlashJob)
    requires Jobs(t) == ([build], []) && Jobs(u) == (Added(Jobs(t).0, None), Added(Jobs(t).1, Some(flash)))
    ensures Jobs(u) == ([build], [flash])
  {
    assert Added([], Some(flash)) == [flash];
  }

  predicate HasField(g: Stage) { g.PassFirst? || g.PassConfirm? || g.FlashConfirm? || g.FlashSudo? }

  /** The stage with more text in its field. */
  function With(g: Stage, text: string): Stage
    requires HasField(g)
  {
    match g
    case PassFirst(b, c) => PassFirst(b + text, c)
    case PassConfirm(f, b) => PassConfirm(f, b + text)
    case FlashConfirm(b, m) => FlashConfirm(b + text, m)
    case FlashSudo(b, w) => FlashSudo(b + text, w)
  }

  lemma WithMore(g: Stage, text: string)
    requires HasField(g)
    ensures With(g, "") == g
    ensures text != "" ==> With(With(g, [text[0]]), text[1..]) == With(g, text)
  {
    if text != "" { assert forall b: string :: (b + [text[0]]) + text[1..] == b + text by { forall b: string { Rejoin(b, text); } } }
  }

  lemma Rejoin(b: string, text: string)
    requires text != ""
    ensures (b + [text[0]]) + text[1..] == b + text
  {}

  lemma {:induction false} Types(t: Session, text: string, more: seq<Key>, rest: seq<Input>, env: Env) returns (u: Session)
    requires t.flow.Some? && BuildFlow.Valid(t.flow.value) && HasField(t.flow.value.stage)
    ensures Play(t, Keys(Letters(text) + more, env) + rest) == Play(u, Keys(more, env) + rest)
    ensures u.flow == Some(t.flow.value.(stage := With(t.flow.value.stage, text))) && Jobs(u) == Jobs(t)
    decreases |text|
  {
    hide Jobs, Play, Keys;
    WithMore(t.flow.value.stage, text);
    if text == "" {
      assert Letters(text) + more == more;
      u := t;
    } else {
      var v := OneKey(t, Char(text[0]), Letters(text[1..]) + more, rest, env);
      assert Letters(text) + more == [Char(text[0])] + (Letters(text[1..]) + more);
      SameJobs(t, v);
      u := Types(v, text[1..], more, rest, env);
    }
  }

  // ---- The screens on the way. ----

  /** What the operator wants: the stick's place, the passphrase, the backup answer, and the sudo
      password where one is asked for. */
  datatype Wish = Wish(i: nat, pass: string, backup: bool, sudo: string)

  function At(disks: seq<Disk>, i: nat, target: Target, backup: bool, stage: Stage, built: Option<Image>): Flow {
    Flow(disks, i, false, Some(target), backup, stage, built)
  }

  lemma ListEnter(disks: seq<Disk>, i: nat, bytes: nat, env: Env)
    requires i < |disks| && env.bytes(disks[i].name) == Some(bytes) && bytes >= MIN_IMAGE_BYTES
    ensures OnKey(Flow(disks, i, false, None, true, PickDevice, None), Enter, env)
         == Reply(Some(At(disks, i, Target(disks[i].name, bytes), true, PassFirst("", false), None)), None, None)
  {}

  lemma FirstEnter(disks: seq<Disk>, i: nat, target: Target, pass: string, env: Env)
    requires pass != ""
    ensures OnKey(At(disks, i, target, true, PassFirst(pass, false), None), Enter, env)
         == Reply(Some(At(disks, i, target, true, PassConfirm(pass, ""), None)), None, None)
  {}

  lemma AgainEnter(disks: seq<Disk>, i: nat, target: Target, pass: string, env: Env)
    ensures OnKey(At(disks, i, target, true, PassConfirm(pass, pass), None), Enter, env)
         == Reply(Some(At(disks, i, target, true, Building, None)), Some(BuildJob(pass, target.bytes)), None)
  {}

  lemma ReviewEnter(disks: seq<Disk>, i: nat, target: Target, built: Image, env: Env)
    requires built.size <= target.bytes
    ensures OnKey(At(disks, i, target, true, FlashReview, Some(built)), Enter, env)
         == Reply(Some(At(disks, i, target, true, FlashBackupAsk, Some(built))), None, None)
  {}

  lemma Answered(disks: seq<Disk>, i: nat, target: Target, built: Image, backup: bool, env: Env)
    ensures OnKey(At(disks, i, target, true, FlashBackupAsk, Some(built)), Char(if backup then 'y' else 'n'), env)
         == Reply(Some(At(disks, i, target, backup, FlashConfirm("", false), Some(built))), None, None)
  {}

  lemma NameEnter(disks: seq<Disk>, i: nat, target: Target, built: Image, backup: bool, env: Env)
    requires Trim(target.name) == target.name
    ensures var r := OnKey(At(disks, i, target, backup, FlashConfirm(target.name, false), Some(built)), Enter, env);
            && (env.preflight.Root? ==>
                  r == Reply(Some(At(disks, i, target, backup, Flashing, Some(built))), None, Some(FlashJob(built, target, backup))))
            && (env.preflight.NeedsSudo? ==>
                  r == Reply(Some(At(disks, i, target, backup, FlashSudo("", false), Some(built))), None, None))
  {
    hide Trim;
  }

  lemma SudoDone(disks: seq<Disk>, i: nat, target: Target, built: Image, backup: bool, sudo: string, env: Env)
    requires env.auth(sudo).Accepted?
    ensures OnKey(At(disks, i, target, backup, FlashSudo(sudo, false), Some(built)), Enter, env)
         == Reply(Some(At(disks, i, target, backup, Flashing, Some(built))), None, Some(FlashJob(built, target, backup)))
  {}

  /** The flows on the way are inside the gates. */
  lemma AtValid(disks: seq<Disk>, i: nat, target: Target, backup: bool, stage: Stage, built: Option<Image>)
    requires target.bytes >= MIN_IMAGE_BYTES && (stage.PassConfirm? ==> stage.first != "")
    requires stage.FlashReview? || Arming(stage) || stage.Flashing? ==> built.Some? && built.value.size <= target.bytes
    ensures BuildFlow.Valid(At(disks, i, target, backup, stage, built))
  {}

  // ---- The two halves. ----

  function BuildKeys(w: Wish): seq<Key> {
    Times(Down, w.i) + ([Enter] + (Letters(w.pass) + ([Enter] + (Letters(w.pass) + [Enter]))))
  }

  function FlashKeys(name: string, w: Wish, env: Env): seq<Key> {
    [Enter] + ([Char(if w.backup then 'y' else 'n')]
               + (Letters(name) + ([Enter] + if env.preflight.NeedsSudo? then Letters(w.sudo) + [Enter] else [])))
  }

  lemma BuildHalf(disks: seq<Disk>, w: Wish, bytes: nat, rest: seq<Input>, env: Env) returns (u: Session)
    requires w.i < |disks| && env.bytes(disks[w.i].name) == Some(bytes) && bytes >= MIN_IMAGE_BYTES && w.pass != ""
    ensures Play(Begin(true, Some(disks)), Keys(BuildKeys(w), env) + rest) == Play(u, rest)
    ensures u.flow == Some(At(disks, w.i, Target(disks[w.i].name, bytes), true, Building, None))
    ensures Jobs(u) == ([BuildJob(w.pass, bytes)], [])
  {
    var t := Begin(true, Some(disks));
    assert t.flow == Some(Flow(disks, 0, false, None, true, PickDevice, None)) && Jobs(t) == ([], []);
    hide OnKey, Play, Jobs, Begin, BuildFlow.Valid, Keys, Times, Letters;
    var again := Letters(w.pass) + [Enter];
    var v := Downs(t, w.i, [Enter] + (Letters(w.pass) + ([Enter] + again)), rest, env);
    ListEnter(disks, w.i, bytes, env);
    PickIsValid(disks, w.i);
    v := Quietly(v, Enter, Letters(w.pass) + ([Enter] + again), rest, env);
    u := PassHalf(v, disks, w, Target(disks[w.i].name, bytes), rest, env);
  }

  /** The passphrase, twice. */
  lemma PassHalf(t: Session, disks: seq<Disk>, w: Wish, target: Target, rest: seq<Input>, env: Env) returns (u: Session)
    requires t.flow == Some(At(disks, w.i, target, true, PassFirst("", false), None)) && Jobs(t) == ([], [])
    requires target.bytes >= MIN_IMAGE_BYTES && w.pass != ""
    ensures Play(t, Keys(Letters(w.pass) + ([Enter] + (Letters(w.pass) + [Enter])), env) + rest) == Play(u, rest)
    ensures u.flow == Some(At(disks, w.i, target, true, Building, None)) && Jobs(u) == ([BuildJob(w.pass, target.bytes)], [])
  {
    hide OnKey, Play, Jobs, BuildFlow.Valid, Keys, Letters;
    var again := Letters(w.pass) + [Enter];
    AtValid(disks, w.i, target, true, PassFirst("", false), None);
    var v := Types(t, w.pass, [Enter] + again, rest, env);
    assert "" + w.pass == w.pass;
    AtValid(disks, w.i, target, true, PassFirst(w.pass, false), None);
    FirstEnter(disks, w.i, target, w.pass, env);
    v := Quietly(v, Enter, again, rest, env);
    u := AgainHalf(v, disks, w, target, rest, env);
  }

  lemma AgainHalf(t: Session, disks: seq<Disk>, w: Wish, target: Target, rest: seq<Input>, env: Env) returns (u: Session)
    requires t.flow == Some(At(disks, w.i, target, true, PassConfirm(w.pass, ""), None)) && Jobs(t) == ([], [])
    requires target.bytes >= MIN_IMAGE_BYTES && w.pass != ""
    ensures Play(t, Keys(Letters(w.pass) + [Enter], env) + rest) == Play(u, rest)
    ensures u.flow == Some(At(disks, w.i, target, true, Building, None)) && Jobs(u) == ([BuildJob(w.pass, target.bytes)], [])
  {
    hide OnKey, Play, Jobs, BuildFlow.Valid, Keys, Letters;
    AtValid(disks, w.i, target, true, PassConfirm(w.pass, ""), None);
    var v := Types(t, w.pass, [Enter], rest, env);
    assert "" + w.pass == w.pass && [Enter] + [] == [Enter];
    AtValid(disks, w.i, target, true, PassConfirm(w.pass, w.pass), None);
    AgainEnter(disks, w.i, target, w.pass, env);
    u := OneKey(v, Enter, [], rest, env);
    FirstBuild(v, u, BuildJob(w.pass, target.bytes));
    NoKeys(env, rest);
  }

  lemma PickIsValid(disks: seq<Disk>, i: nat)
    ensures BuildFlow.Valid(Flow(disks, i, false, None, true, PickDevice, None))
  {}

  lemma NoKeys(env: Env, rest: seq<Input>)
    ensures Keys([], env) + rest == rest
  {}

  lemma FlashHalf(t: Session, disks: seq<Disk>, w: Wish, target: Target, built: Image, job: BuildJob, env: Env) returns (u: Session)
    requires t.flow == Some(At(disks, w.i, target, true, FlashReview, Some(built))) && Jobs(t) == ([job], [])
    requires target.bytes >= MIN_IMAGE_BYTES && built.size <= target.bytes && Trim(target.name) == target.name
    requires env.preflight.Root? || (env.preflight.NeedsSudo? && env.auth(w.sudo).Accepted?)
    ensures u == Play(t, Keys(FlashKeys(target.name, w, env), env))
    ensures Jobs(u) == ([job], [FlashJob(built, target, w.backup)]) && u.flow.Some? && u.flow.value.stage.Flashing?
  {
    hide OnKey, Play, Jobs, BuildFlow.Valid, Keys, Trim, Letters;
    var yn := Char(if w.backup then 'y' else 'n');
    var last := if env.preflight.NeedsSudo? then Letters(w.sudo) + [Enter] else [];
    AtValid(disks, w.i, target, true, FlashReview, Some(built));
    ReviewEnter(disks, w.i, target, built, env);
    u := Quietly(t, Enter, [yn] + (Letters(target.name) + ([Enter] + last)), [], env);
    AtValid(disks, w.i, target, true, FlashBackupAsk, Some(built));
    Answered(disks, w.i, target, built, w.backup, env);
    u := Quietly(u, yn, Letters(target.name) + ([Enter] + last), [], env);
    u := NameHalf(u, disks, w, target, built, job, env);
    assert Keys(FlashKeys(target.name, w, env), env) + [] == Keys(FlashKeys(target.name, w, env), env);
  }

  /** The typed name, and the sudo password where one is asked for. */
  lemma NameHalf(t: Session, disks: seq<Disk>, w: Wish, target: Target, built: Image, job: BuildJob, env: Env) returns (u: Session)
    requires t.flow == Some(At(disks, w.i, target, w.backup, FlashConfirm("", false), Some(built))) && Jobs(t) == ([job], [])
    requires target.bytes >= MIN_IMAGE_BYTES && built.size <= target.bytes && Trim(target.name) == target.name
    requires env.preflight.Root? || (env.preflight.NeedsSudo? && env.auth(w.sudo).Accepted?)
    ensures var last := if env.preflight.NeedsSudo? then Letters(w.sudo) + [Enter] else [];
            u == Play(t, Keys(Letters(target.name) + ([Enter] + last), env) + [])
    ensures Jobs(u) == ([job], [FlashJob(built, target, w.backup)]) && u.flow.Some? && u.flow.value.stage.Flashing?
  {
    hide OnKey, Play, Jobs, BuildFlow.Valid, Keys, Trim, Letters;
    var last := if env.preflight.NeedsSudo? then Letters(w.sudo) + [Enter] else [];
    AtValid(disks, w.i, target, w.backup, FlashConfirm("", false), Some(built));
    u := Types(t, target.name, [Enter] + last, [], env);
    assert "" + target.name == target.name;
    AtValid(disks, w.i, target, w.backup, FlashConfirm(target.name, false), Some(built));
    NameEnter(disks, w.i, target, built, w.backup, env);
    if env.preflight.NeedsSudo? {
      u := Quietly(u, Enter, last, [], env);
      u := SudoHalf(u, disks, w, target, built, job, env);
    } else {
      var v := u;
      u := OneKey(v, Enter, last, [], env);
      FirstFlash(v, u, job, FlashJob(built, target, w.backup));
      NoKeys(env, []);
      PlayNone(u);
    }
  }

  lemma SudoHalf(t: Session, disks: seq<Disk>, w: Wish, target: Target, built: Image, job: BuildJob, env: Env) returns (u: Session)
    requires t.flow == Some(At(disks, w.i, target, w.backup, FlashSudo("", false), Some(built))) && Jobs(t) == ([job], [])
    requires target.bytes >= MIN_IMAGE_BYTES && built.size <= target.bytes && env.auth(w.sudo).Accepted?
    ensures u == Play(t, Keys(Letters(w.sudo) + [Enter], env) + [])
    ensures Jobs(u) == ([job], [FlashJob(built, target, w.backup)]) && u.flow.Some? && u.flow.value.stage.Flashing?
  {
    hide OnKey, Play, Jobs, BuildFlow.Valid, Keys, Letters;
    AtValid(disks, w.i, target, w.backup, FlashSudo("", false), Some(built));
    var v := Types(t, w.sudo, [Enter], [], env);
    assert "" + w.sudo == w.sudo && [Enter] + [] == [Enter];
    AtValid(disks, w.i, target, w.backup, FlashSudo(w.sudo, false), Some(built));
    SudoDone(disks, w.i, target, built, w.backup, w.sudo, env);
    u := OneKey(v, Enter, [], [], env);
    FirstFlash(v, u, job, FlashJob(built, target, w.backup));
    NoKeys(env, []);
    PlayNone(u);
  }

  lemma PlayNone(t: Session)
    ensures Play(t, []) == t
  {}

  /** For every listing, stick on it of at least 4 GiB and non-empty passphrase: the ordinary
      keys start the build, sized to the stick; and once it ends with an image that fits, or
      whose size could not be read, the ordinary keys flash that image onto the same stick. */
  lemma OrdinaryBuildAndFlash(disks: seq<Disk>, w: Wish, bytes: nat, image: Image, statOk: bool, env: Env)
    requires w.i < |disks| && env.bytes(disks[w.i].name) == Some(bytes) && bytes >= MIN_IMAGE_BYTES && w.pass != ""
    requires Trim(disks[w.i].name) == disks[w.i].name && (statOk ==> image.size <= bytes)
    requires env.preflight.Root? || (env.preflight.NeedsSudo? && env.auth(w.sudo).Accepted?)
    ensures var end := Play(Begin(true, Some(disks)), OrdinaryInputs(disks[w.i].name, w, image, statOk, env));
            var target := Target(disks[w.i].name, bytes);
            Jobs(end) == ([BuildJob(w.pass, bytes)], [FlashJob(Image(image.path, if statOk then image.size else 0), target, w.backup)])
            && end.flow.Some? && end.flow.value.stage.Flashing?
  {
    hide OnKey, Play, Keys, BuildKeys, FlashKeys, Trim, Jobs;
    var target, built := Target(disks[w.i].name, bytes), Image(image.path, if statOk then image.size else 0);
    var flash := Keys(FlashKeys(target.name, w, env), env);
    var t := BuildHalf(disks, w, bytes, [BuildEnds(Some(image), statOk)] + flash, env);
    var u := Step(t, BuildEnds(Some(image), statOk));
    OneInput(t, BuildEnds(Some(image), statOk), flash);
    JobsStay(t, image, statOk);
    var end := FlashHalf(u, disks, w, target, built, BuildJob(w.pass, bytes), env);
  }

  function OrdinaryInputs(name: string, w: Wish, image: Image, statOk: bool, env: Env): seq<Input> {
    Keys(BuildKeys(w), env) + ([BuildEnds(Some(image), statOk)] + Keys(FlashKeys(name, w, env), env))
  }

  lemma OneInput(t: Session, input: Input, rest: seq<Input>)
    ensures Play(t, [input] + rest) == Play(Step(t, input), rest)
  {
    assert ([input] + rest)[1..] == rest;
  }

  lemma JobsStay(t: Session, image: Image, statOk: bool)
    ensures Jobs(Step(t, BuildEnds(Some(image), statOk))) == Jobs(t)
  {}

  /** So any image, however large, is flashed onto the stick if its size could not be read when
      the build ended. (The worker stats the image again before it writes.) */
  lemma UnreadSizeFlashes(disks: seq<Disk>, w: Wish, bytes: nat, image: Image, env: Env)
    requires w.i < |disks| && env.bytes(disks[w.i].name) == Some(bytes) && bytes >= MIN_IMAGE_BYTES && w.pass != ""
    requires Trim(disks[w.i].name) == disks[w.i].name && env.preflight.Root? && image.size > bytes
    ensures var end := Play(Begin(true, Some(disks)), OrdinaryInputs(disks[w.i].name, w, image, false, env));
            && |Jobs(end).1| == 1 && Jobs(end).1[0].image.path == image.path && Jobs(end).1[0].target.bytes < image.size
  {
    hide OnKey, Play, Keys, BuildKeys, FlashKeys, Trim, Jobs, OrdinaryInputs;
    OrdinaryBuildAndFlash(disks, w, bytes, image, false, env);
  }

  /** A listing, a stick and an image of which that is so. */
  lemma UnreadSizeExample()
    ensures var env := Env(None, _ => Some(MIN_IMAGE_BYTES), Root, _ => Accepted);
            var w, image := Wish(0, "p", false, ""), Image("image", MIN_IMAGE_BYTES + 1);
            var end := Play(Begin(true, Some([Disk("x", None)])), OrdinaryInputs("x", w, image, false, env));
            |Jobs(end).1| == 1 && Jobs(end).1[0].image.path == "image" && Jobs(end).1[0].target.bytes < image.size
  {
    assert Trim("x") == "x";
    hide OnKey, Play, Keys, BuildKeys, FlashKeys, Trim, Jobs, OrdinaryInputs;
    UnreadSizeFlashes([Disk("x", None)], Wish(0, "p", false, ""), MIN_IMAGE_BYTES, Image("image", MIN_IMAGE_BYTES + 1),
                      Env(None, _ => Some(MIN_IMAGE_BYTES), Root, _ => Accepted));
  }
}
