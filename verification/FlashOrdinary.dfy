/** The ordinary way through the FLASH screen: for any listed disk that is large enough, the keys
    an operator would press start exactly the worker asked for. */
module FlashOrdinary {
  import opened Text
  import opened KeyLog
  import opened FlashScreen
  import opened FlashSession

  function Keys(keys: seq<Key>, env: Env): seq<Input> {
    if keys == [] then [] else [Press(keys[0], env)] + Keys(keys[1..], env)
  }

  /** One key: the screen it leaves, and the workers so far. */
  lemma OneKey(t: Session, key: Key, more: seq<Key>, env: Env) returns (u: Session)
    requires Sound(t) && t.screen.Some?
    ensures Sound(u) && Play(t, Keys([key] + more, env)) == Play(u, Keys(more, env))
    ensures var r := OnKey(t.screen.value, key, env);
            u.screen == r.screen && (if r.launch.None? then u.launches == t.launches
                                     else |u.launches| == |t.launches| + 1 && u.launches[|t.launches|].launch == r.launch.value)
  {
    StepSound(t, Press(key, env));
    u := Step(t, Press(key, env));
    assert Keys([key] + more, env)[0] == Press(key, env) && ([key] + more)[1..] == more;
    assert Keys([key] + more, env)[1..] == Keys(more, env);
    hide OnKey, Shows, Authorised;
  }

  /** Down moves the choice. */
  lemma {:induction false} Downs(t: Session, n: nat, more: seq<Key>, env: Env) returns (u: Session)
    requires Sound(t) && t.screen.Some? && t.screen.value.phase.Devices? && t.screen.value.selected + n < |t.screen.value.disks|
    ensures Sound(u) && Play(t, Keys(Times(Down, n) + more, env)) == Play(u, Keys(more, env))
    ensures u.screen == Some(t.screen.value.(selected := t.screen.value.selected + n)) && u.launches == t.launches
    decreases n
  {
    hide Sound;
    if n == 0 {
      assert Times(Down, 0) + more == more;
      u := t;
    } else {
      var v := OneKey(t, Down, Times(Down, n - 1) + more, env);
      assert Times(Down, n) + more == [Down] + (Times(Down, n - 1) + more);
      u := Downs(v, n - 1, more, env);
    }
  }

  /** The phase's text field, and the phase with another text in it. */
  predicate HasField(p: Phase) { p.StorePass? || p.Confirm? || p.SudoPass? }

  function With(p: Phase, text: string): Phase
    requires HasField(p)
  {
    match p case StorePass(b) => StorePass(b + text) case Confirm(b, m) => Confirm(b + text, m) case SudoPass(b, w) => SudoPass(b + text, w)
  }

  /** Letters go into the field. */
  lemma {:induction false} Types(t: Session, text: string, more: seq<Key>, env: Env) returns (u: Session)
    requires Sound(t) && t.screen.Some? && HasField(t.screen.value.phase)
    ensures Sound(u) && Play(t, Keys(Letters(text) + more, env)) == Play(u, Keys(more, env))
    ensures u.screen == Some(t.screen.value.(phase := With(t.screen.value.phase, text))) && u.launches == t.launches
    decreases |text|
  {
    hide Sound;
    if text == "" {
      assert Letters(text) + more == more && With(t.screen.value.phase, "") == t.screen.value.phase by { NoText(t.screen.value.phase); }
      u := t;
    } else {
      var v := OneKey(t, Char(text[0]), Letters(text[1..]) + more, env);
      assert Letters(text) + more == [Char(text[0])] + (Letters(text[1..]) + more);
      u := Types(v, text[1..], more, env);
      MoreText(t.screen.value.phase, text);
    }
  }

  lemma NoText(p: Phase)
    requires HasField(p)
    ensures With(p, "") == p
  {}

  lemma MoreText(p: Phase, text: string)
    requires HasField(p) && text != ""
    ensures With(With(p, [text[0]]), text[1..]) == With(p, text)
  {
    assert [text[0]] + text[1..] == text;
    match p
    case StorePass(b) => assert (b + [text[0]]) + text[1..] == b + text;
    case Confirm(b, _) => assert (b + [text[0]]) + text[1..] == b + text;
    case SudoPass(b, _) => assert (b + [text[0]]) + text[1..] == b + text;
  }

  /** What the operator wants: the disk's place, the backup answer, the store's passphrase for a
      grow, and the sudo password where one is asked for. */
  datatype Wish = Wish(i: nat, backup: bool, pass: string, sudo: string)

  predicate Grows(image: Image, d: Disk) { d.size.Some? && image.size < d.size.value }

  function ChooseKeys(w: Wish): seq<Key> {
    Times(Down, w.i) + [Enter, Enter, Char(if w.backup then 'y' else 'n')]
  }

  function PassKeys(image: Image, d: Disk, w: Wish): seq<Key> { if Grows(image, d) then Letters(w.pass) + [Enter] else [] }

  function ArmKeys(d: Disk, w: Wish, env: Env): seq<Key> {
    Letters(d.name) + [Enter] + if env.preflight.NeedsSudo? then Letters(w.sudo) + [Enter] else []
  }

  /** The worker the operator asked for. */
  function Wanted(image: Image, d: Disk, w: Wish): Launch {
    Launch(image, d, w.backup, Grows(image, d), if Grows(image, d) && w.pass != "" then Some(w.pass) else None)
  }

  // ---- The screens on the way. ----

  /** The screen for this disk in a phase. */
  function At(image: Image, disks: seq<Disk>, i: nat, backup: bool, pass: Option<string>, phase: Phase): Screen {
    Screen(Some(image), disks, i, backup, pass, phase)
  }

  lemma ListEnter(image: Image, disks: seq<Disk>, i: nat, env: Env)
    requires i < |disks|
    ensures OnKey(At(image, disks, i, true, None, Devices), Enter, env) == Reply(Some(At(image, disks, i, true, None, Summary)), None)
  {}

  lemma SummaryEnter(image: Image, disks: seq<Disk>, i: nat, env: Env)
    requires i < |disks| && (disks[i].size.Some? ==> image.size <= disks[i].size.value)
    ensures OnKey(At(image, disks, i, true, None, Summary), Enter, env) == Reply(Some(At(image, disks, i, true, None, BackupAsk)), None)
  {}

  lemma Answered(image: Image, disks: seq<Disk>, i: nat, backup: bool, env: Env)
    requires i < |disks|
    ensures OnKey(At(image, disks, i, true, None, BackupAsk), Char(if backup then 'y' else 'n'), env)
         == Reply(Some(At(image, disks, i, backup, None, if Grows(image, disks[i]) then StorePass("") else Confirm("", false))), None)
  {}

  lemma PassEnter(image: Image, disks: seq<Disk>, i: nat, backup: bool, pass: string, env: Env)
    ensures OnKey(At(image, disks, i, backup, None, StorePass(pass)), Enter, env)
         == Reply(Some(At(image, disks, i, backup, if pass != "" then Some(pass) else None, Confirm("", false))), None)
  {}

  lemma NameEnter(image: Image, disks: seq<Disk>, i: nat, backup: bool, pass: Option<string>, env: Env)
    requires i < |disks| && Trim(disks[i].name) == disks[i].name
    ensures var r := OnKey(At(image, disks, i, backup, pass, Confirm(disks[i].name, false)), Enter, env);
            && (env.preflight.Root? ==>
                  r.launch == Some(Launch(image, disks[i], backup, Grows(image, disks[i]), pass))
                  && r.screen.Some? && r.screen.value.phase.Running?)
            && (env.preflight.NeedsSudo? ==> r == Reply(Some(At(image, disks, i, backup, pass, SudoPass("", false))), None))
  {
    hide Trim;
  }

  lemma SudoDone(image: Image, disks: seq<Disk>, i: nat, backup: bool, pass: Option<string>, sudo: string, env: Env)
    requires i < |disks| && env.auth(sudo).Accepted?
    ensures var r := OnKey(At(image, disks, i, backup, pass, SudoPass(sudo, false)), Enter, env);
            && r.launch == Some(Launch(image, disks[i], backup, Grows(image, disks[i]), pass))
            && r.screen.Some? && r.screen.value.phase.Running?
  {}

  // ---- The three parts. ----

  lemma Chosen(t: Session, image: Image, disks: seq<Disk>, w: Wish, more: seq<Key>, env: Env) returns (u: Session)
    requires Sound(t) && t.screen == Some(At(image, disks, 0, true, None, Devices)) && t.launches == []
    requires w.i < |disks| && (disks[w.i].size.Some? ==> image.size <= disks[w.i].size.value)
    ensures Sound(u) && Play(t, Keys(ChooseKeys(w) + more, env)) == Play(u, Keys(more, env)) && u.launches == []
    ensures u.screen == Some(At(image, disks, w.i, w.backup, None,
                                if Grows(image, disks[w.i]) then StorePass("") else Confirm("", false)))
  {
    hide Sound, OnKey, Grows;
    var yn := Char(if w.backup then 'y' else 'n');
    assert ChooseKeys(w) + more == Times(Down, w.i) + ([Enter] + ([Enter] + ([yn] + more)));
    u := Downs(t, w.i, [Enter] + ([Enter] + ([yn] + more)), env);
    ListEnter(image, disks, w.i, env);
    u := OneKey(u, Enter, [Enter] + ([yn] + more), env);
    SummaryEnter(image, disks, w.i, env);
    u := OneKey(u, Enter, [yn] + more, env);
    Answered(image, disks, w.i, w.backup, env);
    u := OneKey(u, yn, more, env);
  }

  lemma PassGiven(t: Session, image: Image, disks: seq<Disk>, w: Wish, more: seq<Key>, env: Env) returns (u: Session)
    requires w.i < |disks| && Sound(t) && t.launches == []
    requires t.screen == Some(At(image, disks, w.i, w.backup, None,
                                 if Grows(image, disks[w.i]) then StorePass("") else Confirm("", false)))
    ensures Sound(u) && Play(t, Keys(PassKeys(image, disks[w.i], w) + more, env)) == Play(u, Keys(more, env)) && u.launches == []
    ensures u.screen == Some(At(image, disks, w.i, w.backup, Wanted(image, disks[w.i], w).pass, Confirm("", false)))
  {
    hide Sound, OnKey, Grows;
    if Grows(image, disks[w.i]) {
      assert PassKeys(image, disks[w.i], w) + more == Letters(w.pass) + ([Enter] + more);
      u := Types(t, w.pass, [Enter] + more, env);
      assert "" + w.pass == w.pass;
      PassEnter(image, disks, w.i, w.backup, w.pass, env);
      u := OneKey(u, Enter, more, env);
    } else {
      assert PassKeys(image, disks[w.i], w) + more == more;
      u := t;
    }
  }

  lemma NameTyped(t: Session, image: Image, disks: seq<Disk>, w: Wish, env: Env)
    requires w.i < |disks| && Sound(t) && t.launches == [] && Trim(disks[w.i].name) == disks[w.i].name
    requires t.screen == Some(At(image, disks, w.i, w.backup, Wanted(image, disks[w.i], w).pass, Confirm("", false)))
    requires env.preflight.Root? || (env.preflight.NeedsSudo? && env.auth(w.sudo).Accepted?)
    ensures var end := Play(t, Keys(ArmKeys(disks[w.i], w, env), env));
            |end.launches| == 1 && end.launches[0].launch == Wanted(image, disks[w.i], w)
            && end.screen.Some? && end.screen.value.phase.Running?
  {
    hide Sound, OnKey, Grows, Trim;
    var d, pass := disks[w.i], Wanted(image, disks[w.i], w).pass;
    var tail := if env.preflight.NeedsSudo? then Letters(w.sudo) + [Enter] else [];
    assert ArmKeys(d, w, env) == Letters(d.name) + ([Enter] + tail);
    var u := Types(t, d.name, [Enter] + tail, env);
    assert "" + d.name == d.name;
    NameEnter(image, disks, w.i, w.backup, pass, env);
    u := OneKey(u, Enter, tail, env);
    if env.preflight.NeedsSudo? {
      u := Types(u, w.sudo, [Enter], env);
      assert "" + w.sudo == w.sudo && [Enter] + [] == [Enter];
      SudoDone(image, disks, w.i, w.backup, pass, w.sudo, env);
      u := OneKey(u, Enter, [], env);
    }
    assert Keys([], env) == [] && Play(u, []) == u;
  }

  /** For every image, listing and disk on it that is large enough or of unknown size: the
      ordinary keys start one worker, with that image on that disk, the backup as answered, the
      grow exactly when the disk is known to be larger, and the passphrase entered for it. */
  lemma OrdinaryFlash(image: Image, disks: seq<Disk>, w: Wish, env: Env)
    requires w.i < |disks| && (disks[w.i].size.Some? ==> image.size <= disks[w.i].size.value)
    requires Trim(disks[w.i].name) == disks[w.i].name
    requires env.preflight.Root? || (env.preflight.NeedsSudo? && env.auth(w.sudo).Accepted?)
    ensures Sound(Begin(Some(image), Some(disks)))
    ensures var end := Play(Begin(Some(image), Some(disks)),
                            Keys(ChooseKeys(w) + (PassKeys(image, disks[w.i], w) + ArmKeys(disks[w.i], w, env)), env));
            |end.launches| == 1 && end.launches[0].launch == Wanted(image, disks[w.i], w)
            && end.screen.Some? && end.screen.value.phase.Running?
  {
    OpenedValid(Some(image), Some(disks));
    var t := Begin(Some(image), Some(disks));
    assert Sound(t) && t.screen == Some(At(image, disks, 0, true, None, Devices));
    hide Sound, OnKey, Wanted, Opened, ChooseKeys, PassKeys, ArmKeys, Trim;
    var u := Chosen(t, image, disks, w, PassKeys(image, disks[w.i], w) + ArmKeys(disks[w.i], w, env), env);
    u := PassGiven(u, image, disks, w, ArmKeys(disks[w.i], w, env), env);
    NameTyped(u, image, disks, w, env);
  }
}
