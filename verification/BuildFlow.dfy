/** BUILD & FLASH (ui/buildflash.rs): pick a stick, build an image of its exact size under a
    twice-typed passphrase, flash that image onto the same stick. */
module BuildFlow {
  import opened Text
  import opened KeyLog

  /** The smallest stick the pathway accepts, 4 GiB. */
  const MIN_IMAGE_BYTES: nat := 4 * 1024 * 1024 * 1024

  /** The picked stick: its bare name and exact byte size. */
  datatype Target = Target(name: string, bytes: nat)

  datatype Stage =
    | Unavailable | PickDevice
    | PassFirst(buf: string, complaint: bool)
    | PassConfirm(first: string, again: string)
    | Building | FlashReview | FlashBackupAsk
    | FlashConfirm(typed: string, mismatch: bool)
    | FlashSudo(sudo: string, wrong: bool)
    | Flashing
    | Done(ok: bool)

  /** What the outside answers if this key asks. */
  datatype Env = Env(listing: Option<seq<Disk>>, bytes: string -> Option<nat>, preflight: Preflight, auth: string -> Auth)

  /** `built` carries the size the screen recorded for the image. */
  datatype Flow = Flow(disks: seq<Disk>, selected: nat, pickError: bool, picked: Option<Target>, backup: bool,
                       stage: Stage, built: Option<Image>)

  datatype BuildJob = BuildJob(pass: string, bytes: nat)
  datatype FlashJob = FlashJob(image: Image, target: Target, backup: bool)
  datatype Reply = Reply(flow: Option<Flow>, build: Option<BuildJob>, flash: Option<FlashJob>)

  function SelectedDisk(s: Flow): Option<Disk> {
    if s.selected < |s.disks| then Some(s.disks[s.selected]) else None
  }

  function Refreshed(s: Flow, listing: Option<seq<Disk>>): Flow {
    var disks := if listing.Some? then listing.value else [];
    s.(disks := disks, selected := Min(s.selected, Sub(|disks|, 1)))
  }

  /** `BuildFlowScreen::new`: without a host attribute the pathway only explains itself. */
  function Opened(available: bool, listing: Option<seq<Disk>>): Flow {
    var s := Flow([], 0, false, None, true, if available then PickDevice else Unavailable, None);
    if available then Refreshed(s, listing) else s
  }

  /** `exact_fit_note`: None before the build; Some(true) for an exact or smaller image. */
  function ExactFitNote(s: Flow): Option<bool> {
    if s.built.None? || s.picked.None? then None else Some(s.built.value.size <= s.picked.value.bytes)
  }

  /** True also when there is nothing to compare: the stage, not this test, keeps that out. */
  predicate ImageFits(s: Flow) { ExactFitNote(s) != Some(false) }

  function Stay(s: Flow): Reply { Reply(Some(s), None, None) }
  function To(s: Flow, stage: Stage): Reply { Stay(s.(stage := stage)) }
  const LEAVE := Reply(None, None, None)

  function ArmFlash(s: Flow): Reply {
    if s.picked.None? || s.built.None? then Stay(s)
    else Reply(Some(s.(stage := Flashing)), None, Some(FlashJob(s.built.value, s.picked.value, s.backup)))
  }

  function PickEnter(s: Flow, env: Env): Reply {
    match SelectedDisk(s)
    case None => Stay(s)
    case Some(d) =>
      match env.bytes(d.name)
      case None => Stay(s.(pickError := true))
      case Some(bytes) =>
        if bytes < MIN_IMAGE_BYTES then Stay(s.(pickError := true))
        else Stay(s.(picked := Some(Target(d.name, bytes)), pickError := false, stage := PassFirst("", false)))
  }

  function ConfirmEnter(s: Flow, typed: string, env: Env): Reply {
    if s.picked.None? then To(s, FlashConfirm("", s.stage.FlashConfirm? && s.stage.mismatch))
    else if Trim(typed) == s.picked.value.name then
      match env.preflight
      case Root => ArmFlash(s)
      case NeedsSudo => To(s, FlashSudo("", false))
      case NoSudo => To(s, Done(false))
    else To(s, FlashConfirm("", true))
  }

  function SudoEnter(s: Flow, entered: string, env: Env): Reply {
    match env.auth(entered)
    case Accepted => ArmFlash(s)
    case Wrong => To(s, FlashSudo("", true))
    case Missing => To(s, Done(false))
    case AuthError => To(s, Done(false))
  }

  /** `on_key`. */
  function OnKey(s: Flow, key: Key, env: Env): Reply {
    match s.stage
    case Unavailable => if key.Esc? || key.Enter? then LEAVE else Stay(s)
    case PickDevice =>
      if key.Esc? then LEAVE
      else if key.Up? || key == Char('k') then Stay(s.(selected := Sub(s.selected, 1)))
      else if key.Down? || key == Char('j') then Stay(s.(selected := Min(s.selected + 1, Sub(|s.disks|, 1))))
      else if key == Char('r') then Stay(Refreshed(s, env.listing))
      else if key.Enter? then PickEnter(s, env)
      else Stay(s)
    case PassFirst(buf, complaint) =>
      if key.Esc? then LEAVE
      else if key.Enter? then To(s, if buf == "" then PassFirst("", true) else PassConfirm(buf, ""))
      else To(s, PassFirst(Edit(buf, key), complaint))
    case PassConfirm(first, again) =>
      if key.Esc? then LEAVE
      else if key.Enter? then
        if first == again then
          Reply(Some(s.(stage := Building)), Some(BuildJob(first, if s.picked.Some? then s.picked.value.bytes else 0)), None)
        else To(s, PassFirst("", true))
      else To(s, PassConfirm(first, Edit(again, key)))
    case Building => Stay(s)
    case FlashReview =>
      if key.Esc? then LEAVE
      else if key.Enter? && ImageFits(s) then To(s, FlashBackupAsk)
      else Stay(s)
    case FlashBackupAsk =>
      if key.Esc? then To(s, FlashReview)
      else if IsAnswer(key) then To(s.(backup := IsYes(key)), FlashConfirm("", false))
      else Stay(s)
    case FlashConfirm(typed, mismatch) =>
      if key.Esc? then To(s, FlashReview)
      else if key.Enter? then ConfirmEnter(s, typed, env)
      else To(s, FlashConfirm(Edit(typed, key), mismatch))
    case FlashSudo(buf, wrong) =>
      if key.Esc? then To(s, FlashReview)
      else if key.Enter? then SudoEnter(s, buf, env)
      else To(s, FlashSudo(Edit(buf, key), wrong))
    case Flashing => Stay(s)
    case Done(_) => if key.Esc? || key.Enter? then LEAVE else Stay(s)
  }

  /** The build worker's terminal event. The recorded size is 0 when the image cannot be
      stat'ed. */
  function BuildDone(s: Flow, image: Option<Image>, statOk: bool): Flow {
    match image
    case None => s.(stage := Done(false))
    case Some(i) => s.(built := Some(Image(i.path, if statOk then i.size else 0)), stage := FlashReview)
  }

  // ---- The gates. ----

  predicate HasTarget(t: Stage) {
    t.PassFirst? || t.PassConfirm? || t.Building? || t.FlashReview? || Arming(t) || t.Flashing?
  }

  predicate Arming(t: Stage) { t.FlashBackupAsk? || t.FlashConfirm? || t.FlashSudo? }

  predicate Valid(s: Flow) {
    && (HasTarget(s.stage) ==> s.picked.Some? && s.picked.value.bytes >= MIN_IMAGE_BYTES)
    && (s.stage.PassConfirm? ==> s.stage.first != "")
    // The review and all that follows have an image: without this, ImageFits says nothing.
    && (s.stage.FlashReview? || Arming(s.stage) || s.stage.Flashing? ==> s.built.Some?)
    && (Arming(s.stage) || s.stage.Flashing? ==> s.built.value.size <= s.picked.value.bytes)
  }

  lemma KeyKeeps(s: Flow, key: Key, env: Env)
    requires Valid(s)
    ensures Keeps(s, OnKey(s, key, env))
  {
    match s.stage
    case PickDevice => PickKeeps(s, key, env);
    case PassFirst(_, _) => PassKeeps(s, key, env);
    case PassConfirm(_, _) => PassKeeps(s, key, env);
    case FlashConfirm(typed, _) => if key.Enter? { ConfirmEnterKeeps(s, typed, env); }
    case FlashSudo(buf, _) => if key.Enter? { SudoEnterKeeps(s, buf, env); }
    case _ =>
  }

  /** The gates hold, the built image stays, and so does the target once there is one. */
  predicate Keeps(s: Flow, r: Reply) {
    && (r.flow.Some? ==> Valid(r.flow.value) && r.flow.value.built == s.built)
    && (HasTarget(s.stage) && r.flow.Some? ==> r.flow.value.picked == s.picked)
  }

  lemma PickKeeps(s: Flow, key: Key, env: Env)
    requires Valid(s) && s.stage.PickDevice?
    ensures Keeps(s, OnKey(s, key, env))
  {}

  lemma PassKeeps(s: Flow, key: Key, env: Env)
    requires Valid(s) && (s.stage.PassFirst? || s.stage.PassConfirm?)
    ensures Keeps(s, OnKey(s, key, env))
  {}

  lemma ConfirmEnterKeeps(s: Flow, typed: string, env: Env)
    requires Valid(s) && s.stage.FlashConfirm?
    ensures var r := ConfirmEnter(s, typed, env);
            r.flow.Some? && Valid(r.flow.value) && r.flow.value.built == s.built && r.flow.value.picked == s.picked
  {}

  lemma SudoEnterKeeps(s: Flow, entered: string, env: Env)
    requires Valid(s) && s.stage.FlashSudo?
    ensures var r := SudoEnter(s, entered, env);
            r.flow.Some? && Valid(r.flow.value) && r.flow.value.built == s.built && r.flow.value.picked == s.picked
  {}

  /** A build that ends with an image leads to the review, any other ends the flow as failed;
      and the review lets exactly those images through that fit the stick or could not be
      stat'ed: the size gate is only as good as the stat behind it. */
  lemma ReviewPassesIff(s: Flow, image: Image, statOk: bool, env: Env)
    requires Valid(s) && s.stage.Building?
    ensures var review := BuildDone(s, Some(image), statOk);
            && Valid(review) && review.stage.FlashReview? && review.picked == s.picked
            && (ImageFits(review) <==> !statOk || image.size <= s.picked.value.bytes)
            && (OnKey(review, Enter, env).flow == Some(review.(stage := FlashBackupAsk)) <==> ImageFits(review))
    ensures BuildDone(s, None, statOk).stage == Done(false)
  {}

  /** On the list: Up takes back a Down that moved, nothing moves past either end, the letters
      do what the arrows do, and a refresh shows the new list with a stick of it chosen. */
  lemma ListKeys(s: Flow, env: Env)
    requires s.stage.PickDevice? && s.selected < |s.disks|
    ensures var down, up := OnKey(s, Down, env), OnKey(s, Up, env);
            && down.flow.Some? && up.flow.Some?
            && (s.selected + 1 < |s.disks| ==>
                  down.flow.value.selected == s.selected + 1 && OnKey(down.flow.value, Up, env).flow == Some(s))
            && (s.selected + 1 == |s.disks| ==> down.flow == Some(s)) && (s.selected == 0 ==> up.flow == Some(s))
            && OnKey(s, Char('j'), env) == down && OnKey(s, Char('k'), env) == up
    ensures var r := OnKey(s, Char('r'), env);
            && r.flow.Some? && r.flow.value.disks == (if env.listing.Some? then env.listing.value else [])
            && (r.flow.value.disks != [] ==> SelectedDisk(r.flow.value).Some?)
            && (s.selected < |r.flow.value.disks| ==> r.flow.value.selected == s.selected)
  {}

  /** Only Y, y, N and n answer the question, and only Y and y with yes. */
  lemma AnswerIff(s: Flow, key: Key, env: Env)
    requires Valid(s) && s.stage.FlashBackupAsk? && !key.Esc?
    ensures var r, yes, no := OnKey(s, key, env), key == Char('y') || key == Char('Y'), key == Char('n') || key == Char('N');
            && r.flow.Some?
            && (if yes || no then r.flow.value.stage.FlashConfirm? && r.flow.value.backup == yes else r.flow == Some(s))
  {}
}
