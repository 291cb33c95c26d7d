/** The FLASH screen (ui/flash.rs): the key-driven state machine that decides which disk a
    worker may overwrite, its gates, and sessions of keys and worker events on it. */
module FlashScreen {
  import opened Text
  import opened KeyLog

  datatype Phase =
    | Devices | Summary | BackupAsk
    | StorePass(buf: string)
    | Confirm(typed: string, mismatch: bool)
    | SudoPass(sudo: string, wrong: bool)
    | Running
    | Done(ok: bool)

  /** What the outside answers if this key asks: the lsblk listing, sudo's presence, and
      sudo's verdict on the password. */
  datatype Env = Env(listing: Option<seq<Disk>>, preflight: Preflight, auth: string -> Auth)

  datatype Screen = Screen(image: Option<Image>, disks: seq<Disk>, selected: nat, backup: bool,
                           storePass: Option<string>, phase: Phase)

  /** The worker's arguments. */
  datatype Launch = Launch(image: Image, disk: Disk, backup: bool, grow: bool, pass: Option<string>)

  /** What a key does: the screen it leaves (None once backed out of), and a worker started. */
  datatype Reply = Reply(screen: Option<Screen>, launch: Option<Launch>)

  function SelectedDisk(s: Screen): Option<Disk> {
    if s.selected < |s.disks| then Some(s.disks[s.selected]) else None
  }

  function SelectedSize(s: Screen): Option<nat> {
    match SelectedDisk(s) case None => None case Some(d) => d.size
  }

  /** An image that cannot physically fit is never armed; an unknown size passes. */
  predicate ImageFits(s: Screen) {
    s.image.Some? && SelectedSize(s).Some? ==> s.image.value.size <= SelectedSize(s).value
  }

  predicate GrowsToFill(s: Screen) {
    s.image.Some? && SelectedSize(s).Some? && s.image.value.size < SelectedSize(s).value
  }

  function Refreshed(s: Screen, listing: Option<seq<Disk>>): Screen {
    var disks := if listing.Some? then listing.value else [];
    s.(disks := disks, selected := Min(s.selected, Sub(|disks|, 1)))
  }

  /** `FlashScreen::new`. */
  function Opened(image: Option<Image>, listing: Option<seq<Disk>>): Screen {
    Refreshed(Screen(image, [], 0, true, None, if image.Some? then Devices else Done(false)), listing)
  }

  function Stay(s: Screen): Reply { Reply(Some(s), None) }
  function To(s: Screen, phase: Phase): Reply { Stay(s.(phase := phase)) }

  /** `arm`: start the worker on the selected disk. */
  function Arm(s: Screen): Reply
    requires s.image.Some?
  {
    match SelectedDisk(s)
    case None => Stay(s)
    case Some(d) =>
      Reply(Some(s.(storePass := None, phase := Running)),
            Some(Launch(s.image.value, d, s.backup, GrowsToFill(s), s.storePass)))
  }

  function ConfirmEnter(s: Screen, typed: string, env: Env): Reply
    requires s.image.Some?
  {
    match SelectedDisk(s)
    case None => To(s, Confirm("", s.phase.Confirm? && s.phase.mismatch))
    case Some(d) =>
      if Trim(typed) == d.name then
        match env.preflight
        case Root => Arm(s)
        case NeedsSudo => To(s, SudoPass("", false))
        case NoSudo => To(s, Done(false))
      else To(s, Confirm("", true))
  }

  function SudoEnter(s: Screen, entered: string, env: Env): Reply
    requires s.image.Some?
  {
    match env.auth(entered)
    case Accepted => Arm(s.(phase := SudoPass("", s.phase.SudoPass? && s.phase.wrong)))
    case Wrong => To(s, SudoPass("", true))
    case Missing => To(s, Done(false))
    case AuthError => To(s, Done(false))
  }

  /** `on_key`. Only a screen with an image gets past the device list. */
  function OnKey(s: Screen, key: Key, env: Env): Reply
    requires s.phase.Confirm? || s.phase.SudoPass? ==> s.image.Some?
  {
    match s.phase
    case Devices =>
      if key.Esc? then Reply(None, None)
      else if key.Up? || key == Char('k') then Stay(s.(selected := Sub(s.selected, 1)))
      else if key.Down? || key == Char('j') then Stay(s.(selected := Min(s.selected + 1, Sub(|s.disks|, 1))))
      else if key == Char('r') then Stay(Refreshed(s, env.listing))
      else if key.Enter? && SelectedDisk(s).Some? then To(s, Summary)
      else Stay(s)
    case Summary =>
      if key.Esc? then To(s, Devices)
      else if key.Enter? && ImageFits(s) then To(s, BackupAsk)
      else Stay(s)
    case BackupAsk =>
      if key.Esc? then To(s, Summary)
      else if IsAnswer(key) then
        To(s.(backup := IsYes(key)), if GrowsToFill(s) then StorePass("") else Confirm("", false))
      else Stay(s)
    case StorePass(buf) =>
      if key.Esc? then To(s, Summary)
      else if key.Enter? then To(s.(storePass := if buf == "" then None else Some(buf)), Confirm("", false))
      else To(s, StorePass(Edit(buf, key)))
    case Confirm(typed, mismatch) =>
      if key.Esc? then To(s, Summary)
      else if key.Enter? then ConfirmEnter(s, typed, env)
      else To(s, Confirm(Edit(typed, key), mismatch))
    case SudoPass(buf, wrong) =>
      if key.Esc? then To(s, Summary)
      else if key.Enter? then SudoEnter(s, buf, env)
      else To(s, SudoPass(Edit(buf, key), wrong))
    case Running => Stay(s)
    case Done(_) => if key.Esc? || key.Enter? then Reply(None, None) else Stay(s)
  }

  // ---- The invariant of the gates. ----

  predicate PastSummary(p: Phase) { p.BackupAsk? || p.StorePass? || p.Confirm? || p.SudoPass? }

  /** An image exists unless the screen only shows a failure; a disk is selected from the
      summary on; past the summary the image fits; and StorePass means the grow applies. */
  predicate Valid(s: Screen) {
    && (!s.phase.Done? ==> s.image.Some?)
    && (s.phase.Summary? || PastSummary(s.phase) ==> SelectedDisk(s).Some?)
    && (PastSummary(s.phase) ==> ImageFits(s))
    && (s.phase.StorePass? ==> GrowsToFill(s))
  }

  lemma OpenedValid(image: Option<Image>, listing: Option<seq<Disk>>)
    ensures Valid(Opened(image, listing))
  {}

  /** Every key keeps the gates, and past the device list the disk in question stays put. */
  lemma KeyKeeps(s: Screen, key: Key, env: Env)
    requires Valid(s)
    ensures Keeps(s, OnKey(s, key, env))
  {
    match s.phase
    case Devices => ListKeeps(s, key, env);
    case BackupAsk => AnswerKeeps(s, key, env);
    case Confirm(typed, _) => if key.Enter? { ConfirmEnterKeeps(s, typed, env); }
    case SudoPass(buf, _) => if key.Enter? { SudoEnterKeeps(s, buf, env); }
    case _ =>
  }

  /** The gates hold, the image stays, and past the device list the disk in question does. */
  predicate Keeps(s: Screen, r: Reply) {
    && (r.screen.Some? ==> Valid(r.screen.value) && r.screen.value.image == s.image)
    && (!s.phase.Devices? && r.screen.Some? ==> SelectedDisk(r.screen.value) == SelectedDisk(s))
  }

  lemma ListKeeps(s: Screen, key: Key, env: Env)
    requires Valid(s) && s.phase.Devices?
    ensures Keeps(s, OnKey(s, key, env))
  {}

  lemma AnswerKeeps(s: Screen, key: Key, env: Env)
    requires Valid(s) && s.phase.BackupAsk?
    ensures Keeps(s, OnKey(s, key, env))
  {}

  lemma ConfirmEnterKeeps(s: Screen, typed: string, env: Env)
    requires Valid(s) && s.phase.Confirm?
    ensures var r := ConfirmEnter(s, typed, env);
            r.screen.Some? && Valid(r.screen.value) && r.screen.value.image == s.image && SelectedDisk(r.screen.value) == SelectedDisk(s)
  {}

  lemma SudoEnterKeeps(s: Screen, entered: string, env: Env)
    requires Valid(s) && s.phase.SudoPass?
    ensures var r := SudoEnter(s, entered, env);
            r.screen.Some? && Valid(r.screen.value) && r.screen.value.image == s.image && SelectedDisk(r.screen.value) == SelectedDisk(s)
  {}

  /** On the list: Up takes back a Down that moved, nothing moves past either end, the letters
      do what the arrows do, and a refresh shows the new list with a disk of it chosen. */
  lemma ListKeys(s: Screen, env: Env)
    requires s.phase.Devices? && s.selected < |s.disks|
    ensures var down, up := OnKey(s, Down, env), OnKey(s, Up, env);
            && down.screen.Some? && up.screen.Some?
            && (s.selected + 1 < |s.disks| ==>
                  down.screen.value.selected == s.selected + 1 && OnKey(down.screen.value, Up, env).screen == Some(s))
            && (s.selected + 1 == |s.disks| ==> down.screen == Some(s)) && (s.selected == 0 ==> up.screen == Some(s))
            && OnKey(s, Char('j'), env) == down && OnKey(s, Char('k'), env) == up
    ensures var r := OnKey(s, Char('r'), env);
            && r.screen.Some? && r.screen.value.disks == (if env.listing.Some? then env.listing.value else [])
            && (r.screen.value.disks != [] ==> SelectedDisk(r.screen.value).Some?)
            && (s.selected < |r.screen.value.disks| ==> r.screen.value.selected == s.selected)
  {}

  // ---- Sessions: any sequence of keys and worker events. ----

  datatype Input = Press(key: Key, env: Env) | WorkerDone(ok: bool)

  function TagOf(p: Phase): Tag {
    match p
    case Devices => OnList case Summary => OnReview case BackupAsk => OnBackupAsk
    case StorePass(_) => OnStorePass case Confirm(_, _) => OnConfirm case SudoPass(_, _) => OnSudoPass
    case Running => OnOther case Done(_) => OnOther
  }

  datatype Session = Session(screen: Option<Screen>, log: seq<Seen<Disk>>, marks: Marks, launches: seq<Launched>)

  /** A worker with the keys that led to it. */
  datatype Launched = Launched(launch: Launch, log: seq<Seen<Disk>>, marks: Marks)

  function Marked(m: Marks, s: Screen, key: Key, next: Option<Screen>, i: nat): Marks {
    var answered := s.phase.BackupAsk?;
    var m1 := if answered then m.(answer := i, passEnd := i) else m;
    var m2 := if s.phase.StorePass? && key.Enter? then m1.(passEnd := i) else m1;
    var m3 := if s.phase.Confirm? && key.Enter? then m2.(enter := i) else m2;
    if next.Some? && next.value.phase.Confirm? && (!s.phase.Confirm? || key.Enter?) then m3.(open := i + 1) else m3
  }

  function Step(t: Session, input: Input): Session
    requires t.screen.Some? ==> Valid(t.screen.value)
  {
    if t.screen.None? then t
    else
      var s := t.screen.value;
      match input
      case WorkerDone(ok) =>
        if s.phase.Running? then t.(screen := Some(s.(phase := Done(ok)))) else t
      case Press(key, env) =>
        var r := OnKey(s, key, env);
        var log := t.log + [Seen(TagOf(s.phase), SelectedDisk(s), key)];
        var marks := Marked(t.marks, s, key, r.screen, |t.log|);
        Session(r.screen, log, marks,
                if r.launch.Some? then t.launches + [Launched(r.launch.value, log, marks)] else t.launches)
  }

  /** The passphrase was entered, whole, right after the answer; an empty one counts as none. */
  predicate PassEntered(log: seq<Seen<Disk>>, m: Marks, pass: Option<string>) {
    && m.answer < m.passEnd && Entry(log, m.answer + 1, m.passEnd, OnStorePass)
    && m.passEnd < |log| && log[m.passEnd].tag == OnStorePass && log[m.passEnd].key.Enter?
    && pass == (var text := Edited(log[m.answer + 1..m.passEnd]); if text == "" then None else Some(text))
  }

  /** What a started worker was entitled to. */
  predicate Authorised(l: Launched) {
    var Launched(launch, log, m) := l;
    && Visit(log, m, launch.disk, launch.backup)
    && (launch.grow ==> PassEntered(log, m, launch.pass))
    && NameAccepted(log, m, launch.disk.name)
    && (launch.disk.size.Some? ==> launch.image.size <= launch.disk.size.value)
    && (launch.grow <==> launch.disk.size.Some? && launch.image.size < launch.disk.size.value)
  }

  /** Only Y, y, N and n answer the question, and only Y and y with yes. */
  lemma AnswerIff(s: Screen, key: Key, env: Env)
    requires Valid(s) && s.phase.BackupAsk? && !key.Esc?
    ensures var r, yes, no := OnKey(s, key, env), key == Char('y') || key == Char('Y'), key == Char('n') || key == Char('N');
            && r.screen.Some?
            && (if yes || no then (r.screen.value.phase.StorePass? || r.screen.value.phase.Confirm?) && r.screen.value.backup == yes else r.screen == Some(s))
  {}
}
