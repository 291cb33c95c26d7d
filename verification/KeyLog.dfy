/** What the two screens that can start a flash share: the keys as the operator gave them, the
    log of key presses and what it means to have answered, typed and confirmed, and the flash
    worker's events. */
module KeyLog {
  import opened Text

  datatype Key = Esc | Enter | Backspace | Up | Down | Char(c: char) | OtherKey

  /** A whole disk of the lsblk listing; its size may be unknown. */
  datatype Disk = Disk(name: string, size: Option<nat>)
  datatype Image = Image(path: string, size: nat)

  /** Whether the process is root, and sudo's verdict on a password. */
  datatype Preflight = Root | NeedsSudo | NoSudo
  datatype Auth = Accepted | Wrong | Missing | AuthError

  function Sub(a: nat, b: nat): nat { if a >= b then a - b else 0 }
  function Popped(s: string): string { if s == [] then [] else s[..|s| - 1] }

  predicate IsYes(key: Key) { key == Char('y') || key == Char('Y') }
  predicate IsAnswer(key: Key) { IsYes(key) || key == Char('n') || key == Char('N') }

  /** A one-line text field: characters append, Backspace drops the last. */
  function Edit(text: string, key: Key): string {
    match key case Char(c) => text + [c] case Backspace => Popped(text) case _ => text
  }

  function Times(key: Key, n: nat): seq<Key> { if n == 0 then [] else [key] + Times(key, n - 1) }
  function Letters(text: string): seq<Key> { if text == "" then [] else [Char(text[0])] + Letters(text[1..]) }

  datatype Tag = OnList | OnReview | OnBackupAsk | OnStorePass | OnPassFirst | OnPassConfirm | OnConfirm | OnSudoPass | OnOther

  /** A key press: on which phase, for which target, and the key. */
  datatype Seen<D> = Seen(tag: Tag, target: Option<D>, key: Key)

  /** Places in the log: the backup answer, the end of the passphrase, the start of the
      typed name, and the Enter that closed it. */
  datatype Marks = Marks(answer: nat, passEnd: nat, open: nat, enter: nat)

  /** What typing these keys into an empty field leaves in it. */
  function Edited<D>(keys: seq<Seen<D>>): string
    decreases |keys|
  {
    if keys == [] then "" else Edit(Edited(keys[..|keys| - 1]), keys[|keys| - 1].key)
  }

  /** `log[from..to]` is one text entry under the tag: no Enter in between. */
  predicate Entry<D>(log: seq<Seen<D>>, from: nat, to: nat, tag: Tag) {
    from <= to <= |log| && forall j :: from <= j < to ==> log[j].tag == tag && !log[j].key.Enter?
  }

  /** The backup question was answered for this target, and from then on every key was
      pressed for it and none left the visit. */
  predicate Visit<D(==)>(log: seq<Seen<D>>, m: Marks, target: D, backup: bool) {
    && m.answer < |log| && log[m.answer].tag == OnBackupAsk && IsAnswer(log[m.answer].key)
    && (backup <==> IsYes(log[m.answer].key))
    && forall j :: m.answer <= j < |log| ==> log[j].target == Some(target) && !log[j].key.Esc?
  }

  /** After answer and passphrase, the name field was opened anew at `open`: everything
      typed before is done with. */
  predicate NameField<D>(log: seq<Seen<D>>, m: Marks) {
    && m.answer < m.open <= |log|
    && (forall j :: m.passEnd < j < m.open ==> log[j].tag == OnConfirm)
    && (m.open > m.passEnd + 1 ==> log[m.open - 1].key.Enter?)
  }

  /** The name was typed, whole, and accepted at `enter`; since then only the sudo password. */
  predicate NameAccepted<D>(log: seq<Seen<D>>, m: Marks, name: string) {
    && NameField(log, m) && m.open <= m.enter < |log| && Entry(log, m.open, m.enter, OnConfirm)
    && log[m.enter].tag == OnConfirm && log[m.enter].key.Enter?
    && Trim(Edited(log[m.open..m.enter])) == name
    && (forall j :: m.enter < j < |log| ==> log[j].tag == OnSudoPass)
  }

  /** What a flash worker sends. */
  datatype FlashEvent = PhaseTitle(title: string) | Progress(done: nat, total: nat) | Finished(ok: bool)

  /** The verdict of a batch of worker events: its last terminal event. */
  function LastFinish(events: seq<FlashEvent>): Option<bool> {
    if events == [] then None
    else if events[|events| - 1].Finished? then Some(events[|events| - 1].ok)
    else LastFinish(events[..|events| - 1])
  }

  /** Characters append, Backspace takes the last back and leaves an empty field alone, and no
      other key edits. */
  lemma EditIs(text: string, c: char, other: Key)
    requires !other.Char? && !other.Backspace?
    ensures Edit(text, Char(c)) == text + [c]
    ensures Edit(Edit(text, Char(c)), Backspace) == text && Edit("", Backspace) == "" && Edit(text, other) == text
  {
    assert (text + [c])[..|text|] == text;
  }

  /** The last verdict of a batch counts, whatever came before or, short of another verdict,
      after it ... */
  lemma {:induction false} LastFinishIs(before: seq<FlashEvent>, ok: bool, rest: seq<FlashEvent>)
    requires forall e <- rest :: !e.Finished?
    ensures LastFinish(before + [Finished(ok)] + rest) == Some(ok)
    decreases |rest|
  {
    var all := before + [Finished(ok)] + rest;
    if rest != [] {
      LastFinishIs(before, ok, rest[..|rest| - 1]);
      assert all[..|all| - 1] == before + [Finished(ok)] + rest[..|rest| - 1];
    }
  }

  /** ... and a batch without one has none. */
  lemma {:induction false} NoFinish(events: seq<FlashEvent>)
    requires forall e <- events :: !e.Finished?
    ensures LastFinish(events).None?
    decreases |events|
  {
    if events != [] { NoFinish(events[..|events| - 1]); }
  }

  // ---- One more key in the log. ----

  lemma VisitGrows<D>(log: seq<Seen<D>>, x: Seen<D>, m: Marks, target: D, backup: bool)
    requires Visit(log, m, target, backup) && x.target == Some(target) && !x.key.Esc?
    ensures Visit(log + [x], m, target, backup)
  {}

  lemma EntryGrows<D>(log: seq<Seen<D>>, x: Seen<D>, from: nat, tag: Tag)
    requires Entry(log, from, |log|, tag) && x.tag == tag
    ensures Edited((log + [x])[from..]) == Edit(Edited(log[from..]), x.key)
    ensures !x.key.Enter? ==> Entry(log + [x], from, |log| + 1, tag)
    ensures (log + [x])[from..|log|] == log[from..] && Entry(log + [x], from, |log|, tag)
  {
    var longer := (log + [x])[from..];
    assert longer[..|longer| - 1] == log[from..];
  }

  lemma NameFieldGrows<D>(log: seq<Seen<D>>, x: Seen<D>, m: Marks)
    requires NameField(log, m)
    ensures NameField(log + [x], m)
  {}

  lemma NameAcceptedGrows<D>(log: seq<Seen<D>>, x: Seen<D>, m: Marks, name: string)
    requires NameAccepted(log, m, name) && x.tag == OnSudoPass
    ensures NameAccepted(log + [x], m, name)
  {
    assert (log + [x])[m.open..m.enter] == log[m.open..m.enter];
  }

  /** Enter closes the typed name: accepted where it stands, or done with and opened anew. */
  lemma NameClosed<D>(log: seq<Seen<D>>, m: Marks, target: D, name: string)
    requires NameField(log, m) && Entry(log, m.open, |log|, OnConfirm)
    ensures var log' := log + [Seen(OnConfirm, Some(target), Enter)];
            && (Trim(Edited(log[m.open..])) == name ==> NameAccepted(log', m.(enter := |log|), name))
            && (m.passEnd < |log| + 1 ==> NameField(log', m.(enter := |log|, open := |log| + 1)))
            && Entry(log', |log| + 1, |log| + 1, OnConfirm) && Edited(log'[|log| + 1..]) == ""
  {
    var log' := log + [Seen(OnConfirm, Some(target), Enter)];
    assert log'[m.open..|log|] == log[m.open..];
    assert log'[|log| + 1..] == [];
  }
}
