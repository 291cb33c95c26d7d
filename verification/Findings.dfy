/** What a VERIFY run reports: each issue, each row and each progress event, exactly when the
    bytes call for it. */
module Findings {
  import opened Text
  import opened Device
  import opened Window
  import opened Verify
  import opened Verdict
  import opened Shown

  ghost predicate HasUsed(gpt: Option<seq<Partition>>, esp: bool) {
    gpt.Some? && exists x <- gpt.value :: x.used && x.isEsp == esp
  }

  lemma LocatedIff(gpt: Option<seq<Partition>>, esp: bool)
    ensures Located(gpt, esp).Some? <==> HasUsed(gpt, esp)
  {
    if gpt.Some? {
      LocatedIs(gpt.value, esp);
      hide Used, First;
      if i: nat :| Located(gpt, esp).Some? && IsFirst(gpt.value, esp, i) { assert gpt.value[i] in gpt.value; }
    }
  }

  // ---- Issues. ----

  ghost predicate GptCalls(gpt: Option<seq<Partition>>, i: Issue) {
    match i
    case GptUnreadable => gpt.None?
    case WrongCount(n) => gpt.Some? && n == UsedCount(gpt.value) && n != 2
    case NoEsp => gpt.Some? && !HasUsed(gpt, true)
    case NoStore => gpt.Some? && !HasUsed(gpt, false)
    case _ => false
  }

  lemma GptIssues(gpt: Option<seq<Partition>>, i: Issue)
    ensures i in GptStep(gpt).issues <==> GptCalls(gpt, i)
  {
    if gpt.Some? {
      UsedIs(gpt.value);
      LocatedIff(gpt, true);
      LocatedIff(gpt, false);
      hide Used, UsedCount, First, HasUsed;
    }
  }

  /** An ESP is located and was mounted. */
  ghost predicate Mounted(p: Parsed) { HasUsed(p.gpt, true) && p.fat.Some? }

  ghost predicate BootCalls(p: Parsed, i: Issue) {
    match i
    case EspNotFat => HasUsed(p.gpt, true) && p.fat.None?
    case NoBootloader => Mounted(p) && p.fat.value.bootx64.None? && !p.fat.value.systemdDir
    case NoUkiDir => Mounted(p) && p.fat.value.linux.None?
    case NoUkis => Mounted(p) && p.fat.value.linux.Some? && forall e <- p.fat.value.linux.value :: !IsUki(e)
    case _ => false
  }

  lemma BootIssues(p: Parsed, i: Issue)
    ensures i in EspReport(p).issues <==> BootCalls(p, i)
  {
    LocatedIff(p.gpt, true);
    if p.fat.Some? && p.fat.value.linux.Some? { UkisSome(p.fat.value.linux.value); }
    hide Located, HasUsed, IsUki;
  }

  ghost predicate StoreCalls(gpt: Option<seq<Partition>>, data: seq<byte>, i: Issue)
    requires HeaderFits(gpt, data)
  {
    var store := Located(gpt, false);
    i == NoLuks2 && store.Some? && data[store.value.start..store.value.start + 8] != LUKS2_START
  }

  lemma StoreIssues(gpt: Option<seq<Partition>>, data: seq<byte>, i: Issue)
    requires HeaderFits(gpt, data)
    ensures i in StoreReport(gpt, data).issues <==> StoreCalls(gpt, data, i)
  {
    var store := Located(gpt, false);
    if store.Some? { Luks2Iff(data[store.value.start..store.value.start + 8]); }
    hide Located;
  }

  ghost predicate WholeCalls(f: Foreign, data: seq<byte>, isDevice: bool, image: Option<seq<byte>>, skip: Option<nat -> bool>, i: Issue) {
    match i
    case DeviceTooSmall => isDevice && image.Some? && |data| < |image.value|
    case BytesDiffer => isDevice && image.Some? && !CompareWasSkipped(data, image.value, skip) && !SameDigest(f, data, image.value)
    case _ => false
  }

  lemma WholeIssues(f: Foreign, data: seq<byte>, isDevice: bool, image: Option<seq<byte>>, skip: Option<nat -> bool>, i: Issue)
    ensures i in WholeReport(f, data, isDevice, image, skip).issues <==> WholeCalls(f, data, isDevice, image, skip, i)
  {
    hide Ticks;
  }

  /** An issue is on record exactly when what it says is so. */
  lemma IssuesIff(f: Foreign, p: Parsed, data: seq<byte>, isDevice: bool, image: Option<seq<byte>>, skip: Option<nat -> bool>, i: Issue)
    requires HeaderFits(p.gpt, data)
    ensures i in Evidence(f, p, data, isDevice, image, skip).issues <==>
            || GptCalls(p.gpt, i) || BootCalls(p, i) || StoreCalls(p.gpt, data, i)
            || WholeCalls(f, data, isDevice, image, skip, i)
  {
    GptIssues(p.gpt, i);
    BootIssues(p, i);
    StoreIssues(p.gpt, data, i);
    WholeIssues(f, data, isDevice, image, skip, i);
    hide GptStep, EspReport, StoreReport, WholeReport, GptCalls, BootCalls, StoreCalls, WholeCalls;
  }

  // ---- Rows. ----

  /** The row is among these events. */
  predicate Listed(events: seq<Event>, d: Detail) { Note(d) in events }

  ghost predicate GptLists(gpt: Option<seq<Partition>>, d: Detail) {
    match d
    case PartRow(x) => gpt.Some? && x in gpt.value && x.used
    case GptError => gpt.None?
    case _ => false
  }

  lemma GptRows(gpt: Option<seq<Partition>>, d: Detail)
    ensures Listed(GptStep(gpt).events, d) <==> GptLists(gpt, d)
  {
    if gpt.Some? {
      UsedIs(gpt.value);
      PartRowsAre(Used(gpt.value));
      hide Used, UsedCount, First, PartRows;
    }
  }

  ghost predicate BootLists(p: Parsed, d: Detail) {
    match d
    case BootRow(len) => Mounted(p) && len == p.fat.value.bootx64
    case SystemdRow(present) => Mounted(p) && present == p.fat.value.systemdDir
    case UkiRow(e) => Mounted(p) && p.fat.value.linux.Some? && e in p.fat.value.linux.value && IsUki(e)
    case _ => false
  }

  lemma BootRows(p: Parsed, d: Detail)
    ensures Listed(EspReport(p).events, d) <==> BootLists(p, d)
  {
    LocatedIff(p.gpt, true);
    if p.fat.Some? && p.fat.value.linux.Some? {
      UkisAre(p.fat.value.linux.value);
      UkiRowsAre(Ukis(p.fat.value.linux.value));
    }
    hide Located, HasUsed, IsUki, Ukis;
  }

  ghost predicate StoreLists(gpt: Option<seq<Partition>>, data: seq<byte>, d: Detail)
    requires HeaderFits(gpt, data)
  {
    var store := Located(gpt, false);
    store.Some? &&
    var at := store.value.start;
    var hi: int, lo: int := data[at + 6], data[at + 7];
    match d
    case MagicRow(ok) => ok == (data[at..at + 6] == LUKS2_START[..6])
    case VersionRow(v) => v == 256 * hi + lo
    case _ => false
  }

  lemma StoreRows(gpt: Option<seq<Partition>>, data: seq<byte>, d: Detail)
    requires HeaderFits(gpt, data)
    ensures Listed(StoreReport(gpt, data).events, d) <==> StoreLists(gpt, data, d)
  {
    var store := Located(gpt, false);
    if store.Some? {
      var at := store.value.start;
      SliceOfSlice(data, at, at + 8, 0, 6);
      assert LUKS2_START[..6] == LUKS_MAGIC;
    }
    hide Located;
  }

  ghost predicate WholeLists(f: Foreign, data: seq<byte>, isDevice: bool, image: Option<seq<byte>>, skip: Option<nat -> bool>, d: Detail) {
    var compared := isDevice && image.Some? && !CompareWasSkipped(data, image.value, skip);
    match d
    case Digest(hex) => !isDevice && hex == Hex(f.sha(data))
    case DeviceDigest(hex) => compared && hex == Hex(f.sha(data[..Min(|image.value|, |data|)]))
    case ImageDigest(hex) => compared && hex == Hex(f.sha(image.value[..Min(|image.value|, |data|)]))
    case CompareSkipped => isDevice && image.Some? && CompareWasSkipped(data, image.value, skip)
    case NothingToCompare => isDevice && image.None?
    case _ => false
  }

  lemma WholeRows(f: Foreign, data: seq<byte>, isDevice: bool, image: Option<seq<byte>>, skip: Option<nat -> bool>, d: Detail)
    ensures Listed(WholeReport(f, data, isDevice, image, skip).events, d) <==> WholeLists(f, data, isDevice, image, skip, d)
  {
    hide Ticks, Hex, Reached;
    if !isDevice {
      TicksAre(0, |data|, |data|);
    } else if image.Some? {
      CompareRows(f, data, image.value, skip, d);
    }
  }

  /** How the compare ends. */
  function CompareEnd(f: Foreign, data: seq<byte>, image: seq<byte>, skip: Option<nat -> bool>): seq<Event> {
    var common := Min(|image|, |data|);
    if CompareWasSkipped(data, image, skip) then FIDELITY_SKIPPED.events
    else FidelityEnd(f.sha(data[..common]), f.sha(image[..common]), |data| >= |image|).events
  }

  lemma CompareSplits(f: Foreign, data: seq<byte>, image: seq<byte>, skip: Option<nat -> bool>)
    ensures var common := Min(|image|, |data|);
            FidelityStep(f, data, image, skip).events
            == FidelityStart(|data|, |image|).events + Ticks(0, Reached(0, common, skip, 0), common) + CompareEnd(f, data, image, skip)
  {
    hide Ticks, Hex, Reached, FidelityEnd, FidelityStart;
  }

  lemma EndRows(f: Foreign, data: seq<byte>, image: seq<byte>, skip: Option<nat -> bool>, d: Detail)
    ensures Listed(CompareEnd(f, data, image, skip), d) <==> WholeLists(f, data, true, Some(image), skip, d)
  {
    hide Hex, CompareWasSkipped;
  }

  lemma CompareRows(f: Foreign, data: seq<byte>, image: seq<byte>, skip: Option<nat -> bool>, d: Detail)
    ensures Listed(FidelityStep(f, data, image, skip).events, d) <==> WholeLists(f, data, true, Some(image), skip, d)
  {
    var common := Min(|image|, |data|);
    TicksAre(0, Reached(0, common, skip, 0), common);
    CompareSplits(f, data, image, skip);
    EndRows(f, data, image, skip, d);
    assert !Listed(FidelityStart(|data|, |image|).events, d);
    hide Ticks, Reached, FidelityStep, FidelityStart, CompareEnd, WholeLists;
  }

  /** A row is shown exactly when what it says is so. */
  lemma RowsIff(f: Foreign, p: Parsed, data: seq<byte>, isDevice: bool, image: Option<seq<byte>>, skip: Option<nat -> bool>, d: Detail)
    requires HeaderFits(p.gpt, data)
    ensures Listed(Evidence(f, p, data, isDevice, image, skip).events, d) <==>
            || GptLists(p.gpt, d) || BootLists(p, d) || StoreLists(p.gpt, data, d)
            || WholeLists(f, data, isDevice, image, skip, d)
  {
    GptRows(p.gpt, d);
    BootRows(p, d);
    StoreRows(p.gpt, data, d);
    WholeRows(f, data, isDevice, image, skip, d);
    hide GptStep, EspReport, StoreReport, WholeReport, GptLists, BootLists, StoreLists, WholeLists;
  }

  // ---- Progress. ----

  /** What the last step works through: the image, or what device and image have in common. */
  ghost function Goal(data: seq<byte>, isDevice: bool, image: Option<seq<byte>>): nat {
    if !isDevice then |data| else if image.Some? then Min(|image.value|, |data|) else 0
  }

  /** All of it, or up to where the operator's skip was seen. */
  ghost function Upto(data: seq<byte>, isDevice: bool, image: Option<seq<byte>>, skip: Option<nat -> bool>): nat {
    var goal := Goal(data, isDevice, image);
    if isDevice then Reached(0, goal, skip, 0) else goal
  }

  /** Progress is reported against the whole goal, up to what was worked through, and that is
      reported itself. */
  lemma ProgressIs(f: Foreign, data: seq<byte>, isDevice: bool, image: Option<seq<byte>>, skip: Option<nat -> bool>)
    ensures var e, goal, upto := WholeReport(f, data, isDevice, image, skip).events, Goal(data, isDevice, image), Upto(data, isDevice, image, skip);
            && (forall x <- e :: x.Progress? ==> x.total == goal && 0 < x.done <= upto)
            && (upto > 0 ==> Progress(upto, goal) in e)
  {
    var goal, upto := Goal(data, isDevice, image), Upto(data, isDevice, image, skip);
    forall x: Event | x.Progress?
      ensures x in WholeReport(f, data, isDevice, image, skip).events <==> x in Ticks(0, upto, goal)
    {
      ProgressIn(f, data, isDevice, image, skip, x);
    }
    ReachedForward(0, goal, skip, 0);
    if isDevice { ReachedTick(0, goal, skip, 0); } else { NeverSkipped(0, goal, 0); ReachedTick(0, goal, None, 0); }
    hide Ticks, Reached, WholeReport;
  }

  lemma ProgressIn(f: Foreign, data: seq<byte>, isDevice: bool, image: Option<seq<byte>>, skip: Option<nat -> bool>, x: Event)
    requires x.Progress?
    ensures x in WholeReport(f, data, isDevice, image, skip).events <==> x in Ticks(0, Upto(data, isDevice, image, skip), Goal(data, isDevice, image))
  {
    hide Ticks, Hex, Reached;
    if isDevice && image.None? { NoTicks(skip); }
  }

  lemma NoTicks(skip: Option<nat -> bool>)
    ensures Reached(0, 0, skip, 0) == 0 && Ticks(0, 0, 0) == []
  {}

  lemma {:induction false} ReachedTick(done: nat, total: nat, skip: Option<nat -> bool>, poll: nat)
    requires done <= total
    ensures var upto := Reached(done, total, skip, poll);
            var t := Ticks(done, upto, total);
            && (forall x <- t :: x.Progress? && x.total == total && done < x.done <= upto)
            && (done < upto ==> Progress(upto, total) in t)
    decreases total - done
  {
    if done < total && !(skip.Some? && skip.value(poll)) {
      var next := Min(done + CHUNK, total);
      ReachedForward(next, total, skip, poll + 1);
      ReachedTick(next, total, skip, poll + 1);
      var upto := Reached(next, total, skip, poll + 1);
      assert Ticks(done, upto, total) == [Progress(next, total)] + Ticks(next, upto, total);
    }
  }
}
