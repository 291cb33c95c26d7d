/** What a VERIFY run shows the operator, read off the device: the state each step ends in, the
    issues, the rows and the progress, each exactly when the bytes call for it. */
module Shown {
  import opened Text
  import opened Device
  import opened Window
  import opened Verify
  import opened Verdict

  // ---- The table, without the parser's own filter. ----

  /** How many entries are in use. */
  ghost function UsedCount(parts: seq<Partition>): nat { |UsedAt(parts)| }
  ghost function UsedAt(parts: seq<Partition>): set<nat> { set i: nat | i < |parts| && parts[i].used }

  lemma UsedCons(x: Partition, rest: seq<Partition>)
    ensures Used([x] + rest) == (if x.used then [x] else []) + Used(rest)
  {
    assert ([x] + rest)[1..] == rest;
  }

  lemma {:induction false} UsedConcat(a: seq<Partition>, b: seq<Partition>)
    ensures Used(a + b) == Used(a) + Used(b)
  {
    assert Used([]) == [];
    hide Used;
    if a == [] {
      assert a + b == b;
    } else {
      UsedConcat(a[1..], b);
      UsedCons(a[0], a[1..]);
      UsedCons(a[0], a[1..] + b);
      assert a == [a[0]] + a[1..] && a + b == [a[0]] + (a[1..] + b);
    }
  }

  lemma UsedAtLast(parts: seq<Partition>)
    requires parts != []
    ensures var n := |parts| - 1; UsedCount(parts) == UsedCount(parts[..n]) + if parts[n].used then 1 else 0
  {
    var n := |parts| - 1;
    assert UsedAt(parts) == UsedAt(parts[..n]) + (if parts[n].used then {n} else {});
  }

  lemma UsedLast(parts: seq<Partition>)
    requires parts != []
    ensures var n := |parts| - 1; Used(parts) == Used(parts[..n]) + if parts[n].used then [parts[n]] else []
  {
    var n := |parts| - 1;
    UsedConcat(parts[..n], [parts[n]]);
    assert parts == parts[..n] + [parts[n]] && [parts[n]][1..] == [];
  }

  lemma {:induction false} UsedIs(parts: seq<Partition>)
    ensures |Used(parts)| == UsedCount(parts)
    ensures forall x :: x in Used(parts) <==> x in parts && x.used
    decreases |parts|
  {
    if parts != [] {
      var n := |parts| - 1;
      UsedIs(parts[..n]);
      UsedAtLast(parts);
      UsedLast(parts);
      hide Used, UsedCount;
      assert forall x :: x in parts <==> x in parts[..n] || x == parts[n];
    }
  }

  /** The ESP is the first entry in use of its type, the store the first of any other. */
  ghost predicate IsFirst(parts: seq<Partition>, esp: bool, i: nat) {
    && i < |parts| && parts[i].used && parts[i].isEsp == esp
    && forall j :: 0 <= j < i && parts[j].used ==> parts[j].isEsp != esp
  }

  lemma {:induction false} LocatedIs(parts: seq<Partition>, esp: bool)
    ensures match Located(Some(parts), esp)
            case None => forall x <- parts :: x.used ==> x.isEsp != esp
            case Some(x) => exists i: nat :: IsFirst(parts, esp, i) && parts[i] == x
    decreases |parts|
  {
    if parts != [] {
      LocatedIs(parts[1..], esp);
      assert Located(Some(parts[1..]), esp) == First(Used(parts[1..]), esp);
      if parts[0].used {
        assert Used(parts)[1..] == Used(parts[1..]);
      } else {
        assert Used(parts) == Used(parts[1..]);
      }
      if parts[0].used && parts[0].isEsp == esp {
        assert IsFirst(parts, esp, 0);
      } else if i: nat :| IsFirst(parts[1..], esp, i) && Located(Some(parts), esp) == Some(parts[1..][i]) {
        assert IsFirst(parts, esp, i + 1);
      }
    }
  }

  /** The file name ends in ".efi", in any case, and is not a directory. */
  lemma IsUkiIff(e: Entry)
    ensures IsUki(e) <==>
            !e.isDir && exists stem: string, a, b, c ::
              e.name == stem + ['.', a, b, c] && a in "eE" && b in "fF" && c in "iI"
  {
    var n := |e.name| - 4;
    if IsUki(e) {
      var t := e.name[n..];
      LowerIs(t[1], 'e', 'E');
      LowerIs(t[2], 'f', 'F');
      LowerIs(t[3], 'i', 'I');
      assert e.name == e.name[..n] + ['.', t[1], t[2], t[3]];
    }
    if stem: string, a, b, c :| e.name == stem + ['.', a, b, c] && a in "eE" && b in "fF" && c in "iI" {
      assert e.name[n..] == ['.', a, b, c];
    }
  }

  lemma LowerIs(c: char, small: char, big: char)
    requires Lower(c) == small && 'a' <= small <= 'z' && big as int + 32 == small as int
    ensures c == small || c == big
  {
    if 'A' <= c <= 'Z' { assert Lower(c) as int == c as int + 32; }
  }

  /** The eight bytes a LUKS2 header starts with (section 2.1 of the LUKS2 On-Disk Format
      Specification). */
  const LUKS2_START: seq<byte> := [0x4C, 0x55, 0x4B, 0x53, 0xBA, 0xBE, 0x00, 0x02]

  lemma Luks2Iff(hdr: seq<byte>)
    requires |hdr| == 8
    ensures IsLuks2(hdr) <==> hdr == LUKS2_START
  {
    assert hdr == hdr[..6] + [hdr[6], hdr[7]] && LUKS2_START == LUKS2_START[..6] + [0, 2];
    assert LUKS2_START[..6] == LUKS_MAGIC;
  }

  // ---- The state each step ends in. ----

  /** The last state shown for step `k`. */
  function Final(events: seq<Event>, k: nat): Option<StepState> {
    if events == [] then None
    else
      var last := events[|events| - 1];
      if last.Step? && last.index == k then Some(last.state) else Final(events[..|events| - 1], k)
  }

  lemma {:induction false} FinalConcat(a: seq<Event>, b: seq<Event>, k: nat)
    ensures Final(a + b, k) == if Final(b, k).Some? then Final(b, k) else Final(a, k)
    decreases |b|
  {
    if b == [] {
      assert a + b == a;
    } else {
      FinalConcat(a, b[..|b| - 1], k);
      assert (a + b)[..|a + b| - 1] == a + b[..|b| - 1];
    }
  }

  lemma {:induction false} NoSteps(events: seq<Event>, k: nat)
    requires forall e <- events :: !e.Step?
    ensures Final(events, k).None?
    decreases |events|
  {
    if events != [] { NoSteps(events[..|events| - 1], k); }
  }

  lemma FinalOne(e: Event, k: nat)
    ensures Final([e], k) == if e.Step? && e.index == k then Some(e.state) else None
  {
    assert [e][..0] == [];
  }

  lemma {:induction false} PartRowsAre(parts: seq<Partition>)
    ensures forall e :: e in PartRows(parts) <==> e.Note? && e.detail.PartRow? && e.detail.part in parts
  {
    if parts != [] { PartRowsAre(parts[1..]); }
  }

  lemma {:induction false} UkiRowsAre(entries: seq<Entry>)
    ensures forall e :: e in UkiRows(entries) <==> e.Note? && e.detail.UkiRow? && e.detail.entry in entries
  {
    if entries != [] { UkiRowsAre(entries[1..]); }
  }

  lemma {:induction false} UkisAre(entries: seq<Entry>)
    ensures forall e :: e in Ukis(entries) <==> e in entries && IsUki(e)
  {
    if entries != [] { UkisAre(entries[1..]); }
  }

  lemma {:induction false} TicksAre(done: nat, upto: nat, total: nat)
    ensures forall e <- Ticks(done, upto, total) :: e.Progress? && e.total == total && done < e.done
    decreases upto - done
  {
    if done < upto && done < total { TicksAre(Min(done + CHUNK, total), upto, total); }
  }

  // ---- Each part of the run. ----

  lemma FinalOfGpt(gpt: Option<seq<Partition>>, k: nat)
    ensures Final(GptStep(gpt).events, k) ==
            if k != 0 then None else Some(if gpt.Some? && EspAndStore(gpt.value) then Passed else Fail)
  {
    hide Used, First, EspAndStore;
    match gpt
    case None =>
      assert GptStep(None).events == [Step(0, Running), Note(GptError)] + [Step(0, Fail)];
      FinalConcat([Step(0, Running), Note(GptError)], [Step(0, Fail)], k);
      FinalConcat([Step(0, Running)], [Note(GptError)], k);
      FinalOne(Step(0, Running), k); FinalOne(Note(GptError), k); FinalOne(Step(0, Fail), k);
    case Some(parts) =>
      GptPass(parts);
      var rows, last := PartRows(Used(parts)), Step(0, if GptStep(gpt).issues == [] then Passed else Fail);
      PartRowsAre(Used(parts));
      NoSteps(rows, k);
      FinalConcat([Step(0, Running)] + rows, [last], k);
      FinalConcat([Step(0, Running)], rows, k);
      FinalOne(Step(0, Running), k); FinalOne(last, k);
  }

  /** What the two boot steps end in. */
  function BootStates(fat: Option<EspView>, k: nat): Option<StepState> {
    if k == 1 then Some(if fat.Some? && (fat.value.bootx64.Some? || fat.value.systemdDir) then Passed else Fail)
    else if k == 2 then
      Some(if fat.None? then Skipped
           else if fat.value.linux.Some? && exists e <- fat.value.linux.value :: IsUki(e) then Passed else Fail)
    else None
  }

  lemma FinalOfBoot(fat: Option<EspView>, k: nat)
    ensures Final(BootStep(fat).events, k) == BootStates(fat, k)
  {
    hide IsUki;
    match fat
    case None =>
      assert BootStep(None).events == ([Step(1, Running)] + [Step(1, Fail)]) + [Step(2, Skipped)];
      FinalConcat([Step(1, Running)] + [Step(1, Fail)], [Step(2, Skipped)], k);
      FinalConcat([Step(1, Running)], [Step(1, Fail)], k);
      FinalOne(Step(1, Running), k); FinalOne(Step(1, Fail), k); FinalOne(Step(2, Skipped), k);
    case Some(esp) =>
      var boot := Step(1, if esp.bootx64.Some? || esp.systemdDir then Passed else Fail);
      var ukis := if esp.linux.Some? then Ukis(esp.linux.value) else [];
      var last := Step(2, if ukis == [] then Fail else Passed);
      if esp.linux.Some? { UkisSome(esp.linux.value); }
      BootHead(esp.bootx64, esp.systemdDir, boot, k);
      UkiRowsAre(ukis);
      NoSteps(UkiRows(ukis), k);
      var head := [Step(1, Running), Note(BootRow(esp.bootx64)), Note(SystemdRow(esp.systemdDir)), boot, Step(2, Running)];
      FinalConcat(head + UkiRows(ukis), [last], k);
      FinalConcat(head, UkiRows(ukis), k);
      FinalOne(last, k);
  }

  lemma BootHead(len: Option<nat>, dir: bool, boot: Event, k: nat)
    requires boot.Step? && boot.index == 1
    ensures Final([Step(1, Running), Note(BootRow(len)), Note(SystemdRow(dir)), boot, Step(2, Running)], k)
         == if k == 1 then Some(boot.state) else if k == 2 then Some(Running) else None
  {
    var a, b := [Step(1, Running), Note(BootRow(len)), Note(SystemdRow(dir))], [boot];
    assert a + b + [Step(2, Running)] == [Step(1, Running), Note(BootRow(len)), Note(SystemdRow(dir)), boot, Step(2, Running)];
    FinalConcat(a + b, [Step(2, Running)], k);
    FinalConcat(a, b, k);
    FinalOne(boot, k); FinalOne(Step(2, Running), k);
    assert a[..2] + [Note(SystemdRow(dir))] == a && a[..2] == [Step(1, Running)] + [Note(BootRow(len))];
    FinalConcat([Step(1, Running)], [Note(BootRow(len))], k);
    FinalConcat(a[..2], [Note(SystemdRow(dir))], k);
    FinalOne(Step(1, Running), k); FinalOne(Note(BootRow(len)), k); FinalOne(Note(SystemdRow(dir)), k);
  }

  lemma FinalOfEsp(p: Parsed, k: nat)
    ensures Final(EspReport(p).events, k) ==
            if Located(p.gpt, true).Some? then BootStates(p.fat, k) else if k == 1 || k == 2 then Some(Skipped) else None
  {
    FinalOfBoot(p.fat, k);
    assert NO_ESP_STEP.events == [Step(1, Skipped)] + [Step(2, Skipped)];
    FinalConcat([Step(1, Skipped)], [Step(2, Skipped)], k);
    FinalOne(Step(1, Skipped), k); FinalOne(Step(2, Skipped), k);
  }

  lemma FinalOfStore(gpt: Option<seq<Partition>>, data: seq<byte>, k: nat)
    requires HeaderFits(gpt, data)
    ensures Final(StoreReport(gpt, data).events, k) ==
            if k != 3 then None
            else match Located(gpt, false)
                 case None => Some(Skipped)
                 case Some(store) => Some(if data[store.start..store.start + 8] == LUKS2_START then Passed else Fail)
  {
    match Located(gpt, false)
    case None => FinalOne(Step(3, Skipped), k);
    case Some(store) =>
      var hdr := data[store.start..store.start + 8];
      Luks2Iff(hdr);
      var e := LuksStep(hdr).events;
      assert e == (([e[0]] + [e[1]]) + [e[2]]) + [e[3]];
      FinalConcat(([e[0]] + [e[1]]) + [e[2]], [e[3]], k);
      FinalConcat([e[0]] + [e[1]], [e[2]], k);
      FinalConcat([e[0]], [e[1]], k);
      FinalOne(e[0], k); FinalOne(e[1], k); FinalOne(e[2], k); FinalOne(e[3], k);
  }

  /** What the last step ends in. */
  ghost function WholeState(f: Foreign, data: seq<byte>, isDevice: bool, image: Option<seq<byte>>, skip: Option<nat -> bool>): StepState {
    if !isDevice then Passed
    else if image.None? || CompareWasSkipped(data, image.value, skip) then Skipped
    else if |data| >= |image.value| && SameDigest(f, data, image.value) then Passed
    else Fail
  }

  lemma FinalOfWhole(f: Foreign, data: seq<byte>, isDevice: bool, image: Option<seq<byte>>, skip: Option<nat -> bool>, k: nat)
    ensures Final(WholeReport(f, data, isDevice, image, skip).events, k) ==
            if k != 4 then None else Some(WholeState(f, data, isDevice, image, skip))
  {
    var e := WholeReport(f, data, isDevice, image, skip).events;
    var n := |e| - 1;
    if isDevice && image.Some? { ReachedForward(0, Min(|image.value|, |data|), skip, 0); }
    EarlierEvents(f, data, isDevice, image, skip);
    assert e[n].Step? && e[n].index == 4 && e[n].state == WholeState(f, data, isDevice, image, skip);
    if k != 4 { NoOther(e, 4, k); }
  }

  lemma {:induction false} NoOther(events: seq<Event>, k: nat, j: nat)
    requires j != k && forall e <- events :: e.Step? ==> e.index == k
    ensures Final(events, j).None?
    decreases |events|
  {
    if events != [] { NoOther(events[..|events| - 1], k, j); }
  }

  lemma EarlierEvents(f: Foreign, data: seq<byte>, isDevice: bool, image: Option<seq<byte>>, skip: Option<nat -> bool>)
    ensures forall e <- WholeReport(f, data, isDevice, image, skip).events :: e.Step? ==> e.index == 4
  {
    if !isDevice {
      TicksAre(0, |data|, |data|);
    } else if image.Some? {
      var common := Min(|image.value|, |data|);
      TicksAre(0, Reached(0, common, skip, 0), common);
    }
  }

  /** The state each of the five steps ends in. */
  lemma FinalStates(f: Foreign, p: Parsed, data: seq<byte>, isDevice: bool, image: Option<seq<byte>>, skip: Option<nat -> bool>)
    requires HeaderFits(p.gpt, data)
    ensures var e := Evidence(f, p, data, isDevice, image, skip).events;
            && Final(e, 0) == Some(if p.gpt.Some? && EspAndStore(p.gpt.value) then Passed else Fail)
            && (forall k :: 1 <= k <= 2 ==>
                  Final(e, k) == if Located(p.gpt, true).Some? then BootStates(p.fat, k) else Some(Skipped))
            && Final(e, 3) == (match Located(p.gpt, false)
                               case None => Some(Skipped)
                               case Some(x) => Some(if data[x.start..x.start + 8] == LUKS2_START then Passed else Fail))
            && Final(e, 4) == Some(WholeState(f, data, isDevice, image, skip))
  {
    forall k: nat
      ensures Final(Evidence(f, p, data, isDevice, image, skip).events, k) ==
              var w := Final(WholeReport(f, data, isDevice, image, skip).events, k);
              var l, b := Final(StoreReport(p.gpt, data).events, k), Final(EspReport(p).events, k);
              if w.Some? then w else if l.Some? then l else if b.Some? then b else Final(GptStep(p.gpt).events, k)
    {
      FinalOfRun(f, p, data, isDevice, image, skip, k);
    }
    forall k: nat { FinalOfGpt(p.gpt, k); }
    forall k: nat { FinalOfEsp(p, k); }
    forall k: nat { FinalOfStore(p.gpt, data, k); }
    forall k: nat { FinalOfWhole(f, data, isDevice, image, skip, k); }
    hide Final, GptStep, EspReport, StoreReport, WholeReport, Evidence, WholeState, EspAndStore, Located;
  }

  lemma FinalOfRun(f: Foreign, p: Parsed, data: seq<byte>, isDevice: bool, image: Option<seq<byte>>, skip: Option<nat -> bool>, k: nat)
    requires HeaderFits(p.gpt, data)
    ensures Final(Evidence(f, p, data, isDevice, image, skip).events, k) ==
            var w := Final(WholeReport(f, data, isDevice, image, skip).events, k);
            var l, b := Final(StoreReport(p.gpt, data).events, k), Final(EspReport(p).events, k);
            if w.Some? then w else if l.Some? then l else if b.Some? then b else Final(GptStep(p.gpt).events, k)
  {
    hide Final, GptStep, EspReport, StoreReport, WholeReport;
    var g, b, l := GptStep(p.gpt).events, EspReport(p).events, StoreReport(p.gpt, data).events;
    FinalConcat(g, b, k);
    FinalConcat(g + b, l, k);
    FinalConcat(g + b + l, WholeReport(f, data, isDevice, image, skip).events, k);
  }
}
