/** What the evidence of a VERIFY run means: when it is a PASS, what a PASS proves about the
    bytes, and what the fidelity step decides. */
module Verdict {
  import opened Text
  import opened Device
  import opened Window
  import opened Verify

  predicate Pass(r: Report) { r.issues == [] }

  /** Some checklist step ended in Fail. */
  ghost predicate StepFailed(events: seq<Event>) {
    exists i :: Step(i, Fail) in events
  }

  lemma FailedConcat(a: seq<Event>, b: seq<Event>)
    ensures StepFailed(a + b) <==> StepFailed(a) || StepFailed(b)
  {
    if StepFailed(a) { var i :| Step(i, Fail) in a; assert Step(i, Fail) in a + b; }
    if StepFailed(b) { var i :| Step(i, Fail) in b; assert Step(i, Fail) in a + b; }
  }

  lemma {:induction false} RowsDoNotFail(parts: seq<Partition>)
    ensures !StepFailed(PartRows(parts))
  {
    if parts != [] { RowsDoNotFail(parts[1..]); FailedConcat([Note(PartRow(parts[0]))], PartRows(parts[1..])); }
  }

  lemma {:induction false} UkisDoNotFail(entries: seq<Entry>)
    ensures !StepFailed(UkiRows(entries))
  {
    if entries != [] { UkisDoNotFail(entries[1..]); FailedConcat([Note(UkiRow(entries[0]))], UkiRows(entries[1..])); }
  }

  lemma {:induction false} TicksDoNotFail(done: nat, upto: nat, total: nat)
    ensures !StepFailed(Ticks(done, upto, total))
    decreases upto - done
  {
    if done < upto && done < total {
      var next := Min(done + CHUNK, total);
      TicksDoNotFail(next, upto, total);
      FailedConcat([Progress(next, total)], Ticks(next, upto, total));
    }
  }

  /** An issue is on record exactly when a step of this part of the run failed. */
  ghost predicate Honest(r: Report) { r.issues == [] <==> !StepFailed(r.events) }

  lemma HonestThen(a: Report, b: Report)
    requires Honest(a) && Honest(b)
    ensures Honest(a.Then(b))
  {
    FailedConcat(a.events, b.events);
  }

  lemma GptHonest(gpt: Option<seq<Partition>>)
    ensures Honest(GptStep(gpt))
  {
    var r := GptStep(gpt);
    if gpt.Some? {
      var used := Used(gpt.value);
      var last := Step(0, if r.issues == [] then Passed else Fail);
      RowsDoNotFail(used);
      FailedConcat([Step(0, Running)], PartRows(used));
      FailedConcat([Step(0, Running)] + PartRows(used), [last]);
      assert last in [last];
    } else {
      assert Step(0, Fail) in r.events;
    }
  }

  lemma BootHonest(fat: Option<EspView>)
    ensures Honest(BootStep(fat))
  {
    var r := BootStep(fat);
    if fat.Some? {
      var esp := fat.value;
      var boot := esp.bootx64.Some? || esp.systemdDir;
      var ukis := if esp.linux.Some? then Ukis(esp.linux.value) else [];
      var head := [Step(1, Running), Note(BootRow(esp.bootx64)), Note(SystemdRow(esp.systemdDir)),
                   Step(1, if boot then Passed else Fail), Step(2, Running)];
      var last := Step(2, if ukis == [] then Fail else Passed);
      UkisDoNotFail(ukis);
      FailedConcat(head, UkiRows(ukis));
      FailedConcat(head + UkiRows(ukis), [last]);
      assert head[3] in head && last in [last];
    } else {
      assert Step(1, Fail) in r.events;
    }
  }

  lemma LuksHonest(hdr: seq<byte>)
    requires |hdr| == 8
    ensures Honest(LuksStep(hdr))
  {
    assert LuksStep(hdr).events[3] in LuksStep(hdr).events;
  }

  lemma ImageHonest(f: Foreign, data: seq<byte>)
    ensures Honest(ImageStep(f, data))
  {
    var head := [Step(4, Running), Phase("SHA-256 over the whole image")];
    var tail := [Note(Digest(Hex(f.sha(data)))), Step(4, Passed)];
    TicksDoNotFail(0, |data|, |data|);
    FailedConcat(head, Ticks(0, |data|, |data|));
    FailedConcat(head + Ticks(0, |data|, |data|), tail);
  }

  /** The operator's skip was seen before the compare had covered the common length. */
  predicate CompareWasSkipped(data: seq<byte>, image: seq<byte>, skip: Option<nat -> bool>) {
    var common := Min(|image|, |data|);
    Reached(0, common, skip, 0) < common
  }

  /** The fidelity step fails exactly on a recorded issue, but for one case: a device too
      small for the image whose compare was skipped is an issue without a failed step. */
  lemma FidelityHonest(f: Foreign, data: seq<byte>, image: seq<byte>, skip: Option<nat -> bool>)
    ensures var r := FidelityStep(f, data, image, skip);
            var skipped := CompareWasSkipped(data, image, skip);
            && (StepFailed(r.events) <==> !skipped && r.issues != [])
            && (skipped ==> (r.issues == [] <==> |data| >= |image|))
            && (!skipped ==> (r.issues == [] <==>
                  |data| >= |image| && Hex(f.sha(data[..Min(|image|, |data|)])) == Hex(f.sha(image[..Min(|image|, |data|)]))))
  {
    var common := Min(|image|, |data|);
    var reached := Reached(0, common, skip, 0);
    var start, ticks := FidelityStart(|data|, |image|), Report(Ticks(0, reached, common), []);
    var end := if reached < common then FIDELITY_SKIPPED
               else FidelityEnd(f.sha(data[..common]), f.sha(image[..common]), |data| >= |image|);
    TicksDoNotFail(0, reached, common);
    FailedConcat(start.events, ticks.events);
    FailedConcat(start.events + ticks.events, end.events);
    ReachedForward(0, common, skip, 0);
    if reached == common { assert end.events[2] in end.events; }
  }

  /** A too-small device had its compare skipped: the one issue no step shows. */
  predicate TooSmallSkipped(data: seq<byte>, isDevice: bool, image: Option<seq<byte>>, skip: Option<nat -> bool>) {
    isDevice && image.Some? && |data| < |image.value| && CompareWasSkipped(data, image.value, skip)
  }

  /** PASS exactly when no step ended Fail and it is not the case that a too-small device
      had its compare skipped, whatever was parsed. */
  lemma PassIff(f: Foreign, p: Parsed, data: seq<byte>, isDevice: bool, image: Option<seq<byte>>, skip: Option<nat -> bool>)
    requires HeaderFits(p.gpt, data)
    ensures var r := Evidence(f, p, data, isDevice, image, skip);
            Pass(r) <==> !StepFailed(r.events) && !TooSmallSkipped(data, isDevice, image, skip)
  {
    var whole := WholeReport(f, data, isDevice, image, skip);
    var body := GptStep(p.gpt).Then(EspReport(p)).Then(StoreReport(p.gpt, data));
    BodyHonest(p, data);
    FailedConcat(body.events, whole.events);
    if !isDevice { ImageHonest(f, data); }
    else if image.Some? { FidelityHonest(f, data, image.value, skip); }
  }

  lemma BodyHonest(p: Parsed, data: seq<byte>)
    requires HeaderFits(p.gpt, data)
    ensures Honest(GptStep(p.gpt).Then(EspReport(p)).Then(StoreReport(p.gpt, data)))
  {
    var store := Located(p.gpt, false);
    GptHonest(p.gpt);
    BootHonest(p.fat);
    if store.Some? { LuksHonest(data[store.value.start..store.value.start + 8]); }
    HonestThen(GptStep(p.gpt), EspReport(p));
    HonestThen(GptStep(p.gpt).Then(EspReport(p)), StoreReport(p.gpt, data));
  }

  // ---- What a PASS says about the bytes. ----

  /** Two used partitions: one ESP and one other. */
  predicate EspAndStore(parts: seq<Partition>) {
    var used := Used(parts);
    |used| == 2 && used[0].isEsp != used[1].isEsp
  }

  /** The boot chain on the ESP: a boot loader and at least one unified kernel image. */
  ghost predicate Boots(fat: Option<EspView>) {
    && fat.Some? && (fat.value.bootx64.Some? || fat.value.systemdDir)
    && fat.value.linux.Some? && exists e <- fat.value.linux.value :: IsUki(e)
  }

  /** The layout of a nixnas stick. */
  ghost predicate Layout(p: Parsed, data: seq<byte>)
    requires HeaderFits(p.gpt, data)
  {
    && p.gpt.Some? && EspAndStore(p.gpt.value) && Boots(p.fat)
    && var store := Located(p.gpt, false); store.Some? && IsLuks2(data[store.value.start..store.value.start + 8])
  }

  lemma GptPass(parts: seq<Partition>)
    ensures GptStep(Some(parts)).issues == [] <==> EspAndStore(parts)
    ensures EspAndStore(parts) ==> First(Used(parts), true).Some? && First(Used(parts), false).Some?
  {
    var used, issues := Used(parts), GptStep(Some(parts)).issues;
    assert |issues| == (if |used| != 2 then 1 else 0) + (if First(used, true).None? then 1 else 0)
                       + (if First(used, false).None? then 1 else 0);
    if |used| == 2 {
      assert used[1..] == [used[1]] && [used[1]][1..] == [];
      assert forall esp :: First(used[1..], esp).Some? <==> used[1].isEsp == esp;
    }
  }

  lemma {:induction false} UkisSome(entries: seq<Entry>)
    ensures Ukis(entries) != [] <==> exists e <- entries :: IsUki(e)
  {
    if entries != [] {
      UkisSome(entries[1..]);
      if IsUki(entries[0]) { assert entries[0] in entries; }
    }
  }

  lemma BootPass(fat: Option<EspView>)
    ensures BootStep(fat).issues == [] <==> Boots(fat)
  {
    if fat.Some? && fat.value.linux.Some? { UkisSome(fat.value.linux.value); }
  }

  /** Digests agree on the common length. */
  predicate SameDigest(f: Foreign, data: seq<byte>, image: seq<byte>) {
    var common := Min(|image|, |data|);
    Hex(f.sha(data[..common])) == Hex(f.sha(image[..common]))
  }

  /** A PASS is the stick's layout and, for a device with an image, a large enough device
      whose digest agrees unless the operator waived the compare. */
  lemma PassMeans(f: Foreign, p: Parsed, data: seq<byte>, isDevice: bool, image: Option<seq<byte>>, skip: Option<nat -> bool>)
    requires HeaderFits(p.gpt, data)
    ensures Pass(Evidence(f, p, data, isDevice, image, skip)) <==>
            && Layout(p, data)
            && (isDevice && image.Some? ==>
                  |data| >= |image.value| && (CompareWasSkipped(data, image.value, skip) || SameDigest(f, data, image.value)))
  {
    if p.gpt.Some? { GptPass(p.gpt.value); }
    BootPass(p.fat);
    if isDevice && image.Some? { FidelityHonest(f, data, image.value, skip); }
  }

  /** The one silent failure, exactly when it occurs: nothing is wrong with the stick itself, but
      it is too small for the image and the compare was skipped. */
  lemma SilentFailureIff(f: Foreign, p: Parsed, data: seq<byte>, isDevice: bool, image: Option<seq<byte>>, skip: Option<nat -> bool>)
    requires HeaderFits(p.gpt, data)
    ensures var r := Evidence(f, p, data, isDevice, image, skip);
            !Pass(r) && !StepFailed(r.events) <==> Layout(p, data) && TooSmallSkipped(data, isDevice, image, skip)
  {
    var whole := WholeReport(f, data, isDevice, image, skip);
    var body := GptStep(p.gpt).Then(EspReport(p)).Then(StoreReport(p.gpt, data));
    BodyHonest(p, data);
    FailedConcat(body.events, whole.events);
    if p.gpt.Some? { GptPass(p.gpt.value); }
    BootPass(p.fat);
    if !isDevice { ImageHonest(f, data); }
    else if image.Some? { FidelityHonest(f, data, image.value, skip); }
  }

  /** Failed reads never make a PASS: with the table read, or given up on, and some files of
      the ESP overlooked, a PASS is one that undisturbed reads would have given too. */
  lemma FailedReadsNeverPass(f: Foreign, p: Parsed, data: seq<byte>, isDevice: bool, image: Option<seq<byte>>, skip: Option<nat -> bool>)
    requires HeaderFits(p.gpt, data) && (p.gpt.None? || p.gpt == f.gpt(data)) && Overlooks(p.fat, Truth(f, data).fat)
    requires Pass(Evidence(f, p, data, isDevice, image, skip))
    ensures HeaderFits(f.gpt(data), data) && Pass(Evidence(f, Truth(f, data), data, isDevice, image, skip))
  {
    PassMeans(f, p, data, isDevice, image, skip);
    BootsAnyway(p.fat, Truth(f, data).fat);
    PassMeans(f, Truth(f, data), data, isDevice, image, skip);
  }

  lemma BootsAnyway(seen: Option<EspView>, all: Option<EspView>)
    requires Overlooks(seen, all) && Boots(seen)
    ensures Boots(all)
  {
    var e :| e in seen.value.linux.value && IsUki(e);
    assert e in all.value.linux.value;
  }

  // ---- The fidelity step. ----

  lemma {:induction false} HexInjective(a: seq<byte>, b: seq<byte>)
    requires Hex(a) == Hex(b)
    ensures a == b
  {
    HexLength(a); HexLength(b);
    if a != [] {
      var x, y := Hex(a), Hex(b);
      assert x[0] == HexDigit(a[0] / 16) && y[0] == HexDigit(b[0] / 16);
      assert x[1] == HexDigit(a[0] % 16) && y[1] == HexDigit(b[0] % 16);
      assert x[2..] == Hex(a[1..]) && y[2..] == Hex(b[1..]);
      HexDigitInjective(a[0] / 16, b[0] / 16);
      HexDigitInjective(a[0] % 16, b[0] % 16);
      HexInjective(a[1..], b[1..]);
      assert a == [a[0]] + a[1..] && b == [b[0]] + b[1..];
    }
  }

  /** The value of a lowercase hex digit. */
  function HexValue(c: char): int {
    if '0' <= c <= '9' then c as int - '0' as int else if 'a' <= c <= 'f' then c as int - 'a' as int + 10 else -1
  }

  /** Two lowercase digits a byte, the high one first. */
  lemma {:induction false} HexReads(a: seq<byte>, i: nat)
    requires i < |a|
    ensures |Hex(a)| == 2 * |a|
    ensures HexValue(Hex(a)[2 * i]) == a[i] / 16 && HexValue(Hex(a)[2 * i + 1]) == a[i] % 16
  {
    HexLength(a);
    if i > 0 {
      HexReads(a[1..], i - 1);
      assert Hex(a)[2..] == Hex(a[1..]);
      assert Hex(a)[2 * i] == Hex(a)[2..][2 * (i - 1)] && Hex(a)[2 * i + 1] == Hex(a)[2..][2 * (i - 1) + 1];
    }
  }

  lemma {:induction false} HexLength(a: seq<byte>)
    ensures |Hex(a)| == 2 * |a|
  {
    if a != [] { HexLength(a[1..]); }
  }

  lemma HexDigitInjective(a: int, b: int)
    requires 0 <= a < 16 && 0 <= b < 16 && HexDigit(a) == HexDigit(b)
    ensures a == b
  {
    assert HexDigit(a) as int == if a < 10 then 48 + a else 87 + a;
    assert HexDigit(b) as int == if b < 10 then 48 + b else 87 + b;
  }

  /** The pass stops short exactly when some poll before a chunk of 64 MiB sees the skip flag. */
  lemma {:induction false} SkippedIff(done: nat, total: nat, skip: Option<nat -> bool>, poll: nat)
    requires done <= total
    ensures Reached(done, total, skip, poll) < total <==>
            skip.Some? && exists k: nat :: SeenAt(done, total, skip.value, poll, k)
    decreases total - done
  {
    ReachedForward(done, total, skip, poll);
    if skip.None? {
      NeverSkipped(done, total, poll);
    } else if done < total {
      var next, later := Min(done + CHUNK, total), poll + 1;
      if skip.value(poll) {
        assert SeenAt(done, total, skip.value, poll, 0);
      } else {
        SkippedIff(next, total, skip, later);
        if k: nat :| SeenAt(next, total, skip.value, later, k) { assert SeenAt(done, total, skip.value, poll, k + 1); }
        if k: nat :| SeenAt(done, total, skip.value, poll, k) { assert SeenAt(next, total, skip.value, later, k - 1); }
      }
    }
  }

  /** Poll `poll + k` happens (a chunk remains there) and sees the flag. */
  predicate SeenAt(done: nat, total: nat, flag: nat -> bool, poll: nat, k: nat) {
    done + k * 67_108_864 < total && flag(poll + k)
  }

  /** With no collision between the two strings compared, step 4 ends Passed exactly when
      the operator did not skip it and the device starts with the whole image. */
  lemma FidelityExact(f: Foreign, data: seq<byte>, image: seq<byte>, skip: Option<nat -> bool>)
    requires var common := Min(|image|, |data|);
             f.sha(data[..common]) == f.sha(image[..common]) ==> data[..common] == image[..common]
    ensures var r := FidelityStep(f, data, image, skip);
            && (r.events[|r.events| - 1] == Step(4, Passed)
                <==> !CompareWasSkipped(data, image, skip) && |image| <= |data| && data[..|image|] == image)
            && (r.events[|r.events| - 1] == Step(4, Skipped) <==> CompareWasSkipped(data, image, skip))
  {
    var common := Min(|image|, |data|);
    ReachedForward(0, common, skip, 0);
    if Hex(f.sha(data[..common])) == Hex(f.sha(image[..common])) {
      HexInjective(f.sha(data[..common]), f.sha(image[..common]));
    }
    if |image| <= |data| { assert image[..common] == image; }
  }

  /** Progress strictly increases, and a pass that is not cut short reports its whole length last. */
  lemma {:induction false} TicksIncrease(done: nat, total: nat)
    requires done <= total
    ensures var t := Ticks(done, total, total);
            && (forall i :: 0 <= i < |t| ==> t[i].Progress? && t[i].total == total && done < t[i].done <= total)
            && (forall i, j :: 0 <= i < j < |t| ==> t[i].done < t[j].done)
            && (done < total ==> t != [] && t[|t| - 1].done == total)
    decreases total - done
  {
    if done < total {
      TicksIncrease(Min(done + CHUNK, total), total);
    }
  }

  // ---- Independence of the handles. ----

  /** The evidence and the verdict over equal bytes do not depend on the kind of handle, though
      one's clones share a file offset and the other's are independent. Two runs whose parsers
      lost no read agree event for event if both end well, and when nothing fails they do, or
      neither does. */
  method SameEvidence(f: Foreign, plain: OpenFile, sudo: SudoReader, isDevice: bool, image: Option<Disk>, steady: bool,
                      skip: Option<nat -> bool>)
    returns (a: IoResult<Report>, b: IoResult<Report>, clean: bool)
    requires File(plain).Valid() && sudo.Valid() && sudo.exact && plain.disk.data == sudo.disk.data
    requires image.Some? ==> |image.value.data| < U64
    modifies plain, sudo
    ensures a.Ok? && b.Ok? && clean ==> a == b
    ensures a.Ok? && clean ==>
              HeaderFits(f.gpt(plain.disk.data), plain.disk.data) &&
              a.value == Evidence(f, Truth(f, plain.disk.data), plain.disk.data, isDevice, ImageBytes(image), skip)
    ensures plain.reliable && sudo.reliable && steady && EspFits(f.gpt(plain.disk.data)) ==>
              clean && (a.Ok? <==> HeaderFits(f.gpt(plain.disk.data), plain.disk.data)) && (a.Ok? <==> b.Ok?)
  {
    var parsedA, cleanA, parsedB, cleanB;
    a, parsedA, cleanA := RunVerify(f, File(plain), isDevice, image, steady, skip);
    b, parsedB, cleanB := RunVerify(f, Sudo(sudo), isDevice, image, steady, skip);
    clean := cleanA && cleanB;
  }
}
