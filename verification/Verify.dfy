/** VERIFY (verify.rs): the read-only checks of an image or a flashed device, their verdict,
    and why the verdict does not depend on how the device handles are cloned. */
module Verify {
  import opened Text
  import opened Device
  import opened Window

  /** Hash and compare chunk, 64 MiB. */
  const CHUNK: nat := 64 * 1024 * 1024

  datatype StepState = Running | Passed | Skipped | Fail

  datatype Issue =
    | WrongCount(used: nat) | NoEsp | NoStore | GptUnreadable
    | NoBootloader | NoUkis | NoUkiDir | EspNotFat
    | NoLuks2 | DeviceTooSmall | BytesDiffer

  datatype Detail =
    | PartRow(part: Partition) | GptError
    | BootRow(len: Option<nat>) | SystemdRow(present: bool) | UkiRow(entry: Entry)
    | MagicRow(ok: bool) | VersionRow(version: int)
    | Digest(hex: string) | DeviceDigest(hex: string) | ImageDigest(hex: string)
    | CompareSkipped | NothingToCompare

  datatype Event =
    | Step(index: nat, state: StepState)
    | Note(detail: Detail)
    | Phase(title: string)
    | Progress(done: nat, total: nat)

  /** A GPT entry as the `gpt` crate reports it, with its byte range. */
  datatype Partition = Partition(used: bool, isEsp: bool, start: nat, len: nat)

  /** What the FAT driver reports of the mounted ESP. */
  datatype Entry = Entry(name: string, isDir: bool, len: nat)
  datatype EspView = EspView(bootx64: Option<nat>, systemdDir: bool, linux: Option<seq<Entry>>)

  /** The foreign code: GPT parser, FAT driver and SHA-256, each a function of the bytes
      it is shown. */
  datatype Foreign = Foreign(
    gpt: seq<byte> -> Option<seq<Partition>>,
    fat: seq<byte> -> Option<EspView>,
    sha: seq<byte> -> seq<byte>)

  /** Events sent and issues collected so far. */
  datatype Report = Report(events: seq<Event>, issues: seq<Issue>) {
    function Then(r: Report): Report { Report(events + r.events, issues + r.issues) }
  }

  // ---- The decisions of each step. ----

  function Used(parts: seq<Partition>): seq<Partition> {
    if parts == [] then [] else (if parts[0].used then [parts[0]] else []) + Used(parts[1..])
  }

  /** The first partition of a kind: the ESP, or any other (the store). */
  function First(parts: seq<Partition>, esp: bool): Option<Partition> {
    if parts == [] then None else if parts[0].isEsp == esp then Some(parts[0]) else First(parts[1..], esp)
  }

  function Located(gpt: Option<seq<Partition>>, esp: bool): Option<Partition> {
    match gpt case None => None case Some(parts) => First(Used(parts), esp)
  }

  function PartRows(parts: seq<Partition>): seq<Event> {
    if parts == [] then [] else [Note(PartRow(parts[0]))] + PartRows(parts[1..])
  }

  function GptStep(gpt: Option<seq<Partition>>): Report {
    match gpt
    case None => Report([Step(0, Running), Note(GptError), Step(0, Fail)], [GptUnreadable])
    case Some(parts) =>
      var used := Used(parts);
      var issues := (if |used| != 2 then [WrongCount(|used|)] else [])
                    + (if First(used, true).None? then [NoEsp] else [])
                    + (if First(used, false).None? then [NoStore] else []);
      Report([Step(0, Running)] + PartRows(used) + [Step(0, if issues == [] then Passed else Fail)], issues)
  }

  function Lower(c: char): char { if 'A' <= c <= 'Z' then ((c as int) + 32) as char else c }

  predicate IsUki(e: Entry) {
    !e.isDir && |e.name| >= 4 && var t := e.name[|e.name| - 4..];
    t[0] == '.' && Lower(t[1]) == 'e' && Lower(t[2]) == 'f' && Lower(t[3]) == 'i'
  }

  function Ukis(entries: seq<Entry>): seq<Entry> {
    if entries == [] then [] else (if IsUki(entries[0]) then [entries[0]] else []) + Ukis(entries[1..])
  }

  function UkiRows(entries: seq<Entry>): seq<Event> {
    if entries == [] then [] else [Note(UkiRow(entries[0]))] + UkiRows(entries[1..])
  }

  function BootStep(fat: Option<EspView>): Report {
    match fat
    case None => Report([Step(1, Running), Step(1, Fail), Step(2, Skipped)], [EspNotFat])
    case Some(esp) =>
      var boot := esp.bootx64.Some? || esp.systemdDir;
      var ukis := if esp.linux.Some? then Ukis(esp.linux.value) else [];
      Report([Step(1, Running), Note(BootRow(esp.bootx64)), Note(SystemdRow(esp.systemdDir)),
              Step(1, if boot then Passed else Fail), Step(2, Running)]
             + UkiRows(ukis) + [Step(2, if ukis == [] then Fail else Passed)],
             (if boot then [] else [NoBootloader])
             + (if esp.linux.None? then [NoUkiDir] else if ukis == [] then [NoUkis] else []))
  }

  const NO_ESP_STEP := Report([Step(1, Skipped), Step(2, Skipped)], [])
  const NO_STORE_STEP := Report([Step(3, Skipped)], [])

  /** The primary LUKS header starts with "LUKS\xba\xbe" and the big-endian version. */
  const LUKS_MAGIC: seq<byte> := [0x4C, 0x55, 0x4B, 0x53, 0xBA, 0xBE]

  function BigEndian16(hi: int, lo: int): int { hi * 256 + lo }

  predicate IsLuks2(hdr: seq<byte>)
    requires |hdr| == 8
  {
    hdr[..6] == LUKS_MAGIC && BigEndian16(hdr[6], hdr[7]) == 2
  }

  function LuksStep(hdr: seq<byte>): Report
    requires |hdr| == 8
  {
    var ok := IsLuks2(hdr);
    Report([Step(3, Running), Note(MagicRow(hdr[..6] == LUKS_MAGIC)), Note(VersionRow(BigEndian16(hdr[6], hdr[7]))),
            Step(3, if ok then Passed else Fail)],
           if ok then [] else [NoLuks2])
  }

  function HexDigit(d: int): char
    requires 0 <= d < 16
  {
    if d < 10 then ('0' as int + d) as char else ('a' as int + d - 10) as char
  }

  /** Lowercase hex, two characters a byte. */
  function Hex(bytes: seq<byte>): string {
    if bytes == [] then [] else [HexDigit(bytes[0] / 16), HexDigit(bytes[0] % 16)] + Hex(bytes[1..])
  }

  /** How far a pass over `total` bytes gets when the operator's skip flag is polled before
      every chunk, starting at byte `done` with poll number `poll`. */
  function Reached(done: nat, total: nat, skip: Option<nat -> bool>, poll: nat): nat
    requires done <= total
    decreases total - done
  {
    if done == total || (skip.Some? && skip.value(poll)) then done
    else Reached(Min(done + CHUNK, total), total, skip, poll + 1)
  }

  /** The progress events of a pass from `done` to `upto`. */
  function Ticks(done: nat, upto: nat, total: nat): seq<Event>
    decreases upto - done
  {
    if done >= upto || done >= total then []
    else var next := Min(done + CHUNK, total); [Progress(next, total)] + Ticks(next, upto, total)
  }

  function ImageStep(f: Foreign, data: seq<byte>): Report {
    Report([Step(4, Running), Phase("SHA-256 over the whole image")] + Ticks(0, |data|, |data|)
           + [Note(Digest(Hex(f.sha(data)))), Step(4, Passed)], [])
  }

  /** The fidelity compare ends by an operator skip, or with both digests. */
  function FidelityEnd(deviceHash: seq<byte>, imageHash: seq<byte>, large: bool): Report {
    var same := Hex(deviceHash) == Hex(imageHash);
    Report([Note(DeviceDigest(Hex(deviceHash))), Note(ImageDigest(Hex(imageHash))),
            Step(4, if same && large then Passed else Fail)],
           if same then [] else [BytesDiffer])
  }

  const FIDELITY_SKIPPED := Report([Note(CompareSkipped), Step(4, Skipped)], [])
  const NO_IMAGE_STEP := Report([Note(NothingToCompare), Step(4, Skipped)], [])

  function FidelityStart(deviceLen: nat, imageLen: nat): Report {
    Report([Step(4, Running), Phase("Flash fidelity")], if deviceLen < imageLen then [DeviceTooSmall] else [])
  }

  function FidelityStep(f: Foreign, data: seq<byte>, image: seq<byte>, skip: Option<nat -> bool>): Report {
    var common := Min(|image|, |data|);
    var reached := Reached(0, common, skip, 0);
    FidelityStart(|data|, |image|).Then(Report(Ticks(0, reached, common), [])).Then(
      if reached < common then FIDELITY_SKIPPED
      else FidelityEnd(f.sha(data[..common]), f.sha(image[..common]), |data| >= |image|))
  }

  /** What the GPT parser and the FAT driver made of the device. */
  datatype Parsed = Parsed(gpt: Option<seq<Partition>>, fat: Option<EspView>)

  /** What they make of it when every read succeeds. */
  function Truth(f: Foreign, data: seq<byte>): Parsed {
    var gpt := f.gpt(data);
    Parsed(gpt, match Located(gpt, true) case None => None case Some(esp) => f.fat(Slice(data, esp.start, esp.len)))
  }

  /** The ESP as a driver sees it whose reads may fail: it gives up or overlooks files, and
      invents none. */
  predicate Overlooks(seen: Option<EspView>, all: Option<EspView>) {
    seen.Some? ==>
      && all.Some?
      && (seen.value.bootx64.Some? ==> all.value.bootx64.Some?)
      && (seen.value.systemdDir ==> all.value.systemdDir)
      && (seen.value.linux.Some? ==>
            all.value.linux.Some? && forall e <- seen.value.linux.value :: e in all.value.linux.value)
  }

  function EspReport(p: Parsed): Report {
    if Located(p.gpt, true).None? then NO_ESP_STEP else BootStep(p.fat)
  }

  /** The ESP's range ends where the program can still count. */
  predicate EspFits(gpt: Option<seq<Partition>>) {
    var esp := Located(gpt, true);
    esp.Some? ==> esp.value.start + esp.value.len < U64
  }

  predicate HeaderFits(gpt: Option<seq<Partition>>, data: seq<byte>) {
    var store := Located(gpt, false);
    store.Some? ==> store.value.start + 8 <= |data|
  }

  function StoreReport(gpt: Option<seq<Partition>>, data: seq<byte>): Report
    requires HeaderFits(gpt, data)
  {
    match Located(gpt, false)
    case None => NO_STORE_STEP
    case Some(store) => LuksStep(data[store.start..store.start + 8])
  }

  function WholeReport(f: Foreign, data: seq<byte>, isDevice: bool, image: Option<seq<byte>>, skip: Option<nat -> bool>): Report {
    if !isDevice then ImageStep(f, data)
    else if image.Some? then FidelityStep(f, data, image.value, skip)
    else NO_IMAGE_STEP
  }

  /** The whole evidence, as a function of what was parsed and of the bytes. */
  function Evidence(f: Foreign, p: Parsed, data: seq<byte>, isDevice: bool, image: Option<seq<byte>>, skip: Option<nat -> bool>): Report
    requires HeaderFits(p.gpt, data)
  {
    GptStep(p.gpt).Then(EspReport(p)).Then(StoreReport(p.gpt, data)).Then(WholeReport(f, data, isDevice, image, skip))
  }

  lemma {:induction false} LastTick(done: nat, total: nat)
    requires done < total
    ensures var t := Ticks(done, total, total); t != [] && t[|t| - 1] == Progress(total, total)
    decreases total - done
  {
    if done + CHUNK < total { LastTick(done + CHUNK, total); }
  }

  /** Whose digest an image's VERIFY shows, and where its progress ends: the whole image's. */
  ghost predicate ShowsImage(f: Foreign, data: seq<byte>, e: seq<Event>) {
    && |e| >= 2 && e[|e| - 2] == Note(Digest(Hex(f.sha(data))))
    && (data != [] ==> |e| >= 3 && e[|e| - 3] == Progress(|data|, |data|))
  }

  lemma ImageShown(f: Foreign, p: Parsed, data: seq<byte>, image: Option<seq<byte>>, skip: Option<nat -> bool>)
    requires HeaderFits(p.gpt, data)
    ensures ShowsImage(f, data, Evidence(f, p, data, false, image, skip).events)
  {
    hide Hex, GptStep, BootStep, LuksStep, HeaderFits;
    if data != [] { LastTick(0, |data|); }
  }

  // ---- The run. ----

  /** Foreign reads through a handle: arbitrary seeks and reads, which move its offset. */
  method Wander(h: DevReader)
    requires h.Valid()
    modifies h.Moves()
    ensures h.Valid()
  {
    var steps: int := *;
    var buf := new byte[4096];
    for i := 0 to if steps < 0 then 0 else steps
      invariant h.Valid() && fresh(buf)
    {
      var to: int := *;
      if 0 <= to < U64 { var _ := h.Seek(Start(to)); }
      var _ := h.Read(buf, 0, buf.Length);
    }
  }

  /** The GPT parser, on a handle of its own: it reads the device through it from the start.
      `clean` when no read failed; otherwise it reports whatever it makes of the rest. */
  method ParseGpt(f: Foreign, h: DevReader) returns (parts: Option<seq<Partition>>, clean: bool)
    requires h.Valid() && h.Exact()
    modifies h.Moves()
    ensures h.Valid() && (clean ==> parts == f.gpt(h.Data())) && (h.Reliable() ==> clean)
  {
    Wander(h);
    var bytes := ReadWhole(h);
    clean := bytes.Ok?;
    parts := *;
    if clean { parts := f.gpt(bytes.value); }
  }

  /** All bytes of the device, wherever the handle stood. */
  method ReadWhole(h: DevReader) returns (r: IoResult<seq<byte>>)
    requires h.Valid() && h.Exact()
    modifies h.Moves()
    ensures h.Valid() && (r.Ok? ==> r.value == h.Data()) && (h.Reliable() ==> r.Ok?)
  {
    hide DevReader.Valid;
    var end := h.Seek(End(0));
    if end.Err? { return Err(end.error); }
    var at := h.Seek(Start(0));
    if at.Err? { return Err(at.error); }
    var buf := new byte[end.value];
    var got := h.ReadExact(buf, end.value);
    if got.Err? { return Err(got.error); }
    assert Rest(h.Data(), 0) == h.Data() && buf[..end.value] == h.Data()[..end.value];
    return Ok(buf[..]);
  }

  /** The FAT driver, through the window. */
  method MountEsp(f: Foreign, w: SliceCursor) returns (view: Option<EspView>, clean: bool)
    requires w.Valid() && w.file.Exact()
    modifies w, w.file.Moves()
    ensures w.Valid() && (clean ==> view == f.fat(w.Contents())) && Overlooks(view, f.fat(w.Contents()))
    ensures w.file.Reliable() ==> clean
  {
    Wander(w.file);
    w.pos := 0;
    var bytes := w.ReadToEnd(512);
    clean := bytes.Ok?;
    if clean { view := f.fat(bytes.value); return; }
    view := *;
    if !Overlooks(view, f.fat(Slice(w.file.Disk().data, w.start, w.len))) { view := None; }
  }

  /** `sha256_range`: the digest of the first `len` bytes, or None once the skip flag is seen. */
  method Sha256Range(f: Foreign, h: DevReader, len: nat, skip: Option<nat -> bool>)
    returns (r: IoResult<Option<string>>, ticks: seq<Event>)
    requires h.Valid() && h.Exact() && len <= |h.Data()|
    modifies h.Moves()
    ensures h.Valid() && r != Err(UnexpectedEof) && (h.Reliable() ==> r.Ok?)
    ensures r.Ok? ==> var reached := Reached(0, len, skip, 0);
                      && ticks == Ticks(0, reached, len)
                      && r.value == if reached < len then None else Some(Hex(f.sha(h.Data()[..len])))
  {
    hide DevReader.Valid, OnTrack, Reached, Ticks;
    ghost var data := h.Data();
    ticks := [];
    var at := h.Seek(Start(0));
    if at.Err? { r := Err(OsFailed); return; }
    var fed: seq<byte> := [];
    var buf := new byte[CHUNK];
    var poll := 0;
    PassBegins(len, skip);
    while |fed| < len
      invariant h.Valid() && h.Data() == data && h.Pos() == |fed| <= len && fresh(buf) && buf.Length == CHUNK
      invariant fed == data[..|fed|]
      invariant OnTrack(|fed|, poll, ticks, len, skip)
    {
      if skip.Some? && skip.value(poll) {
        PassCut(|fed|, poll, ticks, len, skip);
        r := Ok(None);
        return;
      }
      PassGoesOn(|fed|, poll, ticks, len, skip);
      var more := Feed(h, fed, Min(CHUNK, len - |fed|), buf);
      if more.Err? { r := Err(more.error); return; }
      fed, poll := more.value, poll + 1;
      ticks := ticks + [Progress(|fed|, len)];
    }
    PassDone(poll, ticks, len, skip);
    r := Ok(Some(Hex(f.sha(fed))));
  }

  // ---- Where a pass stands, chunk by chunk. ----

  /** `done` bytes were passed over and `ticks` sent, with poll number `poll` next. */
  ghost predicate OnTrack(done: nat, poll: nat, ticks: seq<Event>, total: nat, skip: Option<nat -> bool>) {
    && done <= total
    && Reached(0, total, skip, 0) == Reached(done, total, skip, poll)
    && Ticks(0, Reached(0, total, skip, 0), total) == ticks + Ticks(done, Reached(0, total, skip, 0), total)
  }

  lemma PassBegins(total: nat, skip: Option<nat -> bool>)
    ensures OnTrack(0, 0, [], total, skip)
  {}

  lemma PassGoesOn(done: nat, poll: nat, ticks: seq<Event>, total: nat, skip: Option<nat -> bool>)
    requires OnTrack(done, poll, ticks, total, skip) && done < total && !(skip.Some? && skip.value(poll))
    ensures var next := Min(done + CHUNK, total); OnTrack(next, poll + 1, ticks + [Progress(next, total)], total, skip)
  {
    ReachedForward(Min(done + CHUNK, total), total, skip, poll + 1);
    TicksStep(ticks, done, Reached(0, total, skip, 0), total);
  }

  lemma PassCut(done: nat, poll: nat, ticks: seq<Event>, total: nat, skip: Option<nat -> bool>)
    requires OnTrack(done, poll, ticks, total, skip) && done < total && skip.Some? && skip.value(poll)
    ensures Reached(0, total, skip, 0) == done && ticks == Ticks(0, done, total)
  {}

  lemma PassDone(poll: nat, ticks: seq<Event>, total: nat, skip: Option<nat -> bool>)
    requires OnTrack(total, poll, ticks, total, skip)
    ensures Reached(0, total, skip, 0) == total && ticks == Ticks(0, total, total)
  {}

  /** One chunk: read it whole and feed it to the hasher. */
  method Feed(h: DevReader, fed: seq<byte>, want: nat, buf: array<byte>) returns (r: IoResult<seq<byte>>)
    requires h.Valid() && h.Exact() && want <= buf.Length
    requires |fed| + want <= |h.Data()| && h.Pos() == |fed| && fed == h.Data()[..|fed|]
    modifies h.Moves(), buf
    ensures h.Valid() && r != Err(UnexpectedEof) && (h.Reliable() ==> r.Ok?)
    ensures r.Ok? ==> h.Pos() == |fed| + want && r.value == h.Data()[..|fed| + want]
  {
    hide DevReader.Valid;
    ghost var data := h.Data();
    var got := h.ReadExact(buf, want);
    if got.Err? { return Err(got.error); }
    TakeMore(data, |fed|, want);
    return Ok(fed + buf[..want]);
  }

  lemma {:induction false} ReachedForward(done: nat, total: nat, skip: Option<nat -> bool>, poll: nat)
    requires done <= total
    ensures done <= Reached(done, total, skip, poll) <= total
    decreases total - done
  {
    if done < total && !(skip.Some? && skip.value(poll)) {
      ReachedForward(Min(done + CHUNK, total), total, skip, poll + 1);
    }
  }

  /** What the two hashers of the compare were fed, and the progress sent. */
  datatype Hashed = Hashed(device: seq<byte>, image: seq<byte>, ticks: seq<Event>, done: nat)

  /** The fidelity compare: device and image hashed side by side over their common length.
      `steady` when the image opens and no read of it fails. */
  method Fidelity(f: Foreign, h: DevReader, image: Disk, steady: bool, skip: Option<nat -> bool>) returns (r: IoResult<Report>)
    requires h.Valid() && h.Exact() && |image.data| < U64
    modifies h.Moves()
    ensures h.Valid() && r != Err(UnexpectedEof) && (h.Reliable() && steady ==> r.Ok?)
    ensures r.Ok? ==> r.value == FidelityStep(f, h.Data(), image.data, skip)
  {
    hide Ticks, FidelityEnd;
    var unopened: bool := *;
    if unopened && !steady { return Err(OpenFailed); }
    var img := new OpenFile(image, steady);
    var deviceLen, imageLen := |h.Disk().data|, |image.data|;
    var common := Min(imageLen, deviceLen);
    var at := h.Seek(Start(0));
    var hashed: IoResult<Hashed> := Err(OsFailed);
    if at.Ok? {
      hashed := HashPair(h, File(img), common, skip);
    }
    if hashed.Err? {
      r := Err(hashed.error);
    } else {
      r := Ok(FidelityReport(f, hashed.value, deviceLen, imageLen));
    }
  }

  function FidelityReport(f: Foreign, hashed: Hashed, deviceLen: nat, imageLen: nat): Report {
    FidelityStart(deviceLen, imageLen).Then(Report(hashed.ticks, [])).Then(
      if hashed.done < Min(imageLen, deviceLen) then FIDELITY_SKIPPED
      else FidelityEnd(f.sha(hashed.device), f.sha(hashed.image), deviceLen >= imageLen))
  }

  /** The chunk loop of the compare. */
  method HashPair(h: DevReader, i: DevReader, common: nat, skip: Option<nat -> bool>)
    returns (r: IoResult<Hashed>)
    requires h.Valid() && i.Valid() && h.Exact() && i.Exact() && h.Moves() !! i.Moves()
    requires common <= |h.Data()| && common <= |i.Data()| && h.Pos() == 0 && i.Pos() == 0
    modifies h.Moves(), i.Moves()
    ensures h.Valid() && r != Err(UnexpectedEof) && (h.Reliable() && i.Reliable() ==> r.Ok?)
    ensures r.Ok? ==> r.value.done == Reached(0, common, skip, 0) <= common
    ensures r.Ok? ==> r.value.ticks == Ticks(0, r.value.done, common)
    ensures r.Ok? ==> r.value.device == h.Data()[..r.value.done] && r.value.image == i.Data()[..r.value.done]
  {
    hide DevReader.Valid, OnTrack, Reached, Ticks;
    ghost var data, image := h.Data(), i.Data();
    var acc := Hashed([], [], [], 0);
    var bufDev, bufImg := new byte[CHUNK], new byte[CHUNK];
    var poll := 0;
    PassBegins(common, skip);
    while acc.done < common
      invariant h.Valid() && i.Valid() && h.Data() == data && i.Data() == image
      invariant h.Pos() == i.Pos() == acc.done <= common
      invariant fresh(bufDev) && fresh(bufImg) && bufDev != bufImg
      invariant acc.device == data[..acc.done] && acc.image == image[..acc.done]
      invariant OnTrack(acc.done, poll, acc.ticks, common, skip)
    {
      if skip.Some? && skip.value(poll) {
        PassCut(acc.done, poll, acc.ticks, common, skip);
        return Ok(acc);
      }
      PassGoesOn(acc.done, poll, acc.ticks, common, skip);
      var next := HashChunk(h, i, common, acc, bufDev, bufImg);
      if next.Err? { return next; }
      acc, poll := next.value, poll + 1;
    }
    PassDone(poll, acc.ticks, common, skip);
    return Ok(acc);
  }

  /** One chunk of the compare: both handles read the same count, both hashers are fed. */
  method HashChunk(h: DevReader, i: DevReader, common: nat, acc: Hashed, bufDev: array<byte>, bufImg: array<byte>)
    returns (r: IoResult<Hashed>)
    requires h.Valid() && i.Valid() && h.Exact() && i.Exact() && h.Moves() !! i.Moves()
    requires common <= |h.Data()| && common <= |i.Data()| && bufDev != bufImg
    requires bufDev.Length == CHUNK && bufImg.Length == CHUNK
    requires acc.done < common && h.Pos() == acc.done && i.Pos() == acc.done
    requires acc.device == h.Data()[..acc.done] && acc.image == i.Data()[..acc.done]
    modifies h.Moves(), i.Moves(), bufDev, bufImg
    ensures h.Valid() && i.Valid() && r != Err(UnexpectedEof) && (h.Reliable() && i.Reliable() ==> r.Ok?)
    ensures var next := Min(acc.done + CHUNK, common);
            r.Ok? ==> h.Pos() == next && i.Pos() == next &&
                      r.value == Hashed(h.Data()[..next], i.Data()[..next], acc.ticks + [Progress(next, common)], next)
  {
    hide DevReader.Valid;
    var want := Min(CHUNK, common - acc.done);
    var d := Feed(h, acc.device, want, bufDev);
    if d.Err? { return Err(d.error); }
    var m := Feed(i, acc.image, want, bufImg);
    if m.Err? { return Err(m.error); }
    var next := acc.done + want;
    return Ok(Hashed(d.value, m.value, acc.ticks + [Progress(next, common)], next));
  }

  lemma TicksStep(ticks: seq<Event>, done: nat, upto: nat, total: nat)
    requires done < upto && done < total
    ensures var next := Min(done + CHUNK, total);
            ticks + Ticks(done, upto, total) == (ticks + [Progress(next, total)]) + Ticks(next, upto, total)
  {}

  lemma TakeMore(data: seq<byte>, done: nat, want: nat)
    requires done + want <= |data|
    ensures want <= |Rest(data, done)| && data[..done] + Rest(data, done)[..want] == data[..done + want]
  {}

  ghost function ImageBytes(image: Option<Disk>): Option<seq<byte>>
    reads if image.Some? then {image.value} else {}
  {
    if image.Some? then Some(image.value.data) else None
  }

  /** `run_verify` on an already opened handle. Every consumer gets a clone or the handle
      itself and seeks before it reads, so only the bytes decide: the evidence names neither
      the kind of handle nor any offset. A failed read inside the parser or the driver becomes
      evidence (`clean` is false then); any other ends the run. With handles that never fail
      both depend on the bytes too: the run ends well exactly when the LUKS header is there. */
  method RunVerify(f: Foreign, file: DevReader, isDevice: bool, image: Option<Disk>, steady: bool, skip: Option<nat -> bool>)
    returns (r: IoResult<Report>, parsed: Parsed, clean: bool)
    requires file.Valid() && file.Exact()
    requires image.Some? ==> |image.value.data| < U64
    modifies file.Moves()
    ensures file.Valid()
    ensures clean ==> parsed == Truth(f, file.Data())
    ensures file.Reliable() && steady && EspFits(f.gpt(file.Data())) ==>
              clean && (r.Ok? <==> HeaderFits(f.gpt(file.Data()), file.Data()))
    ensures parsed.gpt == f.gpt(file.Data()) ==> Overlooks(parsed.fat, Truth(f, file.Data()).fat)
    ensures r == Err(UnexpectedEof) ==> !HeaderFits(parsed.gpt, file.Data())
    ensures r.Ok? ==> HeaderFits(parsed.gpt, file.Data()) &&
                      r.value == Evidence(f, parsed, file.Data(), isDevice, ImageBytes(image), skip)
    ensures r.Ok? && !isDevice ==> ShowsImage(f, file.Data(), r.value.events)
  {
    assert Truth(f, file.Disk().data).gpt == f.gpt(file.Disk().data);
    hide DevReader.Valid, GptStep, BootStep, LuksStep, WholeReport, ShowsImage, Truth, Overlooks, Located;
    parsed, clean := Parsed(None, None), false;
    var end := file.Seek(End(0));
    if end.Err? { NothingParsed(f, file.Disk().data); r := Err(OsFailed); return; }
    var read;
    read, parsed, clean := ParseBoth(f, file);
    if read.Err? { r := Err(read.error); return; }
    var luks := CheckStore(file, parsed.gpt);
    if luks.Err? { r := Err(luks.error); return; }
    var whole := CheckWhole(f, file, end.value, isDevice, image, steady, skip);
    if whole.Err? { r := Err(whole.error); return; }
    r := Ok(GptStep(parsed.gpt).Then(EspReport(parsed)).Then(luks.value).Then(whole.value));
    if !isDevice { ImageShown(f, parsed, file.Disk().data, ImageBytes(image), skip); }
  }

  lemma NothingParsed(f: Foreign, data: seq<byte>)
    ensures Overlooks(None, Truth(f, data).fat)
  {}

  /** The table and the ESP; an error only for an ESP range the program cannot count. */
  method ParseBoth(f: Foreign, file: DevReader) returns (r: IoResult<()>, parsed: Parsed, clean: bool)
    requires file.Valid() && file.Exact()
    modifies file.Moves()
    ensures file.Valid() && r != Err(UnexpectedEof)
    ensures clean ==> parsed == Truth(f, file.Data())
    ensures parsed.gpt == f.gpt(file.Data()) ==> Overlooks(parsed.fat, Truth(f, file.Data()).fat)
    ensures file.Reliable() && EspFits(f.gpt(file.Data())) ==> clean && r.Ok?
  {
    hide DevReader.Valid;
    var g := file.TryClone();
    var gpt, gptClean := ParseGpt(f, g);
    parsed, clean := Parsed(gpt, None), false;
    var fat, fatClean := CheckEsp(f, file, Located(gpt, true));
    if fat.Err? { r := Err(fat.error); return; }
    parsed, clean, r := Parsed(gpt, fat.value), gptClean && fatClean, Ok(());
  }

  /** Boot loader and UKIs, through a window of a clone. */
  method CheckEsp(f: Foreign, file: DevReader, esp: Option<Partition>) returns (r: IoResult<Option<EspView>>, clean: bool)
    requires file.Valid() && file.Exact()
    modifies file.Moves()
    ensures file.Valid() && r != Err(UnexpectedEof)
    ensures file.Reliable() && (esp.Some? ==> esp.value.start + esp.value.len < U64) ==> r.Ok? && clean
    ensures r.Ok? ==> if esp.None? then r.value.None? && clean
                      else var all := f.fat(Slice(file.Data(), esp.value.start, esp.value.len));
                           (clean ==> r.value == all) && Overlooks(r.value, all)
  {
    if esp.None? { return Ok(None), true; }
    if esp.value.start + esp.value.len >= U64 { return Err(OsFailed), false; }
    var c := file.TryClone();
    var w := new SliceCursor(c, esp.value.start, esp.value.len);
    var view, seenAll := MountEsp(f, w);
    return Ok(view), seenAll;
  }

  /** The LUKS2 header of the store. */
  method CheckStore(file: DevReader, gpt: Option<seq<Partition>>) returns (r: IoResult<Report>)
    requires file.Valid() && file.Exact()
    modifies file.Moves()
    ensures file.Valid()
    ensures r == Err(UnexpectedEof) ==> !HeaderFits(gpt, file.Data())
    ensures file.Reliable() && HeaderFits(gpt, file.Data()) ==> r.Ok?
    ensures r.Ok? ==> HeaderFits(gpt, file.Data()) && r.value == StoreReport(gpt, file.Data())
  {
    var store := Located(gpt, false);
    if store.None? { return Ok(NO_STORE_STEP); }
    var hdr := ReadHeader(file, store.value.start);
    if hdr.Err? { return Err(hdr.error); }
    return Ok(LuksStep(hdr.value));
  }

  method ReadHeader(file: DevReader, start: nat) returns (r: IoResult<seq<byte>>)
    requires file.Valid() && file.Exact()
    modifies file.Moves()
    ensures file.Valid()
    ensures r == Err(UnexpectedEof) ==> start + 8 > |file.Data()|
    ensures file.Reliable() && start + 8 <= |file.Data()| ==> r.Ok?
    ensures r.Ok? ==> start + 8 <= |file.Data()| && r.value == file.Data()[start..start + 8]
  {
    if start >= U64 { return Err(OsFailed); }
    var at := file.Seek(Start(start));
    if at.Err? { return Err(OsFailed); }
    var buf := new byte[8];
    var hdr := file.ReadExact(buf, 8);
    if hdr.Err? { return Err(hdr.error); }
    return Ok(buf[..8]);
  }

  /** The whole-target check: the image's digest, or the device's fidelity compare. */
  method CheckWhole(f: Foreign, file: DevReader, targetLen: nat, isDevice: bool, image: Option<Disk>, steady: bool, skip: Option<nat -> bool>)
    returns (r: IoResult<Report>)
    requires file.Valid() && file.Exact() && targetLen == |file.Data()|
    requires image.Some? ==> |image.value.data| < U64
    modifies file.Moves()
    ensures file.Valid() && r != Err(UnexpectedEof) && (file.Reliable() && steady ==> r.Ok?)
    ensures r.Ok? ==> r.value == WholeReport(f, file.Data(), isDevice, ImageBytes(image), skip)
  {
    if isDevice {
      if image.None? { return Ok(NO_IMAGE_STEP); }
      r := Fidelity(f, file, image.value, steady, skip);
    } else {
      NeverSkipped(0, targetLen, 0);
      var digest, ticks := Sha256Range(f, file, targetLen, None);
      if digest.Err? { return Err(digest.error); }
      assert file.Data()[..targetLen] == file.Data();
      return Ok(Report([Step(4, Running), Phase("SHA-256 over the whole image")] + ticks
                       + [Note(Digest(digest.value.value)), Step(4, Passed)], []));
    }
  }

  /** Without a skip flag a pass always reaches its end (the code's unskippable hash). */
  lemma {:induction false} NeverSkipped(done: nat, total: nat, poll: nat)
    requires done <= total
    ensures Reached(done, total, None, poll) == total
    decreases total - done
  {
    if done < total { NeverSkipped(Min(done + CHUNK, total), total, poll + 1); }
  }
}
