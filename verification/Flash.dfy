/** The flash procedure of flash.rs: backup, overwrite, independent header check. The device,
    the image and the backup are byte arrays behind handles; every step may fail. */
module Flash {
  import opened Text
  import opened Device

  /** Copy chunk and verified prefix, 4 MiB each. */
  const CHUNK: nat := 4 * 1024 * 1024
  const VERIFY_PREFIX_LEN: nat := 4 * 1024 * 1024

  /** `base` overwritten from its start by `front`. */
  function Overlay(base: seq<byte>, front: seq<byte>): seq<byte> {
    front + Rest(base, |front|)
  }

  /** How device commands run; `exact` says whether a successful `dd` reads its whole range. */
  datatype Elevation = AsRoot | ViaSudo(exact: bool) {
    predicate Exact() { AsRoot? || exact }
  }

  /** A sequential sink: a created file, a device opened for writing, or a `dd` pipe onto one.
      What was fed reaches the target in order but possibly late, so at any time the target
      holds its old bytes overwritten by some prefix of what was fed. */
  class Sink {
    const disk: Disk
    const base: seq<byte>
    /** A file grows; a device keeps its size. */
    const grows: bool
    /** Whether a successful finish means that every byte landed. */
    const honest: bool
    /** Whether no write or flush fails while there is room. */
    const reliable: bool
    var fed: seq<byte>
    var landed: nat

    ghost predicate Valid()
      reads this, disk
    {
      && landed <= |fed|
      && (grows || (landed <= |base| && |disk.data| == |base|))
      && (honest ==> disk.data == Overlay(base, fed[..landed]))
    }

    /** `File::create`: truncates what was there. */
    constructor Create(target: Disk, reliable: bool)
      modifies target
      ensures Valid() && disk == target && base == [] && grows && honest && this.reliable == reliable && fed == []
      ensures target.data == []
    {
      disk, base, grows, honest, this.reliable, fed, landed := target, [], true, true, reliable, [], 0;
      new;
      target.data := [];
    }

    constructor OpenDevice(target: Disk, honest: bool, reliable: bool)
      ensures Valid() && disk == target && base == target.data && !grows && fed == []
      ensures this.honest == honest && this.reliable == reliable
    {
      disk, base, grows, this.honest, this.reliable, fed, landed := target, target.data, false, honest, reliable, [], 0;
    }

    /** Some more of what was fed reaches the target. */
    method Land()
      requires Valid()
      modifies this`landed, disk
      ensures Valid() && landed >= old(landed)
    {
      var more: int := *;
      var most := if grows then |fed| else Min(|fed|, |base|);
      if landed <= more <= most { landed := more; }
      var junk: seq<byte> := *;
      if honest {
        disk.data := Overlay(base, fed[..landed]);
      } else if grows || |junk| == |base| {
        disk.data := junk;
      }
    }

    /** `Write::write_all`: on failure a prefix of the chunk may still have been fed. */
    method WriteAll(chunk: seq<byte>) returns (r: IoResult<()>)
      requires Valid()
      modifies this`fed, this`landed, disk
      ensures Valid()
      ensures old(|fed|) <= |fed| <= old(|fed|) + |chunk| && fed == old(fed) + chunk[..|fed| - old(|fed|)]
      ensures r.Ok? ==> |fed| == old(|fed|) + |chunk|
      ensures reliable ==> r.Ok?
    {
      var failed: bool := *;
      failed := failed && !reliable;
      var took: int := *;
      var n := if failed && 0 <= took <= |chunk| then took else |chunk|;
      LandedKept(fed, chunk[..n], landed);
      fed := fed + chunk[..n];
      Land();
      return if failed then Err(WriteFailed) else Ok(());
    }

    static lemma LandedKept(fed: seq<byte>, more: seq<byte>, landed: nat)
      requires landed <= |fed|
      ensures (fed + more)[..landed] == fed[..landed]
    {}

    /** fsync of the file, or EOF to `dd` and its exit status. */
    method Finish() returns (r: IoResult<()>)
      requires Valid()
      modifies this`landed, disk
      ensures Valid()
      ensures r.Ok? && !grows ==> |fed| <= |base|
      ensures reliable && (grows || |fed| <= |base|) ==> r.Ok?
      ensures r.Ok? && honest ==> landed == |fed| && disk.data == Overlay(base, fed)
    {
      Land();
      var failed: bool := *;
      if failed && !reliable { return Err(SyncFailed); }
      if !grows && |fed| > |base| { return Err(WriteFailed); }
      if honest {
        landed := |fed|;
        disk.data := Overlay(base, fed[..landed]);
        assert fed[..landed] == fed;
      }
      return Ok(());
    }
  }

  /** `Elevation::open_reader`: a plain file as root, else a sudo reader sized by blockdev. */
  method OpenReader(dev: Disk, elev: Elevation, reliable: bool) returns (r: IoResult<DevReader>)
    requires |dev.data| < U64
    ensures r.Ok? ==> r.value.Valid() && r.value.Disk() == dev && r.value.Pos() == 0 && r.value.Exact() == elev.Exact()
    ensures r.Ok? ==> fresh(r.value.Moves()) && r.value.Reliable() == reliable
    ensures reliable ==> r.Ok?
  {
    var failed: bool := *;
    if failed && !reliable { return Err(OpenFailed); }
    match elev
    case AsRoot =>
      var f := new OpenFile(dev, reliable);
      return Ok(File(f));
    case ViaSudo(exact) =>
      var s := new SudoReader(dev, exact, reliable);
      return Ok(Sudo(s));
  }

  /** Counters that strictly increase up to `last`, which is 0 for none. */
  ghost predicate CountsUpTo(progress: seq<nat>, last: nat) {
    && (forall i, j :: 0 <= i < j < |progress| ==> progress[i] < progress[j])
    && (if progress == [] then last == 0 else progress[|progress| - 1] == last)
  }

  /** `copy_with_progress`: read to EOF into the sink, with the byte counters reported. */
  method CopyWithProgress(src: DevReader, dst: Sink) returns (r: IoResult<()>, progress: seq<nat>)
    requires src.Valid() && dst.Valid() && src.Disk() != dst.disk && dst.fed == []
    modifies src.Moves(), dst`fed, dst`landed, dst.disk
    ensures dst.Valid() && dst.fed <= Rest(src.Data(), old(src.Pos()))
    ensures r.Ok? && src.Exact() ==> dst.fed == Rest(src.Data(), old(src.Pos()))
    ensures r.Ok? ==> CountsUpTo(progress, |dst.fed|)
    ensures src.Reliable() && dst.reliable ==> r.Ok?
  {
    hide DevReader.Valid, Sink.Valid;
    ghost var data, from := src.Data(), src.Pos();
    var buf := new byte[CHUNK];
    progress := [];
    while true
      invariant src.Valid() && dst.Valid() && src.Data() == data && fresh(buf)
      invariant src.Pos() == from + |dst.fed| && dst.fed <= Rest(data, from)
      invariant CountsUpTo(progress, |dst.fed|)
      decreases |Rest(data, from)| - |dst.fed|
    {
      var n := CopyChunk(src, dst, buf, from);
      if n.Err? { r := Err(n.error); return; }
      if n.value == 0 { r := Ok(()); return; }
      progress := progress + [|dst.fed|];
    }
  }

  /** One turn of the copy: a read, and all of it written. */
  method CopyChunk(src: DevReader, dst: Sink, buf: array<byte>, ghost from: nat) returns (r: IoResult<nat>)
    requires src.Valid() && dst.Valid() && src.Disk() != dst.disk && buf.Length == CHUNK
    requires src.Pos() == from + |dst.fed| && dst.fed <= Rest(src.Data(), from)
    modifies src.Moves(), dst`fed, dst`landed, dst.disk, buf
    ensures src.Valid() && dst.Valid() && dst.fed <= Rest(src.Data(), from)
    ensures r.Ok? ==> src.Pos() == from + |dst.fed| && |dst.fed| == old(|dst.fed|) + r.value
    ensures r == Ok(0) && src.Exact() ==> dst.fed == Rest(src.Data(), from)
    ensures src.Reliable() && dst.reliable ==> r.Ok?
  {
    hide DevReader.Valid, Sink.Valid;
    ghost var data := src.Data();
    var n := src.Read(buf, 0, CHUNK);
    if n.Err? { return Err(n.error); }
    var bytes := buf[0..n.value];
    if n.value == 0 { return Ok(0); }
    ghost var was := dst.fed;
    var w := dst.WriteAll(bytes);
    Continues(data, from, was, bytes, |dst.fed| - |was|);
    return if w.Err? then Err(w.error) else Ok(n.value);
  }

  /** What was read at the end of a prefix makes a longer prefix. */
  lemma Continues(data: seq<byte>, from: nat, fed: seq<byte>, bytes: seq<byte>, n: nat)
    requires fed <= Rest(data, from) && n <= |bytes|
    requires from + |fed| + |bytes| <= |data| && bytes == data[from + |fed|..from + |fed| + |bytes|]
    ensures fed + bytes[..n] <= Rest(data, from)
  {
    SliceOfSlice(data, from + |fed|, from + |fed| + |bytes|, 0, n);
    RestGrows(data, from, |fed|, n);
    assert fed == Rest(data, from)[..|fed|];
  }

  /** `read_prefix`: the first `len` bytes, or all there are. */
  method ReadPrefix(h: DevReader, len: nat) returns (r: IoResult<seq<byte>>)
    requires h.Valid() && h.Pos() == 0
    modifies h.Moves()
    ensures r.Ok? ==> r.value <= h.Data() && |r.value| <= len
    ensures r.Ok? && h.Exact() ==> r.value == h.Data()[..Min(len, |h.Data()|)]
    ensures h.Reliable() ==> r.Ok?
  {
    hide DevReader.Valid;
    ghost var data := h.Data();
    var buf := new byte[len];
    var got := 0;
    while got < len
      invariant got <= len && got <= |data| && h.Valid() && h.Data() == data && h.Pos() == got && fresh(buf)
      invariant buf[..got] == data[..got]
      decreases len - got
    {
      ghost var before := buf[..];
      var n := h.Read(buf, got, len);
      if n.Err? { return Err(n.error); }
      if n.value == 0 { break; }
      Kept(before, buf[..], got, n.value, len);
      SliceJoin(data, 0, got, got + n.value);
      got := got + n.value;
    }
    return Ok(buf[..got]);
  }

  /** The device starts with the first `len` bytes of a non-empty image. */
  predicate StartsWith(dev: seq<byte>, image: seq<byte>, len: nat) {
    var want := Min(len, |image|);
    want > 0 && want <= |dev| && dev[..want] == image[..want]
  }

  /** `same_prefix`. */
  method SamePrefix(image: Disk, dev: Disk, len: nat, elev: Elevation, reliable: bool) returns (r: IoResult<bool>)
    requires |image.data| < U64 && |dev.data| < U64
    ensures r.Ok? && r.value ==> StartsWith(dev.data, image.data, len)
    ensures r.Ok? && elev.Exact() ==> r.value == StartsWith(dev.data, image.data, len)
    ensures reliable ==> r.Ok?
  {
    var img := new OpenFile(image, reliable);
    var pa := ReadPrefix(File(img), len);
    if pa.Err? { return Err(pa.error); }
    var device := OpenReader(dev, elev, reliable);
    if device.Err? { return Err(device.error); }
    var pb := ReadPrefix(device.value, len);
    if pb.Err? { return Err(pb.error); }
    var a, b := pa.value, pb.value;
    return Ok(|a| > 0 && |a| == Min(|b|, |a|) && b[..|a|] == a);
  }

  // ---- The whole procedure. ----

  datatype Stage = BackupStage | WriteStage | VerifyStage
  datatype Outcome = Aborted(stage: Stage) | Flashed

  /** Back the device up and make the copy durable; only reads the device. */
  method Backup(dev: Disk, dest: Disk, elev: Elevation, reliable: bool) returns (r: IoResult<()>)
    requires |dev.data| < U64 && dest != dev
    modifies dest
    ensures r.Ok? ==> dest.data <= dev.data
    ensures r.Ok? && elev.Exact() ==> dest.data == dev.data
    ensures reliable ==> r.Ok?
  {
    hide DevReader.Valid;
    var src := OpenReader(dev, elev, reliable);
    if src.Err? { return Err(src.error); }
    var failed: bool := *;
    if failed && !reliable { return Err(OpenFailed); }
    var dst := new Sink.Create(dest, reliable);
    var copied, _ := CopyWithProgress(src.value, dst);
    if copied.Err? { return copied; }
    r := dst.Finish();
    assert Rest(dev.data, 0) == dev.data && Overlay([], dst.fed) == dst.fed;
  }

  /** Copy the image onto the device and finish durably. */
  method WriteImage(image: Disk, dev: Disk, honest: bool, reliable: bool) returns (r: IoResult<()>)
    requires |image.data| < U64 && |dev.data| < U64 && image != dev
    modifies dev
    ensures |dev.data| == old(|dev.data|)
    ensures r.Ok? ==> |image.data| <= |dev.data|
    ensures reliable && |image.data| <= |dev.data| ==> r.Ok?
    ensures r.Ok? && honest ==> dev.data == Overlay(old(dev.data), image.data)
  {
    var failed: bool := *;
    if failed && !reliable { return Err(OpenFailed); }
    var img := new OpenFile(image, reliable);
    var sink := new Sink.OpenDevice(dev, honest, reliable);
    var copied, _ := CopyWithProgress(File(img), sink);
    if copied.Err? { return copied; }
    r := sink.Finish();
    assert Rest(image.data, 0) == image.data;
  }

  /** The partition and filesystem grow: tools that rewrite parts of the device. */
  method Grow(dev: Disk)
    modifies dev
    ensures |dev.data| == old(|dev.data|)
  {
    var after: seq<byte> := *;
    if |after| == |dev.data| { dev.data := after; }
  }

  /** `run_flash`. `written` is what the device held once its header was verified, before any
      grow; `reliable` when nothing it opens, reads, writes or flushes fails while there is room. */
  method RunFlash(image: Disk, dev: Disk, backupTo: Option<Disk>, grow: bool, elev: Elevation, honest: bool, reliable: bool)
    returns (r: Outcome, ghost written: seq<byte>)
    requires |image.data| < U64 && |dev.data| < U64 && image != dev
    requires backupTo.Some? ==> backupTo.value != dev && backupTo.value != image
    modifies dev, if backupTo.Some? then {backupTo.value} else {}
    ensures |dev.data| == old(|dev.data|) && image.data == old(image.data)
    // Nothing on the device changes before a requested backup is complete and durable.
    ensures r == Aborted(BackupStage) ==> backupTo.Some? && dev.data == old(dev.data)
    ensures backupTo.Some? && dev.data != old(dev.data) ==> Saved(backupTo.value.data, old(dev.data), elev.Exact())
    // Success is never reported on trust, and means image ++ old tail.
    ensures r == Flashed ==> StartsWith(written, image.data, 4_194_304)
    ensures r == Flashed ==> |image.data| <= |dev.data|
    ensures r == Flashed && honest ==> written == image.data + old(dev.data)[|image.data|..]
    ensures r == Flashed && !grow ==> dev.data == written
    // Past the write an honest device holds the image, even if the check then fails.
    ensures r == Aborted(VerifyStage) && honest ==> |image.data| <= |dev.data| && dev.data == image.data + old(dev.data)[|image.data|..]
    // When nothing fails, exactly the non-empty images that fit are flashed.
    ensures reliable && honest && elev.Exact() ==>
              r == if |image.data| > |dev.data| then Aborted(WriteStage) else if image.data == [] then Aborted(VerifyStage) else Flashed
  {
    written := [];
    if backupTo.Some? {
      var b := Backup(dev, backupTo.value, elev, reliable);
      if b.Err? { r := Aborted(BackupStage); return; }
    }
    var w := WriteImage(image, dev, honest, reliable);
    if w.Err? { r := Aborted(WriteStage); return; }
    var same := SamePrefix(image, dev, VERIFY_PREFIX_LEN, elev, reliable);
    if same != Ok(true) { r := Aborted(VerifyStage); return; }
    written := dev.data;
    if grow { Grow(dev); }
    r := Flashed;
  }

  /** What a backup holds of the device it was taken from: everything, unless a `dd` may
      return short, which the copy cannot tell from the end of the device. */
  ghost predicate Saved(backup: seq<byte>, device: seq<byte>, exact: bool) {
    backup <= device && (exact ==> backup == device)
  }

  /** Writing the backup over the flashed device restores exactly the old device, and does
      so only if the backup was complete or the lost tail was never overwritten. */
  lemma RestoreIff(backup: seq<byte>, before: seq<byte>, now: seq<byte>)
    requires |now| == |before| && backup <= before
    ensures Overlay(now, backup) == before <==> now[|backup|..] == before[|backup|..]
  {
    assert before == backup + before[|backup|..];
    assert Overlay(now, backup)[|backup|..] == now[|backup|..];
  }
}
