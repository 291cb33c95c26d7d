/** The device handles of sudo.rs: a `sudo dd`-backed reader with a block cache beside a
    direct path, a plain file whose clones share one offset, and the type that is either.
    All of them are proved to be a cursor over the bytes of the device. */
module Device {
  import opened Text

  type byte = x: int | 0 <= x < 256

  datatype IoError = NegativeSeek | DdFailed | OsFailed | UnexpectedEof | WriteFailed | SyncFailed | OpenFailed
  datatype IoResult<+T> = Ok(value: T) | Err(error: IoError)

  const U64: int := 0x1_0000_0000_0000_0000

  /** The small-read cache block, 1 MiB. */
  const BLOCK: nat := 1024 * 1024

  /** A block device or regular file: the bytes behind every handle opened on it. */
  class Disk {
    var data: seq<byte>
    constructor (bytes: seq<byte>)
      ensures data == bytes
    {
      data := bytes;
    }
  }

  /** `std::io::SeekFrom`; `InRange` is its integer widths (u64 and i64). */
  datatype SeekFrom = Start(o: int) | End(o: int) | Current(o: int) {
    predicate InRange() {
      if Start? then 0 <= o < U64 else -(U64 / 2) <= o < U64 / 2
    }

    /** The mathematical target, which the code computes in i128. */
    function Target(len: nat, pos: nat): int {
      match this
      case Start(o) => o
      case End(o) => len + o
      case Current(o) => pos + o
    }
  }

  // ---- The specification: an uncached cursor over a byte array. ----

  /** What a read of at most `cap` bytes at `pos` may return. With `exact`, it returns
      nothing only at the end of the data or for an empty buffer. */
  ghost predicate ReadAt(data: seq<byte>, pos: nat, cap: nat, exact: bool, bytes: seq<byte>) {
    && |bytes| <= cap
    && (bytes != [] ==> pos + |bytes| <= |data| && bytes == data[pos..pos + |bytes|])
    && (exact && pos < |data| && cap > 0 ==> bytes != [])
  }

  /** The bytes from `pos` on, of which a reader can still return a prefix. */
  function Rest(data: seq<byte>, pos: nat): seq<byte> {
    if pos <= |data| then data[pos..] else []
  }

  lemma SliceOfSlice<T>(s: seq<T>, a: nat, b: nat, i: nat, j: nat)
    requires i <= j <= b - a && a <= b <= |s|
    ensures s[a..b][i..j] == s[a + i..a + j]
  {
    var x, y := s[a..b][i..j], s[a + i..a + j];
    assert forall k :: 0 <= k < |x| ==> x[k] == s[a..b][i + k] == y[k];
  }

  lemma SliceJoin<T>(s: seq<T>, a: nat, b: nat, c: nat)
    requires a <= b <= c <= |s|
    ensures s[a..b] + s[b..c] == s[a..c]
  {}

  /** Filling `[got..got + n]` keeps what came before and what comes after `want`. */
  lemma Kept<T>(before: seq<T>, after: seq<T>, got: nat, n: nat, want: nat)
    requires got + n <= want <= |before| == |after|
    requires after[..got] == before[..got] && after[got + n..] == before[got + n..]
    ensures after[want..] == before[want..]
    ensures after[..got + n] == before[..got] + after[got..got + n]
  {
    assert after[want..] == after[got + n..][want - got - n..] && before[want..] == before[got + n..][want - got - n..];
  }

  // ---- The sudo reader. ----

  class SudoReader {
    const disk: Disk
    /** Whether every successful `dd` returned its whole range. */
    const exact: bool
    /** Whether no `dd` fails. */
    const reliable: bool
    const len: nat
    var pos: nat
    var cache: seq<byte>
    var cacheStart: nat

    ghost predicate Valid()
      reads this, disk
    {
      && len == |disk.data| < U64
      && pos < U64
      && cacheStart + |cache| <= len
      && cache == disk.data[cacheStart..cacheStart + |cache|]
    }

    constructor (disk: Disk, exact: bool, reliable: bool)
      requires |disk.data| < U64
      ensures Valid() && this.disk == disk && this.exact == exact && this.reliable == reliable && pos == 0
    {
      this.disk, this.exact, this.reliable, len := disk, exact, reliable, |disk.data|;
      pos, cache, cacheStart := 0, [], 0;
    }

    /** An independent reader at the same position, with an empty cache. */
    method FreshClone() returns (r: SudoReader)
      requires Valid()
      ensures fresh(r) && r.Valid() && r.disk == disk && r.exact == exact && r.reliable == reliable && r.pos == pos
    {
      r := new SudoReader(disk, exact, reliable);
      r.pos := pos;
    }

    /** The oracle for one `sudo dd`: it fails, unless `reliable`, or returns a prefix of the
        range asked for, which is the whole range when `exact`. */
    method DdRange(off: nat, n: nat) returns (r: IoResult<seq<byte>>)
      requires Valid() && off + n <= len
      ensures r.Err? ==> r.error == DdFailed && !reliable
      ensures r.Ok? ==> |r.value| <= n && r.value == disk.data[off..off + |r.value|]
      ensures r.Ok? && exact ==> |r.value| == n
    {
      var failed: bool := *;
      var got: int := *;
      if failed && !reliable { return Err(DdFailed); }
      if exact || got < 0 || got > n { got := n; }
      return Ok(disk.data[off..off + got]);
    }

    /** A read at the end, into an empty buffer, or of few enough bytes from the cache runs no
        `dd`. */
    predicate Settled(cap: nat)
      reads this
    {
      pos >= len || cap == 0 || (Min(cap, len - pos) < BLOCK && cacheStart <= pos < cacheStart + |cache|)
    }

    /** Read into `buf[lo..hi]`: fails only by a failed `dd`. */
    method Read(buf: array<byte>, lo: nat, hi: nat) returns (r: IoResult<nat>)
      requires Valid() && lo <= hi <= buf.Length
      modifies this, buf
      ensures Valid()
      ensures r.Err? ==> r.error == DdFailed && pos == old(pos) && buf[..] == old(buf[..])
      ensures r.Err? ==> !reliable && !old(Settled(hi - lo))
      ensures r.Ok? ==> lo + r.value <= hi && pos == old(pos) + r.value
      ensures r.Ok? ==> ReadAt(disk.data, old(pos), hi - lo, exact, buf[lo..lo + r.value])
      ensures r.Ok? ==> buf[..lo] == old(buf[..lo]) && buf[lo + r.value..] == old(buf[lo + r.value..])
    {
      if pos >= len { return Ok(0); }
      var want := Min(hi - lo, len - pos);
      if want == 0 { return Ok(0); }
      if want >= BLOCK {
        r := ReadDirect(buf, lo, want);
      } else {
        r := ReadCached(buf, lo, want);
      }
    }

    /** Large read: fetch the exact range directly. */
    method ReadDirect(buf: array<byte>, lo: nat, want: nat) returns (r: IoResult<nat>)
      requires Valid() && lo + want <= buf.Length && pos + want <= len
      modifies this, buf
      ensures Valid()
      ensures r.Err? ==> !reliable && r.error == DdFailed && pos == old(pos) && buf[..] == old(buf[..])
      ensures r.Ok? ==> lo + r.value <= lo + want && pos == old(pos) + r.value
      ensures r.Ok? ==> ReadAt(disk.data, old(pos), want, exact, buf[lo..lo + r.value])
      ensures r.Ok? ==> buf[..lo] == old(buf[..lo]) && buf[lo + r.value..] == old(buf[lo + r.value..])
    {
      var d := DdRange(pos, want);
      if d.Err? { return Err(d.error); }
      var n := Min(|d.value|, want);
      Deliver(buf, lo, d.value[..n]);
      return Ok(n);
    }

    /** Hand over `src`, which is what the device holds at `pos`, and advance. */
    method Deliver(buf: array<byte>, lo: nat, src: seq<byte>)
      requires Valid() && lo + |src| <= buf.Length
      requires pos + |src| <= len && src == disk.data[pos..pos + |src|]
      modifies this`pos, buf
      ensures Valid() && pos == old(pos) + |src|
      ensures buf[lo..lo + |src|] == src
      ensures buf[..lo] == old(buf[..lo]) && buf[lo + |src|..] == old(buf[lo + |src|..])
    {
      Fill(buf, lo, src);
      pos := pos + |src|;
    }

    /** Small read: serve from the block cache, refilling on a miss. */
    method ReadCached(buf: array<byte>, lo: nat, want: nat) returns (r: IoResult<nat>)
      requires Valid() && lo + want <= buf.Length && pos + want <= len && pos < len
      modifies this, buf
      ensures Valid()
      ensures r.Err? ==> !reliable && !old(cacheStart <= pos < cacheStart + |cache|)
      ensures r.Err? ==> r.error == DdFailed && pos == old(pos) && buf[..] == old(buf[..])
      ensures r.Ok? ==> lo + r.value <= lo + want && pos == old(pos) + r.value
      ensures r.Ok? ==> ReadAt(disk.data, old(pos), want, exact, buf[lo..lo + r.value])
      ensures r.Ok? ==> buf[..lo] == old(buf[..lo]) && buf[lo + r.value..] == old(buf[lo + r.value..])
    {
      if !(cacheStart <= pos < cacheStart + |cache|) {
        var filled := Refill();
        if filled.Err? { return Err(filled.error); }
      }
      var src := FromCache(want);
      Deliver(buf, lo, src);
      return Ok(|src|);
    }

    /** What the cache holds from `pos` on, at most `want` bytes: what the device holds there. */
    function FromCache(want: nat): (src: seq<byte>)
      requires Valid() && cacheStart <= pos && pos + want <= len
      reads this, disk
      ensures |src| <= want && src == disk.data[pos..pos + |src|]
      ensures want > 0 && pos < cacheStart + |cache| ==> src != []
    {
      var offset := pos - cacheStart;
      if offset >= |cache| then []
      else
        var n := Min(|cache| - offset, want);
        SliceOfSlice(disk.data, cacheStart, cacheStart + |cache|, offset, offset + n);
        cache[offset..offset + n]
    }

    /** A BLOCK-aligned fetch of the block that holds `pos`. */
    method Refill() returns (r: IoResult<()>)
      requires Valid() && pos < len
      modifies this`cache, this`cacheStart
      ensures Valid() && (r.Ok? ==> cacheStart <= pos)
      ensures r.Err? ==> !reliable && r.error == DdFailed && cache == old(cache) && cacheStart == old(cacheStart)
      ensures r.Ok? && exact ==> pos < cacheStart + |cache|
    {
      var start := pos - pos % BLOCK;
      var span := Min(BLOCK, len - start);
      var d := DdRange(start, span);
      if d.Err? { return Err(d.error); }
      cache := d.value;
      cacheStart := start;
      return Ok(());
    }

    method Seek(from: SeekFrom) returns (r: IoResult<nat>)
      requires Valid() && from.InRange()
      modifies this`pos
      ensures Valid()
      ensures var t := from.Target(len, old(pos));
              if t < 0 then r == Err(NegativeSeek) && pos == old(pos)
              else r == Ok(t % U64) && pos == t % U64
    {
      var target := from.Target(len, pos);
      if target < 0 { return Err(NegativeSeek); }
      pos := target % U64;
      return Ok(pos);
    }
  }

  /** `copy_from_slice` into a range of a buffer. */
  method Fill(buf: array<byte>, lo: nat, src: seq<byte>)
    requires lo + |src| <= buf.Length
    modifies buf
    ensures buf[lo..lo + |src|] == src
    ensures buf[..lo] == old(buf[..lo]) && buf[lo + |src|..] == old(buf[lo + |src|..])
  {
    for i := 0 to |src|
      invariant forall k :: 0 <= k < i ==> buf[lo + k] == src[k]
      invariant buf[..lo] == old(buf[..lo]) && buf[lo + i..] == old(buf[lo + i..])
    {
      buf[lo + i] := src[i];
    }
  }

  // ---- A plain file: one open file description, shared by all its clones. ----

  class OpenFile {
    const disk: Disk
    /** Whether no system call on it fails. */
    const reliable: bool
    var offset: nat

    constructor (disk: Disk, reliable: bool)
      ensures this.disk == disk && this.reliable == reliable && offset == 0
    {
      this.disk, this.reliable, offset := disk, reliable, 0;
    }

    /** read(2): fails, or returns between one byte and what is asked for and left. */
    method Read(buf: array<byte>, lo: nat, hi: nat) returns (r: IoResult<nat>)
      requires lo <= hi <= buf.Length
      modifies this, buf
      ensures r.Err? ==> !reliable && r.error == OsFailed && offset == old(offset) && buf[..] == old(buf[..])
      ensures r.Ok? ==> lo + r.value <= hi && offset == old(offset) + r.value
      ensures r.Ok? ==> ReadAt(disk.data, old(offset), hi - lo, true, buf[lo..lo + r.value])
      ensures r.Ok? ==> buf[..lo] == old(buf[..lo]) && buf[lo + r.value..] == old(buf[lo + r.value..])
      ensures r.Ok? && r.value > 0 ==> offset <= |disk.data|
    {
      var failed: bool := *;
      var n: int := *;
      if failed && !reliable { return Err(OsFailed); }
      var most := if offset <= |disk.data| then Min(hi - lo, |disk.data| - offset) else 0;
      if n <= 0 || n > most { n := most; }
      var src := if n == 0 then [] else disk.data[offset..offset + n];
      Fill(buf, lo, src);
      assert buf[lo..lo + n] == src;
      offset := offset + n;
      return Ok(n);
    }

    /** lseek(2): moves to the exact target or changes nothing. */
    method Seek(from: SeekFrom) returns (r: IoResult<nat>)
      requires from.InRange()
      modifies this
      ensures r.Err? ==> offset == old(offset)
      ensures reliable && 0 <= from.Target(|disk.data|, old(offset)) < U64 ==> r.Ok?
      ensures r.Ok? ==> r.value == offset == from.Target(|disk.data|, old(offset)) < U64
    {
      var failed: bool := *;
      var target := from.Target(|disk.data|, offset);
      if (failed && !reliable) || target < 0 || target >= U64 { return Err(OsFailed); }
      offset := target;
      return Ok(target);
    }
  }

  // ---- Either kind of handle. ----

  datatype DevReader = File(f: OpenFile) | Sudo(s: SudoReader) {

    /** The objects a use of this handle changes: shared between `File` clones. */
    ghost function Moves(): set<object> {
      match this case File(f) => {f} case Sudo(s) => {s}
    }

    function Disk(): Disk {
      match this case File(f) => f.disk case Sudo(s) => s.disk
    }

    ghost function Data(): seq<byte>
      reads Disk()
    {
      Disk().data
    }

    ghost function Pos(): nat
      reads Moves()
    {
      match this case File(f) => f.offset case Sudo(s) => s.pos
    }

    predicate Exact() {
      match this case File(_) => true case Sudo(s) => s.exact
    }

    /** No operation on it fails for a reason of its own. */
    predicate Reliable() {
      match this case File(f) => f.reliable case Sudo(s) => s.reliable
    }

    ghost predicate Valid()
      reads Moves(), Disk()
    {
      && |Disk().data| < U64
      && match this case File(f) => f.offset < U64 case Sudo(s) => s.Valid()
    }

    /** A second handle onto the same device: the very same offset for a `File`, an
        independent one for a `sudo` reader. */
    method TryClone() returns (d: DevReader)
      requires Valid()
      ensures d.Valid() && d.Disk() == Disk() && d.Pos() == Pos() && d.Exact() == Exact() && d.Reliable() == Reliable()
      ensures File? ==> d == this
      ensures Sudo? ==> d.Sudo? && fresh(d.Moves())
    {
      match this
      case File(f) =>
        d := File(f);
      case Sudo(s) =>
        var c := s.FreshClone();
        d := Sudo(c);
    }

    method Read(buf: array<byte>, lo: nat, hi: nat) returns (r: IoResult<nat>)
      requires Valid() && lo <= hi <= buf.Length
      modifies Moves(), buf
      ensures Valid()
      ensures r.Err? ==> !Reliable() && r.error != UnexpectedEof && Pos() == old(Pos()) && buf[..] == old(buf[..])
      ensures r.Err? && Sudo? ==> !old(s.Settled(hi - lo))
      ensures r.Ok? ==> lo + r.value <= hi && Pos() == old(Pos()) + r.value
      ensures r.Ok? ==> ReadAt(Data(), old(Pos()), hi - lo, Exact(), buf[lo..lo + r.value])
      ensures r.Ok? ==> buf[..lo] == old(buf[..lo]) && buf[lo + r.value..] == old(buf[lo + r.value..])
    {
      match this
      case File(f) => r := f.Read(buf, lo, hi);
      case Sudo(s) => r := s.Read(buf, lo, hi);
    }

    /** A seek lands on its exact target whenever that lies in 0..2^64, and a failed one
        (always so for a negative target) changes nothing; for a target in 0..2^64 only a
        file's fails, and a reliable one's does not. */
    method Seek(from: SeekFrom) returns (r: IoResult<nat>)
      requires Valid() && from.InRange()
      modifies Moves()
      ensures Valid()
      ensures r.Err? ==> Pos() == old(Pos())
      ensures r.Ok? ==> r.value == Pos()
      ensures var t := from.Target(|Data()|, old(Pos()));
              (r.Ok? ==> t >= 0) && (r.Ok? && t < U64 ==> Pos() == t) && (r.Err? && Sudo? ==> t < 0) && (r.Err? && Reliable() ==> t < 0 || t >= U64)
    {
      match this
      case File(f) => r := f.Seek(from);
      case Sudo(s) => r := s.Seek(from);
    }

    /** `Read::read_exact`: fills all of `buf[..want]` or fails. */
    method ReadExact(buf: array<byte>, want: nat) returns (r: IoResult<()>)
      requires Valid() && want <= buf.Length
      modifies Moves(), buf
      ensures Valid() && buf[want..] == old(buf[want..])
      ensures r.Ok? ==> Pos() == old(Pos()) + want && want <= |Rest(Data(), old(Pos()))|
      ensures r.Ok? ==> buf[..want] == Rest(Data(), old(Pos()))[..want]
      ensures r == Err(UnexpectedEof) && Exact() ==> old(Pos()) + want > |Data()|
      ensures r.Err? && Reliable() ==> r.error == UnexpectedEof
    {
      ghost var data, start := Data(), Pos();
      var got := 0;
      while got < want
        invariant got <= want && Valid() && Data() == data && Pos() == start + got
        invariant got <= |Rest(data, start)| && buf[..got] == Rest(data, start)[..got]
        invariant buf[want..] == old(buf[want..])
      {
        ghost var before := buf[..];
        var n := Read(buf, got, want);
        if n.Err? { return Err(n.error); }
        Kept(before, buf[..], got, n.value, want);
        if n.value == 0 { return Err(UnexpectedEof); }
        RestGrows(data, start, got, n.value);
        got := got + n.value;
      }
      return Ok(());
    }
  }

  lemma RestGrows(data: seq<byte>, start: nat, got: nat, n: nat)
    requires start + got + n <= |data|
    ensures Rest(data, start)[..got] + data[start + got..start + got + n] == Rest(data, start)[..got + n]
  {}

  // ---- Any client: a handle driven by an arbitrary list of calls. ----

  datatype Call = DoSeek(from: SeekFrom) | DoRead(cap: nat)
  datatype Seen = SeekTo(pos: nat) | Bytes(bytes: seq<byte>) | Failed

  /** Where the cursor stands after one observation, and after a list of them. */
  function Moved(pos: nat, seen: Seen): nat {
    match seen case SeekTo(p) => p case Bytes(b) => pos + |b| case Failed => pos
  }

  function PosAfter(pos: nat, seen: seq<Seen>): nat
    decreases seen
  {
    if seen == [] then pos else PosAfter(Moved(pos, seen[0]), seen[1..])
  }

  /** What a handle is, as far as its behaviour as a cursor goes. */
  datatype Kind = Kind(exact: bool, sudo: bool, reliable: bool)

  function KindOf(r: DevReader): Kind { Kind(r.Exact(), r.Sudo?, r.Reliable()) }

  /** One observation is what the cursor allows at `pos`. A seek of a `sudo` reader or of a
      reliable file fails only out of range. A read of a reliable handle never fails, and of a
      `sudo` reader only where there is something to read. */
  ghost predicate Allowed(data: seq<byte>, kind: Kind, pos: nat, call: Call, seen: Seen) {
    match (call, seen)
    case (DoSeek(from), SeekTo(p)) =>
      var t := from.Target(|data|, pos);
      t >= 0 && (t < U64 ==> p == t)
    case (DoSeek(from), Failed) =>
      var t := from.Target(|data|, pos);
      (kind.sudo ==> t < 0) && (kind.reliable ==> t < 0 || t >= U64)
    case (DoRead(cap), Bytes(b)) => ReadAt(data, pos, cap, kind.exact, b)
    case (DoRead(cap), Failed) => !kind.reliable && (kind.sudo ==> pos < |data| && cap > 0)
    case _ => false
  }

  /** A run of calls is a run of the uncached cursor. */
  ghost predicate CursorRun(data: seq<byte>, kind: Kind, pos: nat, calls: seq<Call>, seen: seq<Seen>)
    decreases calls
  {
    |seen| == |calls| &&
    (calls == [] ||
     (Allowed(data, kind, pos, calls[0], seen[0]) &&
      CursorRun(data, kind, Moved(pos, seen[0]), calls[1..], seen[1..])))
  }

  method Perform(r: DevReader, call: Call) returns (seen: Seen)
    requires r.Valid() && (call.DoSeek? ==> call.from.InRange())
    modifies r.Moves()
    ensures r.Valid() && r.Pos() == Moved(old(r.Pos()), seen)
    ensures Allowed(r.Data(), KindOf(r), old(r.Pos()), call, seen)
  {
    match call
    case DoSeek(from) =>
      var t := r.Seek(from);
      seen := if t.Ok? then SeekTo(t.value) else Failed;
    case DoRead(cap) =>
      var buf := new byte[cap];
      var n := r.Read(buf, 0, cap);
      seen := if n.Ok? then Bytes(buf[0..n.value]) else Failed;
  }

  /** However seeks, large reads, small reads and failing `dd` calls interleave, the handle
      behaves as the uncached cursor over the device. */
  method Drive(r: DevReader, calls: seq<Call>) returns (seen: seq<Seen>)
    requires r.Valid() && forall c <- calls :: c.DoSeek? ==> c.from.InRange()
    modifies r.Moves()
    ensures r.Valid() && r.Pos() == PosAfter(old(r.Pos()), seen)
    ensures CursorRun(r.Data(), KindOf(r), old(r.Pos()), calls, seen)
    decreases calls
  {
    if calls == [] { return []; }
    var one := Perform(r, calls[0]);
    var rest := Drive(r, calls[1..]);
    seen := [one] + rest;
    assert seen[1..] == rest;
  }

  /** Bytes of a run in order. */
  function Gathered(seen: seq<Seen>): seq<byte> {
    if seen == [] then [] else (if seen[0].Bytes? then seen[0].bytes else []) + Gathered(seen[1..])
  }

  /** Reads alone, whatever their sizes and failures, walk the device without gap or overlap. */
  lemma {:induction false} ReadsWalk(data: seq<byte>, kind: Kind, pos: nat, calls: seq<Call>, seen: seq<Seen>)
    requires pos <= |data| && CursorRun(data, kind, pos, calls, seen)
    requires forall c <- calls :: c.DoRead?
    ensures pos <= PosAfter(pos, seen) <= |data|
    ensures Gathered(seen) == data[pos..PosAfter(pos, seen)]
    decreases calls
  {
    if calls != [] {
      assert calls[0].DoRead?;
      ReadsWalk(data, kind, Moved(pos, seen[0]), calls[1..], seen[1..]);
      SliceJoin(data, pos, Moved(pos, seen[0]), PosAfter(pos, seen));
    }
  }
}
