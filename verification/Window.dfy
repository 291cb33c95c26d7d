/** The read-only window of verify.rs over a byte range of a device (`SliceCursor`), through
    which the FAT driver mounts the ESP: a cursor over the window whatever else moves the
    handle underneath. */
module Window {
  import opened Text
  import opened Device

  /** The bytes of `data` in `[start, start + len)`; a range past the end is cut there. */
  function Slice(data: seq<byte>, start: nat, len: nat): seq<byte> {
    if start >= |data| then [] else data[start..Min(start + len, |data|)]
  }

  class SliceCursor {
    const file: DevReader
    const start: nat
    const len: nat
    var pos: nat

    constructor (file: DevReader, start: nat, len: nat)
      requires start + len < U64
      ensures this.file == file && this.start == start && this.len == len && pos == 0
    {
      this.file, this.start, this.len, pos := file, start, len, 0;
    }

    /** Nothing is said of the position of `file`: others may move it between calls. */
    ghost predicate Valid()
      reads this, file.Moves(), file.Disk()
    {
      file.Valid() && start + len < U64
    }

    ghost function Contents(): seq<byte>
      reads file.Disk()
    {
      Slice(file.Data(), start, len)
    }

    method Read(buf: array<byte>, lo: nat, hi: nat) returns (r: IoResult<nat>)
      requires Valid() && lo <= hi <= buf.Length
      modifies this, file.Moves(), buf
      ensures Valid()
      ensures r.Err? ==> !file.Reliable() && r.error != UnexpectedEof && pos == old(pos) && buf[..] == old(buf[..])
      ensures r.Ok? ==> lo + r.value <= hi && pos == old(pos) + r.value
      ensures r.Ok? ==> ReadAt(Contents(), old(pos), hi - lo, file.Exact(), buf[lo..lo + r.value])
      ensures r.Ok? ==> buf[..lo] == old(buf[..lo]) && buf[lo + r.value..] == old(buf[lo + r.value..])
    {
      hide DevReader.Valid;
      var remaining := if len >= pos then len - pos else 0;
      if remaining == 0 { return Ok(0); }
      var want := Min(hi - lo, remaining);
      r := ReadThere(buf, lo, lo + want);
      if r.Err? { return; }
      WindowRead(file.Data(), start, len, pos, hi - lo, file.Exact(), buf[lo..lo + r.value]);
      pos := pos + r.value;
    }

    /** One read of the device where the window stands, wherever the handle stood: the seek is
        absolute, and cannot overflow inside the window. */
    method ReadThere(buf: array<byte>, lo: nat, hi: nat) returns (r: IoResult<nat>)
      requires Valid() && pos < len && lo <= hi <= buf.Length
      modifies file.Moves(), buf
      ensures file.Valid() && pos == old(pos)
      ensures r.Err? ==> !file.Reliable() && r.error != UnexpectedEof && buf[..] == old(buf[..])
      ensures r.Ok? ==> lo + r.value <= hi && ReadAt(file.Data(), start + pos, hi - lo, file.Exact(), buf[lo..lo + r.value])
      ensures r.Ok? ==> buf[..lo] == old(buf[..lo]) && buf[lo + r.value..] == old(buf[lo + r.value..])
    {
      hide DevReader.Valid;
      assert start + pos < U64;
      var at := file.Seek(Start(start + pos));
      if at.Err? { return Err(OsFailed); }
      r := file.Read(buf, lo, hi);
    }

    method Seek(from: SeekFrom) returns (r: IoResult<nat>)
      requires Valid() && from.InRange()
      modifies this`pos
      ensures Valid()
      ensures var t := from.Target(len, old(pos));
              if t < 0 then r == Err(NegativeSeek) && pos == old(pos)
              else r == Ok(t % U64) && pos == t % U64
    {
      var target := from.Target(len, pos);
      if target < 0 { return Err(NegativeSeek); }
      pos := target % U64;
      return Ok(pos);
    }

    /** Reading to the end of the window terminates with exactly the bytes left in it. */
    method ReadToEnd(chunk: nat) returns (r: IoResult<seq<byte>>)
      requires Valid() && file.Exact() && chunk > 0
      modifies this, file.Moves()
      ensures Valid()
      ensures r.Ok? ==> r.value == Rest(Contents(), old(pos))
      ensures file.Reliable() ==> r.Ok?
    {
      ghost var all, from := Contents(), pos;
      var buf := new byte[chunk];
      var got: seq<byte> := [];
      while true
        invariant Valid() && Contents() == all && pos == from + |got| && fresh(buf)
        invariant |got| <= |Rest(all, from)| && got == Rest(all, from)[..|got|]
        decreases |Rest(all, from)| - |got|
      {
        var n := Read(buf, 0, chunk);
        if n.Err? { return Err(n.error); }
        if n.value == 0 { return Ok(got); }
        RestGrows(all, from, |got|, n.value);
        got := got + buf[0..n.value];
      }
    }
  }

  /** A read of the device that stays inside the window is a read of the window. */
  lemma WindowRead(data: seq<byte>, start: nat, len: nat, pos: nat, cap: nat, exact: bool, bytes: seq<byte>)
    requires pos < len
    requires ReadAt(data, start + pos, Min(cap, len - pos), exact, bytes)
    ensures ReadAt(Slice(data, start, len), pos, cap, exact, bytes)
  {
    if bytes != [] {
      SliceOfSlice(data, start, Min(start + len, |data|), pos, pos + |bytes|);
    }
  }
}
