/** The session log's files (logging.rs): created lazily and never over an existing file,
    removed or pruned at exit. Names and their lifecycle are exact, and so are the contents
    where no I/O call fails. */
module SessionLog {
  import opened Text
  import opened Stamp

  /** How many log files survive a keep. */
  const RETAIN: nat := 20

  datatype LogFile = LogFile(lines: seq<string>, mtime: nat)

  /** The logs directory. `stuck` are names whose removal fails; `readable` says that it can
      be listed at exit, `reliable` that creating it and files in it, and writing to those,
      never fails. */
  class Dir {
    var files: map<string, LogFile>
    const stuck: set<string>
    const readable: bool
    const reliable: bool

    constructor (files: map<string, LogFile>, stuck: set<string>, readable: bool, reliable: bool)
      ensures this.files == files && this.stuck == stuck && this.readable == readable && this.reliable == reliable
    {
      this.files, this.stuck, this.readable, this.reliable := files, stuck, readable, reliable;
    }

    /** `create_new`: fails on an existing name, and may fail otherwise. */
    method CreateNew(name: string) returns (ok: bool, taken: bool)
      modifies this
      ensures (taken <==> name in old(files)) && (reliable ==> ok == !taken)
      ensures ok ==> !taken && name in files && files == old(files)[name := files[name]] && files[name].lines == []
      ensures !ok ==> files == old(files)
    {
      taken := name in files;
      var denied: bool := *;
      var now: int := *;
      ok := !taken && (reliable || !denied);
      if ok { files := files[name := LogFile([], if now < 0 then 0 else now)]; }
    }

    /** Some of the lines reach an existing file, all of them where nothing fails. */
    method Append(name: string, lines: seq<string>)
      modifies this
      ensures files.Keys == old(files.Keys) && forall f <- files :: f != name ==> files[f] == old(files)[f]
      ensures name in files ==> exists k :: 0 <= k <= |lines| && files[name].lines == old(files)[name].lines + lines[..k]
      ensures reliable && name in files ==> files[name].lines == old(files)[name].lines + lines
    {
      var k: int := *;
      var now: int := *;
      if name !in files { return; }
      if reliable || k < 0 || k > |lines| { k := |lines|; }
      assert lines[..|lines|] == lines;
      files := files[name := LogFile(files[name].lines + lines[..k], if now < 0 then 0 else now)];
    }

    method Remove(name: string) returns (ok: bool)
      modifies this
      ensures ok <==> name in old(files) && name !in stuck
      ensures files == if ok then old(files) - {name} else old(files)
    {
      ok := name in files && name !in stuck;
      if ok { files := files - {name}; }
    }

    /** Every name, in no particular order. */
    method List() returns (names: seq<string>)
      ensures Distinct(names) && forall n :: n in names <==> n in files
    {
      names := [];
      var rest := files.Keys;
      while rest != {}
        invariant Distinct(names) && rest <= files.Keys
        invariant forall n :: n in names <==> n in files && n !in rest
        decreases rest
      {
        var n :| n in rest;
        names, rest := names + [n], rest - {n};
      }
    }
  }

  /** `Path::extension` is "log": a non-empty stem and the suffix. */
  predicate IsLog(name: string) { |name| > 4 && name[|name| - 4..] == ".log" }

  lemma IsLogIff(name: string)
    ensures IsLog(name) <==> exists stem :: stem != "" && name == stem + ".log"
  {
    if IsLog(name) { assert name == name[..|name| - 4] + ".log"; }
  }

  /** The n-th candidate name of an action at a stamp. */
  function Candidate(action: string, stamp: string, n: nat): string {
    if n == 0 then action + "-" + stamp + ".log" else action + "-" + stamp + "." + Dec(n) + ".log"
  }

  lemma CandidateIsLog(action: string, stamp: string, n: nat)
    ensures IsLog(Candidate(action, stamp, n))
  {
    var name := Candidate(action, stamp, n);
    assert |name| > 4;
    assert name[|name| - 4..] == ".log";
  }

  /** The candidates are all different. */
  lemma CandidatesDistinct(action: string, stamp: string, m: nat, n: nat)
    requires Candidate(action, stamp, m) == Candidate(action, stamp, n)
    ensures m == n
  {
    var front := action + "-" + stamp;
    ValDec(m);
    ValDec(n);
    hide Dec, Val;
    assert |Candidate(action, stamp, m)| == |Candidate(action, stamp, n)|;
    if m > 0 && n > 0 {
      assert Candidate(action, stamp, m) == (front + ".") + Dec(m) + ".log" && Candidate(action, stamp, n) == (front + ".") + Dec(n) + ".log";
      SameMiddle(front + ".", Dec(m), Dec(n), ".log");
    }
  }

  lemma SameMiddle(front: string, a: string, b: string, back: string)
    requires front + a + back == front + b + back
    ensures a == b
  {
    assert |a| == |b|;
    assert (front + a + back)[|front|..|front| + |a|] == a && (front + b + back)[|front|..|front| + |b|] == b;
  }

  /** The name is the first of the hundred candidates that was not taken. */
  ghost predicate FirstFree(name: string, action: string, stamp: string, taken: map<string, LogFile>) {
    exists n: nat :: n < 100 && name == Candidate(action, stamp, n) && AllTaken(action, stamp, n, taken)
  }

  predicate AllTaken(action: string, stamp: string, n: nat, taken: map<string, LogFile>) {
    forall k: nat :: k < n ==> Candidate(action, stamp, k) in taken
  }

  lemma TakenByName(action: string, stamp: string, a: map<string, LogFile>, b: map<string, LogFile>)
    requires a.Keys == b.Keys
    ensures forall n: nat :: AllTaken(action, stamp, n, a) <==> AllTaken(action, stamp, n, b)
    ensures forall name :: FirstFree(name, action, stamp, a) <==> FirstFree(name, action, stamp, b)
  {}

  // ---- What the files of a session hold. ----

  /** The session's files in order, and whether the last one is still written to. */
  datatype Book = Book(pages: seq<seq<string>>, open: bool)

  /** Each file's lines, with those still buffered. */
  function Pages(names: seq<string>, files: map<string, LogFile>, writer: Option<Writer>): seq<seq<string>>
    requires forall f <- names :: f in files
  {
    seq(|names|, i requires 0 <= i < |names| => Page(names[i], files, writer))
  }

  function Page(name: string, files: map<string, LogFile>, writer: Option<Writer>): seq<string>
    requires name in files
  {
    files[name].lines + if writer.Some? && writer.value.name == name then writer.value.pending else []
  }

  /** One more line in the open file. */
  function Noted(b: Book, line: string): Book {
    var n := |b.pages| - 1;
    if b.open && n >= 0 then b.(pages := b.pages[..n] + [b.pages[n] + [line]]) else b
  }

  /** The action's file, with its first line, if it could be created. */
  function Opened(b: Book, action: string, clock: int, began: bool): Book {
    if began then Book(b.pages + [["[start] " + action + " \U{2014} " + Timestamp(clock)]], true) else b.(open := false)
  }

  lemma FirstLine(b: Book, line: string)
    ensures Noted(Book(b.pages + [[]], true), line) == Book(b.pages + [[line]], true)
  {
    assert (b.pages + [[]])[..|b.pages|] == b.pages && [] + [line] == [line];
  }

  lemma PagesFlushed(names: seq<string>, before: map<string, LogFile>, after: map<string, LogFile>, w: Option<Writer>, v: Option<Writer>)
    requires (forall f <- names :: f in before) && before.Keys == after.Keys
    requires v.None? || (w.Some? && v.value == Writer(w.value.name, []))
    requires forall f <- before :: w.None? || f != w.value.name ==> after[f] == before[f]
    requires w.Some? && w.value.name in before ==> after[w.value.name].lines == before[w.value.name].lines + w.value.pending
    ensures Pages(names, after, v) == Pages(names, before, w)
  {
    forall i | 0 <= i < |names| ensures Pages(names, after, v)[i] == Pages(names, before, w)[i] {
      assert Page(names[i], after, v) == Page(names[i], before, w);
    }
  }

  lemma PagesNoted(names: seq<string>, files: map<string, LogFile>, w: Writer, line: string)
    requires (forall f <- names :: f in files) && Distinct(names) && names != [] && w.name == names[|names| - 1]
    ensures Book(Pages(names, files, Some(Writer(w.name, w.pending + [line]))), true)
         == Noted(Book(Pages(names, files, Some(w)), true), line)
  {
    var n := |names| - 1;
    assert forall i :: 0 <= i < n ==> names[i] != w.name;
    assert files[w.name].lines + (w.pending + [line]) == (files[w.name].lines + w.pending) + [line];
  }

  lemma PagesOpened(names: seq<string>, name: string, before: map<string, LogFile>, after: map<string, LogFile>)
    requires (forall f <- names :: f in before) && name !in before && name in after && after[name].lines == []
    requires forall f <- before :: f in after && after[f] == before[f]
    ensures Pages(names + [name], after, Some(Writer(name, []))) == Pages(names, before, None) + [[]]
  {
    assert after[name].lines + [] == [];
    forall i | 0 <= i < |names| ensures Page(names[i], after, Some(Writer(name, []))) == Page(names[i], before, None) {
      assert names[i] != name;
    }
    assert forall i :: 0 <= i < |names| ==> (names + [name])[i] == names[i];
  }

  datatype Writer = Writer(name: string, pending: seq<string>)

  class SessionLog {
    const dir: Option<Dir>
    /** The files written this session, in order. */
    var files: seq<string>
    var writer: Option<Writer>
    /** Lines were written since the last flush. */
    var dirty: bool
    /** What the directory held when the session began. */
    ghost const initial: map<string, LogFile>

    /** While nobody else touches the directory: it is the initial one plus exactly this
        session's distinct files, and the open file is the last of them. */
    ghost predicate Valid()
      reads this, if dir.Some? then {dir.value} else {}
    {
      && Distinct(files)
      && (dir.None? ==> files == [] && writer.None?)
      && (dir.Some? ==>
            && (forall f <- files :: f in dir.value.files && f !in initial)
            && (forall f <- dir.value.files :: f in files || f in initial)
            && (forall f <- initial :: f in dir.value.files && dir.value.files[f] == initial[f]))
      && (forall f <- files :: IsLog(f))
      && (writer.Some? ==> files != [] && writer.value.name == files[|files| - 1])
    }

    constructor (dir: Option<Dir>)
      ensures Valid() && this.dir == dir && files == [] && writer.None?
      ensures dir.Some? ==> initial == dir.value.files
    {
      this.dir, files, writer, dirty := dir, [], None, false;
      initial := if dir.Some? then dir.value.files else map[];
    }

    /** No I/O call on the directory fails. */
    predicate Reliable() { dir.Some? && dir.value.reliable }

    /** What this session's files hold, or will once the buffer is flushed. */
    ghost function Told(): Book
      reads this, if dir.Some? then {dir.value} else {}
      requires Valid()
    {
      Book(if dir.Some? then Pages(files, dir.value.files, writer) else [], writer.Some?)
    }

    /** `finish`: flush what can be flushed and close. */
    method Finish()
      requires Valid()
      modifies this`writer, if dir.Some? then {dir.value} else {}
      ensures Valid() && writer.None?
      ensures dir.Some? ==> dir.value.files.Keys == old(dir.value.files.Keys)
      ensures dir.Some? ==> forall f <- old(dir.value.files) ::
                old(writer.None? || writer.value.name != f) ==> dir.value.files[f] == old(dir.value.files)[f]
      ensures Reliable() ==> Told() == old(Told()).(open := false)
    {
      hide IsLog;
      ghost var before, w := if dir.Some? then dir.value.files else map[], writer;
      if writer.Some? { dir.value.Append(writer.value.name, writer.value.pending); }
      writer := None;
      if Reliable() { PagesFlushed(files, before, dir.value.files, w, None); }
    }

    /** `write_line`: buffered; a failed write closes the log, never the action. */
    method WriteLine(s: string)
      requires Valid()
      modifies this`writer, this`dirty
      ensures Valid() && (old(writer).None? ==> writer.None?)
      ensures writer.Some? ==> dirty && writer == Some(Writer(old(writer.value.name), old(writer.value.pending) + [s]))
      ensures writer.None? ==> dirty == old(dirty)
      ensures Reliable() ==> Told() == Noted(old(Told()), s)
    {
      var failed: bool := *;
      ghost var w := writer;
      if writer.Some? {
        if failed && !dir.value.reliable {
          writer := None;
        } else {
          writer, dirty := Some(Writer(writer.value.name, writer.value.pending + [s])), true;
        }
      }
      if Reliable() && w.Some? { PagesNoted(files, dir.value.files, w.value, s); }
    }

    /** `flush`: what was buffered goes to the open file, if anything was. */
    method Flush()
      requires Valid()
      modifies this`writer, this`dirty, if dir.Some? then {dir.value} else {}
      ensures Valid() && !dirty && (writer.Some? <==> old(writer).Some?)
      ensures !old(dirty) ==> writer == old(writer) && (dir.Some? ==> dir.value.files == old(dir.value.files))
      ensures dir.Some? ==> dir.value.files.Keys == old(dir.value.files.Keys)
      ensures dir.Some? ==> forall f <- old(dir.value.files) ::
                old(writer.None? || writer.value.name != f) ==> dir.value.files[f] == old(dir.value.files)[f]
      ensures old(dirty) && writer.Some? ==> writer.value.pending == []
      ensures Reliable() ==> Told() == old(Told())
    {
      hide IsLog;
      if !dirty { return; }
      ghost var before, w := if dir.Some? then dir.value.files else map[], writer;
      if writer.Some? {
        dir.value.Append(writer.value.name, writer.value.pending);
        writer := Some(Writer(writer.value.name, []));
      }
      dirty := false;
      if Reliable() { PagesFlushed(files, before, dir.value.files, w, writer); }
    }

    /** `begin`: a fresh file for a starting action, under the first free candidate name. */
    method Begin(action: string, clock: int) returns (path: Option<string>)
      requires Valid()
      modifies this, if dir.Some? then {dir.value} else {}
      ensures Valid()
      ensures path.Some? ==> files == old(files) + [path.value] && dir.Some? && path.value !in old(dir.value.files)
      ensures path.Some? ==> FirstFree(path.value, action, Timestamp(clock), old(dir.value.files))
      ensures path.None? ==> files == old(files) && writer.None?
      ensures dir.Some? ==> dir.value.files.Keys == old(dir.value.files.Keys) + if path.Some? then {path.value} else {}
      ensures dir.Some? ==> forall f <- old(dir.value.files) ::
                old(writer.None? || writer.value.name != f) ==> dir.value.files[f] == old(dir.value.files)[f]
      // It fails only where an I/O call fails or all hundred names are taken.
      ensures path.None? && Reliable() ==> AllTaken(action, Timestamp(clock), 100, old(dir.value.files))
      ensures Reliable() ==> Told() == Opened(old(Told()), action, clock, path.Some?)
    {
      hide Timestamp, Candidate, IsLog, Valid, Told, FirstFree, AllTaken;
      Finish();
      path := None;
      if dir.None? { return; }
      var madeDir: bool := *;
      ghost var before := dir.value.files;
      if madeDir || dir.value.reliable { path := OpenFirst(action, Timestamp(clock)); }
      TakenByName(action, Timestamp(clock), before, old(dir.value.files));
    }

    /** The first free candidate, with its first line. */
    method OpenFirst(action: string, stamp: string) returns (path: Option<string>)
      requires Valid() && writer.None? && dir.Some?
      modifies this, dir.value
      ensures Valid()
      ensures path.Some? ==> files == old(files) + [path.value] && path.value !in old(dir.value.files)
      ensures path.Some? ==> FirstFree(path.value, action, stamp, old(dir.value.files))
      ensures path.None? ==> files == old(files) && writer.None?
      ensures dir.value.files.Keys == old(dir.value.files.Keys) + if path.Some? then {path.value} else {}
      ensures forall f <- old(dir.value.files) :: dir.value.files[f] == old(dir.value.files)[f]
      ensures path.None? && Reliable() ==> AllTaken(action, stamp, 100, old(dir.value.files))
      ensures Reliable() ==>
                Told() == if path.Some? then Book(old(Told()).pages + [["[start] " + action + " \U{2014} " + stamp]], true) else old(Told())
    {
      hide Candidate, IsLog, Valid, Told;
      path := None;
      ghost var before, book := dir.value.files, Told();
      for n := 0 to 100
        invariant Valid() && writer.None? && files == old(files) && dir.value.files == before && Told() == book
        invariant AllTaken(action, stamp, n, before)
      {
        var name := Candidate(action, stamp, n);
        CandidateIsLog(action, stamp, n);
        var ok, taken := OpenNew(name);
        if ok {
          assert FirstFree(name, action, stamp, before);
          var line := "[start] " + action + " \U{2014} " + stamp;
          WriteLine(line);
          path := Some(name);
          FirstLine(book, line);
          return;
        }
        if !taken { return; }
      }
    }

    /** One candidate: created, recorded and opened, or left alone. */
    method OpenNew(name: string) returns (ok: bool, taken: bool)
      requires Valid() && writer.None? && dir.Some? && IsLog(name)
      modifies this, dir.value
      ensures Valid() && (taken <==> name in old(dir.value.files)) && (Reliable() ==> ok == !taken)
      ensures ok ==> !taken && files == old(files) + [name] && writer == Some(Writer(name, []))
      ensures ok ==> dir.value.files.Keys == old(dir.value.files.Keys) + {name}
      ensures !ok ==> files == old(files) && writer.None? && dir.value.files == old(dir.value.files)
      ensures forall f <- old(dir.value.files) :: f in dir.value.files && dir.value.files[f] == old(dir.value.files)[f]
      ensures Told() == if ok then Book(old(Told()).pages + [[]], true) else old(Told())
    {
      ghost var before, had := dir.value.files, files;
      ok, taken := dir.value.CreateNew(name);
      if ok {
        files := files + [name];
        writer := Some(Writer(name, []));
        PagesOpened(had, name, before, dir.value.files);
      }
    }

    /** `done`: the verdict line, then close. */
    method Done(ok: bool, msg: string)
      requires Valid()
      modifies this`writer, this`dirty, if dir.Some? then {dir.value} else {}
      ensures Valid() && writer.None?
      ensures dir.Some? ==> dir.value.files.Keys == old(dir.value.files.Keys)
      ensures dir.Some? ==> forall f <- old(dir.value.files) ::
                old(writer.None? || writer.value.name != f) ==> dir.value.files[f] == old(dir.value.files)[f]
      ensures Reliable() ==> Told() == Noted(old(Told()), if ok then "[done] OK: " + msg else "[done] FAIL: " + msg).(open := false)
    {
      hide Pages;
      assert "[done] " + (if ok then "OK: " else "FAIL: ") + msg == (if ok then "[done] OK: " + msg else "[done] FAIL: " + msg);
      WriteLine("[done] " + (if ok then "OK: " else "FAIL: ") + msg);
      Finish();
    }

    lemma ValidNames()
      requires Valid()
      ensures Distinct(files) && (dir.Some? ==> forall f <- files :: f in dir.value.files)
      ensures writer.Some? ==> dir.Some? && writer.value.name in files
      ensures dir.Some? && writer.None? ==> Told().pages == Pages(files, dir.value.files, None)
    {}

    /** What a session that began with this directory has added to it. */
    lemma ValidSays()
      requires Valid() && dir.Some?
      ensures OnlyAdded(initial, dir.value.files, files) && (writer.Some? ==> writer.value.name in files)
    {}

    /** `clean`: remove every file of this session, and nothing else. */
    method Clean()
      requires Valid()
      modifies this, if dir.Some? then {dir.value} else {}
      ensures files == [] && writer.None?
      ensures dir.Some? ==> forall f <- initial :: f in dir.value.files && dir.value.files[f] == initial[f]
      ensures dir.Some? && (forall f <- old(files) :: f !in dir.value.stuck) ==> Valid() && dir.value.files == initial
    {
      hide IsLog;
      Finish();
      hide Told, Pages;
      var i := 0;
      while i < |files|
        invariant i <= |files| && files == old(files) && writer.None?
        invariant dir.None? ==> files == []
        invariant dir.Some? ==> forall f <- initial :: f in dir.value.files && dir.value.files[f] == initial[f]
        invariant dir.Some? ==> forall f <- files :: f !in initial
        invariant dir.Some? ==> forall f <- dir.value.files :: f in initial || f in files[i..] || f in dir.value.stuck
        invariant dir.Some? ==> forall f <- dir.value.files :: f in initial || f in files
      {
        var _ := dir.value.Remove(files[i]);
        i := i + 1;
      }
      files := [];
    }

    /** `keep_and_prune`: with more than RETAIN logs in the directory, remove the oldest, and
        leave a trace in this session's last file if that one survived. A directory that does
        not exist or cannot be read is left alone. */
    method KeepAndPrune() returns (read: bool, ghost flushed: map<string, LogFile>)
      requires Valid()
      modifies this`writer, if dir.Some? then {dir.value} else {}
      ensures writer.None? && (read ==> dir.Some?) && (dir.Some? && dir.value.readable ==> read)
      ensures dir.Some? ==> OnlyFewer(old(dir.value.files), dir.value.files, files)
      ensures dir.Some? && !read ==> dir.value.files.Keys == old(dir.value.files.Keys)
      // Ages are those after the flush.
      ensures dir.Some? ==> OnlyFlushed(old(dir.value.files), flushed, old(writer))
      ensures read ==> Retained(flushed, dir.value.files.Keys, dir.value.stuck)
      ensures Reliable() ==> Kept(files, old(Told()).pages, dir.value.files, |old(dir.value.files)| - |dir.value.files|)
    {
      hide Retained, IsLog, Valid, Told, Pages, Kept, OnlyFlushed, OnlyFewer, Distinct;
      ValidNames();
      Finish();
      read, flushed := false, map[];
      if dir.None? { return; }
      flushed := dir.value.files;
      ValidNames();
      SameFlushed(old(dir.value.files), flushed, old(writer));
      FewerThen(old(dir.value.files), flushed, flushed, files, old(writer));
      var unreadable: bool := *;
      if unreadable && !dir.value.readable { PagesKept(files, flushed); return; }
      PruneAndTrace(dir.value, files);
      FewerThen(old(dir.value.files), flushed, dir.value.files, files, old(writer));
      read := true;
    }
  }

  lemma SameFlushed(before: map<string, LogFile>, flushed: map<string, LogFile>, open: Option<Writer>)
    requires before.Keys == flushed.Keys && forall f <- before :: open.None? || open.value.name != f ==> flushed[f] == before[f]
    ensures OnlyFlushed(before, flushed, open) && |flushed| == |before|
  {
    assert |before| == |before.Keys| && |flushed| == |flushed.Keys|;
  }

  lemma FewerThen(before: map<string, LogFile>, flushed: map<string, LogFile>, left: map<string, LogFile>, names: seq<string>, open: Option<Writer>)
    requires OnlyFlushed(before, flushed, open) && (open.Some? ==> open.value.name in names)
    ensures flushed.Keys == before.Keys && OnlyFewer(before, flushed, names)
    ensures OnlyFewer(flushed, left, names) ==> OnlyFewer(before, left, names)
  {}

  lemma PagesKept(names: seq<string>, files: map<string, LogFile>)
    requires forall f <- names :: f in files
    ensures Kept(names, Pages(names, files, None), files, 0)
  {}

  lemma RetainPrints()
    ensures Dec(RETAIN) == "20"
  {
    assert Dec(2) == "2" && Dec(20) == Dec(2) + "0";
  }

  /** Prune, and note the number of removals in this session's last file if it is left. */
  method PruneAndTrace(dir: Dir, names: seq<string>)
    requires Distinct(names) && forall f <- names :: f in dir.files
    modifies dir
    ensures Retained(old(dir.files), dir.files.Keys, dir.stuck)
    ensures OnlyFewer(old(dir.files), dir.files, names)
    ensures dir.reliable ==> Kept(names, Pages(names, old(dir.files), None), dir.files, |old(dir.files)| - |dir.files|)
  {
    hide Retained, IsLog, Dec;
    var pruned := Prune(dir);
    ghost var left := dir.files;
    RetainPrints();
    if pruned > 0 && names != [] {
      var line := "[retention] pruned " + Dec(pruned) + " older log file(s) \U{2014} newest " + Dec(RETAIN) + " kept";
      assert line == RetentionLine(pruned);
      dir.Append(names[|names| - 1], [line]);
      assert dir.files.Keys == left.Keys;
    }
    assert dir.files.Keys == left.Keys;
  }

  /** No file is new, and none but those named has another content. */
  predicate OnlyFewer(before: map<string, LogFile>, left: map<string, LogFile>, names: seq<string>) {
    forall f <- left :: f in before && (f !in names ==> left[f] == before[f])
  }

  /** The same files, and none but the open one with another content. */
  predicate OnlyFlushed(before: map<string, LogFile>, after: map<string, LogFile>, open: Option<Writer>) {
    after.Keys == before.Keys && forall f <- after :: open.None? || open.value.name != f ==> after[f] == before[f]
  }

  /** The directory is the initial one plus these new logs. */
  ghost predicate OnlyAdded(initial: map<string, LogFile>, files: map<string, LogFile>, names: seq<string>) {
    && Distinct(names) && (forall f <- names :: f !in initial && IsLog(f))
    && files.Keys == initial.Keys + Elements(names) && forall f <- initial :: f in files && files[f] == initial[f]
  }

  function RetentionLine(pruned: nat): string {
    "[retention] pruned " + Dec(pruned) + " older log file(s) \U{2014} newest 20 kept"
  }

  /** Each file that is left holds its page, and the last one the trace of the removals. */
  ghost predicate Kept(names: seq<string>, pages: seq<seq<string>>, left: map<string, LogFile>, pruned: int) {
    && |pages| == |names|
    && forall i :: 0 <= i < |names| && names[i] in left ==>
         left[names[i]].lines == pages[i] + if i == |names| - 1 && pruned > 0 then [RetentionLine(pruned)] else []
  }

  // ---- A whole session. ----

  datatype LogCall = Action(name: string, clock: int) | Line(text: string) | Verdict(ok: bool, msg: string) | Tick

  /** No earlier session used a name that one of these actions may try. */
  predicate Unused(calls: seq<LogCall>, initial: map<string, LogFile>) {
    forall c <- calls :: c.Action? ==> NoneTaken(c.name, Timestamp(c.clock), initial)
  }

  /** Exactly the actions began a file. */
  predicate AllBegan(calls: seq<LogCall>, began: seq<bool>) {
    |began| == |calls| && forall i :: 0 <= i < |calls| ==> began[i] == calls[i].Action?
  }

  predicate NoneTaken(action: string, stamp: string, initial: map<string, LogFile>) {
    forall n: nat :: n < 100 ==> Candidate(action, stamp, n) !in initial
  }

  /** All hundred names can then be taken only by a hundred files of this session. */
  lemma Crowded(log: SessionLog, action: string, stamp: string)
    requires log.Valid() && log.dir.Some?
    requires NoneTaken(action, stamp, log.initial) && AllTaken(action, stamp, 100, log.dir.value.files)
    ensures |log.files| >= 100
  {
    hide Candidate, IsLog;
    var names := seq(100, (n: nat) => Candidate(action, stamp, n));
    assert Distinct(names) by {
      forall m, n | 0 <= m < 100 && 0 <= n < 100 && names[m] == names[n] ensures m == n { CandidatesDistinct(action, stamp, m, n); }
    }
    ElementCount(names);
    ElementCount(log.files);
    SubsetSize(Elements(names), Elements(log.files));
  }

  /** What one call adds to the session's files. */
  function After(b: Book, call: LogCall, began: bool): Book {
    match call
    case Action(name, clock) => Opened(b, name, clock, began)
    case Line(text) => Noted(b, text)
    case Verdict(ok, msg) => Noted(b, if ok then "[done] OK: " + msg else "[done] FAIL: " + msg).(open := false)
    case Tick => b
  }

  function AfterAll(b: Book, calls: seq<LogCall>, began: seq<bool>): Book
    requires |began| == |calls|
  {
    if calls == [] then b
    else var n := |calls| - 1; After(AfterAll(b, calls[..n], began[..n]), calls[n], began[n])
  }

  /** One call of the interface on the log. */
  method Perform(log: SessionLog, call: LogCall) returns (began: bool)
    requires log.Valid()
    modifies log, if log.dir.Some? then {log.dir.value} else {}
    ensures log.Valid() && |log.files| == |old(log.files)| + (if began then 1 else 0) && old(log.files) <= log.files
    ensures began ==> call.Action?
    ensures log.Reliable() ==> log.Told() == After(old(log.Told()), call, began)
    ensures call.Action? && log.Reliable() && |old(log.files)| < 100 && NoneTaken(call.name, Timestamp(call.clock), log.initial) ==> began
  {
    hide SessionLog.Told, NoneTaken;
    began := false;
    if call.Action? && log.dir.Some? && NoneTaken(call.name, Timestamp(call.clock), log.initial)
       && AllTaken(call.name, Timestamp(call.clock), 100, log.dir.value.files) {
      Crowded(log, call.name, Timestamp(call.clock));
    }
    match call {
      case Action(name, clock) => var path := log.Begin(name, clock); began := path.Some?;
      case Line(text) => log.WriteLine(text);
      case Verdict(ok, msg) => log.Done(ok, msg);
      case Tick => log.Flush();
    }
  }

  lemma OneMore(b: Book, calls: seq<LogCall>, i: nat, began: seq<bool>, x: bool, initial: map<string, LogFile>)
    requires i < |calls| && |began| == i
    ensures AfterAll(b, calls[..i + 1], began + [x]) == After(AfterAll(b, calls[..i], began), calls[i], x)
    ensures AllBegan(calls[..i], began) && x == calls[i].Action? ==> AllBegan(calls[..i + 1], began + [x])
    ensures Unused(calls, initial) && calls[i].Action? ==> NoneTaken(calls[i].name, Timestamp(calls[i].clock), initial)
  {
    hide NoneTaken, After;
    assert calls[..i + 1][..i] == calls[..i] && (began + [x])[..i] == began;
  }

  /** Any calls in any order, whatever fails: files of earlier sessions are never touched, the
      files written are all new and distinct, and each is in the directory. Where nothing
      fails they hold exactly the lines they were told. */
  method Drive(log: SessionLog, calls: seq<LogCall>) returns (began: seq<bool>)
    requires log.Valid()
    modifies log, if log.dir.Some? then {log.dir.value} else {}
    ensures log.Valid() && old(log.files) <= log.files && |began| == |calls|
    ensures log.Reliable() ==> log.Told() == AfterAll(old(log.Told()), calls, began)
    ensures log.Reliable() && |old(log.files)| + |calls| <= 100 && Unused(calls, log.initial) ==> AllBegan(calls, began)
  {
    hide SessionLog.Valid, SessionLog.Told, NoneTaken;
    ghost var book := log.Told();
    assert AfterAll(book, [], []) == book && AllBegan([], []);
    hide After, AfterAll, AllBegan, Unused;
    began := [];
    for i := 0 to |calls|
      invariant log.Valid() && old(log.files) <= log.files && |began| == i && |log.files| <= |old(log.files)| + i
      invariant log.Reliable() && |old(log.files)| + |calls| <= 100 && Unused(calls, log.initial) ==> AllBegan(calls[..i], began)
      invariant log.Reliable() ==> log.Told() == AfterAll(book, calls[..i], began)
    {
      var b := Perform(log, calls[i]);
      OneMore(book, calls, i, began, b, log.initial);
      began := began + [b];
    }
    assert calls[..|calls|] == calls;
  }

  /** A session that ends with the default choice leaves the directory as it found it, if
      its files can be removed. */
  method CleanSession(dir: Dir, calls: seq<LogCall>)
    modifies dir
    ensures dir.stuck == {} ==> dir.files == old(dir.files)
    ensures forall f <- old(dir.files) :: f in dir.files && dir.files[f] == old(dir.files)[f]
  {
    var log := new SessionLog(Some(dir));
    var _ := Drive(log, calls);
    log.Clean();
  }

  /** Of the logs there were and those written, the newest 20 are left, and beyond them only what
      could not be removed; nothing else is deleted, and no content of an earlier session is
      touched. Ages are those at the exit, which for earlier files are the initial ones. */
  ghost predicate Newest20(initial: map<string, LogFile>, written: seq<string>, left: map<string, LogFile>, stuck: set<string>) {
    && (forall f <- initial :: !IsLog(f) ==> f in left)
    && (var kept := Min(|Logs(initial)| + |written|, 20); kept <= |Logs(left)| <= kept + |stuck|)
    && exists ages: map<string, LogFile> ::
         && Retained(ages, left.Keys, stuck) && ages.Keys == initial.Keys + Elements(written)
         && forall f <- initial :: ages[f] == initial[f]
  }

  /** What is left after a keep: all files if the directory could not be read, and no earlier
      file with another content. */
  ghost predicate Remain(read: bool, initial: map<string, LogFile>, written: seq<string>, left: map<string, LogFile>, stuck: set<string>) {
    && Distinct(written) && (forall f <- written :: f !in initial)
    && (forall f <- left :: f in written || (f in initial && left[f] == initial[f]))
    && if read then Newest20(initial, written, left, stuck) else left.Keys == initial.Keys + Elements(written)
  }

  /** A session that keeps its logs: where the directory can be read, the newest 20 are left, and
      otherwise all; and where nothing fails, each file that is left holds what it was told. */
  method KeepSession(dir: Dir, calls: seq<LogCall>) returns (read: bool, written: seq<string>, began: seq<bool>)
    modifies dir
    ensures (dir.readable ==> read) && |began| == |calls|
    ensures Remain(read, old(dir.files), written, dir.files, dir.stuck)
    ensures dir.reliable ==> Kept(written, AfterAll(Book([], false), calls, began).pages, dir.files,
                                  |old(dir.files)| + |written| - |dir.files|)
    ensures dir.reliable && |calls| <= 100 && Unused(calls, old(dir.files)) ==> AllBegan(calls, began)
  {
    hide Kept, Remain, AfterAll, Unused;
    var log := new SessionLog(Some(dir));
    assert log.Told() == Book([], false);
    hide SessionLog.Told;
    began := Drive(log, calls);
    SizeNow(log);
    hide SessionLog.Valid;
    read := KeepLogs(log, dir);
    written := log.files;
  }

  lemma SizeNow(log: SessionLog)
    requires log.Valid() && log.dir.Some?
    ensures |log.dir.value.files| == |log.initial| + |log.files|
  {
    hide IsLog;
    log.ValidSays();
    SizesAdd(log.initial, log.files, log.dir.value.files);
  }

  /** The exit of a session that keeps its logs. */
  method KeepLogs(log: SessionLog, dir: Dir) returns (read: bool)
    requires log.Valid() && log.dir == Some(dir)
    modifies log`writer, dir
    ensures (dir.readable ==> read) && Remain(read, log.initial, log.files, dir.files, dir.stuck)
    ensures dir.reliable ==> Kept(log.files, old(log.Told()).pages, dir.files, |old(dir.files)| - |dir.files|)
  {
    hide IsLog, Retained, Kept, Newest20, Remain, OnlyAdded, OnlyFewer, OnlyFlushed;
    log.ValidSays();
    ghost var before, open := dir.files, log.writer;
    hide SessionLog.Valid, SessionLog.Told, Logs, Elements;
    ghost var flushed;
    read, flushed := log.KeepAndPrune();
    Left(read, log.initial, log.files, before, open, flushed, dir.files, dir.stuck);
  }

  lemma Left(read: bool, initial: map<string, LogFile>, written: seq<string>, before: map<string, LogFile>, open: Option<Writer>,
             flushed: map<string, LogFile>, left: map<string, LogFile>, stuck: set<string>)
    requires OnlyAdded(initial, before, written) && (open.Some? ==> open.value.name in written)
    requires OnlyFlushed(before, flushed, open) && OnlyFewer(before, left, written)
    requires if read then Retained(flushed, left.Keys, stuck) else left.Keys == before.Keys
    ensures Remain(read, initial, written, left, stuck)
  {
    hide Retained, IsLog;
    if read {
      LogsGrow(initial, written, before);
      KeptCount(flushed, before, left, stuck);
    }
  }

  lemma SizesAdd(before: map<string, LogFile>, written: seq<string>, after: map<string, LogFile>)
    requires Distinct(written) && (forall f <- written :: f !in before) && after.Keys == before.Keys + Elements(written)
    ensures |after| == |before| + |written|
    ensures forall f :: f in after <==> f in before || f in written
  {
    ElementCount(written);
  }

  lemma KeptCount(flushed: map<string, LogFile>, before: map<string, LogFile>, left: map<string, LogFile>, stuck: set<string>)
    requires Retained(flushed, left.Keys, stuck) && flushed.Keys == before.Keys
    ensures var kept := Min(|Logs(before)|, RETAIN); kept <= |Logs(left)| <= kept + |stuck|
    ensures forall f <- before :: !IsLog(f) ==> f in left
  {
    RetainedCount(flushed, left.Keys, stuck);
    assert left.Keys <= flushed.Keys;
    LogsLeft(flushed, left);
    assert Logs(flushed) == Logs(before);
  }

  lemma LogsGrow(before: map<string, LogFile>, written: seq<string>, after: map<string, LogFile>)
    requires Distinct(written) && forall f <- written :: f !in before && IsLog(f)
    requires forall f :: f in after <==> f in before || f in written
    ensures |Logs(after)| == |Logs(before)| + |written|
  {
    ElementCount(written);
    assert Logs(after) == Logs(before) + Elements(written);
  }

  /** The logs left are those of the directory before that are still there. */
  lemma LogsLeft(before: map<string, LogFile>, left: map<string, LogFile>)
    requires left.Keys <= before.Keys
    ensures Logs(before) * left.Keys == Logs(left)
  {}

  /** List the logs, oldest first, and remove all but the newest RETAIN. */
  method Prune(dir: Dir) returns (pruned: nat)
    modifies dir
    ensures Retained(old(dir.files), dir.files.Keys, dir.stuck)
    ensures forall f <- dir.files :: f in old(dir.files) && dir.files[f] == old(dir.files)[f]
    ensures pruned == |old(dir.files)| - |dir.files|
  {
    hide Retained, IsLog, SortByTime, OnlyLogs, ByTime;
    ghost var before := dir.files;
    var names := dir.List();
    OnlyLogsSound(names);
    SortSound(OnlyLogs(names), before);
    var logs := SortByTime(OnlyLogs(names), dir.files);
    if |logs| <= RETAIN {
      RetainAll(before, logs, dir.stuck);
      return 0;
    }
    var cut := |logs| - RETAIN;
    pruned := RemoveAll(dir, logs[..cut]);
    RetainCut(before, logs, cut, dir.stuck);
    assert dir.files.Keys == before.Keys - (Elements(logs[..cut]) - dir.stuck);
  }

  method RemoveAll(dir: Dir, logs: seq<string>) returns (removed: nat)
    modifies dir
    ensures dir.files == old(dir.files) - (Elements(logs) - dir.stuck) && removed == |old(dir.files)| - |dir.files|
  {
    removed := 0;
    ghost var before := dir.files;
    for i := 0 to |logs|
      invariant dir.files == before - (Elements(logs[..i]) - dir.stuck) && removed == |before| - |dir.files|
    {
      ghost var now := dir.files;
      var ok := dir.Remove(logs[i]);
      RemovedOne(before, logs, i, dir.stuck);
      if ok {
        removed := removed + 1;
        OneLess(now, logs[i]);
      }
    }
    assert logs[..|logs|] == logs;
  }

  lemma OneLess(files: map<string, LogFile>, name: string)
    requires name in files
    ensures |files - {name}| == |files| - 1
  {
    assert (files - {name}).Keys == files.Keys - {name};
  }

  // ---- Retention. ----

  function Elements<T>(s: seq<T>): set<T> { set x | x in s }

  /** The logs of a directory. */
  function Logs(files: map<string, LogFile>): set<string> { set f | f in files && IsLog(f) }

  function OnlyLogs(names: seq<string>): seq<string> {
    if names == [] then [] else OnlyLogs(names[..|names| - 1]) + if IsLog(names[|names| - 1]) then [names[|names| - 1]] else []
  }

  /** Insert after everything at least as old: the sort is stable. */
  function Insert(s: seq<string>, x: string, files: map<string, LogFile>): seq<string>
    requires x in files && forall f <- s :: f in files
  {
    if s == [] then [x]
    else
      var n := |s| - 1;
      if files[s[n]].mtime <= files[x].mtime then s + [x]
      else assert forall f <- s[..n] :: f in s; Insert(s[..n], x, files) + [s[n]]
  }

  function SortByTime(names: seq<string>, files: map<string, LogFile>): (r: seq<string>)
    requires forall f <- names :: f in files
    ensures forall f :: f in r <==> f in names
    decreases |names|
  {
    if names == [] then []
    else
      var n := |names| - 1;
      var rest := SortByTime(names[..n], files);
      InsertElements(rest, names[n], files);
      Insert(rest, names[n], files)
  }

  lemma {:induction false} InsertElements(s: seq<string>, x: string, files: map<string, LogFile>)
    requires x in files && forall f <- s :: f in files
    ensures forall f :: f in Insert(s, x, files) <==> f in s || f == x
    ensures |Insert(s, x, files)| == |s| + 1
    decreases |s|
  {
    if s != [] {
      var n := |s| - 1;
      assert forall f <- s[..n] :: f in s;
      InsertElements(s[..n], x, files);
      assert forall f :: f in s <==> f in s[..n] || f == s[n];
    }
  }

  /** Oldest first. */
  predicate ByTime(s: seq<string>, files: map<string, LogFile>)
    requires forall f <- s :: f in files
  {
    forall i, j :: 0 <= i < j < |s| ==> files[s[i]].mtime <= files[s[j]].mtime
  }

  lemma {:induction false} InsertSorted(s: seq<string>, x: string, files: map<string, LogFile>)
    requires x in files && (forall f <- s :: f in files) && ByTime(s, files) && Distinct(s) && x !in s
    ensures forall f <- Insert(s, x, files) :: f in files
    ensures ByTime(Insert(s, x, files), files) && Distinct(Insert(s, x, files))
    decreases |s|
  {
    if s == [] || files[s[|s| - 1]].mtime <= files[x].mtime {
      NoneNewer(s, files);
      AddLast(s, x, files);
    } else {
      var n := |s| - 1;
      NoneNewer(s, files);
      hide ByTime, Distinct;
      InsertSorted(s[..n], x, files);
      InsertElements(s[..n], x, files);
      AddLast(Insert(s[..n], x, files), s[n], files);
    }
  }

  /** Of a list oldest first the last is the newest, and the rest is such a list too. */
  lemma NoneNewer(s: seq<string>, files: map<string, LogFile>)
    requires (forall f <- s :: f in files) && ByTime(s, files) && Distinct(s)
    ensures s != [] ==>
              var n := |s| - 1;
              (forall f <- s :: files[f].mtime <= files[s[n]].mtime) && (forall f <- s[..n] :: f in s)
              && s[n] !in s[..n] && ByTime(s[..n], files) && Distinct(s[..n])
  {}

  lemma AddLast(s: seq<string>, x: string, files: map<string, LogFile>)
    requires x in files && (forall f <- s :: f in files) && ByTime(s, files) && Distinct(s) && x !in s
    requires forall f <- s :: files[f].mtime <= files[x].mtime
    ensures (forall f <- s + [x] :: f in files) && ByTime(s + [x], files) && Distinct(s + [x])
  {}

  lemma {:induction false} SortSound(names: seq<string>, files: map<string, LogFile>)
    requires (forall f <- names :: f in files) && Distinct(names)
    ensures var r := SortByTime(names, files); ByTime(r, files) && Distinct(r)
    decreases |names|
  {
    if names != [] {
      var n := |names| - 1;
      SortSound(names[..n], files);
      InsertSorted(SortByTime(names[..n], files), names[n], files);
    }
  }

  lemma {:induction false} OnlyLogsSound(names: seq<string>)
    requires Distinct(names)
    ensures Distinct(OnlyLogs(names)) && forall f :: f in OnlyLogs(names) <==> f in names && IsLog(f)
    decreases |names|
  {
    if names != [] { OnlyLogsSound(names[..|names| - 1]); }
  }

  /** The logs beyond the newest RETAIN: as many as there are too many, none newer than a
      log not due. */
  ghost predicate Due(files: map<string, LogFile>, due: set<string>) {
    && due <= Logs(files) && |due| == |Logs(files)| - Min(|Logs(files)|, RETAIN)
    && forall f, g :: f in due && g in Logs(files) && g !in due ==> files[f].mtime <= files[g].mtime
  }

  /** After a keep: exactly the logs due for removal are gone, but for those that could not
      be removed. */
  ghost predicate Retained(before: map<string, LogFile>, left: set<string>, stuck: set<string>) {
    exists due :: Due(before, due) && left == before.Keys - (due - stuck)
  }

  /** So RETAIN logs are left or all of them, and beyond that only stuck ones; every other
      file is; and a removed log is no newer than one left that could be removed. */
  lemma RetainedCount(before: map<string, LogFile>, left: set<string>, stuck: set<string>)
    requires Retained(before, left, stuck)
    ensures var kept := Min(|Logs(before)|, RETAIN); kept <= |Logs(before) * left| <= kept + |stuck|
    ensures forall f <- before :: !IsLog(f) ==> f in left
    ensures forall f, g :: f in before && f !in left && g in Logs(before) && g in left && g !in stuck
              ==> before[f].mtime <= before[g].mtime
  {
    var due :| Due(before, due) && left == before.Keys - (due - stuck);
    assert Logs(before) * left == (Logs(before) - due) + (due * stuck);
    CountsLeft(Logs(before), due, stuck);
  }

  lemma CountsLeft(logs: set<string>, due: set<string>, stuck: set<string>)
    requires due <= logs
    ensures |logs| - |due| <= |(logs - due) + (due * stuck)| <= |logs| - |due| + |stuck|
  {
    assert logs == (logs - due) + due;
    SubsetSize(due * stuck, stuck);
  }

  lemma {:induction false} SubsetSize<T>(a: set<T>, b: set<T>)
    requires a <= b
    ensures |a| <= |b|
  {
    assert b == a + (b - a);
  }

  lemma {:induction false} ElementCount<T>(s: seq<T>)
    requires Distinct(s)
    ensures |Elements(s)| == |s|
    decreases |s|
  {
    if s != [] {
      var n := |s| - 1;
      ElementCount(s[..n]);
      assert Elements(s) == Elements(s[..n]) + {s[n]};
    }
  }

  lemma RemovedOne(files: map<string, LogFile>, logs: seq<string>, i: nat, stuck: set<string>)
    requires i < |logs|
    ensures files - (Elements(logs[..i + 1]) - stuck)
         == (if logs[i] in stuck then files - (Elements(logs[..i]) - stuck) else (files - (Elements(logs[..i]) - stuck)) - {logs[i]})
  {
    assert Elements(logs[..i + 1]) == Elements(logs[..i]) + {logs[i]};
  }

  lemma RetainAll(before: map<string, LogFile>, logs: seq<string>, stuck: set<string>)
    requires Distinct(logs) && |logs| <= RETAIN && forall f :: f in logs <==> f in Logs(before)
    ensures Retained(before, before.Keys, stuck)
  {
    ElementCount(logs);
    assert Elements(logs) == Logs(before);
    assert Due(before, {}) && before.Keys == before.Keys - ({} - stuck);
  }

  lemma Halves<T>(s: seq<T>, cut: nat)
    requires Distinct(s) && cut <= |s|
    ensures Elements(s[..cut]) !! Elements(s[cut..]) && Elements(s) == Elements(s[..cut]) + Elements(s[cut..])
  {
    assert s == s[..cut] + s[cut..];
    forall x | x in s[..cut] ensures x !in s[cut..] {
      var i :| 0 <= i < cut && s[i] == x;
      assert forall j :: 0 <= j < |s| - cut ==> s[cut..][j] == s[cut + j];
    }
  }

  lemma RetainCut(before: map<string, LogFile>, logs: seq<string>, cut: nat, stuck: set<string>)
    requires Distinct(logs) && (forall f :: f in logs <==> f in Logs(before)) && ByTime(logs, before)
    requires cut + RETAIN == |logs|
    ensures Retained(before, before.Keys - (Elements(logs[..cut]) - stuck), stuck)
  {
    ElementCount(logs);
    ElementCount(logs[..cut]);
    assert Elements(logs) == Logs(before);
    Halves(logs, cut);
    NewestLeft(before, logs, cut);
    assert Due(before, Elements(logs[..cut]));
  }

  lemma NewestLeft(before: map<string, LogFile>, logs: seq<string>, cut: nat)
    requires Distinct(logs) && (forall f :: f in logs <==> f in Logs(before)) && ByTime(logs, before) && cut <= |logs|
    ensures forall f, g :: f in Elements(logs[..cut]) && g in Logs(before) && g !in Elements(logs[..cut])
              ==> before[f].mtime <= before[g].mtime
  {
    Halves(logs, cut);
    forall f, g | f in Elements(logs[..cut]) && g in Logs(before) && g !in Elements(logs[..cut])
      ensures before[f].mtime <= before[g].mtime
    {
      var i :| 0 <= i < cut && logs[i] == f;
      var j :| 0 <= j < |logs| && logs[j] == g;
      assert j >= cut;
    }
  }
}
