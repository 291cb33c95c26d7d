/** The workbench partition grow of flash.rs (`grow_last_partition`): two sgdisk calls and
    two parses of its output, over a model of the partition table. */
module Gpt {
  import opened Text

  datatype Part = Part(start: nat, end: nat, typeGuid: string, uniqueGuid: string, name: string, attrs: nat)

  /** A table; `lastUsable` is where the backup header of the written image put it. */
  datatype Table = Table(parts: map<nat, Part>, firstUsable: nat, lastUsable: nat)

  predicate Overlap(a: Part, b: Part) { a.start <= b.end && b.start <= a.end }

  ghost predicate WellFormed(t: Table) {
    && (forall n <- t.parts :: t.firstUsable <= t.parts[n].start <= t.parts[n].end <= t.lastUsable)
    && (forall m, n :: m in t.parts && n in t.parts && m != n ==> !Overlap(t.parts[m], t.parts[n]))
  }

  // ---- sgdisk, as far as the grow uses it. ----

  datatype Op = MoveSecondHeader | Delete(n: nat) | New(n: nat, start: nat)
              | TypeCode(n: nat, guid: string) | PartGuid(n: nat, guid: string) | ChangeName(n: nat, name: string)

  predicate Taken(t: Table, x: nat) { exists n <- t.parts :: t.parts[n].start <= x <= t.parts[n].end }

  /** The last sector of the free run that starts at `s`. */
  function FreeEnd(t: Table, s: nat): nat
    decreases t.lastUsable - s
  {
    if s >= t.lastUsable || Taken(t, s + 1) then s else FreeEnd(t, s + 1)
  }

  /** One operation on the table in memory; None is an error. The backup header and its
      128 entries take the last 33 sectors of the device. */
  function Apply(t: Table, sectors: nat, op: Op): Option<Table> {
    match op
    case MoveSecondHeader => if sectors < 34 then None else Some(t.(lastUsable := sectors - 34))
    case Delete(n) => if n in t.parts then Some(t.(parts := t.parts - {n})) else None
    case New(n, start) =>
      if n in t.parts || n == 0 || !(t.firstUsable <= start <= t.lastUsable) || Taken(t, start) then None
      else Some(t.(parts := t.parts[n := Part(start, FreeEnd(t, start), "8300", "random", "", 0)]))
    case TypeCode(n, guid) => if n in t.parts then Some(t.(parts := t.parts[n := t.parts[n].(typeGuid := guid)])) else None
    case PartGuid(n, guid) => if n in t.parts then Some(t.(parts := t.parts[n := t.parts[n].(uniqueGuid := guid)])) else None
    case ChangeName(n, name) => if n in t.parts then Some(t.(parts := t.parts[n := t.parts[n].(name := name)])) else None
  }

  function ApplyAll(t: Table, sectors: nat, ops: seq<Op>): Option<Table>
    decreases ops
  {
    if ops == [] then Some(t)
    else match Apply(t, sectors, ops[0]) case None => None case Some(u) => ApplyAll(u, sectors, ops[1..])
  }

  // ---- The parses. ----

  const U32_MAX: nat := 0xFFFF_FFFF
  const U64_MAX: nat := 0xFFFF_FFFF_FFFF_FFFF

  /** A table row is a line whose first token is a number. */
  function RowNumber(line: string): Option<nat> {
    match FirstToken(line) case None => None case Some(t) => ParseUnsigned(t, U32_MAX)
  }

  /** `last_partition_number`: the largest row number. */
  function LastPartitionNumber(lines: seq<string>): Option<nat> {
    if lines == [] then None
    else
      var rest := LastPartitionNumber(lines[1..]);
      match RowNumber(lines[0])
      case None => rest
      case Some(n) => Some(if rest.Some? && rest.value > n then rest.value else n)
  }

  /** The trimmed text after `tag` on the first line that starts with it. */
  function After(lines: seq<string>, tag: string): Option<string> {
    if lines == [] then None
    else
      var l := Trim(lines[0]);
      if HasPrefix(l, tag) then Some(Trim(l[|tag|..])) else After(lines[1..], tag)
  }

  datatype PartInfo = PartInfo(firstSector: nat, typeGuid: string, uniqueGuid: string, name: string)

  predicate IsQuote(c: char) { c == '\'' }

  function TrimQuotes(s: string): string { TrimEnd(TrimStart(s, IsQuote), IsQuote) }

  const TYPE_LABEL := "Partition GUID code:"
  const UNIQUE_LABEL := "Partition unique GUID:"
  const FIRST_LABEL := "First sector:"
  const NAME_LABEL := "Partition name:"

  function FirstOf(s: Option<string>): Option<string> {
    if s.None? then None else FirstToken(s.value)
  }

  /** `partition_info`. */
  function PartitionInfo(lines: seq<string>): Option<PartInfo> {
    var typeGuid := FirstOf(After(lines, TYPE_LABEL));
    var uniqueGuid := After(lines, UNIQUE_LABEL);
    var first := FirstOf(After(lines, FIRST_LABEL));
    var sector := if first.None? then None else ParseUnsigned(first.value, U64_MAX);
    var name := After(lines, NAME_LABEL);
    if typeGuid.None? || uniqueGuid.None? || sector.None? then None
    else Some(PartInfo(sector.value, typeGuid.value, uniqueGuid.value, if name.None? then "" else TrimQuotes(name.value)))
  }

  // ---- What sgdisk prints. ----

  datatype Line = Header(text: string) | Row(pad: nat, n: nat, rest: string)

  function Spaces(k: nat): string { if k == 0 then [] else [' '] + Spaces(k - 1) }

  function Render(line: Line): string {
    match line case Header(text) => text case Row(pad, n, rest) => Spaces(pad) + Dec(n) + [' '] + rest
  }

  function RenderAll(lines: seq<Line>): seq<string> {
    if lines == [] then [] else [Render(lines[0])] + RenderAll(lines[1..])
  }

  /** `sgdisk -p` lists every partition in a row of its own, and nothing else numeric. */
  ghost predicate Lists(lines: seq<Line>, parts: map<nat, Part>) {
    && (forall l <- lines :: l.Header? ==> RowNumber(l.text).None?)
    && (forall l <- lines :: l.Row? ==> l.n in parts && l.n <= U32_MAX)
    && (forall n <- parts :: exists l <- lines :: l.Row? && l.n == n)
  }

  /** `sgdisk --info` of a partition; `size` and the parenthesised remarks are free text. */
  function InfoLines(p: Part, typeName: string, at: string, size: string): seq<string> {
    ["Partition GUID code: " + p.typeGuid + " (" + typeName + ")",
     "Partition unique GUID: " + p.uniqueGuid,
     "First sector: " + Dec(p.start) + " (at " + at + ")",
     "Last sector: " + Dec(p.end) + size,
     "Partition size: " + size,
     "Attribute flags: " + size,
     "Partition name: '" + p.name + "'"]
  }

  /** The labelled lines, as the parse takes them apart. */
  lemma InfoLabels(p: Part, typeName: string, at: string, size: string)
    ensures var lines := InfoLines(p, typeName, at, size);
            && lines[0] == TYPE_LABEL + " " + (p.typeGuid + (" (" + typeName + ")"))
            && lines[1] == UNIQUE_LABEL + " " + p.uniqueGuid
            && lines[2] == FIRST_LABEL + " " + (Dec(p.start) + (" (at " + at + ")"))
            && lines[6] == NAME_LABEL + " " + ("'" + p.name + "'")
  {
    hide Dec;
  }

  // ---- The parses read back what sgdisk printed. ----

  lemma {:induction false} TrimStartSpaces(k: nat, s: string)
    ensures TrimStart(Spaces(k) + s, IsSpace) == TrimStart(s, IsSpace)
  {
    if k == 0 {
      assert Spaces(0) + s == s;
    } else {
      TrimStartSpaces(k - 1, s);
      assert (Spaces(k) + s)[1..] == Spaces(k - 1) + s;
    }
  }

  lemma DigitsAreNotSpace(n: nat)
    ensures forall c <- Dec(n) :: !IsSpace(c)
  {
    assert forall c <- Dec(n) :: IsDigit(c);
  }

  lemma RowParses(pad: nat, n: nat, rest: string)
    requires n <= U32_MAX
    ensures RowNumber(Render(Row(pad, n, rest))) == Some(n)
  {
    hide Spaces, TrimStart, Token, Dec, ParseUnsigned;
    var tail := Dec(n) + ([' '] + rest);
    assert Render(Row(pad, n, rest)) == Spaces(pad) + tail;
    TrimStartSpaces(pad, tail);
    DigitsAreNotSpace(n);
    FirstWord(Dec(n), [' '] + rest);
    assert FirstToken(Spaces(pad) + tail) == FirstToken(tail);
    ParseDec(n, U32_MAX);
  }

  /** The number read is the largest partition number. */
  lemma {:induction false} LastNumberMax(lines: seq<Line>, parts: map<nat, Part>, all: seq<Line>)
    requires Lists(all, parts) && forall l <- lines :: l in all
    ensures var r := LastPartitionNumber(RenderAll(lines));
            && (r.Some? ==> r.value in parts)
            && (forall l <- lines :: l.Row? ==> r.Some? && l.n <= r.value)
  {
    if lines != [] {
      LastNumberMax(lines[1..], parts, all);
      var l := lines[0];
      assert l in all;
      if l.Row? { RowParses(l.pad, l.n, l.rest); }
      assert RenderAll(lines)[0] == Render(l) && RenderAll(lines)[1..] == RenderAll(lines[1..]);
      assert forall k <- lines :: k == l || k in lines[1..];
    }
  }

  lemma LastNumber(lines: seq<Line>, parts: map<nat, Part>)
    requires Lists(lines, parts) && parts != map[]
    ensures var r := LastPartitionNumber(RenderAll(lines));
            r.Some? && r.value in parts && forall n <- parts :: n <= r.value
  {
    LastNumberMax(lines, parts, lines);
    var n :| n in parts;
    assert exists l <- lines :: l.Row? && l.n == n;
  }

  lemma {:induction false} TrimEndIsPrefix(s: string, drop: char -> bool)
    ensures TrimEnd(s, drop) <= s
  {
    if s != [] && drop(s[|s| - 1]) { TrimEndIsPrefix(s[..|s| - 1], drop); }
  }

  /** A line that does not start with the tag is passed over. */
  lemma AfterSkip(lines: seq<string>, tag: string, k: nat)
    requires lines != [] && lines[0] != [] && !IsSpace(lines[0][0])
    requires k < |tag| && (k < |lines[0]| ==> lines[0][k] != tag[k])
    ensures After(lines, tag) == After(lines[1..], tag)
  {
    TrimEndIsPrefix(lines[0], IsSpace);
    assert TrimStart(lines[0], IsSpace) == lines[0];
  }

  lemma SkipAt(lines: seq<string>, tag: string, i: nat, k: nat)
    requires i < |lines| && lines[i] != [] && !IsSpace(lines[i][0])
    requires k < |tag| && (k < |lines[i]| ==> lines[i][k] != tag[k])
    ensures After(lines[i..], tag) == After(lines[i + 1..], tag)
  {
    AfterSkip(lines[i..], tag, k);
    assert lines[i..][1..] == lines[i + 1..];
  }

  /** A line `tag value` gives the value. */
  lemma AfterHit(lines: seq<string>, tag: string, v: string)
    requires lines != [] && lines[0] == tag + " " + v
    requires tag != [] && v != [] && !IsSpace(tag[0]) && !IsSpace(v[0]) && !IsSpace(v[|v| - 1])
    ensures After(lines, tag) == Some(v)
  {
    var l := lines[0];
    assert l[0] == tag[0] && l[|l| - 1] == v[|v| - 1];
    assert Trim(l) == l;
    assert l[..|tag|] == tag;
    var r := l[|tag|..];
    assert r == " " + v && r[1..] == v;
    assert TrimStart(r, IsSpace) == TrimStart(v, IsSpace) == v;
    assert Trim(r) == v;
  }

  /** What a GUID is to these parses: a word. */
  predicate Word(s: string) { s != [] && forall c <- s :: !IsSpace(c) }

  lemma FirstWord(w: string, rest: string)
    requires Word(w) && rest != [] && IsSpace(rest[0])
    ensures FirstToken(w + rest) == Some(w)
  {
    assert (w + rest)[0] == w[0];
    TokenThenSpace(w, rest);
  }

  lemma TypeParses(p: Part, typeName: string, at: string, size: string)
    requires Word(p.typeGuid)
    ensures FirstOf(After(InfoLines(p, typeName, at, size), TYPE_LABEL)) == Some(p.typeGuid)
  {
    var rest := " (" + typeName + ")";
    var v := p.typeGuid + rest;
    var lines := InfoLines(p, typeName, at, size);
    InfoLabels(p, typeName, at, size);
    assert v[0] == p.typeGuid[0] && v[|v| - 1] == ')';
    AfterHit(lines, TYPE_LABEL, v);
    FirstWord(p.typeGuid, rest);
  }

  lemma UniqueParses(p: Part, typeName: string, at: string, size: string)
    requires Word(p.uniqueGuid)
    ensures After(InfoLines(p, typeName, at, size), UNIQUE_LABEL) == Some(p.uniqueGuid)
  {
    var lines := InfoLines(p, typeName, at, size);
    InfoLabels(p, typeName, at, size);
    AfterSkip(lines, UNIQUE_LABEL, 10);
    AfterHit(lines[1..], UNIQUE_LABEL, p.uniqueGuid);
  }

  lemma SectorParses(p: Part, typeName: string, at: string, size: string)
    requires p.start <= U64_MAX
    ensures var s := FirstOf(After(InfoLines(p, typeName, at, size), FIRST_LABEL));
            s.Some? && ParseUnsigned(s.value, U64_MAX) == Some(p.start)
  {
    var lines := InfoLines(p, typeName, at, size);
    InfoLabels(p, typeName, at, size);
    AfterSkip(lines, FIRST_LABEL, 0);
    AfterSkip(lines[1..], FIRST_LABEL, 0);
    var rest := " (at " + at + ")";
    var v := Dec(p.start) + rest;
    assert v[0] == Dec(p.start)[0] && v[|v| - 1] == ')';
    DigitsAreNotSpace(p.start);
    AfterHit(lines[2..], FIRST_LABEL, v);
    assert lines[1..][1..] == lines[2..];
    FirstWord(Dec(p.start), rest);
    ParseDec(p.start, U64_MAX);
  }

  lemma NameSkips(lines: seq<string>, p: Part, typeName: string, at: string, size: string)
    requires lines == InfoLines(p, typeName, at, size)
    ensures After(lines, NAME_LABEL) == After(lines[3..], NAME_LABEL)
  {
    assert lines == lines[0..];
    SkipAt(lines, NAME_LABEL, 0, 10);
    SkipAt(lines, NAME_LABEL, 1, 10);
    SkipAt(lines, NAME_LABEL, 2, 0);
  }

  lemma NameLine(p: Part, typeName: string, at: string, size: string)
    ensures After(InfoLines(p, typeName, at, size), NAME_LABEL) == Some("'" + p.name + "'")
  {
    var lines := InfoLines(p, typeName, at, size);
    hide After, Trim;
    NameSkips(lines, p, typeName, at, size);
    SkipAt(lines, NAME_LABEL, 3, 0);
    SkipAt(lines, NAME_LABEL, 4, 10);
    SkipAt(lines, NAME_LABEL, 5, 0);
    var v := "'" + p.name + "'";
    InfoLabels(p, typeName, at, size);
    AfterHit(lines[6..], NAME_LABEL, v);
  }

  lemma {:induction false} QuotedStart(s: string)
    ensures TrimEnd(TrimStart(s + "'", IsQuote), IsQuote) == TrimQuotes(s)
  {
    if s == [] {
      assert s + "'" == "'" && TrimStart("'", IsQuote) == [];
    } else if IsQuote(s[0]) {
      QuotedStart(s[1..]);
      assert (s + "'")[1..] == s[1..] + "'";
    } else {
      var q := s + "'";
      assert TrimStart(q, IsQuote) == q && q[..|q| - 1] == s;
    }
  }

  /** Stripping the printed quotes also strips the name's own outer quotes. */
  lemma NameParses(name: string)
    ensures TrimQuotes("'" + name + "'") == TrimQuotes(name)
  {
    QuotedStart(name);
    var q := "'" + name + "'";
    assert q[1..] == name + "'";
  }

  lemma {:induction false} TrimStartShrinks(s: string, drop: char -> bool)
    ensures |TrimStart(s, drop)| <= |s|
  {
    if s != [] && drop(s[0]) { TrimStartShrinks(s[1..], drop); }
  }

  /** A name survives exactly when it neither starts nor ends with a quote. */
  lemma NameKeptIff(name: string)
    ensures TrimQuotes(name) == name <==> name == [] || (!IsQuote(name[0]) && !IsQuote(name[|name| - 1]))
  {
    if name != [] {
      TrimStartShrinks(name[1..], IsQuote);
      TrimEndIsPrefix(TrimStart(name, IsQuote), IsQuote);
      TrimEndIsPrefix(name[..|name| - 1], IsQuote);
    }
  }

  /** The whole parse: everything but outer quotes of the name comes back. */
  lemma InfoRoundTrip(p: Part, typeName: string, at: string, size: string)
    requires Word(p.typeGuid) && Word(p.uniqueGuid) && p.start <= U64_MAX
    ensures PartitionInfo(InfoLines(p, typeName, at, size))
         == Some(PartInfo(p.start, p.typeGuid, p.uniqueGuid, TrimQuotes(p.name)))
  {
    TypeParses(p, typeName, at, size);
    UniqueParses(p, typeName, at, size);
    SectorParses(p, typeName, at, size);
    NameLine(p, typeName, at, size);
    NameParses(p.name);
  }

  // ---- The grow. ----

  lemma {:induction false} FreeRun(t: Table, s: nat)
    requires s <= t.lastUsable
    ensures s <= FreeEnd(t, s) <= t.lastUsable
    ensures forall x :: s < x <= FreeEnd(t, s) ==> !Taken(t, x)
    ensures FreeEnd(t, s) == t.lastUsable || Taken(t, FreeEnd(t, s) + 1)
    decreases t.lastUsable - s
  {
    if s < t.lastUsable && !Taken(t, s + 1) { FreeRun(t, s + 1); }
  }

  function Recreate(n: nat, info: PartInfo): seq<Op> {
    [Delete(n), New(n, info.firstSector), TypeCode(n, info.typeGuid), PartGuid(n, info.uniqueGuid), ChangeName(n, info.name)]
  }

  /** The table after both sgdisk calls. */
  function Grown(t: Table, sectors: nat, n: nat, info: PartInfo): Table
    requires sectors >= 34
  {
    var moved := t.(lastUsable := sectors - 34);
    var rest := moved.(parts := moved.parts - {n});
    rest.(parts := rest.parts[n := Part(info.firstSector, FreeEnd(rest, info.firstSector),
                                        info.typeGuid, info.uniqueGuid, info.name, 0)])
  }

  /** The second call, operation by operation. */
  lemma RecreateApplies(t: Table, sectors: nat, n: nat, info: PartInfo)
    requires n in t.parts && n > 0 && t.firstUsable <= info.firstSector <= t.lastUsable
    requires !Taken(t.(parts := t.parts - {n}), info.firstSector)
    ensures var rest := t.(parts := t.parts - {n});
            ApplyAll(t, sectors, Recreate(n, info)) ==
            Some(rest.(parts := rest.parts[n := Part(info.firstSector, FreeEnd(rest, info.firstSector),
                                                     info.typeGuid, info.uniqueGuid, info.name, 0)]))
  {
    var ops := Recreate(n, info);
    var rest := t.(parts := t.parts - {n});
    var p := Part(info.firstSector, FreeEnd(rest, info.firstSector), "8300", "random", "", 0);
    var t1 := rest.(parts := rest.parts[n := p]);
    var t2 := t1.(parts := t1.parts[n := p.(typeGuid := info.typeGuid)]);
    var t3 := t2.(parts := t2.parts[n := p.(typeGuid := info.typeGuid, uniqueGuid := info.uniqueGuid)]);
    ApplyStep(t, sectors, ops, rest);
    ApplyStep(rest, sectors, ops[1..], t1);
    ApplyStep(t1, sectors, ops[2..], t2);
    ApplyStep(t2, sectors, ops[3..], t3);
    assert ops[1..][1..] == ops[2..] && ops[2..][1..] == ops[3..] && ops[3..][1..] == ops[4..] && ops[4..][1..] == [];
    var done := t3.(parts := t3.parts[n := p.(typeGuid := info.typeGuid, uniqueGuid := info.uniqueGuid, name := info.name)]);
    ApplyStep(t3, sectors, ops[4..], done);
    assert done.parts == rest.parts[n := done.parts[n]];
  }

  lemma ApplyStep(t: Table, sectors: nat, ops: seq<Op>, u: Table)
    requires ops != [] && Apply(t, sectors, ops[0]) == Some(u)
    ensures ApplyAll(t, sectors, ops) == ApplyAll(u, sectors, ops[1..])
  {}

  /** The start of a partition is free once the partition is deleted. */
  lemma StartIsFree(t: Table, n: nat)
    requires WellFormed(t) && n in t.parts
    ensures !Taken(t.(parts := t.parts - {n}), t.parts[n].start)
  {
    var rest := t.(parts := t.parts - {n});
    forall m | m in rest.parts ensures !(rest.parts[m].start <= t.parts[n].start <= rest.parts[m].end) {
      assert !Overlap(t.parts[m], t.parts[n]);
    }
  }

  /** No partition lies behind this one on the disk, whatever its number. */
  ghost predicate LastOnDisk(t: Table, n: nat)
    requires n in t.parts
  {
    forall m <- t.parts :: m != n ==> t.parts[m].end < t.parts[n].start
  }

  /** The table stays well formed, the others stay as they were, the grown partition keeps
      its identity and covers its old range, up to the next partition or the end of the
      device, which it reaches exactly when no partition lies behind it. Its attribute
      flags are not carried over. */
  lemma GrownIsSound(t: Table, sectors: nat, n: nat, info: PartInfo)
    requires WellFormed(t) && n in t.parts && sectors >= 34 && t.lastUsable <= sectors - 34
    requires info == PartInfo(t.parts[n].start, t.parts[n].typeGuid, t.parts[n].uniqueGuid, info.name)
    ensures var g := Grown(t, sectors, n, info);
            && WellFormed(g) && g.parts.Keys == t.parts.Keys
            && (forall m <- t.parts :: m != n ==> g.parts[m] == t.parts[m])
            && g.parts[n] == t.parts[n].(end := g.parts[n].end, name := info.name, attrs := 0)
            && t.parts[n].end <= g.parts[n].end <= sectors - 34
            && (g.parts[n].end == sectors - 34 <==> LastOnDisk(t, n))
  {
    hide WellFormed, LastOnDisk;
    StartBound(t, n);
    GrownEnd(t, sectors, n);
    var rest := t.(lastUsable := sectors - 34, parts := t.parts - {n});
    var p := Part(info.firstSector, FreeEnd(rest, info.firstSector), info.typeGuid, info.uniqueGuid, info.name, 0);
    PutBack(rest, n, p);
    assert Grown(t, sectors, n, info) == rest.(parts := rest.parts[n := p]);
  }

  /** A partition put where no other reaches keeps the table well formed. */
  lemma PutBack(rest: Table, n: nat, p: Part)
    requires WellFormed(rest) && n !in rest.parts
    requires rest.firstUsable <= p.start <= p.end <= rest.lastUsable
    requires forall m <- rest.parts :: p.end < rest.parts[m].start || rest.parts[m].end < p.start
    ensures WellFormed(rest.(parts := rest.parts[n := p]))
  {}

  /** Where the recreated partition ends. */
  lemma GrownEnd(t: Table, sectors: nat, n: nat)
    requires WellFormed(t) && n in t.parts && sectors >= 34 && t.lastUsable <= sectors - 34
    ensures var rest := t.(lastUsable := sectors - 34, parts := t.parts - {n});
            var p := t.parts[n];
            var e := FreeEnd(rest, p.start);
            && WellFormed(rest) && p.end <= e <= sectors - 34 && (e == sectors - 34 <==> LastOnDisk(t, n))
            && (forall m <- rest.parts :: e < rest.parts[m].start || rest.parts[m].end < p.start)
  {
    var rest := t.(lastUsable := sectors - 34, parts := t.parts - {n});
    var p := t.parts[n];
    var e := FreeEnd(rest, p.start);
    FreeRun(rest, p.start);
    RunClear(rest, p.start, e, t, n);
    if e < sectors - 34 {
      var m :| m in rest.parts && rest.parts[m].start <= e + 1 <= rest.parts[m].end;
      assert m in t.parts && m != n && !Overlap(t.parts[m], p);
      assert t.parts[m].end >= p.start;
    } else {
      forall m | m in t.parts && m != n ensures t.parts[m].end < p.start {
        assert m in rest.parts && rest.parts[m].start <= rest.parts[m].end <= t.lastUsable;
      }
    }
  }

  /** No other partition meets the free run. */
  lemma RunClear(rest: Table, s: nat, e: nat, t: Table, n: nat)
    requires WellFormed(t) && n in t.parts && s == t.parts[n].start && s <= e
    requires rest.parts == t.parts - {n}
    requires forall x :: s < x <= e ==> !Taken(rest, x)
    ensures forall m <- rest.parts :: e < rest.parts[m].start || rest.parts[m].end < s
  {
    forall m | m in rest.parts ensures e < rest.parts[m].start || rest.parts[m].end < s {
      assert !Overlap(t.parts[m], t.parts[n]);
      if s < rest.parts[m].start <= e {
        assert Taken(rest, rest.parts[m].start);
      }
    }
  }

  /** The device's table, changed only by whole sgdisk calls. On a `reliable` device a call
      whose operations apply succeeds. */
  class GptDisk {
    var table: Table
    const sectors: nat
    const reliable: bool

    constructor (table: Table, sectors: nat, reliable: bool)
      ensures this.table == table && this.sectors == sectors && this.reliable == reliable
    {
      this.table, this.sectors, this.reliable := table, sectors, reliable;
    }

    /** `run_sgdisk`: all operations and one write, or an error and no change. */
    method RunSgdisk(ops: seq<Op>) returns (ok: bool)
      modifies this
      ensures !ok ==> table == old(table)
      ensures ok ==> ApplyAll(old(table), sectors, ops) == Some(table)
      ensures reliable ==> (ok <==> ApplyAll(old(table), sectors, ops).Some?)
    {
      var failed: bool := *;
      var after := ApplyAll(table, sectors, ops);
      ok := (reliable || !failed) && after.Some?;
      if ok { table := after.value; }
    }

    /** `grow_last_partition`, given what the two listings print. */
    method GrowLastPartition(listing: seq<Line>, typeName: string, at: string, size: string) returns (grown: Option<nat>)
      requires WellFormed(table) && table.parts != map[] && 0 !in table.parts
      requires sectors >= 34 && table.lastUsable <= sectors - 34 && sectors <= U64_MAX
      requires Lists(listing, table.parts)
      requires forall n <- table.parts :: Word(table.parts[n].typeGuid) && Word(table.parts[n].uniqueGuid)
      modifies this
      ensures WellFormed(table) && table.parts.Keys == old(table.parts.Keys)
      ensures reliable ==> grown.Some?
      ensures grown.None? ==> table.parts == old(table.parts)
      ensures grown.Some? ==> grown.value in old(table.parts) && forall m <- old(table.parts) :: m <= grown.value
      ensures grown.Some? ==> table == Grown(old(table), sectors, grown.value, InfoOf(old(table.parts[grown.value])))
    {
      hide WellFormed, Lists, ApplyAll, Grown, PartitionInfo, LastPartitionNumber, InfoOf;
      LastNumber(listing, table.parts);
      var last := LastPartitionNumber(RenderAll(listing));
      var n := last.value;
      StartBound(table, n);
      InfoParses(table.parts[n], typeName, at, size);
      var info := PartitionInfo(InfoLines(table.parts[n], typeName, at, size));
      CallsGrow(table, sectors, n);
      var ok := RunSgdisk([MoveSecondHeader]);
      if !ok { return None; }
      ok := RunSgdisk(Recreate(n, info.value));
      return if ok then Some(n) else None;
    }
  }

  lemma StartBound(t: Table, n: nat)
    requires WellFormed(t) && n in t.parts
    ensures t.firstUsable <= t.parts[n].start <= t.parts[n].end <= t.lastUsable
  {}

  lemma InfoParses(p: Part, typeName: string, at: string, size: string)
    requires Word(p.typeGuid) && Word(p.uniqueGuid) && p.start <= U64_MAX
    ensures PartitionInfo(InfoLines(p, typeName, at, size)) == Some(InfoOf(p))
  {
    InfoRoundTrip(p, typeName, at, size);
  }

  /** The two calls succeed on a well-formed table of a device at least as large as the
      table says, and give the grown table. */
  lemma CallsGrow(t: Table, sectors: nat, n: nat)
    requires WellFormed(t) && n in t.parts && n > 0 && sectors >= 34 && t.lastUsable <= sectors - 34
    ensures var moved := t.(lastUsable := sectors - 34);
            && ApplyAll(t, sectors, [MoveSecondHeader]) == Some(moved) && WellFormed(moved)
            && ApplyAll(moved, sectors, Recreate(n, InfoOf(t.parts[n]))) == Some(Grown(t, sectors, n, InfoOf(t.parts[n])))
    ensures WellFormed(Grown(t, sectors, n, InfoOf(t.parts[n])))
    ensures Grown(t, sectors, n, InfoOf(t.parts[n])).parts.Keys == t.parts.Keys
  {
    var moved := t.(lastUsable := sectors - 34);
    ApplyStep(t, sectors, [MoveSecondHeader], moved);
    StartIsFree(moved, n);
    RecreateApplies(moved, sectors, n, InfoOf(t.parts[n]));
    GrownIsSound(t, sectors, n, InfoOf(t.parts[n]));
  }

  /** What `partition_info` reads of a partition. */
  function InfoOf(p: Part): PartInfo {
    PartInfo(p.start, p.typeGuid, p.uniqueGuid, TrimQuotes(p.name))
  }
}
