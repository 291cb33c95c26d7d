/** The build-time persistence gate of usb mode (persist-enforce.nix): which state directories
    are covered by a mount, decided by path component. */
module Persist {
  import opened Text

  /** A StateDirectory as a service may declare it. */
  datatype StateDir = Null | One(text: string) | Many(texts: seq<string>)

  datatype Mount = Mount(fsType: Option<string>, options: seq<string>)

  /** Whether nixnas is enabled and where its store is; declared services with their
      StateDirectory, the mounts, and the acknowledged services. */
  datatype Config = Config(enable: bool, location: string, services: seq<(string, StateDir)>,
                           mounts: map<string, Mount>, ephemeral: seq<string>)

  function NonEmpty(parts: seq<string>): seq<string> {
    if parts == [] then [] else (if parts[0] == "" then [] else [parts[0]]) + NonEmpty(parts[1..])
  }

  function SplitAll(texts: seq<string>): seq<string> {
    if texts == [] then [] else Split(texts[0], ' ') + SplitAll(texts[1..])
  }

  /** `stateDirNames`. */
  function StateDirNames(raw: StateDir): seq<string> {
    NonEmpty(SplitAll(match raw case Null => [] case One(t) => [t] case Many(ts) => ts))
  }

  /** One (service, directory) pair per declared directory. */
  function Entries(services: seq<(string, StateDir)>): seq<(string, string)> {
    if services == [] then []
    else ForEach(services[0].0, StateDirNames(services[0].1)) + Entries(services[1..])
  }

  function ForEach(service: string, dirs: seq<string>): seq<(string, string)> {
    if dirs == [] then [] else [(service, dirs[0])] + ForEach(service, dirs[1..])
  }

  function Components(path: string): seq<string> { NonEmpty(Split(path, '/')) }
  function Normal(parts: seq<string>): string { "/" + Join(parts, '/') }

  /** `ancestorsOf`: from the immediate parent up to "/". */
  function AncestorsOf(path: string): seq<string> {
    var parts := Components(path);
    Upward(parts, |parts|)
  }

  /** The ancestors with fewer than `n` components, longest first. */
  function Upward(parts: seq<string>, n: nat): seq<string>
    requires n <= |parts|
  {
    if n == 0 then [] else [Normal(parts[..n - 1])] + Upward(parts, n - 1)
  }

  predicate IsBindMountAt(mounts: map<string, Mount>, path: string) {
    path in mounts && mounts[path].fsType == Some("none") && "bind" in mounts[path].options
  }

  function StatePath(dir: string): string { "/var/lib/" + dir }

  predicate IsPersisted(mounts: map<string, Mount>, dir: string) {
    StatePath(dir) in mounts || exists a <- AncestorsOf(StatePath(dir)) :: IsBindMountAt(mounts, a)
  }

  /** `unaddressed`: what becomes a failed assertion in usb mode. */
  function Unaddressed(c: Config, entries: seq<(string, string)>): seq<(string, string)> {
    if entries == [] then []
    else (if !IsPersisted(c.mounts, entries[0].1) && entries[0].0 !in c.ephemeral then [entries[0]] else [])
         + Unaddressed(c, entries[1..])
  }

  /** The failed assertions of a build. */
  function Failed(c: Config): seq<(string, string)> {
    if c.enable && c.location == "usb" then Unaddressed(c, Entries(c.services)) else []
  }

  // ---- What a StateDirectory declares. ----

  /** A word of the text: a stretch without spaces, from one space or end to the next. */
  ghost predicate IsWord(text: string, d: string) { d != "" && IsPiece(text, d, ' ') }

  ghost predicate Declares(raw: StateDir, d: string) {
    match raw case Null => false case One(t) => IsWord(t, d) case Many(ts) => exists t <- ts :: IsWord(t, d)
  }

  lemma {:induction false} NonEmptyAll(parts: seq<string>, d: string)
    ensures d in NonEmpty(parts) <==> d != "" && d in parts
  {
    if parts != [] {
      NonEmptyAll(parts[1..], d);
      assert d in parts <==> d == parts[0] || d in parts[1..];
    }
  }

  lemma {:induction false} SplitAllPieces(texts: seq<string>, d: string)
    requires d != ""
    ensures d in SplitAll(texts) <==> exists t <- texts :: IsWord(t, d)
  {
    if texts != [] {
      SplitAllPieces(texts[1..], d);
      SplitPieces(texts[0], d, ' ');
      assert d in Split(texts[0], ' ') <==> IsWord(texts[0], d);
      hide IsWord;
      assert forall t :: t in texts <==> t == texts[0] || t in texts[1..];
    }
  }

  /** The directories of a declaration are exactly the words of its texts. */
  lemma DeclaresIff(raw: StateDir, d: string)
    ensures d in StateDirNames(raw) <==> Declares(raw, d)
  {
    var texts := match raw case Null => [] case One(t) => [t] case Many(ts) => ts;
    NonEmptyAll(SplitAll(texts), d);
    if d != "" { SplitAllPieces(texts, d); }
    assert raw.One? ==> texts[0] == raw.text;
  }

  /** Names separated by single spaces are declared in their order, each as often as written. */
  lemma WordsInOrder(words: seq<string>)
    requires words != [] && forall w <- words :: w != "" && ' ' !in w
    ensures StateDirNames(One(Join(words, ' '))) == words && StateDirNames(Many(words)) == words
    ensures StateDirNames(Null) == []
  {
    ListOrString(words);
    var joined := Join(words, ' ');
    SplitJoin(words, ' ');
    assert [joined][1..] == [] && SplitAll([]) == [];
    assert SplitAll([joined]) == words + [] == words;
    WordsKept(words);
  }

  lemma {:induction false} WordsKept(words: seq<string>)
    requires forall w <- words :: w != ""
    ensures NonEmpty(words) == words
  {
    if words != [] {
      assert words[0] in words && forall w <- words[1..] :: w in words;
      WordsKept(words[1..]);
      assert words == [words[0]] + words[1..];
    }
  }

  /** A list declares what its texts declare, one after the other. */
  lemma ListConcat(texts: seq<string>)
    ensures StateDirNames(Many(texts)) == if texts == [] then [] else StateDirNames(One(texts[0])) + StateDirNames(Many(texts[1..]))
  {
    if texts != [] {
      assert [texts[0]][1..] == [] && SplitAll([]) == [];
      assert SplitAll([texts[0]]) == Split(texts[0], ' ');
      NonEmptyConcat(Split(texts[0], ' '), SplitAll(texts[1..]));
    }
  }

  // ---- One string or a list makes no difference. ----

  lemma NonEmptyCons(x: string, rest: seq<string>)
    ensures NonEmpty([x] + rest) == (if x == "" then [] else [x]) + NonEmpty(rest)
  {
    assert ([x] + rest)[1..] == rest;
  }

  lemma {:induction false} NonEmptyConcat(a: seq<string>, b: seq<string>)
    ensures NonEmpty(a + b) == NonEmpty(a) + NonEmpty(b)
  {
    assert NonEmpty([]) == [];
    hide NonEmpty;
    if a == [] {
      assert a + b == b;
    } else {
      NonEmptyConcat(a[1..], b);
      NonEmptyCons(a[0], a[1..]);
      NonEmptyCons(a[0], a[1..] + b);
      assert a == [a[0]] + a[1..] && a + b == [a[0]] + (a[1..] + b);
    }
  }

  lemma {:induction false} SplitAllJoin(texts: seq<string>)
    requires texts != []
    ensures Split(Join(texts, ' '), ' ') == SplitAll(texts)
  {
    if |texts| == 1 {
      assert SplitAll(texts[1..]) == [];
    } else {
      SplitAllJoin(texts[1..]);
      SplitConcat(texts[0], Join(texts[1..], ' '), ' ');
    }
  }

  /** A list of names and the same names in one space-separated string declare the same
      directories, whatever spaces the names themselves hold. */
  lemma ListOrString(texts: seq<string>)
    ensures StateDirNames(Many(texts)) == StateDirNames(One(Join(texts, ' ')))
  {
    var joined := Join(texts, ' ');
    assert [joined][1..] == [] && SplitAll([]) == [];
    assert SplitAll([joined]) == Split(joined, ' ');
    if texts == [] {
      assert Split("", ' ') == [""] && NonEmpty([""]) == [];
    } else {
      SplitAllJoin(texts);
    }
  }

  // ---- Ancestors are exactly the strict component prefixes. ----

  predicate Clean(parts: seq<string>) { forall p <- parts :: p != "" && '/' !in p }

  lemma {:induction false} NonEmptyClean(parts: seq<string>)
    requires forall p <- parts :: '/' !in p
    ensures Clean(NonEmpty(parts))
  {
    if parts != [] { NonEmptyClean(parts[1..]); }
  }

  lemma {:induction false} CleanIsNonEmpty(parts: seq<string>)
    requires Clean(parts)
    ensures NonEmpty(parts) == parts
  {
    if parts != [] {
      assert parts[0] in parts && parts[0] != "" && forall p <- parts[1..] :: p in parts;
      CleanIsNonEmpty(parts[1..]);
      assert parts == [parts[0]] + parts[1..];
    }
  }

  lemma CleanPrefix(parts: seq<string>, k: nat)
    requires Clean(parts) && k <= |parts|
    ensures Clean(parts[..k])
  {
    assert forall p <- parts[..k] :: p in parts;
  }

  lemma ComponentsClean(path: string)
    ensures Clean(Components(path))
  {
    SplitParts(path, '/');
    NonEmptyClean(Split(path, '/'));
  }

  /** Components undo the normal form. */
  lemma ComponentsOfNormal(parts: seq<string>)
    requires Clean(parts)
    ensures Components(Normal(parts)) == parts
  {
    assert Normal(parts) == [] + ['/'] + Join(parts, '/');
    SplitConcat([], Join(parts, '/'), '/');
    assert Split([], '/') == [[]];
    NonEmptyConcat([[]], Split(Join(parts, '/'), '/'));
    if parts == [] {
      assert NonEmpty([""]) == [];
    } else {
      SplitJoin(parts, '/');
      CleanIsNonEmpty(parts);
    }
  }

  lemma {:induction false} UpwardAt(parts: seq<string>, n: nat)
    requires n <= |parts|
    ensures |Upward(parts, n)| == n
    ensures forall i :: 0 <= i < n ==> Upward(parts, n)[i] == Normal(parts[..n - 1 - i])
  {
    if n > 0 { UpwardAt(parts, n - 1); }
  }

  /** `path` lists every strict ancestor once, nearest first. */
  lemma AncestorsInOrder(path: string)
    ensures var parts := Components(path);
            |AncestorsOf(path)| == |parts| &&
            forall i :: 0 <= i < |parts| ==> AncestorsOf(path)[i] == "/" + Join(parts[..|parts| - 1 - i], '/')
  {
    UpwardAt(Components(path), |Components(path)|);
  }

  /** A path is an ancestor exactly when it is in normal form and its components are a strict
      prefix: never a sibling that merely shares leading characters. */
  lemma AncestorIff(path: string, q: string)
    ensures q in AncestorsOf(path) <==> q == Normal(Components(q)) && Components(q) < Components(path)
  {
    var parts, up := Components(path), AncestorsOf(path);
    ComponentsClean(path);
    AncestorsInOrder(path);
    if q in up {
      var i :| 0 <= i < |up| && up[i] == q;
      var shorter := parts[..|parts| - 1 - i];
      CleanPrefix(parts, |parts| - 1 - i);
      ComponentsOfNormal(shorter);
    }
    if q == Normal(Components(q)) && Components(q) < parts {
      var k := |Components(q)|;
      assert Components(q) == parts[..k];
      assert up[|parts| - 1 - k] == q;
    }
  }

  // ---- Coverage. ----

  /** A state directory is covered exactly by a mount at its own path, or by a bind mount
      whose path, in normal form, has a strict prefix of its components. */
  lemma PersistedIff(mounts: map<string, Mount>, dir: string)
    ensures IsPersisted(mounts, dir) <==>
            "/var/lib/" + dir in mounts ||
            exists q <- mounts :: mounts[q].fsType == Some("none") && "bind" in mounts[q].options
              && q == "/" + Join(Components(q), '/') && Components(q) < Components("/var/lib/" + dir)
  {
    forall q ensures q in AncestorsOf(StatePath(dir)) <==> q == Normal(Components(q)) && Components(q) < Components(StatePath(dir)) {
      AncestorIff(StatePath(dir), q);
    }
  }

  /** A bind mount covers everything below it, at any depth. */
  lemma NestedIsCovered(mounts: map<string, Mount>, dir: string, below: string)
    requires IsBindMountAt(mounts, Normal(Components(StatePath(dir)))) && Components(below) != []
    ensures IsPersisted(mounts, dir + "/" + below)
  {
    hide Components, Normal, AncestorsOf;
    ComponentsClean(StatePath(dir));
    ComponentsOfNormal(Components(StatePath(dir)));
    var path := StatePath(dir + "/" + below);
    assert path == StatePath(dir) + "/" + below;
    ComponentsJoin(StatePath(dir), below);
    AncestorIff(path, Normal(Components(StatePath(dir))));
  }

  lemma ComponentsJoin(path: string, below: string)
    ensures Components(path + "/" + below) == Components(path) + Components(below)
  {
    assert path + "/" + below == path + ['/'] + below;
    SplitConcat(path, below, '/');
    NonEmptyConcat(Split(path, '/'), Split(below, '/'));
  }

  /** The build goes through exactly when every declared directory is covered or its service
      acknowledged. */
  lemma {:induction false} GateIff(c: Config, entries: seq<(string, string)>)
    ensures Unaddressed(c, entries) == [] <==>
            forall e <- entries :: IsPersisted(c.mounts, e.1) || e.0 in c.ephemeral
    ensures forall e :: e in Unaddressed(c, entries) <==> e in entries && !IsPersisted(c.mounts, e.1) && e.0 !in c.ephemeral
  {
    if entries != [] {
      GateIff(c, entries[1..]);
      assert forall e <- entries :: e == entries[0] || e in entries[1..];
    }
  }

  lemma {:induction false} ForEachAll(service: string, dirs: seq<string>)
    ensures forall s, d :: (s, d) in ForEach(service, dirs) <==> s == service && d in dirs
  {
    if dirs != [] {
      ForEachAll(service, dirs[1..]);
      assert forall d :: d in dirs <==> d == dirs[0] || d in dirs[1..];
    }
  }

  /** The entries are exactly the declared (service, directory) pairs. */
  lemma {:induction false} EntriesAll(services: seq<(string, StateDir)>)
    ensures forall s, d :: (s, d) in Entries(services) <==> exists v <- services :: v.0 == s && Declares(v.1, d)
  {
    if services != [] {
      EntriesAll(services[1..]);
      ForEachAll(services[0].0, StateDirNames(services[0].1));
      forall d ensures d in StateDirNames(services[0].1) <==> Declares(services[0].1, d) { DeclaresIff(services[0].1, d); }
      assert forall v :: v in services <==> v == services[0] || v in services[1..];
    }
  }

  /** The gate as a whole, over the declarations: in usb mode a build fails exactly for each
      declared directory that is neither covered nor acknowledged, and never in another mode. */
  lemma GateOverDeclarations(c: Config)
    ensures forall s, d :: (s, d) in Failed(c) <==>
              && c.enable && c.location == "usb" && (exists v <- c.services :: v.0 == s && Declares(v.1, d))
              && !IsPersisted(c.mounts, d) && s !in c.ephemeral
    ensures Failed(c) == [] <==>
            (c.enable && c.location == "usb" ==>
              forall v, d :: v in c.services && Declares(v.1, d) ==> IsPersisted(c.mounts, d) || v.0 in c.ephemeral)
  {
    hide IsPersisted, Declares;
    GateIff(c, Entries(c.services));
    EntriesAll(c.services);
    forall v, d | v in c.services && Declares(v.1, d) ensures (v.0, d) in Entries(c.services) {}
    assert forall e <- Entries(c.services) :: (e.0, e.1) == e;
  }
}
