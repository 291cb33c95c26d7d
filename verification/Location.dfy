/** What the hot-mode main system opens and imports before it switches root
    (store/location.nix): the pools, the unlock order and the two classes of volumes. */
module Location {
  import opened Text
  import opened Names

  /** `store.hot` or `store.root`. */
  datatype Side = Side(fsType: string, device: Option<string>, zpool: Option<string>, unlock: map<string, string>)

  datatype Volume = Volume(device: string, order: nat, critical: bool)

  function PoolOf(side: Side): string {
    if side.zpool.Some? then side.zpool.value
    else if side.device.Some? then Split(side.device.value, '/')[0]
    else "-unset-"
  }

  /** `lib.unique`: a left fold that keeps the first of equal elements. */
  function Unique(xs: seq<string>): seq<string> {
    if xs == [] then []
    else
      var kept, last := Unique(xs[..|xs| - 1]), xs[|xs| - 1];
      if last in kept then kept else kept + [last]
  }

  function ZfsPoolsNeeded(hot: Side, root: Side): seq<string> {
    Unique((if hot.fsType == "zfs" then [PoolOf(hot)] else []) + (if root.fsType == "zfs" then [PoolOf(root)] else []))
  }

  lemma {:induction false} UniqueKeeps(xs: seq<string>)
    ensures Distinct(Unique(xs))
    ensures forall x :: x in Unique(xs) <==> x in xs
  {
    if xs != [] {
      UniqueKeeps(xs[..|xs| - 1]);
      assert xs == xs[..|xs| - 1] + [xs[|xs| - 1]];
    }
  }

  /** Each pool behind a zfs `/nix` or `/` is imported by exactly one service, and no other
      pool is: two sides on one pool share the service. */
  lemma EachPoolOnce(hot: Side, root: Side)
    ensures var pools := ZfsPoolsNeeded(hot, root);
            Distinct(pools) &&
            forall p :: p in pools <==> (hot.fsType == "zfs" && p == PoolOf(hot)) || (root.fsType == "zfs" && p == PoolOf(root))
  {
    UniqueKeeps((if hot.fsType == "zfs" then [PoolOf(hot)] else []) + (if root.fsType == "zfs" then [PoolOf(root)] else []));
  }

  /** A dataset's pool is the part of its name before the first slash. */
  lemma PoolOfDataset(side: Side, pool: string, rest: string)
    requires side.zpool == None && '/' !in pool && side.device == Some(pool + "/" + rest)
    ensures PoolOf(side) == pool
  {
    SplitConcat(pool, rest, '/');
    SplitPlain(pool, '/');
    assert pool + "/" + rest == pool + ['/'] + rest;
  }

  /** The pool is the one named, or else the device's name up to the first slash, if any. */
  lemma PoolOfIs(side: Side)
    ensures side.zpool.Some? ==> PoolOf(side) == side.zpool.value
    ensures side.zpool.None? && side.device.Some? ==>
              var d, pool := side.device.value, PoolOf(side);
              '/' !in pool && (d == pool || HasPrefix(d, pool + "/"))
    ensures side.zpool.None? && side.device.None? ==> PoolOf(side) == "-unset-"
  {
    if side.zpool.None? && side.device.Some? {
      var d := side.device.value;
      if '/' in d {
        var k := FirstSep(d, '/');
        assert d == d[..k] + "/" + d[k + 1..];
        PoolOfDataset(side, d[..k], d[k + 1..]);
        assert d[..k + 1] == d[..k] + "/";
      } else {
        SplitPlain(d, '/');
      }
    }
  }

  // ---- The two classes of members. ----

  function Critical(hot: Side, root: Side): map<string, string> { hot.unlock + root.unlock }

  ghost function AllKeys(hot: Side, root: Side, data: map<string, string>): set<string> {
    (Critical(hot, root) + data).Keys
  }

  ghost function Members(devices: map<string, string>, all: set<string>, critical: bool): map<string, Volume>
    requires devices.Keys <= all
  {
    map n <- devices :: Volume(devices[n], Order(all, n), critical)
  }

  /** `nixluks.volumes`: the boot-critical members, then the data members over them. */
  ghost function Volumes(hot: Side, root: Side, data: map<string, string>): map<string, Volume> {
    var all := AllKeys(hot, root, data);
    Members(Critical(hot, root), all, true) + Members(data, all, false)
  }

  /** A member stops the boot exactly when `/nix` or `/` needs it and it is not also listed
      as data: the later declaration takes the class and the device. */
  lemma CriticalIff(hot: Side, root: Side, data: map<string, string>, n: string)
    ensures var vs := Volumes(hot, root, data);
            (n in vs <==> n in hot.unlock || n in root.unlock || n in data) &&
            (n in vs ==> (vs[n].critical <==> (n in hot.unlock || n in root.unlock) && n !in data))
    ensures n in data ==> Volumes(hot, root, data)[n].device == data[n]
    ensures n !in data && n in root.unlock ==> Volumes(hot, root, data)[n].device == root.unlock[n]
    ensures n !in data && n !in root.unlock && n in hot.unlock ==> Volumes(hot, root, data)[n].device == hot.unlock[n]
  {
  }

  /** With names declared once, the members of `/nix` and `/` are exactly the critical ones. */
  lemma DisjointKeepsCritical(hot: Side, root: Side, data: map<string, string>)
    ensures (forall n :: n in hot.unlock || n in root.unlock ==>
              n in Volumes(hot, root, data) && Volumes(hot, root, data)[n].critical)
            <==> (hot.unlock.Keys + root.unlock.Keys) !! data.Keys
  {
    forall n ensures n in hot.unlock || n in root.unlock ==> (Volumes(hot, root, data)[n].critical <==> n !in data) {
      CriticalIff(hot, root, data, n);
    }
  }

  lemma VolumeAt(hot: Side, root: Side, data: map<string, string>, n: string)
    ensures var vs, all := Volumes(hot, root, data), AllKeys(hot, root, data);
            (n in vs <==> n in all) && (n in vs ==> vs[n].order == Order(all, n))
  {
    hide AttrNames, IsLeast;
    var all := AllKeys(hot, root, data);
    assert n in Members(data, all, false) <==> n in data;
  }

  lemma VolumeKeys(hot: Side, root: Side, data: map<string, string>)
    ensures Volumes(hot, root, data).Keys == AllKeys(hot, root, data)
  {
    hide Volumes, AllKeys;
    forall n ensures n in Volumes(hot, root, data) <==> n in AllKeys(hot, root, data) { VolumeAt(hot, root, data, n); }
  }

  /** The orders of the volumes are below their number and follow the names ... */
  lemma ChainOrder(hot: Side, root: Side, data: map<string, string>, a: string, b: string)
    ensures var vs := Volumes(hot, root, data);
            a in vs && b in vs ==>
              vs[a].order < |vs| && (vs[a].order < vs[b].order <==> LexLess(a, b)) && (vs[a].order == vs[b].order ==> a == b)
  {
    hide Volumes, AllKeys;
    VolumeKeys(hot, root, data);
    VolumeAt(hot, root, data, a);
    VolumeAt(hot, root, data, b);
    if a in AllKeys(hot, root, data) && b in AllKeys(hot, root, data) {
      OrderFollowsNames(AllKeys(hot, root, data), a, b);
    }
    SameSize(Volumes(hot, root, data));
  }

  /** ... and each number below it is the order of a volume. */
  lemma ChainOnto(hot: Side, root: Side, data: map<string, string>, i: nat)
    requires i < |Volumes(hot, root, data)|
    ensures var vs := Volumes(hot, root, data); exists n <- vs :: vs[n].order == i
  {
    hide Volumes, AllKeys;
    VolumeKeys(hot, root, data);
    SameSize(Volumes(hot, root, data));
    OrderIsOnto(AllKeys(hot, root, data), i);
    var n :| n in AllKeys(hot, root, data) && Order(AllKeys(hot, root, data), n) == i;
    VolumeAt(hot, root, data, n);
  }

  lemma SameSize(vs: map<string, Volume>)
    ensures |vs| == |vs.Keys|
  {
  }
}
