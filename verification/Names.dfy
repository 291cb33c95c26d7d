/** Attribute names as Nix lists them: each key once, in lexicographic order. */
module Names {
  import opened Text

  ghost predicate IsLeast(keys: set<string>, m: string) {
    m in keys && forall k <- keys :: k == m || LexLess(m, k)
  }

  lemma {:induction false} LeastExists(keys: set<string>)
    requires keys != {}
    ensures exists m :: IsLeast(keys, m)
  {
    var x :| x in keys;
    if keys == {x} {
      assert IsLeast(keys, x);
    } else {
      LeastExists(keys - {x});
      var m :| IsLeast(keys - {x}, m);
      OneMore(keys, x, m);
    }
  }

  lemma OneMore(keys: set<string>, x: string, m: string)
    requires x in keys && IsLeast(keys - {x}, m)
    ensures IsLeast(keys, if LexLess(x, m) then x else m)
  {
    LexTotal(x, m);
    if LexLess(x, m) {
      forall k | k in keys && k != x && k != m ensures LexLess(x, k) { LexTransitive(x, m, k); }
    }
  }

  ghost function Least(keys: set<string>): (m: string)
    requires keys != {}
    ensures IsLeast(keys, m)
  {
    LeastExists(keys);
    var m :| IsLeast(keys, m);
    m
  }

  /** `lib.attrNames`. */
  ghost function AttrNames(keys: set<string>): seq<string>
    decreases |keys|
  {
    if keys == {} then [] else [Least(keys)] + AttrNames(keys - {Least(keys)})
  }

  ghost predicate Sorted(names: seq<string>) {
    forall i, j :: 0 <= i < j < |names| ==> LexLess(names[i], names[j])
  }

  /** Every key exactly once, in order. */
  lemma {:induction false} AttrNamesSorted(keys: set<string>)
    ensures forall k :: k in AttrNames(keys) <==> k in keys
    ensures Sorted(AttrNames(keys)) && |AttrNames(keys)| == |keys|
    decreases |keys|
  {
    if keys != {} {
      var m := Least(keys);
      var rest := keys - {m};
      AttrNamesSorted(rest);
      var names, tail := AttrNames(keys), AttrNames(rest);
      assert names == [m] + tail;
      assert forall k :: k in names <==> k == m || k in tail;
      forall i, j | 0 <= i < j < |names| ensures LexLess(names[i], names[j]) {
        assert names[j] == tail[j - 1] && names[j] in tail;
      }
    }
  }

  /** The place of a name in the list: `orderByName`. */
  ghost function Order(keys: set<string>, name: string): (i: nat)
    requires name in keys
    ensures i < |keys| && i < |AttrNames(keys)| && AttrNames(keys)[i] == name
  {
    AttrNamesSorted(keys);
    var i :| 0 <= i < |AttrNames(keys)| && AttrNames(keys)[i] == name;
    i
  }

  /** Places are in name order, so distinct names have distinct places ... */
  lemma OrderFollowsNames(keys: set<string>, a: string, b: string)
    requires a in keys && b in keys
    ensures LexLess(a, b) <==> Order(keys, a) < Order(keys, b)
    ensures Order(keys, a) == Order(keys, b) ==> a == b
  {
    AttrNamesSorted(keys);
    if LexLess(a, b) { LexAsymmetric(a, b); }
    if Order(keys, a) < Order(keys, b) { assert LexLess(a, b); }
  }

  /** ... and every place below the count is taken. */
  lemma OrderIsOnto(keys: set<string>, i: nat)
    requires i < |keys|
    ensures exists k <- keys :: Order(keys, k) == i
  {
    AttrNamesSorted(keys);
    var k := AttrNames(keys)[i];
    assert k in AttrNames(keys);
    OrderAt(keys, i);
    assert Order(keys, k) == i;
  }

  lemma OrderAt(keys: set<string>, i: nat)
    requires i < |AttrNames(keys)|
    ensures AttrNames(keys)[i] in keys && Order(keys, AttrNames(keys)[i]) == i
  {
    AttrNamesSorted(keys);
    var k := AttrNames(keys)[i];
    assert k in AttrNames(keys);
    LexIrreflexive(k);
  }
}
