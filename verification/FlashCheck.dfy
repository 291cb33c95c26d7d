/** What VERIFY's fidelity compare says of a stick that was just flashed. */
module FlashCheck {
  import opened Text
  import opened Device
  import opened Flash
  import opened Verify
  import opened Verdict

  /** On a stick that held the image and then its old tail once written, the compare ends Passed
      exactly when it was not skipped and no byte under the image has changed since, so a grow
      that rewrote the table at the start of the stick makes it fail. (The digests of the two
      strings compared do not collide.) */
  lemma ComparedAfterFlash(f: Foreign, image: seq<byte>, before: seq<byte>, written: seq<byte>, now: seq<byte>, skip: Option<nat -> bool>)
    requires |image| <= |before| == |now| && written == image + before[|image|..]
    requires f.sha(now[..|image|]) == f.sha(image) ==> now[..|image|] == image
    ensures var r := FidelityStep(f, now, image, skip);
            r.events[|r.events| - 1] == Step(4, Passed)
            <==> !CompareWasSkipped(now, image, skip) && now[..|image|] == written[..|image|]
    ensures now == written && !CompareWasSkipped(now, image, skip) ==>
              var r := FidelityStep(f, now, image, skip); r.events[|r.events| - 1] == Step(4, Passed)
  {
    assert image[..|image|] == image && written[..|image|] == image;
    FidelityExact(f, now, image, skip);
  }

  /** Flash and then compare: without a grow an honest flash passes, under either elevation. */
  method FlashThenCompare(f: Foreign, image: Disk, dev: Disk, backupTo: Option<Disk>, elev: Elevation, reliable: bool,
                          skip: Option<nat -> bool>)
    returns (r: Outcome, compare: Report)
    requires |image.data| < U64 && |dev.data| < U64 && image != dev
    requires backupTo.Some? ==> backupTo.value != dev && backupTo.value != image
    modifies dev, if backupTo.Some? then {backupTo.value} else {}
    ensures compare == FidelityStep(f, dev.data, image.data, skip)
    ensures r == Flashed && !CompareWasSkipped(dev.data, image.data, skip) ==>
              compare.events[|compare.events| - 1] == Step(4, Passed) && compare.issues == []
  {
    ghost var before := dev.data;
    ghost var written;
    r, written := RunFlash(image, dev, backupTo, false, elev, true, reliable);
    compare := FidelityStep(f, dev.data, image.data, skip);
    if r == Flashed {
      assert dev.data[..|image.data|] == image.data && image.data[..|image.data|] == image.data;
      ComparedAfterFlash(f, image.data, before, written, dev.data, skip);
      FidelityHonest(f, dev.data, image.data, skip);
    }
  }
}
