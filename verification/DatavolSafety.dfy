/** What preparing the data volume can never do, and what it does again at every boot. */
module DatavolSafety {
  import opened Bytes
  import opened BlkidProbe
  import opened Blkid
  import opened Datavol

  // ------------------------------------------------------------------ nothing recognised is formatted

  /** A filesystem that some prober looks for is on the device at this path. */
  predicate Recognised(disks: Disks, path: text) {
    path in disks && var d := disks[path]; HasExt4(d) || HasErofs(d) || HasIso(d) || HasFat(d)
  }

  /** A spec whose device is probed at the path that is formatted: auto, a tag, or a path under /dev. */
  predicate Direct(spec: text) {
    spec == AUTO || DEV <= spec || Asks(spec) != Path
  }

  ghost predicate NeverFormatsRecognised(list: Option<seq<text>>, o: Options) {
    forall disks: Disks :: SafeOn(list, disks, o)
  }

  predicate SafeOn(list: Option<seq<text>>, disks: Disks, o: Options) {
    Formats(list, disks, o).Some? ==> !Recognised(disks, Formats(list, disks, o).value)
  }

  lemma NameOfDevice(path: text)
    requires DEV <= path
    ensures DEV + Name(path) == path
  {
  }

  /** The device that a direct spec chooses is under /dev. */
  lemma DirectChoice(list: Option<seq<text>>, disks: Disks, o: Options)
    requires Direct(o.spec)
    ensures Choice(list, disks, o).Ok? && Choice(list, disks, o).value != [] ==> DEV <= Choice(list, disks, o).value
  {
    hide Carries, FreeOf, Asks;
    LabelSpec(o.volume);
    if list.Some? {
      ResolvesToTheFirst(list.value, disks, Asks(o.spec));
      ResolvesToTheFirst(list.value, disks, Asks(LabelSpecOf(o)));
    }
  }

  /**
   * Prepare never formats a device on which a prober would match, whatever the disks hold, exactly when
   * the spec is auto, LABEL= or UUID=, or a path under /dev: any other path is probed in one place and
   * formatted in another.
   */
  lemma NeverFormatsRecognisedExactly(list: Option<seq<text>>, o: Options)
    requires o.spec != []
    ensures NeverFormatsRecognised(list, o) <==> Direct(o.spec)
  {
    if Direct(o.spec) {
      forall disks: Disks ensures SafeOn(list, disks, o) {
        SafeWhenDirect(list, disks, o);
      }
    } else {
      var disks := UnsafeElsewhere(list, o);
      assert !SafeOn(list, disks, o);
    }
  }

  lemma SafeWhenDirect(list: Option<seq<text>>, disks: Disks, o: Options)
    requires Direct(o.spec)
    ensures SafeOn(list, disks, o)
  {
    hide Choice, Direct, Probed, HasExt4, HasErofs, HasIso, HasFat;
    DirectChoice(list, disks, o);
    var target := Formats(list, disks, o);
    if target.Some? {
      NameOfDevice(target.value);
      BlankMeansNoSignature(disks, Name(target.value));
    }
  }

  /** An ext4 device, at a path that is not under /dev, that would be formatted. */
  lemma UnsafeElsewhere(list: Option<seq<text>>, o: Options) returns (disks: Disks)
    requires o.spec != [] && !Direct(o.spec)
    ensures Formats(list, disks, o) == Some(o.spec) && Recognised(disks, o.spec)
  {
    var image := Zeros(1080) + [0x53, 0xEF] + Zeros(200);
    disks := map[o.spec := image];
    assert |DEV + o.spec| != |o.spec|;
    BlankMeansNoSignature(disks, o.spec);
  }

  /** Formatting leaves every other path as it was. */
  lemma {:induction false} OnlyTheTargetChanges(list: Option<seq<text>>, disks: Disks, o: Options, makes: (Mkfs, Disks) -> Made, path: text)
    requires Formats(list, disks, o) != Some(path)
    ensures path in After(list, disks, o, makes) <==> path in disks
    ensures path in disks ==> After(list, disks, o, makes)[path] == disks[path]
  {
    hide Formats;
  }

  /** One call of Prepare: the devices listed then, and what was asked for. */
  datatype Call = Call(list: Option<seq<text>>, o: Options)

  /** What the disks hold after a number of calls. */
  function AfterAll(disks: Disks, calls: seq<Call>, makes: (Mkfs, Disks) -> Made): Disks
    decreases |calls|
  {
    if calls == [] then disks
    else AfterAll(After(calls[0].list, disks, calls[0].o, makes), calls[1..], makes)
  }

  /**
   * Over any number of calls, whatever devices are listed, whatever is asked for by auto, by tag or by a
   * path under /dev, and whatever mkfs does: a device that is recognised keeps every byte.
   */
  lemma {:induction false} RecognisedKeepsEveryByte(disks: Disks, calls: seq<Call>, makes: (Mkfs, Disks) -> Made, path: text)
    requires Recognised(disks, path)
    requires forall i :: 0 <= i < |calls| ==> calls[i].o.spec == [] || Direct(calls[i].o.spec)
    ensures path in AfterAll(disks, calls, makes) && AfterAll(disks, calls, makes)[path] == disks[path]
    decreases |calls|
  {
    hide HasExt4, HasErofs, HasIso, HasFat, After, Formats, Direct;
    if calls != [] {
      var c := calls[0];
      if c.o.spec == [] {
        EmptySpecDoesNothing(c.list, disks, c.o);
      } else {
        SafeWhenDirect(c.list, disks, c.o);
      }
      OnlyTheTargetChanges(c.list, disks, c.o, makes, path);
      RecognisedKeepsEveryByte(After(c.list, disks, c.o, makes), calls[1..], makes, path);
    }
  }

  lemma CutLeavesKind(s: text)
    requires Cut(s).Some?
    ensures s == Cut(s).value.0 + [EQUALS] + Cut(s).value.1
  {
  }

  lemma TagIsNoPath(o: Options)
    requires Asks(o.spec) != Path
    ensures !(DEV <= o.spec) && o.spec != AUTO && o.spec != []
  {
    CutLeavesKind(o.spec);
    var kind := Cut(o.spec).value.0;
    assert Upper(kind[0]) == ToUpper(kind)[0];
    assert o.spec[0] == kind[0];
  }

  /** LABEL= and UUID= mount the first device that carries the tag, or nothing, and never format. */
  lemma TagsMountWhatTheyFind(list: Option<seq<text>>, disks: Disks, o: Options)
    requires Asks(o.spec) != Path
    ensures Formats(list, disks, o).None?
    ensures Chosen(list, disks, o) ==
      if list.None? || FirstCarrying(list.value, disks, Asks(o.spec)).Err? then None
      else Some(FirstCarrying(list.value, disks, Asks(o.spec)).value)
  {
    hide Probed, FreeOf, Matches, Asks, FirstCarrying;
    TagIsNoPath(o);
    var w := Asks(o.spec);
    if list.Some? {
      ResolvesToTheFirst(list.value, disks, w);
      if Chosen(list, disks, o).Some? {
        var i :| 0 <= i < |list.value| && Carries(disks, list.value[i], w) && Chosen(list, disks, o).value == DEV + list.value[i];
        assert Name(DEV + list.value[i]) == list.value[i];
      }
    }
  }

  /** A path under /dev is mounted as it stands, and formatted exactly when nothing is recognised on it. */
  lemma ExplicitDevice(list: Option<seq<text>>, disks: Disks, o: Options)
    requires DEV <= o.spec
    ensures Chosen(list, disks, o) == Some(o.spec)
    ensures Formats(list, disks, o) == Some(o.spec) <==> !Recognised(disks, o.spec)
  {
    hide Probed, HasExt4, HasErofs, HasIso, HasFat;
    assert o.spec != AUTO by { assert o.spec[0] == 47; }
    NameOfDevice(o.spec);
    BlankMeansNoSignature(disks, Name(o.spec));
  }

  /** The empty spec turns data-volume handling off. */
  lemma EmptySpecDoesNothing(list: Option<seq<text>>, disks: Disks, o: Options)
    requires o.spec == []
    ensures Chosen(list, disks, o).None? && Formats(list, disks, o).None?
  {
  }

  // ------------------------------------------------------------------ auto

  predicate Labelled(devs: seq<text>, disks: Disks, volume: text) {
    exists i :: 0 <= i < |devs| && Carries(disks, devs[i], ByLabel(volume))
  }

  lemma AutoChoice(devs: seq<text>, disks: Disks, o: Options)
    requires o.spec == Raw("auto")
    ensures Labelled(devs, disks, o.volume) ==>
      exists i :: 0 <= i < |devs| && Carries(disks, devs[i], ByLabel(o.volume)) && Choice(Some(devs), disks, o) == Ok(DEV + devs[i])
    ensures !Labelled(devs, disks, o.volume) ==> Choice(Some(devs), disks, o) == AmongFree(FreeOf(devs, disks))
  {
    hide Carries, FreeOf, Asks;
    LabelSpec(o.volume);
    ResolvesToTheFirst(devs, disks, ByLabel(o.volume));
  }

  /**
   * In auto mode a device is formatted exactly when it is the one non-virtual blank device listed and no
   * device carries the label.
   */
  lemma AutoFormatsExactly(devs: seq<text>, disks: Disks, o: Options, dev: text)
    requires o.spec == Raw("auto")
    ensures Formats(Some(devs), disks, o) == Some(DEV + dev) <==>
      !Labelled(devs, disks, o.volume) && exists i: nat :: OnlyFree(devs, disks, i) && devs[i] == dev
  {
    hide Choice, FreeOf, Probed;
    AutoChoice(devs, disks, o);
    OneFree(devs, disks, dev);
    assert forall d: text :: Name(DEV + d) == d && DEV + d != [];
    assert forall d: text :: DEV + d == DEV + dev ==> d == dev by {
      forall d: text | DEV + d == DEV + dev ensures d == dev { assert d == (DEV + d)[|DEV|..]; }
    }
    if Formats(Some(devs), disks, o) == Some(DEV + dev) {
      assert FreeOf(devs, disks) == [dev];
    }
  }

  /** Two blank devices: every disk is left as it was, and unless one is already labelled it is an error. */
  lemma AmbiguityIsRefused(devs: seq<text>, disks: Disks, o: Options, i: nat, j: nat, makes: (Mkfs, Disks) -> Made)
    requires o.spec == Raw("auto") && i < j < |devs| && Free(disks, devs[i]) && Free(disks, devs[j])
    ensures Formats(Some(devs), disks, o).None? && After(Some(devs), disks, o, makes) == disks
    ensures !Labelled(devs, disks, o.volume) ==> Choice(Some(devs), disks, o) == Err(Ambiguous)
  {
    hide Choice, FreeOf, Probed, Free;
    AutoChoice(devs, disks, o);
    NoneFree(devs, disks);
    assert forall d: text :: Name(DEV + d) == d;
    if |FreeOf(devs, disks)| == 1 {
      OneFree(devs, disks, FreeOf(devs, disks)[0]);
      assert false;
    }
  }

  // ------------------------------------------------------------------ boot after boot

  /** What one boot finds: the devices, in whatever order they were listed, and what they hold. */
  datatype Boot = Boot(devs: seq<text>, disks: Disks)

  predicate SameDevices(a: seq<text>, b: seq<text>) {
    (forall i :: 0 <= i < |a| ==> a[i] in b) && (forall i :: 0 <= i < |b| ==> b[i] in a)
  }

  /** Whatever was written since, every device is recognised as what it was. */
  predicate Undisturbed(devs: seq<text>, before: Disks, after: Disks) {
    forall i :: 0 <= i < |devs| ==> Probed(before, devs[i]) == Probed(after, devs[i])
  }

  /** Boots that each find the same devices, as the one before left them. */
  ghost predicate History(devs: seq<text>, left: Disks, boots: seq<Boot>, o: Options, makes: (Mkfs, Disks) -> Made)
    decreases |boots|
  {
    boots == [] || (
      && SameDevices(devs, boots[0].devs) && Undisturbed(devs, left, boots[0].disks)
      && History(devs, After(Some(boots[0].devs), boots[0].disks, o, makes), boots[1..], o, makes))
  }

  /** The label as mkfs stores it: 16 bytes, cut off or padded with NULs. */
  function StoredLabel(volume: text): (r: seq<byte>)
    ensures |r| == 16
  {
    if |volume| >= 16 then volume[..16] else volume + Zeros(16 - |volume|)
  }

  /** An ext4 filesystem with this label. */
  predicate HoldsExt4(image: seq<byte>, volume: text) {
    HasExt4(image) && image[1144..1160] == StoredLabel(volume)
  }

  /** mkfs leaves an ext4 filesystem with the label it was given. */
  ghost predicate MakesExt4(makes: (Mkfs, Disks) -> Made) {
    forall m, disks :: makes(m, disks).image.Some? && HoldsExt4(makes(m, disks).image.value, m.volume)
  }

  /** A label that ext4 can store. */
  predicate Storable(volume: text) {
    |volume| <= 16 && 0 !in volume
  }

  lemma StoredLabelReadsBack(volume: text)
    ensures TrimNul(StoredLabel(volume)) == volume <==> Storable(volume)
  {
    if |volume| <= 16 {
      TrimNulExact(volume, 16 - |volume|);
    } else {
      TrimNulShort(StoredLabel(volume));
    }
    assert |volume| == 16 ==> volume[..16] == volume && volume + Zeros(0) == volume;
  }

  lemma {:induction false} TrimNulShort(b: seq<byte>)
    ensures |TrimNul(b)| <= |b|
  {
    if b != [] {
      TrimNulShort(b[1..]);
    }
  }

  lemma Ext4IsProbed(disks: Disks, dev: text, image: seq<byte>, volume: text)
    requires DEV + dev in disks && disks[DEV + dev] == image && HoldsExt4(image, volume)
    ensures Probed(disks, dev).Some? && Probed(disks, dev).value.volume == TrimNul(StoredLabel(volume))
  {
    hide FormatUuid, TrimNul, StoredLabel;
    OnDisk(disks, dev);
    var b := image[1024..1280];
    var x, y := b[0x78..0x78 + 16], image[1144..1160];
    assert |x| == |y| && forall k :: 0 <= k < |x| ==> x[k] == y[k];
    assert x == y;
  }

  /** The volume is d and nothing else listed carries the label or is free to format. */
  predicate Settled(devs: seq<text>, disks: Disks, d: text, volume: text) {
    && d in devs && Probed(disks, d).Some? && Probed(disks, d).value.volume == TrimNul(StoredLabel(volume))
    && forall i :: 0 <= i < |devs| && devs[i] != d ==> !Carries(disks, devs[i], ByLabel(volume)) && !Free(disks, devs[i])
  }

  lemma FirstBootSettles(devs: seq<text>, disks: Disks, o: Options, makes: (Mkfs, Disks) -> Made, d: text)
    requires o.spec == Raw("auto") && Formats(Some(devs), disks, o) == Some(DEV + d)
    requires MakesExt4(makes)
    ensures Settled(devs, After(Some(devs), disks, o, makes), d, o.volume)
  {
    hide Formats, Probed, HoldsExt4, StoredLabel, TrimNul, IsVirtual;
    AutoFormatsExactly(devs, disks, o, d);
    var call := Mkfs(DEV + d, o.fsType, o.volume);
    assert makes(call, disks).image.Some?;
    var image := makes(call, disks).image.value;
    var left := After(Some(devs), disks, o, makes);
    Ext4IsProbed(left, d, image, o.volume);
    var k: nat :| OnlyFree(devs, disks, k) && devs[k] == d;
    forall i | 0 <= i < |devs| && devs[i] != d
      ensures !Carries(left, devs[i], ByLabel(o.volume)) && !Free(left, devs[i])
    {
      assert DEV + devs[i] != DEV + d by { assert (DEV + devs[i])[5..] == devs[i] && (DEV + d)[5..] == d; }
      ProbedElsewhere(disks, left, devs[i]);
      assert !Free(disks, devs[i]);
    }
  }

  lemma ProbedElsewhere(before: Disks, after: Disks, dev: text)
    requires DEV + dev in before <==> DEV + dev in after
    requires DEV + dev in before ==> before[DEV + dev] == after[DEV + dev]
    ensures Probed(before, dev) == Probed(after, dev)
  {
    hide Parse;
    Unrolled(before, dev);
    Unrolled(after, dev);
    hide Probed, ProbedFrom;
  }

  lemma SettledStays(devs: seq<text>, disks: Disks, boot: Boot, d: text, volume: text)
    requires Settled(devs, disks, d, volume) && SameDevices(devs, boot.devs) && Undisturbed(devs, disks, boot.disks)
    ensures Settled(boot.devs, boot.disks, d, volume) && Settled(devs, boot.disks, d, volume)
  {
    hide Probed, StoredLabel, TrimNul, IsVirtual;
    var k :| 0 <= k < |devs| && devs[k] == d;
    forall i | 0 <= i < |boot.devs| && boot.devs[i] != d
      ensures !Carries(boot.disks, boot.devs[i], ByLabel(volume)) && !Free(boot.disks, boot.devs[i])
    {
      var j :| 0 <= j < |devs| && devs[j] == boot.devs[i];
    }
  }

  /** A settled machine mounts the volume if its label could be stored, otherwise nothing; it formats nothing. */
  lemma SettledBoot(boot: Boot, o: Options, d: text)
    requires o.spec == Raw("auto") && Settled(boot.devs, boot.disks, d, o.volume)
    ensures Formats(Some(boot.devs), boot.disks, o).None?
    ensures Chosen(Some(boot.devs), boot.disks, o) == if Storable(o.volume) then Some(DEV + d) else None
  {
    hide Probed, StoredLabel, TrimNul, IsVirtual, FreeOf, Choice, Storable;
    StoredLabelReadsBack(o.volume);
    AutoChoice(boot.devs, boot.disks, o);
    NoneFree(boot.devs, boot.disks);
    assert Name(DEV + d) == d;
    var k :| 0 <= k < |boot.devs| && boot.devs[k] == d;
    assert Carries(boot.disks, boot.devs[k], ByLabel(o.volume)) <==> Storable(o.volume);
  }

  /**
   * Format once, reuse for ever: after a boot that formatted d, every later boot, whatever order it
   * lists the devices in, formats nothing, and mounts d exactly when ext4 can store the label. (With
   * any other label the volume is never found again.)
   */
  lemma {:induction false} FormatOnce(devs: seq<text>, left: Disks, boots: seq<Boot>, o: Options,
                                      makes: (Mkfs, Disks) -> Made, d: text, i: nat)
    requires o.spec == Raw("auto") && i < |boots|
    requires Settled(devs, left, d, o.volume) && History(devs, left, boots, o, makes)
    ensures var list, disks := Some(boots[i].devs), boots[i].disks;
      && Formats(list, disks, o).None? && After(list, disks, o, makes) == disks
      && Chosen(list, disks, o) == if Storable(o.volume) then Some(DEV + d) else None
    decreases |boots|
  {
    hide Settled, SameDevices, Undisturbed, Formats, Chosen, Storable;
    SettledStays(devs, left, boots[0], d, o.volume);
    SettledBoot(boots[0], o, d);
    if i > 0 {
      FormatOnce(devs, boots[0].disks, boots[1..], o, makes, d, i - 1);
    }
  }

  /** The whole story, from the boot that formats. */
  lemma {:induction false} FormattedOnceThenReused(devs: seq<text>, disks: Disks, boots: seq<Boot>, o: Options,
                                makes: (Mkfs, Disks) -> Made, d: text)
    requires o.spec == Raw("auto") && Formats(Some(devs), disks, o) == Some(DEV + d)
    requires MakesExt4(makes)
    requires boots != [] && History(devs, After(Some(devs), disks, o, makes), boots, o, makes)
    ensures forall i :: 0 <= i < |boots| ==> Formats(Some(boots[i].devs), boots[i].disks, o).None?
    ensures (forall i :: 0 <= i < |boots| ==> Chosen(Some(boots[i].devs), boots[i].disks, o) == Some(DEV + d))
      <==> Storable(o.volume)
  {
    hide Settled, History, Formats, Choice, Chosen, Storable, HoldsExt4;
    FirstBootSettles(devs, disks, o, makes, d);
    var left := After(Some(devs), disks, o, makes);
    forall i | 0 <= i < |boots|
      ensures Formats(Some(boots[i].devs), boots[i].disks, o).None?
      ensures Chosen(Some(boots[i].devs), boots[i].disks, o) == if Storable(o.volume) then Some(DEV + d) else None
    {
      FormatOnce(devs, left, boots, o, makes, d, i);
    }
    var first := Chosen(Some(boots[0].devs), boots[0].disks, o);
    assert first == if Storable(o.volume) then Some(DEV + d) else None;
  }
}
