/** A cloud-init drive, written by internal/iso9660, is found again by internal/blkid. */
module DriveByLabel {
  import opened Bytes
  import L = IsoLayout
  import R = IsoRoundTrip
  import opened BlkidProbe
  import opened Blkid

  /** A label that a volume identifier can hold: at most 32 bytes, not ending in padding. */
  predicate Nameable(volume: text) {
    |volume| <= 32 && (volume == [] || (volume[|volume| - 1] != 32 && volume[|volume| - 1] != 0))
  }

  lemma PaddingReadsBack(volume: text)
    ensures TrimPadding(L.PadText(32, volume)) == volume <==> Nameable(volume)
  {
    if |volume| <= 32 {
      TrimSpaces(volume, 32 - |volume|);
      TrimPaddingShrinks(volume);
      assert |volume| == 32 ==> volume[..32] == volume && volume + Fill(0, 32) == volume;
    } else {
      TrimPaddingShrinks(L.PadText(32, volume));
    }
  }

  /** The device starts with a drive written for this volume. */
  ghost predicate HoldsDrive(disks: Disks, dev: text, volume: text) {
    DEV + dev in disks && exists files :: L.ImageOf(volume, files) <= disks[DEV + dev]
  }

  lemma DriveHead(volume: text, files: seq<L.File>, d: seq<byte>)
    requires L.ImageOf(volume, files) <= d
    ensures |d| >= 34816 && d[32768] == 1 && d[32769..32774] == CD001 && d[32808..32840] == L.PadText(32, volume)
    ensures forall i :: 0 <= i < 32768 ==> d[i] == 0
  {
    hide L.ImageOf, L.Root, L.RootSectors, L.PadText;
    var total, rs := L.Total(files), L.RootSectors(files);
    hide L.Total;
    R.ImageHead(volume, files);
    R.HeadFields(volume, total, rs);
    hide L.VolumeHead;
    var v := L.VolumeHead(volume, total, rs);
    assert v <= d;
    assert d[32769..32774] == v[32769..32774] && d[32808..32840] == v[32808..32840];
  }

  lemma IsoIsProbed(disks: Disks, dev: text, field: seq<byte>)
    requires DEV + dev in disks
    requires var d := disks[DEV + dev];
      && |d| >= 34816 && d[32768] == 1 && d[32769..32774] == CD001 && d[32808..32840] == field
      && forall i :: 0 <= i < 32768 ==> d[i] == 0
    ensures Probed(disks, dev) == Some(Info(Iso9660, [], TrimPadding(field)))
  {
    hide TrimPadding, Probed, Probe, ProbedFrom;
    var d := disks[DEV + dev];
    OnDisk(disks, dev);
    assert d[1024..1028][0] == 0 != 0xE2;
    Unrolled(disks, dev);
    IsoProbe(disks, dev, field);
  }

  lemma IsoProbe(disks: Disks, dev: text, field: seq<byte>)
    requires DEV + dev in disks
    requires var d := disks[DEV + dev]; |d| >= 34816 && d[32768] == 1 && d[32769..32774] == CD001 && d[32808..32840] == field
    ensures Probe(PROBERS[2], disks, dev) == Some(Info(Iso9660, [], TrimPadding(field)))
  {
    hide TrimPadding;
    var b := disks[DEV + dev][0..34816];
    assert b[ISO_PVD + 1..ISO_PVD + 6] == disks[DEV + dev][32769..32774];
    assert b[ISO_PVD + 40..ISO_PVD + 40 + 32] == disks[DEV + dev][32808..32840];
  }

  /** Whatever files it holds, a drive is probed as ISO 9660, by neither of the probers tried before. */
  lemma {:induction false} DriveIsProbed(disks: Disks, dev: text, volume: text)
    requires HoldsDrive(disks, dev, volume)
    ensures Probed(disks, dev) == Some(Info(Iso9660, [], TrimPadding(L.PadText(32, volume))))
  {
    hide L.ImageOf, L.PadText, TrimPadding, Probed;
    var files :| L.ImageOf(volume, files) <= disks[DEV + dev];
    DriveHead(volume, files, disks[DEV + dev]);
    IsoIsProbed(disks, dev, L.PadText(32, volume));
  }

  /**
   * A written drive is found by its label exactly when the label fits the volume identifier and does not
   * end in a space or a NUL: then LABEL= resolves to the drive's device, unless an earlier one has the label.
   */
  lemma {:induction false} WrittenDriveIsFound(devs: seq<text>, disks: Disks, k: nat, volume: text)
    requires k < |devs| && HoldsDrive(disks, devs[k], volume)
    requires forall j :: 0 <= j < k ==> !Carries(disks, devs[j], ByLabel(volume))
    ensures Carries(disks, devs[k], ByLabel(volume)) <==> Nameable(volume)
    ensures Nameable(volume) ==> Resolved(Some(devs), disks, LABEL + [EQUALS] + volume) == Ok(DEV + devs[k])
  {
    hide L.PadText, TrimPadding, Probed, HoldsDrive, Nameable, Asks;
    DriveIsProbed(disks, devs[k], volume);
    PaddingReadsBack(volume);
    LabelSpec(volume);
    assert Carries(disks, devs[k], ByLabel(volume)) <==> Nameable(volume);
    hide Carries;
    if Nameable(volume) {
      FirstIs(devs, disks, ByLabel(volume), k);
    }
  }

  lemma {:induction false} FirstIs(devs: seq<text>, disks: Disks, w: Wanted, k: nat)
    requires k < |devs| && Carries(disks, devs[k], w) && forall j :: 0 <= j < k ==> !Carries(disks, devs[j], w)
    ensures FirstCarrying(devs, disks, w) == Ok(DEV + devs[k])
  {
    hide Carries;
    if k > 0 {
      assert !Carries(disks, devs[0], w);
      FirstIs(devs[1..], disks, w, k - 1);
    }
  }
}
