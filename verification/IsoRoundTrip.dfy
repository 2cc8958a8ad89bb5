/** Writing an image and reading it back. */
module IsoRoundTrip {
  import opened Bytes
  import opened IsoLayout
  import opened IsoReader
  import opened IsoRecords

  predicate Distinct(files: seq<File>) {
    forall i, j :: 0 <= i < j < |files| ==> files[i].name != files[j].name
  }

  /** Lists that Write accepts, with the names distinct. */
  predicate Writable(files: seq<File>) {
    0 < |files| <= MAX_FILES && AllAcceptable(files) && Distinct(files)
  }

  /** Everything the image numbers fits the 32 bits it has. */
  predicate Addressable(files: seq<File>) {
    Total(files) < TWO_32 && forall i :: 0 <= i < |files| ==> |files[i].data| < TWO_32
  }

  /** How far the two records that every directory starts with reach. */
  const FIRST_SLOT: nat := 93

  function RootSlots(files: seq<File>): seq<Entry> {
    Slots(FIRST_SLOT, files, RootExtents(files))
  }

  // ------------------------------------------------------------------ layout

  /** No record crosses a block (ECMA-119 section 6.8.1.1), and none overlaps the next. */
  lemma {:induction false} NoRecordCrossesABlock(used: nat, files: seq<File>, extents: seq<nat>, i: nat)
    requires |files| == |extents| && i < |files| && AllAcceptable(files)
    ensures var es := Slots(used, files, extents);
      && used <= es[i].off && es[i].off / SECTOR == (es[i].off + |es[i].rec| - 1) / SECTOR
      && (i + 1 < |files| ==> es[i].off + |es[i].rec| <= es[i + 1].off)
    decreases |files|
  {
    hide FileRecord, FileRecordLen;
    LongEnough(files[0], extents[0]);
    var rec := FileRecord(files[0], extents[0]);
    var off := Slot(used, |rec|);
    InOneBlock(used, |rec|);
    if 0 < i {
      NoRecordCrossesABlock(off + |rec|, files[1..], extents[1..], i - 1);
    } else if 1 < |files| {
      NoRecordCrossesABlock(off + |rec|, files[1..], extents[1..], 0);
    }
  }

  lemma InOneBlock(used: nat, len: nat)
    requires 0 < len <= 441
    ensures var off := Slot(used, len); off / SECTOR == (off + len - 1) / SECTOR
  {
  }

  /** File extents follow one another, each as long as its data needs, up to the end of the image. */
  lemma {:induction false} ExtentsDisjoint(files: seq<File>, next: nat, i: nat)
    requires i < |files|
    ensures var e := Extents(files, next);
      && next <= e[i] && |files[i].data| <= Sectors(|files[i].data|) * SECTOR
      && e[i] + Sectors(|files[i].data|) <= next + DataSectors(files)
      && forall j :: i < j < |files| ==> e[i] + Sectors(|files[i].data|) <= e[j]
    decreases |files|
  {
    var rest := next + Sectors(|files[0].data|);
    if 0 < i {
      ExtentsDisjoint(files[1..], rest, i - 1);
    } else {
      forall j | 0 < j < |files| ensures Extents(files, next)[0] + Sectors(|files[0].data|) <= Extents(files, next)[j] {
        ExtentsDisjoint(files[1..], rest, j - 1);
      }
    }
  }

  lemma EnoughSectors(n: nat)
    ensures n <= Sectors(n) * SECTOR
  {
  }

  /** Each file's bytes stand at its own extent. */
  lemma {:induction false} DataInPlace(done: seq<byte>, files: seq<File>, next: nat, i: nat)
    requires |done| <= next * SECTOR && i < |files|
    ensures var img := WithData(done, files, next);
      var off := Extents(files, next)[i] * SECTOR;
      off + |files[i].data| <= |img| && img[off..off + |files[i].data|] == files[i].data
    decreases |files|
  {
    hide At, Sectors;
    var after := At(done, next * SECTOR, files[0].data);
    var img := WithData(done, files, next);
    EnoughSectors(|files[0].data|);
    if i == 0 {
      assert after <= img;
      SliceOfPrefix(after, img, next * SECTOR, |after|);
      assert after[next * SECTOR..|after|] == after[next * SECTOR..];
    } else {
      DataInPlace(after, files[1..], next + Sectors(|files[0].data|), i - 1);
    }
  }

  lemma {:induction false} RootIsSmall(out: seq<byte>, files: seq<File>, extents: seq<nat>)
    requires |files| == |extents| && AllAcceptable(files)
    ensures |Place(out, files, extents)| < |out| + 2489 * |files| + SECTOR
    decreases |files|
  {
    hide FileRecord, FileRecordLen;
    if files != [] {
      LongEnough(files[0], extents[0]);
      var rec := FileRecord(files[0], extents[0]);
      RootIsSmall(At(out, Slot(|out|, |rec|), rec), files[1..], extents[1..]);
    }
  }

  // ------------------------------------------------------------------ what the image says of itself

  lemma HeadFields(volume: text, total: nat, rootSectors: nat)
    ensures var v := VolumeHead(volume, total, rootSectors);
      && v[PVD] == 1 && v[PVD + 1..PVD + 6] == CD001 && v[PVD + 40..PVD + 72] == PadText(32, volume)
      && v[PVD + 128..PVD + 132] == Both16(SECTOR) && v[PVD + 156..PVD + 190] == RootRecord(rootSectors)
      && forall i :: 0 <= i < PVD ==> v[i] == 0
  {
    var v1 := At([], PVD, [1]);
    var v2 := At(v1, PVD + 1, CD001);
    var v3 := At(v2, PVD + 6, [1]);
    var v4 := At(v3, PVD + 8, PadText(32, []));
    var v5 := At(v4, PVD + 40, PadText(32, volume));
    var v6 := At(v5, PVD + 80, Both32(total));
    var v7 := At(v6, PVD + 120, Both16(1));
    var v8 := At(v7, PVD + 124, Both16(1));
    var v9 := At(v8, PVD + 128, Both16(SECTOR));
    var v10 := At(v9, PVD + 132, Both32(10));
    var v11 := At(v10, PVD + 140, Le32(SECTOR_PATH_TABLE_L));
    var v12 := At(v11, PVD + 148, Be32(SECTOR_PATH_TABLE_M));
    var v := At(v12, PVD + 156, RootRecord(rootSectors));
    assert v == VolumeHead(volume, total, rootSectors);
    hide At, VolumeHead, PadText, Both16, Both32, Le32, Be32, RootRecord;
    assert v1 <= v2 <= v3 <= v4 <= v5 <= v6 <= v7 <= v8 <= v9 <= v10 <= v11 <= v12 <= v;
    assert v1[PVD..][0] == 1;
    SliceOfPrefix(v2, v, PVD + 1, PVD + 6);
    SliceOfPrefix(v5, v, PVD + 40, PVD + 72);
    SliceOfPrefix(v9, v, PVD + 128, PVD + 132);
    assert v[PVD + 156..PVD + 190] == v[PVD + 156..];
    assert v2[PVD + 1..PVD + 6] == v2[PVD + 1..] && v5[PVD + 40..PVD + 72] == v5[PVD + 40..];
    assert v9[PVD + 128..PVD + 132] == v9[PVD + 128..];
  }

  /** The head and the root directory stand where they belong. */
  lemma ImageHead(volume: text, files: seq<File>)
    ensures var img := ImageOf(volume, files);
      var at := SECTOR_ROOT_DIR * SECTOR;
      && VolumeHead(volume, Total(files), RootSectors(files)) <= img
      && at + |Root(files)| <= |img| && img[at..at + |Root(files)|] == Root(files)
  {
    hide Root, RootSectors, Total, VolumeHead;
    var rs := RootSectors(files);
    var img := ImageOf(volume, files);
    var v1 := WithRoot(volume, files);
    var v2 := WithData(v1, files, SECTOR_ROOT_DIR + rs);
    hide ImageOf, WithRoot, WithData;
    assert v1 <= v2 <= img;
    assert VolumeHead(volume, Total(files), rs) <= Volume(volume, Total(files), rs) <= Prologue(volume, Total(files), rs) <= v1 by {
      hide Volume, Prologue;
    }
    var at := SECTOR_ROOT_DIR * SECTOR;
    SliceOfPrefix(v1, img, at, |v1|);
    assert v1[at..|v1|] == v1[at..];
  }

  lemma StillThere(a: seq<byte>, r: seq<byte>, off: nat, data: seq<byte>)
    requires a <= r && off + |data| <= |a| && a[off..off + |data|] == data
    ensures off + |data| <= |r| && r[off..off + |data|] == data
  {
  }

  lemma {:induction false} ImageData(volume: text, files: seq<File>, i: nat)
    requires i < |files|
    ensures var img := ImageOf(volume, files);
      var off := RootExtents(files)[i] * SECTOR;
      off + |files[i].data| <= |img| && img[off..off + |files[i].data|] == files[i].data
  {
    hide RootSectors, Total, WithRoot, ImageOf, WithData, Extents, At, Sectors, DataSectors, Root;
    var rs := RootSectors(files);
    var v1 := WithRoot(volume, files);
    DataInPlace(v1, files, SECTOR_ROOT_DIR + rs, i);
    var v2 := WithData(v1, files, SECTOR_ROOT_DIR + rs);
    var img := ImageOf(volume, files);
    StillThere(v2, img, RootExtents(files)[i] * SECTOR, files[i].data);
  }
}
