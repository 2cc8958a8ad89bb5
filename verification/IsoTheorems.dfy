/** The reader undoes the writer, on every list of files that the format can hold. */
module IsoTheorems {
  import opened Bytes
  import opened IsoLayout
  import opened IsoReader
  import opened IsoRecords
  import opened IsoRoundTrip

  /** Open accepts every image of Write, whatever the files, and finds its root directory. */
  lemma {:induction false} OpensWhatWasWritten(volume: text, files: seq<File>)
    requires RootSectors(files) * SECTOR < TWO_32
    ensures Open(ImageOf(volume, files)) ==
      Ok(Reader(ImageOf(volume, files), SECTOR, SECTOR_ROOT_DIR, RootSectors(files) * SECTOR))
  {
    hide ImageOf, VolumeHead, RootSectors, Root, RootRecord, FromLe32, Open, Both16, PadText, DataSectors;
    var rs := RootSectors(files);
    ImageHead(volume, files);
    HeadFields(volume, Total(files), rs);
    RootRecordFields(rs);
    OpensOn(ImageOf(volume, files), VolumeHead(volume, Total(files), rs), rs);
  }

  /** Open looks at nothing but the head. */
  lemma OpensOn(img: seq<byte>, v: seq<byte>, rs: nat)
    requires v <= img && |v| == PVD + 190 && PVD + SECTOR <= |img| && rs * SECTOR < TWO_32
    requires v[PVD] == 1 && v[PVD + 1..PVD + 6] == CD001
    requires v[PVD + 128..PVD + 132] == Both16(SECTOR) && v[PVD + 156..PVD + 190] == RootRecord(rs)
    requires FromLe32(RootRecord(rs)[2..]) == SECTOR_ROOT_DIR
    requires FromLe32(RootRecord(rs)[10..]) == rs * SECTOR % TWO_32
    ensures Open(img) == Ok(Reader(img, SECTOR, SECTOR_ROOT_DIR, rs * SECTOR))
  {
    hide RootRecord, FromLe32;
    var pvd := img[PVD..PVD + SECTOR];
    SameInside(v, img, 1, 6);
    SameInside(v, img, 128, 132);
    SameInside(v, img, 156, 190);
    assert pvd[0] == v[PVD];
    assert Both16(SECTOR)[0] == 0 && Both16(SECTOR)[1] == 8;
    assert pvd[128] == pvd[128..132][0] && pvd[129] == pvd[128..132][1];
  }

  lemma SameInside(v: seq<byte>, img: seq<byte>, i: nat, j: nat)
    requires v <= img && i <= j <= SECTOR && PVD + j <= |v| && PVD + SECTOR <= |img|
    ensures img[PVD..PVD + SECTOR][i..j] == v[PVD + i..PVD + j]
  {
    SliceOfSlice(img, PVD, PVD + SECTOR, i, j);
    SliceOfPrefix(v, img, PVD + i, PVD + j);
  }

  lemma RootRecordFields(rootSectors: nat)
    ensures FromLe32(RootRecord(rootSectors)[2..]) == SECTOR_ROOT_DIR
    ensures FromLe32(RootRecord(rootSectors)[10..]) == rootSectors * SECTOR % TWO_32
  {
    RecordFields(ID_SELF, SECTOR_ROOT_DIR, rootSectors * SECTOR, FLAG_DIRECTORY, []);
    var r := RootRecord(rootSectors);
    hide RootRecord, Record, FromLe32, Both32;
    FieldReadsBack(r, 2, SECTOR_ROOT_DIR);
    FieldReadsBack(r, 10, rootSectors * SECTOR);
  }

  lemma RootFits(files: seq<File>)
    requires |files| <= MAX_FILES && AllAcceptable(files)
    ensures 0 < RootSectors(files) * SECTOR <= MAX_RECORDS * SECTOR
  {
    hide Place, RootSectors;
    var out := SelfRecord(RootSectors(files)) + ParentRecord(RootSectors(files));
    RootIsSmall(out, files, RootExtents(files));
    assert |Root(files)| == RootSectors(files) * SECTOR;
    assert Root(files) == Place(out, files, RootExtents(files));
    assert |out| == FIRST_SLOT by {
      SelfAndParent(RootSectors(files));
    }
  }

  lemma SelfAndParent(rs: nat)
    ensures var out := SelfRecord(rs) + ParentRecord(rs);
      && |out| == FIRST_SLOT && out[0] == 59 && out[59] == 34
      && EntryName(out[..59]) == Ok(None) && EntryName(out[59..93]) == Ok(None)
  {
    hide Record, RockRidge, EntryName;
    RecordFields(ID_SELF, SECTOR_ROOT_DIR, rs * SECTOR, FLAG_DIRECTORY, SP + ER);
    RecordFields(ID_PARENT, SECTOR_ROOT_DIR, rs * SECTOR, FLAG_DIRECTORY, []);
    var a, b := SelfRecord(rs), ParentRecord(rs);
    assert (a + b)[..59] == a && (a + b)[59..93] == b;
    assert a[33..34][0] == 0 && b[33..34][0] == 1;
    Nameless(a);
    Nameless(b);
  }

  lemma Nameless(rec: seq<byte>)
    requires 34 <= |rec| && rec[32] == 1 && (rec[33] == 0 || rec[33] == 1)
    ensures EntryName(rec) == Ok(None)
  {
    hide RockRidge;
  }

  /** The two records every directory starts with are passed over. */
  lemma WalkRoot(files: seq<File>)
    ensures Walk(Root(files), SECTOR, 0, 0) == Walk(Root(files), SECTOR, FIRST_SLOT, 2)
  {
    var rs := RootSectors(files);
    var root := Root(files);
    var out := SelfRecord(rs) + ParentRecord(rs);
    SelfAndParent(rs);
    assert out <= root by {
      hide Place, SelfRecord, ParentRecord;
    }
    hide Root, RootSectors, EntryName, SelfRecord, ParentRecord;
    assert root[0] == 59 && root[59] == 34;
    assert root[0..59] == out[..59] && root[59..93] == out[59..93];
    assert Walk(root, SECTOR, 0, 0) == Walk(root, SECTOR, 59, 1);
  }

  /**
   * Listing the root directory of an image gives exactly the files written, each at its offset with
   * its own name, extent and size, if and only if no name is longer than 107 bytes: past that a
   * record's length does not fit its one-byte field, although Write accepts names of up to 200.
   */
  lemma {:induction false} ListsWhatWasWritten(files: seq<File>)
    requires |files| <= MAX_FILES && AllAcceptable(files)
    ensures Walk(Root(files), SECTOR, 0, 0) == (RootSlots(files), AtEnd) <==> AllFit(files)
  {
    WalkRoot(files);
    var rs := RootSectors(files);
    var out := SelfRecord(rs) + ParentRecord(rs);
    assert |out| == FIRST_SLOT by {
      SelfAndParent(rs);
    }
    WalkPlaced(out, files, RootExtents(files), 2);
    hide Place, Slots, Walk, SelfRecord, ParentRecord, RootSectors;
    assert Root(files) == Place(out, files, RootExtents(files));
  }

  lemma {:induction false} LookupSlot(used: nat, files: seq<File>, extents: seq<nat>, i: nat)
    requires |files| == |extents| && Distinct(files) && i < |files|
    ensures Lookup(Slots(used, files, extents), AtEnd, files[i].name) ==
      Ok(Found(extents[i] % TWO_32, |files[i].data| % TWO_32, 0))
    decreases |files|
  {
    hide FileRecord, FileRecordLen, Describe;
    FileFields(files[0], extents[0]);
    var rec := FileRecord(files[0], extents[0]);
    var rest := Slots(Slot(used, |rec|) + |rec|, files[1..], extents[1..]);
    assert Slots(used, files, extents)[1..] == rest;
    if 0 < i {
      LookupSlot(Slot(used, |rec|) + |rec|, files[1..], extents[1..], i - 1);
    }
  }

  lemma {:induction false} LookupNothing(used: nat, files: seq<File>, extents: seq<nat>, want: text)
    requires |files| == |extents| && forall i :: 0 <= i < |files| ==> files[i].name != want
    ensures Lookup(Slots(used, files, extents), AtEnd, want) == Err(NotExist)
    decreases |files|
  {
    hide FileRecord, FileRecordLen, Describe;
    if files != [] {
      LongEnough(files[0], extents[0]);
      var rec := FileRecord(files[0], extents[0]);
      var rest := Slots(Slot(used, |rec|) + |rec|, files[1..], extents[1..]);
      assert Slots(used, files, extents)[1..] == rest;
      LookupNothing(Slot(used, |rec|) + |rec|, files[1..], extents[1..], want);
    }
  }

  /** The reader that Open makes of an image. */
  function ReaderOf(volume: text, files: seq<File>): (r: Reader)
    ensures r.blockSize > 0
  {
    Reader(ImageOf(volume, files), SECTOR, SECTOR_ROOT_DIR, RootSectors(files) * SECTOR)
  }

  lemma FindsInRoot(volume: text, files: seq<File>, want: text)
    requires |files| <= MAX_FILES && AllAcceptable(files)
    ensures var w := Walk(Root(files), SECTOR, 0, 0);
      FindIn(ReaderOf(volume, files), SECTOR_ROOT_DIR, RootSectors(files) * SECTOR, want) == Lookup(w.0, w.1, want)
  {
    hide ImageOf, Root, RootSectors, Walk, Lookup, VolumeHead, Total, AllAcceptable;
    RootFits(files);
    ImageHead(volume, files);
  }

  lemma LooksUp(volume: text, files: seq<File>, want: text)
    requires |files| <= MAX_FILES && AllAcceptable(files) && OneComponent(want)
    ensures var w := Walk(Root(files), SECTOR, 0, 0);
      Contents(ReaderOf(volume, files), want) ==
        match Lookup(w.0, w.1, want)
        case Err(e) => Err(e)
        case Ok(f) => if IsDirectory(f.flags) then Err(WrongKind) else FileBytes(ReaderOf(volume, files), f.lba, f.size)
  {
    OnePart(want);
    FindsInRoot(volume, files, want);
    hide Walk, Lookup, FindIn, Root, SplitSlash, TrimSlashes, FileBytes, RootSectors, Resolve, ImageOf;
    ResolvesOne(ReaderOf(volume, files), SECTOR_ROOT_DIR, RootSectors(files) * SECTOR, want);
  }

  /**
   * The round trip. Every file reads back as it was written, the empty ones included; one larger
   * than 8 MiB, which Write does not refuse, reads back as too big.
   */
  lemma {:induction false} ReadsBackWhatWasWritten(volume: text, files: seq<File>, i: nat)
    requires Writable(files) && AllFit(files) && Addressable(files) && i < |files|
    ensures Open(ImageOf(volume, files)) == Ok(ReaderOf(volume, files))
    ensures Contents(ReaderOf(volume, files), files[i].name) ==
      if |files[i].data| <= MAX_FILE_SIZE then Ok(files[i].data) else Err(TooBig)
  {
    hide Contents, RootExtents, ImageOf, Open, RootSectors, FileBytes, Addressable, AllFit;
    RootFits(files);
    OpensWhatWasWritten(volume, files);
    hide ReaderOf;
    FindsFile(volume, files, i);
    BytesInPlace(volume, files, i);
  }

  lemma FindsFile(volume: text, files: seq<File>, i: nat)
    requires Writable(files) && AllFit(files) && Addressable(files) && i < |files|
    ensures Contents(ReaderOf(volume, files), files[i].name) ==
      FileBytes(ReaderOf(volume, files), RootExtents(files)[i], |files[i].data|)
  {
    hide Walk, Lookup, Contents, ImageOf, Root, Slots, RootSectors, Extents, DataSectors, FileBytes, ReaderOf, Distinct;
    ListsWhatWasWritten(files);
    LookupSlot(FIRST_SLOT, files, RootExtents(files), i);
    assert Acceptable(files[i].name);
    LooksUp(volume, files, files[i].name);
    ExtentsDisjoint(files, SECTOR_ROOT_DIR + RootSectors(files), i);
  }

  lemma BytesInPlace(volume: text, files: seq<File>, i: nat)
    requires i < |files|
    ensures FileBytes(ReaderOf(volume, files), RootExtents(files)[i], |files[i].data|) ==
      if |files[i].data| <= MAX_FILE_SIZE then Ok(files[i].data) else Err(TooBig)
  {
    hide ImageOf, RootExtents, RootSectors;
    ImageData(volume, files, i);
  }

  /** Any other name of one component is reported absent, and nothing else. */
  lemma {:induction false} OtherNamesDoNotExist(volume: text, files: seq<File>, name: text)
    requires Writable(files) && AllFit(files) && OneComponent(name)
    requires forall i :: 0 <= i < |files| ==> files[i].name != name
    ensures Contents(ReaderOf(volume, files), name) == Err(NotExist)
  {
    hide Walk, Lookup, Contents, Root, Slots, ReaderOf, RootExtents, FileBytes;
    ListsWhatWasWritten(files);
    LookupNothing(FIRST_SLOT, files, RootExtents(files), name);
    LooksUp(volume, files, name);
  }

  lemma {:induction false} DataSectorsBound(files: seq<File>)
    requires forall i :: 0 <= i < |files| ==> |files[i].data| <= MAX_FILE_SIZE
    ensures DataSectors(files) <= |files| * 4096
  {
    if files != [] {
      DataSectorsBound(files[1..]);
    }
  }

  /** Up to 64 files of up to 8 MiB need nothing that 32 bits cannot address. */
  lemma ModestFilesAreAddressable(files: seq<File>)
    requires |files| <= MAX_FILES && AllAcceptable(files)
    requires forall i :: 0 <= i < |files| ==> |files[i].data| <= MAX_FILE_SIZE
    ensures Addressable(files)
  {
    RootFits(files);
    DataSectorsBound(files);
    hide RootSectors;
  }
}
