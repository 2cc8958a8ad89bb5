/** What becomes of names that Write accepts although their records do not fit. */
module IsoLongNames {
  import opened Bytes
  import opened IsoLayout
  import opened IsoReader
  import opened IsoRecords
  import opened IsoRoundTrip
  import opened IsoTheorems

  /** Longest name whose cut-off record is still too short to be one. */
  const CUT_NAME: nat := 123

  /** files[k] is the first whose name does not fit. */
  predicate FirstLong(files: seq<File>, k: nat) {
    && k < |files| && MAX_NAME < |files[k].name|
    && forall i :: 0 <= i < k ==> |files[i].name| <= MAX_NAME
  }

  lemma FirstLongLater(files: seq<File>, k: nat)
    requires FirstLong(files, k) && k > 0
    ensures FirstLong(files[1..], k - 1) && |files[0].name| <= MAX_NAME
  {
  }

  lemma OneBefore(e: Entry, slots: seq<Entry>, w: seq<Entry>, k: nat)
    requires 0 < k <= |slots| + 1
    ensures [e] + (slots[..k - 1] + w) == ([e] + slots)[..k] + w
    ensures k <= |slots| ==> ([e] + slots)[k] == slots[k - 1]
  {
    assert ([e] + slots)[..k] == [e] + slots[..k - 1];
  }

  /** The walk lists the files before that one and then stands at its record. */
  lemma {:induction false} WalkToLong(out: seq<byte>, files: seq<File>, extents: seq<nat>, n: nat, k: nat) returns (m: nat)
    requires |files| == |extents| && AllAcceptable(files) && n + 2 * |files| <= MAX_RECORDS && FirstLong(files, k)
    ensures m < MAX_RECORDS
    ensures var dir := Place(out, files, extents);
      var slots := Slots(|out|, files, extents);
      var off := slots[k].off;
      && off + |slots[k].rec| <= |dir| && dir[off..off + |slots[k].rec|] == slots[k].rec == FileRecord(files[k], extents[k])
      && Walk(dir, SECTOR, |out|, n) == (slots[..k] + Walk(dir, SECTOR, off, m).0, Walk(dir, SECTOR, off, m).1)
    decreases |files|
  {
    hide FileRecord, At, EntryName, Walk, Place, Slots, Slot, AllAcceptable;
    AllFitStep(files);
    PlaceStep(out, files, extents);
    SlotsStep(|out|, files, extents);
    LongEnough(files[0], extents[0]);
    var dir := Place(out, files, extents);
    var f, rec := files[0], FileRecord(files[0], extents[0]);
    var off := Slot(|out|, |rec|);
    var here := WalkToSlot(dir, |out|, |rec|, n);
    if k == 0 {
      m := here;
      assert [] + Walk(dir, SECTOR, off, m).0 == Walk(dir, SECTOR, off, m).0;
    } else {
      var out' := At(out, off, rec);
      FirstLongLater(files, k);
      m := WalkToLong(out', files[1..], extents[1..], here + 1, k - 1);
      FileRecordReadsBack(f, extents[0]);
      WalkFits(dir, off, here, f, rec);
      var slots := Slots(off + |rec|, files[1..], extents[1..]);
      OneBefore(Entry(off, f.name, rec), slots, Walk(dir, SECTOR, slots[k - 1].off, m).0, k);
    }
  }

  /** The same for the root directory of an image. */
  lemma RootToLong(files: seq<File>, k: nat) returns (m: nat)
    requires Writable(files) && FirstLong(files, k)
    ensures m < MAX_RECORDS
    ensures var dir, slots := Root(files), RootSlots(files);
      var off := slots[k].off;
      && off + |slots[k].rec| <= |dir|
      && dir[off..off + |slots[k].rec|] == slots[k].rec == FileRecord(files[k], RootExtents(files)[k])
      && Walk(dir, SECTOR, 0, 0) == (slots[..k] + Walk(dir, SECTOR, off, m).0, Walk(dir, SECTOR, off, m).1)
  {
    hide Walk, Root, Slots, RootSectors, Place, SelfRecord, ParentRecord, RootExtents, FileRecord, FirstLong;
    WalkRoot(files);
    var rs := RootSectors(files);
    var out := SelfRecord(rs) + ParentRecord(rs);
    SelfAndParent(rs);
    RootIsPlaced(files);
    m := WalkToLong(out, files, RootExtents(files), 2, k);
  }

  /** A record whose cut length is too short to be one ends the walk. */
  lemma CutShort(files: seq<File>, k: nat)
    requires Writable(files) && FirstLong(files, k) && |files[k].name| <= CUT_NAME
    ensures Walk(Root(files), SECTOR, 0, 0) == (RootSlots(files)[..k], Bad(Truncated))
  {
    hide Walk, Root, Slots, RootExtents, FileRecord, EntryName;
    var m := RootToLong(files, k);
    var dir, off := Root(files), RootSlots(files)[k].off;
    LongRecordIsNameless(files[k], RootExtents(files)[k], dir, off);
    CutLength(files[k].name);
    WalkTruncated(dir, off, m);
    assert RootSlots(files)[..k] + [] == RootSlots(files)[..k];
  }

  lemma WalkTruncated(dir: seq<byte>, off: nat, n: nat)
    requires off < |dir| && n < MAX_RECORDS && 0 < dir[off] < 33
    ensures Walk(dir, SECTOR, off, n) == ([], Bad(Truncated))
  {
  }

  lemma CutLength(name: text)
    requires MAX_NAME < |name| <= CUT_NAME
    ensures 0 < FileRecordLen(name) - 256 < 33
  {
  }

  lemma {:induction false} LookupCut(used: nat, files: seq<File>, extents: seq<nat>, k: nat, j: nat)
    requires |files| == |extents| && Distinct(files) && k <= j < |files|
    ensures Lookup(Slots(used, files, extents)[..k], Bad(Truncated), files[j].name) == Err(Truncated)
    decreases |files|
  {
    hide FileRecord, FileRecordLen, Describe;
    if k != 0 {
      LongEnough(files[0], extents[0]);
      var rec := FileRecord(files[0], extents[0]);
      var slots := Slots(used, files, extents);
      var rest := Slots(Slot(used, |rec|) + |rec|, files[1..], extents[1..]);
      assert slots[..k][1..] == rest[..k - 1];
      LookupCut(Slot(used, |rec|) + |rec|, files[1..], extents[1..], k - 1, j - 1);
    }
  }

  /** From the first such file on, no file of the image can be read. */
  lemma {:induction false} LongNameHidesTheRest(volume: text, files: seq<File>, k: nat, j: nat)
    requires Writable(files) && FirstLong(files, k) && |files[k].name| <= CUT_NAME && k <= j < |files|
    ensures Contents(ReaderOf(volume, files), files[j].name) == Err(Truncated)
  {
    hide Walk, Lookup, Contents, ReaderOf, Root, Slots, RootExtents, FirstLong;
    CutShort(files, k);
    LookupCut(FIRST_SLOT, files, RootExtents(files), k, j);
    assert Acceptable(files[j].name);
    LooksUp(volume, files, files[j].name);
  }

  lemma RootIsPlaced(files: seq<File>)
    ensures Root(files) ==
      Place(SelfRecord(RootSectors(files)) + ParentRecord(RootSectors(files)), files, RootExtents(files))
  {
  }

  // ------------------------------------------------------------------ past a record that was cut

  lemma {:induction false} NmLength(su: seq<byte>, off: nat, acc: text)
    requires off <= |su| && NmFrom(su, off, acc).Ok?
    ensures |NmFrom(su, off, acc).value| <= |acc| + |su| - off
    decreases |su| - off
  {
    if off + 4 <= |su| {
      var length := su[off + 2];
      if 4 <= length && off + length <= |su| {
        if su[off..off + 2] == [78, 77] && length >= 5 {
          NmLength(su, off + length, acc + su[off + 5..off + length]);
        } else if su[off..off + 2] != [78, 77] && su[off..off + 2] != [83, 84] {
          NmLength(su, off + length, acc);
        }
      }
    }
  }

  /** A record has room for the name it carries. */
  lemma RoomForTheName(rec: Rec, name: text)
    requires EntryName(rec) == Ok(Some(name))
    ensures |name| + 33 <= |rec|
  {
    hide NmFrom;
    var su := rec[if SystemUseOff(rec[32]) < |rec| then SystemUseOff(rec[32]) else |rec|..];
    if NmFrom(su, 0, []).Ok? {
      NmLength(su, 0, []);
    }
  }

  /** The one byte of a record past its header that can be large is the length of its NM entry. */
  lemma SmallBytes(f: File, extent: nat, i: nat)
    requires Acceptable(f.name) && 33 <= i < FileRecordLen(f.name)
    ensures var rec, at := FileRecord(f, extent), SystemUseOff(|f.name| + 2);
      (i != at + 2 ==> rec[i] < 157) && at + 3 < |rec| && rec[at + 3] == 1
  {
    hide FileRecord, Record, At;
    var rec := FileRecord(f, extent);
    var id, su, at := IsoName(f.name), Nm(f.name), SystemUseOff(|f.name| + 2);
    RecordParts(f, extent);
    assert rec[at + 3] == rec[at..][3] == su[3];
    if i < 33 + |id| {
      assert rec[i] == rec[33..33 + |id|][i - 33] == id[i - 33] <= 95;
    } else if i >= at {
      assert rec[i] == rec[at..][i - at] == su[i - at];
      assert i - at >= 5 ==> su[i - at] == f.name[i - at - 5];
    }
  }

  lemma RecordParts(f: File, extent: nat)
    ensures var rec, id, at := FileRecord(f, extent), IsoName(f.name), SystemUseOff(|f.name| + 2);
      && rec[33..33 + |id|] == id && rec[at..] == Nm(f.name)
      && forall i :: 33 + |id| <= i < at ==> rec[i] == 0
  {
    hide At, Both32, Both16, IsoName, Nm;
    RecordFields(IsoName(f.name), extent, |f.data|, 0, Nm(f.name));
  }

  /** From q on, a byte that could start a long record is followed by a non-zero one. */
  predicate NoLongRecordFrom(dir: seq<byte>, q: nat) {
    forall p :: q <= p < |dir| && dir[p] >= 157 ==> p + 1 < |dir| && dir[p + 1] != 0
  }

  lemma {:induction false} LookupFails(es: seq<Entry>, end: End, want: text)
    requires forall i :: 0 <= i < |es| && es[i].name == want ==> Describe(es[i].rec).Err?
    ensures Lookup(es, end, want).Err?
  {
    hide Describe;
    if es != [] && es[0].name != want {
      forall i | 0 <= i < |es[1..]| && es[1..][i].name == want ensures Describe(es[1..][i].rec).Err? {
        assert es[1..][i] == es[i + 1];
      }
      LookupFails(es[1..], end, want);
    }
  }

  /** No file with a long name is found there. */
  lemma NothingLongIsFound(dir: seq<byte>, q: nat, n: nat, es: seq<Entry>, want: text, i: nat)
    requires CUT_NAME < |want| && NoLongRecordFrom(dir, q) && es == Walk(dir, SECTOR, q, n).0
    requires i < |es| && es[i].name == want
    ensures Describe(es[i].rec).Err?
  {
    hide EntryName, Walk, FromLe32;
    WalkForward(dir, SECTOR, q, n);
    var e := es[i];
    RoomForTheName(e.rec, want);
    assert e.rec[0] == dir[e.off] && e.rec[1] == dir[e.off + 1];
  }

  /** What follows the last record of a directory, if it was cut. */
  lemma {:induction false} LastRecordThenZeros(out: seq<byte>, files: seq<File>, extents: seq<nat>, i: nat)
    requires |files| == |extents| && files != []
    requires var last := Slots(|out|, files, extents)[|files| - 1];
      last.off + |last.rec| <= i < |Place(out, files, extents)|
    ensures Place(out, files, extents)[i] == 0
    decreases |files|
  {
    hide FileRecord, FileRecordLen, At, Slot;
    SlotsStep(|out|, files, extents);
    PlaceStep(out, files, extents);
    var rec := FileRecord(files[0], extents[0]);
    var out' := At(out, Slot(|out|, |rec|), rec);
    if |files| == 1 {
      assert Place(out, files, extents) == PadToSector(out');
    } else {
      LastRecordThenZeros(out', files[1..], extents[1..], i);
    }
  }

  /** The last file of the root directory has the last record, and zeros follow it. */
  lemma LastInRoot(files: seq<File>, i: nat)
    requires Writable(files)
    requires var last := RootSlots(files)[|files| - 1]; last.off + |last.rec| <= i < |Root(files)|
    ensures Root(files)[i] == 0
  {
    hide Root, Slots, RootSectors, Place, SelfRecord, ParentRecord, RootExtents;
    var rs := RootSectors(files);
    var out := SelfRecord(rs) + ParentRecord(rs);
    SelfAndParent(rs);
    RootIsPlaced(files);
    LastRecordThenZeros(out, files, RootExtents(files), i);
  }

  lemma PastTheCut(files: seq<File>, k: nat, p: nat)
    requires Writable(files) && FirstLong(files, k) && CUT_NAME < |files[k].name| && k == |files| - 1
    requires var off := RootSlots(files)[k].off; off + 33 <= p < |Root(files)| && Root(files)[p] >= 157
    ensures p + 1 < |Root(files)| && Root(files)[p + 1] != 0
  {
    hide Root, Slots, RootExtents, FileRecord, Walk, FileRecordLen;
    var m := RootToLong(files, k);
    var slot := RootSlots(files)[k];
    var dir, rec := Root(files), slot.rec;
    assert Acceptable(files[k].name);
    if p >= slot.off + |rec| {
      LastInRoot(files, p);
      assert false;
    } else {
      var whole := dir[slot.off..slot.off + |rec|];
      assert whole[p - slot.off] == dir[p];
      SmallBytes(files[k], RootExtents(files)[k], p - slot.off);
      assert whole[p + 1 - slot.off] == dir[p + 1];
    }
  }

  /** A last file whose name is longer than that cannot be read either, though the scan goes on past its header. */
  lemma LastLongNameIsUnreadable(volume: text, files: seq<File>, k: nat)
    requires Writable(files) && FirstLong(files, k) && CUT_NAME < |files[k].name| && k == |files| - 1
    ensures Contents(ReaderOf(volume, files), files[k].name).Err?
  {
    hide Root, Slots, RootExtents, FileRecord, Walk, Lookup, Contents, ReaderOf, EntryName, Describe;
    var m := RootToLong(files, k);
    var dir, slots := Root(files), RootSlots(files);
    var off, want := slots[k].off, files[k].name;
    assert Acceptable(want);
    LongRecordIsNameless(files[k], RootExtents(files)[k], dir, off);
    var q := off + dir[off];
    assert dir[off] >= 33 by { CutStillARecord(want); }
    WalkPastNameless(dir, off, m);
    var w := Walk(dir, SECTOR, q, m + 1);
    assert NoLongRecordFrom(dir, q) by {
      forall p | q <= p < |dir| && dir[p] >= 157 ensures p + 1 < |dir| && dir[p + 1] != 0 {
        PastTheCut(files, k, p);
      }
    }
    forall i | 0 <= i < k ensures slots[i].name != want {
      SlotName(FIRST_SLOT, files, RootExtents(files), i);
      assert files[i].name != files[k].name;
    }
    var es := slots[..k] + w.0;
    forall i | 0 <= i < |es| && es[i].name == want ensures Describe(es[i].rec).Err? {
      if i >= k {
        NothingLongIsFound(dir, q, m + 1, w.0, want, i - k);
      }
    }
    LookupFails(es, w.1, want);
    LooksUp(volume, files, want);
  }

  lemma CutStillARecord(name: text)
    requires CUT_NAME < |name| <= 200
    ensures 33 <= FileRecordLen(name) - 256
  {
  }

  lemma WalkPastNameless(dir: seq<byte>, off: nat, n: nat)
    requires off < |dir| && n < MAX_RECORDS && 33 <= dir[off] && off + dir[off] <= |dir|
    requires EntryName(dir[off..off + dir[off]]) == Ok(None)
    ensures Walk(dir, SECTOR, off, n) == Walk(dir, SECTOR, off + dir[off], n + 1)
  {
    hide EntryName;
  }

  lemma {:induction false} SlotName(used: nat, files: seq<File>, extents: seq<nat>, i: nat)
    requires |files| == |extents| && i < |files|
    ensures Slots(used, files, extents)[i].name == files[i].name
    decreases |files|
  {
    hide FileRecord, FileRecordLen, Slot;
    SlotsStep(used, files, extents);
    if i > 0 {
      var rec := FileRecord(files[0], extents[0]);
      SlotName(Slot(used, |rec|) + |rec|, files[1..], extents[1..], i - 1);
    }
  }

  // ------------------------------------------------------------------ when images round-trip

  ghost predicate AllReadBack(volume: text, files: seq<File>) {
    forall i :: 0 <= i < |files| ==> Contents(ReaderOf(volume, files), files[i].name) == Ok(files[i].data)
  }

  lemma FindFirstLong(files: seq<File>, from: nat) returns (k: nat)
    requires from <= |files| && !AllFit(files)
    requires forall i :: 0 <= i < from ==> |files[i].name| <= MAX_NAME
    ensures FirstLong(files, k)
    decreases |files| - from
  {
    if from < |files| && |files[from].name| <= MAX_NAME {
      k := FindFirstLong(files, from + 1);
    } else {
      k := from;
    }
  }

  /** A name of more than 123 bytes, if there is one, comes last. */
  predicate LongestLast(files: seq<File>) {
    forall i :: 0 <= i < |files| - 1 ==> |files[i].name| <= CUT_NAME
  }

  /**
   * A list round-trips exactly when no name is longer than 107 bytes, whatever the last name is and with
   * names of up to 123 bytes before it.
   */
  lemma {:induction false} RoundTripsExactlyWhenNamesFit(volume: text, files: seq<File>)
    requires Writable(files) && LongestLast(files)
    requires forall i :: 0 <= i < |files| ==> |files[i].data| <= MAX_FILE_SIZE
    ensures AllReadBack(volume, files) <==> AllFit(files)
  {
    hide Contents, ReaderOf, Open, ImageOf;
    if AllFit(files) {
      ModestFilesAreAddressable(files);
      forall i | 0 <= i < |files| ensures Contents(ReaderOf(volume, files), files[i].name) == Ok(files[i].data) {
        ReadsBackWhatWasWritten(volume, files, i);
      }
    } else {
      var k := FindFirstLong(files, 0);
      if |files[k].name| <= CUT_NAME {
        LongNameHidesTheRest(volume, files, k, k);
      } else {
        LastLongNameIsUnreadable(volume, files, k);
      }
    }
  }

  /** For one file that is every name Write accepts: it reads back exactly when its name has at most 107 bytes. */
  lemma {:induction false} OneFileReadsBackExactly(volume: text, f: File)
    requires Acceptable(f.name) && |f.data| <= MAX_FILE_SIZE
    ensures Contents(ReaderOf(volume, [f]), f.name) == Ok(f.data) <==> |f.name| <= MAX_NAME
  {
    hide Contents, ReaderOf, Acceptable;
    RoundTripsExactlyWhenNamesFit(volume, [f]);
    assert AllFit([f]) <==> |[f][0].name| <= MAX_NAME;
    assert AllReadBack(volume, [f]) <==> Contents(ReaderOf(volume, [f]), [f][0].name) == Ok([f][0].data);
  }

  // ------------------------------------------------------------------ files and their own records

  /** The scan of the root directory lists the record that was written for files[i]. */
  ghost predicate ListedInPlace(files: seq<File>, i: nat)
    requires i < |files|
  {
    exists e :: e in Walk(Root(files), SECTOR, 0, 0).0 && e.off == RootSlots(files)[i].off
  }

  /**
   * Whatever names Write accepts: every file is listed at the record written for it if and only if no name
   * is longer than 107 bytes.
   */
  lemma {:induction false} EveryFileIsListedInPlaceExactly(files: seq<File>)
    requires Writable(files)
    ensures (forall i :: 0 <= i < |files| ==> ListedInPlace(files, i)) <==> AllFit(files)
  {
    hide Walk, Root, Slots, RootExtents;
    if AllFit(files) {
      ListsWhatWasWritten(files);
      forall i | 0 <= i < |files| ensures ListedInPlace(files, i) {
        assert RootSlots(files)[i] in Walk(Root(files), SECTOR, 0, 0).0;
      }
    } else {
      var k := FindFirstLong(files, 0);
      CutRecordIsNotListed(files, k);
    }
  }

  lemma CutRecordIsNotListed(files: seq<File>, k: nat)
    requires Writable(files) && FirstLong(files, k)
    ensures !ListedInPlace(files, k)
  {
    hide Walk, Root, Slots, RootExtents, FileRecord, EntryName;
    var m := RootToLong(files, k);
    var dir, slots := Root(files), RootSlots(files);
    var off := slots[k].off;
    assert Acceptable(files[k].name);
    LongRecordIsNameless(files[k], RootExtents(files)[k], dir, off);
    var w := Walk(dir, SECTOR, off, m).0;
    forall e | e in slots[..k] + w ensures e.off != off {
      if e in slots[..k] {
        var i :| 0 <= i < k && slots[i] == e;
        SlotsAreBefore(FIRST_SLOT, files, RootExtents(files), i, k);
      } else {
        NamelessIsPassed(dir, off, m, e);
      }
    }
  }

  lemma NamelessIsPassed(dir: seq<byte>, off: nat, n: nat, e: Entry)
    requires off < |dir| && 0 < dir[off] && off + dir[off] <= |dir| && n < MAX_RECORDS
    requires 33 <= dir[off] ==> EntryName(dir[off..off + dir[off]]) == Ok(None)
    requires e in Walk(dir, SECTOR, off, n).0
    ensures e.off > off
  {
    hide EntryName, Walk;
    if dir[off] < 33 {
      WalkTruncated(dir, off, n);
    } else {
      WalkPastNameless(dir, off, n);
      WalkForward(dir, SECTOR, off + dir[off], n + 1);
    }
  }

  lemma {:induction false} SlotsAreBefore(used: nat, files: seq<File>, extents: seq<nat>, i: nat, k: nat)
    requires |files| == |extents| && i < k < |files|
    ensures used <= Slots(used, files, extents)[i].off < Slots(used, files, extents)[k].off
    decreases |files|
  {
    hide FileRecord, FileRecordLen, Slot;
    SlotsStep(used, files, extents);
    var rec := FileRecord(files[0], extents[0]);
    var next := Slot(used, |rec|) + |rec|;
    if i > 0 {
      SlotsAreBefore(next, files[1..], extents[1..], i - 1, k - 1);
    } else {
      SlotIsAfter(next, files[1..], extents[1..], k - 1);
    }
  }

  lemma {:induction false} SlotIsAfter(used: nat, files: seq<File>, extents: seq<nat>, k: nat)
    requires |files| == |extents| && k < |files|
    ensures used <= Slots(used, files, extents)[k].off
    decreases |files|
  {
    hide FileRecord, FileRecordLen, Slot;
    SlotsStep(used, files, extents);
    if k > 0 {
      var rec := FileRecord(files[0], extents[0]);
      SlotIsAfter(Slot(used, |rec|) + |rec|, files[1..], extents[1..], k - 1);
    }
  }

  /** One file with a name of 108 bytes: Write accepts it and the reader cannot read it. */
  lemma {:induction false} NameOf108Bytes(volume: text, data: seq<byte>)
    ensures var files := [File(Fill(108, 97), data)];
      Writable(files) && Contents(ReaderOf(volume, files), files[0].name) == Err(Truncated)
  {
    var files := [File(Fill(108, 97), data)];
    hide Contents, ReaderOf;
    LongNameHidesTheRest(volume, files, 0, 0);
  }
}
