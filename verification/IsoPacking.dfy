/** A written image is as small as its form allows: nothing is left between records, extents, or at the end. */
module IsoPacking {
  import opened Bytes
  import opened IsoLayout
  import opened IsoReader
  import opened IsoRecords
  import opened IsoRoundTrip
  import opened IsoWriter

  // ------------------------------------------------------------------ order

  /** a comes before b: at the first byte where they differ, or by ending there. */
  ghost predicate ComesBefore(a: text, b: text) {
    exists k :: DiffersAt(a, b, k)
  }

  predicate DiffersAt(a: text, b: text, k: nat) {
    k <= |a| && k < |b| && a[..k] == b[..k] && (k == |a| || a[k] as int < b[k] as int)
  }

  lemma {:induction false} LessMeans(a: text, b: text)
    ensures Less(a, b) <==> ComesBefore(a, b)
  {
    if a != [] && b != [] && a[0] == b[0] {
      LessMeans(a[1..], b[1..]);
      if k: nat :| DiffersAt(a[1..], b[1..], k) {
        var x, y := a[1..], b[1..];
        assert a[..k + 1] == [a[0]] + x[..k] && b[..k + 1] == [b[0]] + y[..k];
        assert DiffersAt(a, b, k + 1);
      }
      if k: nat :| DiffersAt(a, b, k) {
        assert k > 0;
        assert a[1..][..k - 1] == a[..k][1..] && b[1..][..k - 1] == b[..k][1..];
        assert DiffersAt(a[1..], b[1..], k - 1);
      }
    } else if Less(a, b) {
      assert DiffersAt(a, b, 0);
    } else {
      forall k: nat | 0 < k <= |a| && k < |b| ensures a[..k] == b[..k] ==> a[0] == b[0] {
        SameStart(a, b, k);
      }
    }
  }

  lemma SameStart(a: text, b: text, k: nat)
    requires 0 < k <= |a| && k <= |b|
    ensures a[..k] == b[..k] ==> a[0] == b[0]
  {
    assert a[..k][0] == a[0] && b[..k][0] == b[0];
  }

  // ------------------------------------------------------------------ extents

  /** s sectors of 2048 bytes hold n bytes, with one for an empty file, and fewer would not. */
  predicate Needed(n: nat, s: int) {
    s >= 1 && n <= 2048 * s && (s > 1 ==> 2048 * (s - 1) < n)
  }

  lemma SectorsNeeded(n: nat)
    ensures Needed(n, Sectors(n))
  {
  }

  /** Each extent starts where the one before it ends. */
  lemma {:induction false} ExtentsTouch(files: seq<File>, next: nat, i: nat)
    requires i < |files|
    ensures var e := Extents(files, next);
      && e[0] == next
      && (if i + 1 < |files| then e[i + 1] else next + DataSectors(files)) == e[i] + Sectors(|files[i].data|)
    decreases |files|
  {
    hide Sectors;
    var after := next + Sectors(|files[0].data|);
    if i > 0 {
      ExtentsTouch(files[1..], after, i - 1);
    } else if |files| > 1 {
      ExtentsTouch(files[1..], after, 0);
    } else {
      assert files[1..] == [];
    }
  }

  // ------------------------------------------------------------------ records

  /** A record goes right after what is there, unless it would cross into the next block: then it opens that block. */
  predicate GoesAt(used: nat, len: nat, off: nat) {
    if used % 2048 + len <= 2048 then off == used else off % 2048 == 0 && used < off < used + 2048
  }

  lemma SlotGoes(used: nat, len: nat)
    requires len <= 441
    ensures GoesAt(used, len, Slot(used, len))
  {
  }

  lemma {:induction false} RecordsTouch(used: nat, files: seq<File>, extents: seq<nat>, i: nat)
    requires |files| == |extents| && i < |files| && AllAcceptable(files)
    ensures var es := Slots(used, files, extents);
      && es[i].rec == FileRecord(files[i], extents[i])
      && GoesAt(if i == 0 then used else es[i - 1].off + |es[i - 1].rec|, |es[i].rec|, es[i].off)
    decreases |files|
  {
    hide FileRecord, FileRecordLen, Slot, GoesAt;
    SlotsStep(used, files, extents);
    LongEnough(files[0], extents[0]);
    var rec := FileRecord(files[0], extents[0]);
    var off := Slot(used, |rec|);
    var rest := Slots(off + |rec|, files[1..], extents[1..]);
    SlotGoes(used, |rec|);
    if i > 0 {
      RecordsTouch(off + |rec|, files[1..], extents[1..], i - 1);
      assert Slots(used, files, extents)[i] == rest[i - 1];
      assert i > 1 ==> Slots(used, files, extents)[i - 1] == rest[i - 2];
    }
  }

  /** The directory ends with the sector its last record ends in. */
  lemma {:induction false} NothingAfterTheLast(out: seq<byte>, files: seq<File>, extents: seq<nat>)
    requires |files| == |extents| && files != []
    ensures var es := Slots(|out|, files, extents);
      var end := es[|files| - 1].off + |es[|files| - 1].rec|;
      end <= |Place(out, files, extents)| < end + 2048
    decreases |files|
  {
    hide FileRecord, FileRecordLen, Slot, At;
    SlotsStep(|out|, files, extents);
    var rec := FileRecord(files[0], extents[0]);
    var after := At(out, Slot(|out|, |rec|), rec);
    if |files| == 1 {
      assert files[1..] == [] && extents[1..] == [];
      assert Place(after, [], []) == PadToSector(after);
    } else {
      NothingAfterTheLast(after, files[1..], extents[1..]);
    }
  }

  /** Of the root directory: records packed from byte 93 on, and none of its sectors left over. */
  lemma {:induction false} RecordsArePacked(files: seq<File>, i: nat)
    requires i < |files| && AllAcceptable(files)
    ensures var es := RootSlots(files);
      && es[i].rec == FileRecord(files[i], RootExtents(files)[i])
      && GoesAt(if i == 0 then 93 else es[i - 1].off + |es[i - 1].rec|, |es[i].rec|, es[i].off)
      && (i == |files| - 1 ==> es[i].off + |es[i].rec| <= |Root(files)| < es[i].off + |es[i].rec| + 2048)
  {
    hide Root, Slots, FileRecord, RootExtents, GoesAt;
    RecordsTouch(FIRST_SLOT, files, RootExtents(files), i);
    LastRecord(files);
  }

  /** Of the files: extents packed from the root directory's end to the image's. */
  lemma {:induction false} ExtentsArePacked(volume: text, files: seq<File>, i: nat)
    requires i < |files|
    ensures var e := RootExtents(files);
      && e[0] * 2048 == 40960 + |Root(files)|
      && Needed(|files[i].data|, (if i + 1 < |files| then e[i + 1] else |ImageOf(volume, files)| / 2048) - e[i])
  {
    hide Root, ImageOf, RootSectors, Extents, Needed, Sectors;
    ExtentsTouch(files, SECTOR_ROOT_DIR + RootSectors(files), i);
    SectorsNeeded(|files[i].data|);
    assert |ImageOf(volume, files)| == Total(files) * 2048;
  }

  lemma LastRecord(files: seq<File>)
    requires files != []
    ensures var e := RootSlots(files)[|files| - 1];
      e.off + |e.rec| <= |Root(files)| < e.off + |e.rec| + 2048
  {
    hide Place, Slots, RootSectors, Extents;
    var rs := RootSectors(files);
    var out := SelfRecord(rs) + ParentRecord(rs);
    assert |out| == FIRST_SLOT by { hide RootExtents; }
    NothingAfterTheLast(out, files, RootExtents(files));
  }
}
