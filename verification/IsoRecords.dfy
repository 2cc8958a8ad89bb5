/** What the reader makes of the records that the writer writes. */
module IsoRecords {
  import opened Bytes
  import opened IsoLayout
  import opened IsoReader

  /** Longest name whose record still fits its one-byte length. */
  const MAX_NAME: nat := 107

  /** Names that Write accepts, restricted to ASCII. */
  predicate Acceptable(name: text) {
    && 0 < |name| <= 200
    && forall i :: 0 <= i < |name| ==> name[i] < 128 && name[i] != 47 && name[i] != 92
  }

  lemma SliceOfPrefix(a: seq<byte>, r: seq<byte>, i: nat, j: nat)
    requires a <= r && i <= j <= |a|
    ensures r[i..j] == a[i..j]
  {
  }

  lemma RecordFields(id: seq<byte>, extent: nat, size: nat, flags: byte, su: seq<byte>)
    ensures var r := Record(id, extent, size, flags, su);
      && r[0] == |r| % 256 && r[1] == 0 && r[2..10] == Both32(extent) && r[10..18] == Both32(size)
      && r[25] == flags && r[26] == 0 && r[27] == 0 && r[32] == |id| % 256
      && r[33..33 + |id|] == id && r[SystemUseOff(|id|)..] == su
  {
    var r1 := At([], 0, [(SystemUseOff(|id|) + |su|) % 256]);
    var r2 := At(r1, 1, [0]);
    var r3 := At(r2, 2, Both32(extent));
    var r4 := At(r3, 10, Both32(size));
    var r5 := At(r4, 18, TIMESTAMP);
    var r6 := At(r5, 25, [flags]);
    var r7 := At(r6, 26, [0]);
    var r8 := At(r7, 27, [0]);
    var r9 := At(r8, 28, Both16(1));
    var r10 := At(r9, 32, [|id| % 256]);
    var r11 := At(r10, 33, id);
    var r := At(r11, SystemUseOff(|id|), su);
    assert r == Record(id, extent, size, flags, su);
    hide At, Record, Both32, Both16;
    assert r3 <= r4 <= r5 <= r6 <= r7 <= r8 <= r9 <= r10 <= r11 <= r;
    assert r1 <= r2 <= r3;
    SliceOfPrefix(r3, r, 2, 10);
    SliceOfPrefix(r4, r, 10, 18);
    SliceOfPrefix(r11, r, 33, 33 + |id|);
    assert r6[25..][0] == flags && r7[26..][0] == 0 && r8[27..][0] == 0 && r10[32..][0] == |id| % 256;
    assert r2[1..][0] == 0 && r1[0..][0] == (SystemUseOff(|id|) + |su|) % 256;
  }

  lemma NmReadsBack(name: text)
    requires 0 < |name| <= 200
    ensures RockRidge(Nm(name)) == Ok(Some(name))
  {
    var su := Nm(name);
    assert su[0..2] == [78, 77] && su[2] == 5 + |name|;
    assert su[5..|su|] == name;
    assert [] + name == name;
    assert NmFrom(su, |su|, name) == Ok(name);
  }

  lemma FieldReadsBack(r: seq<byte>, i: nat, v: nat)
    requires i + 8 <= |r| && r[i..i + 8] == Both32(v)
    ensures FromLe32(r[i..]) == v % TWO_32
  {
    var n := v % TWO_32;
    Le32RoundTrip(n);
    assert Both32(v)[..4] == Le32(n);
    assert r[i..][..4] == r[i..i + 8][..4];
    assert FromLe32(r[i..]) == FromLe32(Le32(n));
  }

  lemma FileFields(f: File, extent: nat)
    ensures var rec := FileRecord(f, extent);
      && 34 <= |rec| && rec[0] == FileRecordLen(f.name) % 256 && rec[32] == (|f.name| + 2) % 256
      && rec[SystemUseOff(|f.name| + 2)..] == Nm(f.name)
      && Describe(rec) == Ok(Found(extent % TWO_32, |f.data| % TWO_32, 0))
  {
    var rec := FileRecord(f, extent);
    RecordFields(IsoName(f.name), extent, |f.data|, 0, Nm(f.name));
    hide Record, FileRecord, IsoName, Nm, At, Both32, FromLe32;
    FieldReadsBack(rec, 2, extent);
    FieldReadsBack(rec, 10, |f.data|);
  }

  lemma NamedByRockRidge(rec: seq<byte>, name: text)
    requires 0 < |name| <= MAX_NAME && |rec| == FileRecordLen(name) && rec[32] == |name| + 2
    requires RockRidge(rec[SystemUseOff(|name| + 2)..]) == Ok(Some(name))
    ensures EntryName(rec) == Ok(Some(name))
  {
    hide RockRidge, NormaliseName;
  }

  /** A record that fits its length byte reads back as the file it was written for. */
  lemma {:induction false} FileRecordReadsBack(f: File, extent: nat)
    requires 0 < |f.name| <= MAX_NAME
    ensures var rec := FileRecord(f, extent);
      rec[0] == |rec| && EntryName(rec) == Ok(Some(f.name))
  {
    hide FileRecord, Nm, RockRidge, EntryName, Describe;
    FileFields(f, extent);
    NmReadsBack(f.name);
    NamedByRockRidge(FileRecord(f, extent), f.name);
  }

  /**
   * A record that does not fit is cut short by its length byte: what is left of it is either too
   * short to be a record or too short for its own name.
   */
  lemma LongRecordIsNameless(f: File, extent: nat, dir: seq<byte>, off: nat)
    requires MAX_NAME < |f.name| <= 200
    requires off + FileRecordLen(f.name) <= |dir| && dir[off..off + FileRecordLen(f.name)] == FileRecord(f, extent)
    ensures dir[off] == FileRecordLen(f.name) - 256 && 0 < dir[off] && off + dir[off] <= |dir|
    ensures 33 <= dir[off] ==> EntryName(dir[off..off + dir[off]]) == Ok(None)
  {
    FileFields(f, extent);
    hide FileRecord, Nm, RockRidge;
    var whole := dir[off..off + FileRecordLen(f.name)];
    assert dir[off] == whole[0];
    if 33 <= dir[off] {
      var rec := dir[off..off + dir[off]];
      assert rec[32] == whole[32];
    }
  }

  // ------------------------------------------------------------------ the whole directory

  /** The entries that the writer means to make: where each record goes and what it says. */
  function Slots(used: nat, files: seq<File>, extents: seq<nat>): (es: seq<Entry>)
    requires |files| == |extents|
    ensures |es| == |files|
    decreases |files|
  {
    if files == [] then []
    else
      var rec := FileRecord(files[0], extents[0]);
      LongEnough(files[0], extents[0]);
      var off := Slot(used, |rec|);
      [Entry(off, files[0].name, rec)] + Slots(off + |rec|, files[1..], extents[1..])
  }

  lemma LongEnough(f: File, extent: nat)
    ensures 33 <= |FileRecord(f, extent)|
    ensures |f.name| <= 200 ==> |FileRecord(f, extent)| <= 441
  {
    hide FileRecord;
  }

  predicate AllAcceptable(files: seq<File>) {
    forall i :: 0 <= i < |files| ==> Acceptable(files[i].name)
  }

  predicate AllFit(files: seq<File>) {
    forall i :: 0 <= i < |files| ==> |files[i].name| <= MAX_NAME
  }

  lemma WalkPadding(dir: seq<byte>, off: nat, next: nat, n: nat)
    requires off < next < |dir| && n < MAX_RECORDS && dir[off] == 0
    requires off % SECTOR != 0 && next == off + (SECTOR - off % SECTOR)
    ensures Walk(dir, SECTOR, off, n) == Walk(dir, SECTOR, next, n + 1)
  {
    assert next == NextBlock(off, SECTOR);
  }

  /** Reaching the end of what was placed ends the walk. */
  lemma WalkEnd(out: seq<byte>, n: nat)
    ensures Walk(PadToSector(out), SECTOR, |out|, n) == ([], AtEnd)
  {
    var dir := PadToSector(out);
    if |out| < |dir| && n < MAX_RECORDS {
      assert dir[|out|] == 0;
      assert NextBlock(|out|, SECTOR) >= |dir|;
    }
  }

  lemma PlaceStep(out: seq<byte>, files: seq<File>, extents: seq<nat>)
    requires |files| == |extents| && files != []
    ensures var dir := Place(out, files, extents);
      var rec := FileRecord(files[0], extents[0]);
      var off := Slot(|out|, |rec|);
      && off + |rec| <= |dir| && dir[off..off + |rec|] == rec
      && dir == Place(At(out, off, rec), files[1..], extents[1..])
      && (off > |out| ==> dir[|out|] == 0)
  {
    hide FileRecord, At, FileRecordLen;
    var dir := Place(out, files, extents);
    var rec := FileRecord(files[0], extents[0]);
    var off := Slot(|out|, |rec|);
    var out' := At(out, off, rec);
    assert out' <= dir;
    assert dir[off..off + |rec|] == out'[off..];
  }

  /** A walk that reaches the end of what was placed so far goes on at the next record. */
  lemma WalkToSlot(dir: seq<byte>, used: nat, len: nat, n: nat) returns (m: nat)
    requires n < MAX_RECORDS && len <= SECTOR && Slot(used, len) < |dir| && (Slot(used, len) > used ==> dir[used] == 0)
    ensures n <= m <= n + 1 && Walk(dir, SECTOR, used, n) == Walk(dir, SECTOR, Slot(used, len), m)
  {
    hide Walk;
    m := n;
    if Slot(used, len) > used {
      WalkPadding(dir, used, Slot(used, len), n);
      m := n + 1;
    }
  }

  lemma SlotsStep(used: nat, files: seq<File>, extents: seq<nat>)
    requires |files| == |extents| && files != []
    ensures var rec := FileRecord(files[0], extents[0]);
      var off := Slot(used, |rec|);
      33 <= |rec| && Slots(used, files, extents) == [Entry(off, files[0].name, rec)] + Slots(off + |rec|, files[1..], extents[1..])
  {
    hide FileRecord, FileRecordLen, Slot;
    LongEnough(files[0], extents[0]);
  }

  lemma NothingPlaced(out: seq<byte>)
    ensures Place(out, [], []) == PadToSector(out) && Slots(|out|, [], []) == []
  {
  }

  lemma AllFitStep(files: seq<File>)
    requires files != []
    ensures AllFit(files) <==> |files[0].name| <= MAX_NAME && AllFit(files[1..])
    ensures AllAcceptable(files) ==> Acceptable(files[0].name) && AllAcceptable(files[1..])
  {
    hide Acceptable;
    assert files == [files[0]] + files[1..];
  }

  /**
   * Walking what was placed lists exactly the writer's entries, offsets, names and contents, if and
   * only if every name fits.
   */
  lemma {:induction false} WalkPlaced(out: seq<byte>, files: seq<File>, extents: seq<nat>, n: nat)
    requires |files| == |extents| && AllAcceptable(files) && n + 2 * |files| <= MAX_RECORDS
    ensures Walk(Place(out, files, extents), SECTOR, |out|, n) == (Slots(|out|, files, extents), AtEnd) <==> AllFit(files)
    decreases |files|
  {
    hide FileRecord, FileRecordLen, At, EntryName, Walk, Place, Slots, Slot, AllAcceptable, AllFit, PadToSector;
    if files == [] {
      assert AllFit(files) by { EmptyFits(); }
      NothingPlaced(out);
      WalkEnd(out, n);
    } else {
      AllFitStep(files);
      PlaceStep(out, files, extents);
      SlotsStep(|out|, files, extents);
      LongEnough(files[0], extents[0]);
      var dir := Place(out, files, extents);
      var f, rec := files[0], FileRecord(files[0], extents[0]);
      var off := Slot(|out|, |rec|);
      var m := WalkToSlot(dir, |out|, |rec|, n);
      if |f.name| <= MAX_NAME {
        var out' := At(out, off, rec);
        WalkPlaced(out', files[1..], extents[1..], m + 1);
        FileRecordReadsBack(f, extents[0]);
        WalkFits(dir, off, m, f, rec);
        SameTails(Entry(off, f.name, rec), Walk(dir, SECTOR, off + |rec|, m + 1).0, Slots(off + |rec|, files[1..], extents[1..]));
      } else {
        LongRecordIsNameless(f, extents[0], dir, off);
        WalkSkips(dir, off, m);
        assert Slots(|out|, files, extents)[0].off == off;
      }
    }
  }

  lemma EmptyFits()
    ensures AllFit([])
  {
  }

  lemma SameTails(e: Entry, a: seq<Entry>, b: seq<Entry>)
    ensures [e] + a == [e] + b <==> a == b
  {
    assert ([e] + a)[1..] == a && ([e] + b)[1..] == b;
  }

  lemma WalkFits(dir: seq<byte>, off: nat, n: nat, f: File, rec: Rec)
    requires off + |rec| <= |dir| && n < MAX_RECORDS && dir[off..off + |rec|] == rec
    requires rec[0] == |rec| && EntryName(rec) == Ok(Some(f.name))
    ensures Walk(dir, SECTOR, off, n) ==
      ([Entry(off, f.name, rec)] + Walk(dir, SECTOR, off + |rec|, n + 1).0, Walk(dir, SECTOR, off + |rec|, n + 1).1)
  {
    hide EntryName;
    assert dir[off] == rec[0];
  }

  /** No entry of a walk starts where a nameless record does. */
  lemma WalkSkips(dir: seq<byte>, off: nat, n: nat)
    requires off < |dir| && 0 < dir[off] && off + dir[off] <= |dir|
    requires 33 <= dir[off] ==> EntryName(dir[off..off + dir[off]]) == Ok(None)
    ensures var w := Walk(dir, SECTOR, off, n); w.0 == [] || w.0[0].off != off
  {
    hide EntryName;
    if n < MAX_RECORDS && 33 <= dir[off] {
      WalkForward(dir, SECTOR, off + dir[off], n + 1);
    }
  }
}
