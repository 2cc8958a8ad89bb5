/** What stands at which byte of a written image, in the terms of ECMA-119, SUSP and Rock Ridge, and what is refused. */
module IsoFields {
  import opened Bytes
  import opened IsoLayout
  import opened IsoRecords
  import opened IsoRoundTrip
  import opened IsoTheorems
  import opened IsoWriter

  // ------------------------------------------------------------------ numbers in both orders

  /** The two byte orders, written out. */
  lemma ByteOrders(b: seq<byte>)
    requires |b| == 4
    ensures FromBe32(b) == b[0] as int * 16777216 + b[1] as int * 65536 + b[2] as int * 256 + b[3] as int
    ensures FromLe32(b) == b[3] as int * 16777216 + b[2] as int * 65536 + b[1] as int * 256 + b[0] as int
  {
  }

  /** The number with the low byte first, and again with the high byte first. */
  predicate InBothOrders(b: seq<byte>, n: nat) {
    |b| == 8 && FromLe32(b[..4]) == n && FromBe32(b[4..]) == n
  }

  lemma BothOrders(n: nat)
    requires n < TWO_32
    ensures InBothOrders(Both32(n), n)
  {
    hide FromLe32, FromBe32, Le32, Be32;
    Le32RoundTrip(n);
    Be32RoundTrip(n);
    assert Both32(n)[..4] == Le32(n) && Both32(n)[4..] == Be32(n);
  }

  // ------------------------------------------------------------------ one buffer

  /** What was written last still stands in anything that begins with the buffer, and so does what came before it. */
  lemma Placed(done: seq<byte>, off: nat, s: seq<byte>, img: seq<byte>)
    requires |done| <= off && At(done, off, s) <= img
    ensures done <= img && off + |s| <= |img| && img[off..off + |s|] == s
  {
    var r := At(done, off, s);
    SliceOfPrefix(r, img, off, |r|);
    assert r[off..|r|] == r[off..];
  }

  lemma GapIsZero(done: seq<byte>, off: nat, s: seq<byte>, img: seq<byte>)
    requires |done| <= off && At(done, off, s) <= img
    ensures forall i :: |done| <= i < off ==> img[i] == 0
  {
  }

  // ------------------------------------------------------------------ directory records

  /** A directory record: ECMA-119 section 9.1, one sequence number, the fixed date, the system use area on an even offset. */
  predicate IsRecord(r: seq<byte>, extent: nat, size: nat, flags: byte, id: seq<byte>, su: seq<byte>) {
    && |r| == 33 + |id| + (if |id| % 2 == 0 then 1 else 0) + |su| && |id| < 256
    && r[0] == |r| % 256 && r[1] == 0
    && InBothOrders(r[2..10], extent) && InBothOrders(r[10..18], size)
    && r[18..25] == [100, 1, 1, 0, 0, 0, 0]
    && r[25] == flags && r[26] == 0 && r[27] == 0
    && r[28..32] == [1, 0, 0, 1]
    && r[32] == |id| && r[33..33 + |id|] == id
    && r[|r| - |su|..] == su
  }

  lemma RecordConstants(id: seq<byte>, extent: nat, size: nat, flags: byte, su: seq<byte>)
    ensures Record(id, extent, size, flags, su)[18..25] == [100, 1, 1, 0, 0, 0, 0]
    ensures Record(id, extent, size, flags, su)[28..32] == [1, 0, 0, 1]
  {
    var r4 := At(At(At(At([], 0, [(SystemUseOff(|id|) + |su|) % 256]), 1, [0]), 2, Both32(extent)), 10, Both32(size));
    var r5 := At(r4, 18, TIMESTAMP);
    var r8 := At(At(At(r5, 25, [flags]), 26, [0]), 27, [0]);
    var r10 := At(At(r8, 28, Both16(1)), 32, [|id| % 256]);
    var r11 := At(r10, 33, id);
    var r := Record(id, extent, size, flags, su);
    assert r == At(r11, SystemUseOff(|id|), su) by { hide At, Both32, Both16; }
    assert Both16(1) == [1, 0, 0, 1];
    hide At, Both32, Both16, Record;
    Placed(r11, SystemUseOff(|id|), su, r);
    Placed(r10, 33, id, r);
    Placed(At(r8, 28, Both16(1)), 32, [|id| % 256], r);
    Placed(r8, 28, Both16(1), r);
    assert r5 <= r8;
    Placed(r4, 18, TIMESTAMP, r);
  }

  lemma RecordIs(id: seq<byte>, extent: nat, size: nat, flags: byte, su: seq<byte>)
    requires extent < TWO_32 && size < TWO_32 && |id| < 256
    ensures IsRecord(Record(id, extent, size, flags, su), extent, size, flags, id, su)
  {
    hide At, Both32, Both16, Record, InBothOrders;
    RecordFields(id, extent, size, flags, su);
    RecordConstants(id, extent, size, flags, su);
    BothOrders(extent);
    BothOrders(size);
  }

  /** The level 1 name: capitals, digits and dots kept, small letters raised, all else an underscore, then a version. */
  predicate IsLevelOne(id: seq<byte>, name: text) {
    && |id| == |name| + 2 && id[|name|..] == Raw(";1")
    && forall i :: 0 <= i < |name| ==> id[i] as int == LevelOneCode(name[i] as char) as int
  }

  function LevelOneCode(c: char): char {
    if 'a' <= c <= 'z' then (c as int - 32) as char
    else if 'A' <= c <= 'Z' || '0' <= c <= '9' || c == '.' then c
    else '_'
  }

  lemma LevelOneName(name: text)
    ensures IsLevelOne(IsoName(name), name)
  {
    assert IsoName(name)[|name|..] == [59, 49] == Raw(";1");
    forall i | 0 <= i < |name| ensures IsoName(name)[i] as int == LevelOneCode(name[i] as char) as int {
      assert IsoName(name)[i] == Mangle(name[i]);
    }
  }

  /** The Rock Ridge entry with the real name. */
  predicate IsNm(su: seq<byte>, name: text) {
    su == Raw("NM") + [(5 + |name|) % 256, 1, 0] + name
  }

  /** A file's record: no flags, the mangled name, and its own name beside it. */
  lemma FileRecordIs(f: File, extent: nat)
    requires extent < TWO_32 && |f.data| < TWO_32 && |f.name| <= 200
    ensures IsLevelOne(IsoName(f.name), f.name) && IsNm(Nm(f.name), f.name)
    ensures IsRecord(FileRecord(f, extent), extent, |f.data|, 0, IsoName(f.name), Nm(f.name))
  {
    hide IsRecord, Record, IsoName;
    LevelOneName(f.name);
    RecordIs(IsoName(f.name), extent, |f.data|, 0, Nm(f.name));
    assert Raw("NM") == [78, 77];
  }

  // ------------------------------------------------------------------ the volume descriptor

  /** The label: cut at 32 bytes, or followed by spaces. */
  predicate IsLabelField(b: seq<byte>, volume: text) {
    && |b| == 32
    && forall i :: 0 <= i < 32 ==> b[i] as int == if i < |volume| then volume[i] as int else ' ' as int
  }

  predicate Spaces(b: seq<byte>) {
    forall i :: 0 <= i < |b| ==> b[i] as int == ' ' as int
  }

  predicate IsVolumeHead(img: seq<byte>, volume: text, total: nat, rootSize: nat) {
    |img| >= 32768 + 190 && IsVolumeName(img, volume) && IsVolumeNumbers(img, total, rootSize)
  }

  predicate IsVolumeName(img: seq<byte>, volume: text)
    requires |img| >= 32768 + 190
  {
    && (forall i :: 0 <= i < 32768 ==> img[i] == 0)
    && img[32768] == 1 && img[32768 + 1..32768 + 6] == Raw("CD001") && img[32768 + 6] == 1 && img[32768 + 7] == 0
    && Spaces(img[32768 + 8..32768 + 40])
    && IsLabelField(img[32768 + 40..32768 + 72], volume)
  }

  predicate IsVolumeNumbers(img: seq<byte>, total: nat, rootSize: nat)
    requires |img| >= 32768 + 190
  {
    && InBothOrders(img[32768 + 80..32768 + 88], total)
    && img[32768 + 120..32768 + 124] == [1, 0, 0, 1]
    && img[32768 + 124..32768 + 128] == [1, 0, 0, 1]
    && img[32768 + 128..32768 + 132] == [0, 8, 8, 0]
    && InBothOrders(img[32768 + 132..32768 + 140], 10)
    && img[32768 + 140..32768 + 144] == [18, 0, 0, 0]
    && img[32768 + 148..32768 + 152] == [0, 0, 0, 19]
    && IsRecord(img[32768 + 156..32768 + 190], 20, rootSize, 2, [0], [])
  }

  /** The first fields, as far as the label. */
  function NameFields(volume: text): (v: seq<byte>)
    ensures |v| == PVD + 72
  {
    At(At(At(At(At([], PVD, [1]), PVD + 1, CD001), PVD + 6, [1]), PVD + 8, PadText(32, [])), PVD + 40, PadText(32, volume))
  }

  lemma NameIs(img: seq<byte>, volume: text)
    requires |img| >= PVD + 190 && NameFields(volume) <= img
    ensures IsVolumeName(img, volume)
  {
    var v0: seq<byte> := [];
    var v1 := At(v0, PVD, [1]);
    var v2 := At(v1, PVD + 1, CD001);
    var v3 := At(v2, PVD + 6, [1]);
    var v4 := At(v3, PVD + 8, PadText(32, []));
    NameValues(volume);
    hide At, PadText, Raw, IsLabelField, Spaces;
    Placed(v4, PVD + 40, PadText(32, volume), img);
    Placed(v3, PVD + 8, PadText(32, []), img);
    Placed(v2, PVD + 6, [1], img);
    Placed(v1, PVD + 1, CD001, img);
    Placed(v0, PVD, [1], img);
    GapIsZero(v0, PVD, [1], img);
    GapIsZero(v3, PVD + 8, PadText(32, []), img);
    assert img[PVD..PVD + 1][0] == 1 && img[PVD + 6..PVD + 7][0] == 1;
  }

  lemma NameValues(volume: text)
    ensures CD001 == Raw("CD001") && Spaces(PadText(32, [])) && IsLabelField(PadText(32, volume), volume)
  {
  }

  function LowFields(v5: seq<byte>, total: nat): (v: seq<byte>)
    requires |v5| == PVD + 72
    ensures |v| == PVD + 132
  {
    At(At(At(At(v5, PVD + 80, Both32(total)), PVD + 120, Both16(1)), PVD + 124, Both16(1)), PVD + 128, Both16(SECTOR))
  }

  function HighFields(v9: seq<byte>, root: seq<byte>): (v: seq<byte>)
    requires |v9| == PVD + 132
  {
    At(At(At(At(v9, PVD + 132, Both32(10)), PVD + 140, Le32(SECTOR_PATH_TABLE_L)), PVD + 148, Be32(SECTOR_PATH_TABLE_M)),
       PVD + 156, root)
  }

  lemma HeadInParts(volume: text, total: nat, rs: nat)
    ensures VolumeHead(volume, total, rs) == HighFields(LowFields(NameFields(volume), total), RootRecord(rs))
  {
    hide At, PadText, Both16, Both32, Le32, Be32, RootRecord;
  }

  lemma HeadIs(img: seq<byte>, volume: text, total: nat, rs: nat)
    requires VolumeHead(volume, total, rs) <= img && total < TWO_32 && rs * SECTOR < TWO_32
    ensures IsVolumeHead(img, volume, total, rs * SECTOR)
  {
    hide VolumeHead, NameFields, LowFields, HighFields, Both16, Both32, Le32, Be32, RootRecord, IsRecord, IsVolumeName, InBothOrders;
    HeadInParts(volume, total, rs);
    HeadValues(total, rs);
    var v5 := NameFields(volume);
    HighNumbers(LowFields(v5, total), RootRecord(rs), img);
    LowNumbers(v5, total, img);
    NameIs(img, volume);
  }

  lemma HighNumbers(v9: seq<byte>, root: seq<byte>, img: seq<byte>)
    requires |v9| == PVD + 132 && |root| == 34
    requires HighFields(v9, root) <= img
    ensures v9 <= img && |img| >= PVD + 190 && img[PVD + 156..PVD + 190] == root
    ensures img[PVD + 132..PVD + 140] == Both32(10) && img[PVD + 140..PVD + 144] == Le32(SECTOR_PATH_TABLE_L)
    ensures img[PVD + 148..PVD + 152] == Be32(SECTOR_PATH_TABLE_M)
  {
    hide At, Both32, Le32, Be32;
    var v10 := At(v9, PVD + 132, Both32(10));
    var v11 := At(v10, PVD + 140, Le32(SECTOR_PATH_TABLE_L));
    Placed(At(v11, PVD + 148, Be32(SECTOR_PATH_TABLE_M)), PVD + 156, root, img);
    Placed(v11, PVD + 148, Be32(SECTOR_PATH_TABLE_M), img);
    Placed(v10, PVD + 140, Le32(SECTOR_PATH_TABLE_L), img);
    Placed(v9, PVD + 132, Both32(10), img);
  }

  lemma LowNumbers(v5: seq<byte>, total: nat, img: seq<byte>)
    requires |v5| == PVD + 72
    requires LowFields(v5, total) <= img
    ensures v5 <= img && |img| >= PVD + 132 && img[PVD + 80..PVD + 88] == Both32(total)
    ensures img[PVD + 120..PVD + 124] == Both16(1) && img[PVD + 124..PVD + 128] == Both16(1)
    ensures img[PVD + 128..PVD + 132] == Both16(SECTOR)
  {
    hide At, Both32, Both16;
    var v6 := At(v5, PVD + 80, Both32(total));
    var v7 := At(v6, PVD + 120, Both16(1));
    Placed(At(v7, PVD + 124, Both16(1)), PVD + 128, Both16(SECTOR), img);
    Placed(v7, PVD + 124, Both16(1), img);
    Placed(v6, PVD + 120, Both16(1), img);
    Placed(v5, PVD + 80, Both32(total), img);
  }

  lemma HeadValues(total: nat, rs: nat)
    requires total < TWO_32 && rs * SECTOR < TWO_32
    ensures InBothOrders(Both32(total), total) && InBothOrders(Both32(10), 10)
    ensures Both16(1) == [1, 0, 0, 1] && Both16(SECTOR) == [0, 8, 8, 0]
    ensures Le32(SECTOR_PATH_TABLE_L) == [18, 0, 0, 0] && Be32(SECTOR_PATH_TABLE_M) == [0, 0, 0, 19]
    ensures IsRecord(RootRecord(rs), 20, rs * SECTOR, 2, [0], [])
  {
    hide IsRecord, Record, InBothOrders, Both32;
    BothOrders(total);
    BothOrders(10);
    RecordIs(ID_SELF, SECTOR_ROOT_DIR, rs * SECTOR, FLAG_DIRECTORY, []);
  }

  predicate IsNoDate(b: seq<byte>) {
    b == Raw("0000000000000000") + [0]
  }

  /** The second half of the descriptor: empty names, no dates, structure version 1. */
  predicate IsVolumeTail(img: seq<byte>) {
    && |img| >= 32768 + 882
    && Spaces(img[32768 + 190..32768 + 813])
    && IsNoDate(img[32768 + 813..32768 + 830]) && IsNoDate(img[32768 + 830..32768 + 847])
    && IsNoDate(img[32768 + 847..32768 + 864]) && IsNoDate(img[32768 + 864..32768 + 881])
    && img[32768 + 881] == 1
  }

  lemma Joined(img: seq<byte>, i: nat, j: nat, k: nat)
    requires i <= j <= k <= |img| && Spaces(img[i..j]) && Spaces(img[j..k])
    ensures Spaces(img[i..k])
  {
    assert img[i..k] == img[i..j] + img[j..k];
  }

  lemma TailIs(img: seq<byte>, volume: text, total: nat, rs: nat)
    requires Volume(volume, total, rs) <= img
    ensures IsVolumeTail(img)
  {
    var v0 := VolumeHead(volume, total, rs);
    var v1 := At(v0, PVD + 190, PadText(128, []));
    var v2 := At(v1, PVD + 318, PadText(128, []));
    var v3 := At(v2, PVD + 446, PadText(128, []));
    var v4 := At(v3, PVD + 574, PadText(128, []));
    var v5 := At(v4, PVD + 702, PadText(37, []));
    var v6 := At(v5, PVD + 739, PadText(37, []));
    var v7 := At(v6, PVD + 776, PadText(37, []));
    var v8 := At(v7, PVD + 813, NO_DATE);
    var v9 := At(v8, PVD + 830, NO_DATE);
    var v10 := At(v9, PVD + 847, NO_DATE);
    var v11 := At(v10, PVD + 864, NO_DATE);
    assert At(v11, PVD + 881, [1]) == Volume(volume, total, rs) by { hide VolumeHead, At, PadText; }
    TailValues();
    hide At, Volume, VolumeHead, PadText, Spaces, IsNoDate;
    Placed(v11, PVD + 881, [1], img);
    Placed(v10, PVD + 864, NO_DATE, img);
    Placed(v9, PVD + 847, NO_DATE, img);
    Placed(v8, PVD + 830, NO_DATE, img);
    Placed(v7, PVD + 813, NO_DATE, img);
    Placed(v6, PVD + 776, PadText(37, []), img);
    Placed(v5, PVD + 739, PadText(37, []), img);
    Placed(v4, PVD + 702, PadText(37, []), img);
    Placed(v3, PVD + 574, PadText(128, []), img);
    Placed(v2, PVD + 446, PadText(128, []), img);
    Placed(v1, PVD + 318, PadText(128, []), img);
    Placed(v0, PVD + 190, PadText(128, []), img);
    Joined(img, PVD + 190, PVD + 318, PVD + 446);
    Joined(img, PVD + 190, PVD + 446, PVD + 574);
    Joined(img, PVD + 190, PVD + 574, PVD + 702);
    Joined(img, PVD + 190, PVD + 702, PVD + 739);
    Joined(img, PVD + 190, PVD + 739, PVD + 776);
    Joined(img, PVD + 190, PVD + 776, PVD + 813);
    assert img[PVD + 881..PVD + 882][0] == 1;
  }

  lemma TailValues()
    ensures Spaces(PadText(128, [])) && Spaces(PadText(37, [])) && IsNoDate(NO_DATE)
  {
  }

  // ------------------------------------------------------------------ the terminator, the path tables and the root

  predicate IsTables(img: seq<byte>) {
    && |img| >= 38921
    && img[34816..34823] == [255] + Raw("CD001") + [1]
    && img[36864..36873] == [1, 0, 20, 0, 0, 0, 1, 0, 0]
    && img[38912..38921] == [1, 0, 0, 0, 0, 20, 0, 1, 0]
  }

  lemma TerminatorIs(v: seq<byte>, img: seq<byte>)
    requires |v| <= SECTOR_TERMINATOR * SECTOR && WithTerminator(v) <= img
    ensures v <= img && |img| >= 34823 && img[34816..34823] == [255] + Raw("CD001") + [1]
  {
    var v1 := At(v, 34816, [255]);
    var v2 := At(v1, 34817, CD001);
    assert CD001 == Raw("CD001");
    hide At, Raw;
    Placed(v2, 34822, [1], img);
    Placed(v1, 34817, CD001, img);
    Placed(v, 34816, [255], img);
    assert img[34816..34823] == img[34816..34817] + img[34817..34822] + img[34822..34823];
  }

  lemma PathTableIs(v: seq<byte>, at: nat, extent: seq<byte>, parent: seq<byte>, img: seq<byte>)
    requires |v| <= at && |extent| == 4 && |parent| == 2 && WithPathTable(v, at, extent, parent) <= img
    ensures v <= img && |img| >= at + 9 && img[at..at + 9] == [1] + [0] + extent + parent + [0]
  {
    var v1 := At(v, at, [1]);
    var v2 := At(v1, at + 1, [0]);
    var v3 := At(v2, at + 2, extent);
    var v4 := At(v3, at + 6, parent);
    hide At;
    Placed(v4, at + 8, ID_SELF, img);
    Placed(v3, at + 6, parent, img);
    Placed(v2, at + 2, extent, img);
    Placed(v1, at + 1, [0], img);
    Placed(v, at, [1], img);
    Pieces(img, at, [1], [0], extent, parent, ID_SELF);
  }

  lemma Pieces(img: seq<byte>, at: nat, a: seq<byte>, b: seq<byte>, c: seq<byte>, d: seq<byte>, e: seq<byte>)
    requires |a| == |b| == |e| == 1 && |c| == 4 && |d| == 2 && at + 9 <= |img|
    requires img[at..at + 1] == a && img[at + 1..at + 2] == b && img[at + 2..at + 6] == c
    requires img[at + 6..at + 8] == d && img[at + 8..at + 9] == e
    ensures img[at..at + 9] == a + b + c + d + e
  {
    assert img[at..at + 9] == img[at..at + 1] + img[at + 1..at + 2] + img[at + 2..at + 6] + img[at + 6..at + 8] + img[at + 8..at + 9];
  }

  lemma TablesAre(img: seq<byte>, volume: text, total: nat, rs: nat)
    requires Prologue(volume, total, rs) <= img
    ensures Volume(volume, total, rs) <= img && IsTables(img)
  {
    hide Volume, WithTerminator, WithPathTable, Le32, Be32, Le16, Be16, Raw;
    var v1 := WithTerminator(Volume(volume, total, rs));
    var v2 := WithPathTable(v1, 36864, Le32(20), Le16(1));
    PathTableIs(v2, 38912, Be32(20), Be16(1), img);
    PathTableIs(v1, 36864, Le32(20), Le16(1), img);
    TerminatorIs(Volume(volume, total, rs), img);
    TableNumbers();
  }

  lemma TableNumbers()
    ensures [1] + [0] + Le32(20) + Le16(1) + [0] == [1, 0, 20, 0, 0, 0, 1, 0, 0]
    ensures [1] + [0] + Be32(20) + Be16(1) + [0] == [1, 0, 0, 0, 0, 20, 0, 1, 0]
  {
  }

  /** SP, then ER for RRIP_1991A: without the second, other readers ignore the Rock Ridge names. */
  function Announces(): seq<byte> {
    Raw("SP") + [7, 1, 0xBE, 0xEF, 0] + Raw("ER") + [18, 1, 10, 0, 0, 1] + Raw("RRIP_1991A")
  }

  lemma AnnouncesSpEr()
    ensures SP + ER == Announces() && |Announces()| == 25
  {
    Words();
    var er := [82, 82, 73, 80, 95, 49, 57, 57, 49, 65];
    assert ER == [69, 82] + [18, 1, 10, 0, 0, 1] + er;
    assert SP == [83, 80] + [7, 1, 0xBE, 0xEF, 0];
    hide Raw;
  }

  lemma Words()
    ensures Raw("SP") == [83, 80] && Raw("ER") == [69, 82]
    ensures Raw("RRIP_1991A") == [82, 82, 73, 80, 95, 49, 57, 57, 49, 65]
  {
  }

  /** The two records that the root directory starts with. */
  predicate IsRootStart(img: seq<byte>, rootSize: nat) {
    && |img| >= 41053
    && IsRecord(img[40960..41019], 20, rootSize, 2, [0], Announces())
    && IsRecord(img[41019..41053], 20, rootSize, 2, [1], [])
  }

  lemma RootStartsWith(files: seq<File>)
    ensures SelfRecord(RootSectors(files)) + ParentRecord(RootSectors(files)) <= Root(files)
  {
    hide SelfRecord, ParentRecord, RootSectors, Place, Extents;
  }

  lemma StartRecords(rs: nat)
    requires rs * SECTOR < TWO_32
    ensures |SelfRecord(rs)| == 59 && |ParentRecord(rs)| == 34
    ensures IsRecord(SelfRecord(rs), 20, rs * SECTOR, 2, [0], Announces())
    ensures IsRecord(ParentRecord(rs), 20, rs * SECTOR, 2, [1], [])
  {
    hide Record, IsRecord, Announces;
    AnnouncesSpEr();
    RecordIs(ID_SELF, SECTOR_ROOT_DIR, rs * SECTOR, FLAG_DIRECTORY, SP + ER);
    RecordIs(ID_PARENT, SECTOR_ROOT_DIR, rs * SECTOR, FLAG_DIRECTORY, []);
  }

  lemma RootStartIs(img: seq<byte>, files: seq<File>)
    requires |Root(files)| < TWO_32
    requires |img| >= 40960 + |Root(files)| && img[40960..40960 + |Root(files)|] == Root(files)
    ensures IsRootStart(img, |Root(files)|)
  {
    hide SelfRecord, ParentRecord, IsRecord, Root, RootSectors, Announces;
    var rs := RootSectors(files);
    RootStartsWith(files);
    StartRecords(rs);
    FirstTwo(img, SelfRecord(rs), ParentRecord(rs), Root(files));
  }

  lemma FirstTwo(img: seq<byte>, self: seq<byte>, parent: seq<byte>, root: seq<byte>)
    requires |self| == 59 && |parent| == 34 && self + parent <= root
    requires |img| >= 40960 + |root| && img[40960..40960 + |root|] == root
    ensures img[40960..41019] == self && img[41019..41053] == parent
  {
    SliceOfSlice(img, 40960, 40960 + |root|, 0, 59);
    SliceOfSlice(img, 40960, 40960 + |root|, 59, 93);
    SliceOfPrefix(self + parent, root, 0, 59);
    SliceOfPrefix(self + parent, root, 59, 93);
    assert (self + parent)[0..59] == self && (self + parent)[59..93] == parent;
  }

  /**
   * Everything of an image that no file decides: the descriptor with the label and the image's own size in
   * sectors, the terminator, both path tables, and the start of the root directory.
   */
  lemma ImageIs(volume: text, files: seq<File>)
    requires |files| <= MAX_FILES && AllAcceptable(files) && Total(files) < TWO_32
    ensures var img := ImageOf(volume, files);
      && |img| % 2048 == 0
      && IsVolumeHead(img, volume, |img| / 2048, |Root(files)|) && IsVolumeTail(img)
      && IsTables(img)
      && IsRootStart(img, |Root(files)|)
  {
    hide Root, RootSectors, Total, Prologue, Volume, VolumeHead, AllAcceptable, IsVolumeHead, IsVolumeTail, IsTables, IsRootStart;
    var img, rs := ImageOf(volume, files), RootSectors(files);
    RootFits(files);
    ImageHead(volume, files);
    assert Prologue(volume, Total(files), rs) <= img by {
      var v1 := WithRoot(volume, files);
      var v2 := WithData(v1, files, SECTOR_ROOT_DIR + rs);
      hide ImageOf, WithRoot, WithData;
      assert v1 <= v2 <= img;
    }
    hide ImageOf;
    TablesAre(img, volume, Total(files), rs);
    HeadIs(img, volume, Total(files), rs);
    TailIs(img, volume, Total(files), rs);
    RootStartIs(img, files);
    assert |img| == Total(files) * 2048;
  }

  // ------------------------------------------------------------------ what is refused

  predicate FlatName(name: text) {
    && 1 <= |name| <= 200
    && forall c :: c in name ==> c as int != '/' as int && c as int != '\\' as int
  }

  lemma {:induction false} FirstBad(files: seq<File>)
    ensures FirstBadName(files).None? <==> forall i :: 0 <= i < |files| ==> FlatName(files[i].name)
    ensures FirstBadName(files).Some? ==> exists i :: 0 <= i < |files| && Refuses(files[i].name, FirstBadName(files).value)
  {
    if files != [] {
      FirstBad(files[1..]);
      var name := files[0].name;
      assert CheckName(name).None? <==> FlatName(name);
      if CheckName(name).None? {
        forall i | 0 <= i < |files| && FirstBadName(files).None? ensures FlatName(files[i].name) {
          if i > 0 { assert files[i] == files[1..][i - 1]; }
        }
        if FirstBadName(files).Some? {
          var i :| 0 <= i < |files[1..]| && Refuses(files[1..][i].name, FirstBadName(files[1..]).value);
          assert files[i + 1] == files[1..][i];
        }
      } else {
        assert Refuses(files[0].name, FirstBadName(files).value);
      }
    }
  }

  /** The error for a name, with the reason that comes first. */
  predicate Refuses(name: text, e: WriteError) {
    && !FlatName(name)
    && e == BadName(name, if name == [] then EmptyName
                          else if exists c :: c in name && (c as int == '/' as int || c as int == '\\' as int) then Subdirectory
                          else NameTooLong)
  }

  lemma SameMembers(files: seq<File>, f: File)
    ensures f in SortByName(files) <==> f in files
  {
    hide SortByName;
    assert f in SortByName(files) <==> f in multiset(SortByName(files));
  }

  /** The first bad name of the sorted list is one of the files passed. */
  lemma FirstBadOfSorted(files: seq<File>)
    ensures var e := FirstBadName(SortByName(files));
      && (e.None? <==> forall f :: f in files ==> FlatName(f.name))
      && (e.Some? ==> exists f :: f in files && Refuses(f.name, e.value))
  {
    hide SortByName, FirstBadName, FlatName, Refuses;
    var sorted := SortByName(files);
    FirstBad(sorted);
    forall f ensures f in sorted <==> f in files { SameMembers(files, f); }
    if FirstBadName(sorted).Some? {
      var i :| 0 <= i < |sorted| && Refuses(sorted[i].name, FirstBadName(sorted).value);
      assert sorted[i] in files;
    } else {
      assert forall f :: f in sorted ==> FlatName(f.name);
    }
    if forall f :: f in files ==> FlatName(f.name) {
      forall i | 0 <= i < |sorted| ensures FlatName(sorted[i].name) { assert sorted[i] in sorted; }
    }
  }

  /** Write accepts exactly 1 to 64 files with flat names of 1 to 200 bytes, and otherwise says what is wrong. */
  lemma WritesExactly(volume: text, files: seq<File>)
    ensures Written(volume, files).Ok? <==> 1 <= |files| <= 64 && forall f :: f in files ==> FlatName(f.name)
    ensures Written(volume, files).Err? ==>
      match Written(volume, files).error
      case NoFiles => files == []
      case TooManyFiles => |files| > 64
      case BadName(_, _) => 1 <= |files| <= 64 && exists f :: f in files && Refuses(f.name, Written(volume, files).error)
      case RootChangedSize => false
  {
    hide FlatName, Refuses, Written, FirstBadName, SortByName;
    WrittenBy(volume, files);
    FirstBadOfSorted(files);
    BadNameOnly(SortByName(files));
  }

  lemma WrittenBy(volume: text, files: seq<File>)
    ensures var bad := FirstBadName(SortByName(files));
      && (files == [] ==> Written(volume, files) == Err(NoFiles))
      && (|files| > 64 ==> Written(volume, files) == Err(TooManyFiles))
      && (1 <= |files| <= 64 ==> if bad.Some? then Written(volume, files) == Err(bad.value) else Written(volume, files).Ok?)
  {
    hide ImageOf, SortByName, FirstBadName;
  }

  lemma {:induction false} BadNameOnly(files: seq<File>)
    ensures FirstBadName(files).Some? ==> FirstBadName(files).value.BadName?
  {
    if files != [] {
      BadNameOnly(files[1..]);
    }
  }
}
