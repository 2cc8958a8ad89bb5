/** The ISO 9660 image that the writer promises, byte by byte: ECMA-119, SUSP and Rock Ridge. */
module IsoLayout {
  import opened Bytes

  const SECTOR: nat := 2048
  const MAX_FILES: nat := 64
  const MAX_FILE_SIZE: nat := 0x80_0000
  const MAX_RECORDS: nat := 4096

  const SECTOR_PVD: nat := 16
  const SECTOR_TERMINATOR: nat := 17
  const SECTOR_PATH_TABLE_L: nat := 18
  const SECTOR_PATH_TABLE_M: nat := 19
  const SECTOR_ROOT_DIR: nat := 20

  const FLAG_DIRECTORY: byte := 2
  const TIMESTAMP: seq<byte> := [100, 1, 1, 0, 0, 0, 0]
  const CD001: seq<byte> := [67, 68, 48, 48, 49]
  const ID_SELF: seq<byte> := [0]
  const ID_PARENT: seq<byte> := [1]

  datatype File = File(name: text, data: seq<byte>)

  // ------------------------------------------------------------------ buffers written left to right

  /** A buffer whose written part is `done`, with `s` written at `off` beyond it; the gap stays zero. */
  function At(done: seq<byte>, off: nat, s: seq<byte>): (r: seq<byte>)
    requires |done| <= off
    ensures |r| == off + |s| && done <= r && r[off..] == s
    ensures forall i :: |done| <= i < off ==> r[i] == 0
  {
    done + Zeros(off - |done|) + s
  }

  function Both16(v: nat): (r: seq<byte>)
    requires v < TWO_16
    ensures |r| == 4
  {
    Le16(v) + Be16(v)
  }

  /** A number in both byte orders, truncated to 32 bits first. */
  function Both32(v: nat): (r: seq<byte>)
    ensures |r| == 8
  {
    Le32(v % TWO_32) + Be32(v % TWO_32)
  }

  /** Text in a field of n bytes, space padded, cut off where it does not fit. */
  function PadText(n: nat, s: text): (r: seq<byte>)
    ensures |r| == n
  {
    if |s| >= n then s[..n] else s + Fill(n - |s|, 32)
  }

  // ------------------------------------------------------------------ directory records

  /** Where a record's system use area starts: after the identifier, on an even offset. */
  function SystemUseOff(idLen: nat): nat {
    if (33 + idLen) % 2 == 1 then 34 + idLen else 33 + idLen
  }

  /** A directory record (ECMA-119 section 9.1). */
  function Record(id: seq<byte>, extent: nat, size: nat, flags: byte, su: seq<byte>): (r: seq<byte>)
    ensures |r| == SystemUseOff(|id|) + |su|
  {
    var r := At([], 0, [(SystemUseOff(|id|) + |su|) % 256]);
    var r := At(r, 1, [0]);
    var r := At(r, 2, Both32(extent));
    var r := At(r, 10, Both32(size));
    var r := At(r, 18, TIMESTAMP);
    var r := At(r, 25, [flags]);
    var r := At(r, 26, [0]);
    var r := At(r, 27, [0]);
    var r := At(r, 28, Both16(1));
    var r := At(r, 32, [|id| % 256]);
    var r := At(r, 33, id);
    At(r, SystemUseOff(|id|), su)
  }

  /** The SP entry of SUSP. */
  const SP: seq<byte> := [83, 80, 7, 1, 0xBE, 0xEF, 0]

  /** The ER entry declaring RRIP_1991A. */
  const ER: seq<byte> := [69, 82, 18, 1, 10, 0, 0, 1, 82, 82, 73, 80, 95, 49, 57, 57, 49, 65]

  /** The NM entry of Rock Ridge, with the real name. */
  function Nm(name: text): (r: seq<byte>)
    ensures |r| == 5 + |name|
  {
    [78, 77, (5 + |name|) % 256, 1, 0] + name
  }

  predicate Plain(c: byte) {
    (65 <= c <= 90) || (48 <= c <= 57) || c == 46
  }

  function Upper(c: byte): byte {
    if 97 <= c <= 122 then c - 32 else c
  }

  /** One character of the mangled name: upper case, and `_` for what level 1 does not allow. */
  function Mangle(c: byte): byte {
    if Plain(Upper(c)) then Upper(c) else 95
  }

  function IsoName(name: text): (r: seq<byte>)
    ensures |r| == |name| + 2
  {
    seq(|name|, i requires 0 <= i < |name| => Mangle(name[i])) + [59, 49]
  }

  function FileRecord(f: File, extent: nat): (r: seq<byte>)
    ensures |r| == FileRecordLen(f.name)
  {
    Record(IsoName(f.name), extent, |f.data|, 0, Nm(f.name))
  }

  function FileRecordLen(name: text): (n: nat) {
    SystemUseOff(|name| + 2) + 5 + |name|
  }

  // ------------------------------------------------------------------ the root directory

  function Sectors(n: nat): (r: nat)
    ensures r >= 1
  {
    if n == 0 then 1 else (n + SECTOR - 1) / SECTOR
  }

  /** Where the next record of `len` bytes goes when `used` bytes are taken: never across a block. */
  function Slot(used: nat, len: nat): (off: nat)
    ensures used <= off
  {
    if used % SECTOR + len > SECTOR then used + (SECTOR - used % SECTOR) else used
  }

  function PadToSector(out: seq<byte>): (r: seq<byte>)
    ensures |r| % SECTOR == 0 && out <= r && |r| < |out| + SECTOR
    ensures forall i :: |out| <= i < |r| ==> r[i] == 0
  {
    if |out| % SECTOR != 0 then out + Zeros(SECTOR - |out| % SECTOR) else out
  }

  /** The records of files appended to out, padded to whole sectors. */
  function Place(out: seq<byte>, files: seq<File>, extents: seq<nat>): (r: seq<byte>)
    requires |files| == |extents|
    ensures |r| % SECTOR == 0 && out <= r
    decreases |files|
  {
    if files == [] then PadToSector(out)
    else
      var rec := FileRecord(files[0], extents[0]);
      Place(At(out, Slot(|out|, |rec|), rec), files[1..], extents[1..])
  }

  function SelfRecord(rootSectors: nat): seq<byte> {
    Record(ID_SELF, SECTOR_ROOT_DIR, rootSectors * SECTOR, FLAG_DIRECTORY, SP + ER)
  }

  function ParentRecord(rootSectors: nat): seq<byte> {
    Record(ID_PARENT, SECTOR_ROOT_DIR, rootSectors * SECTOR, FLAG_DIRECTORY, [])
  }

  function RootDir(files: seq<File>, extents: seq<nat>, rootSectors: nat): (r: seq<byte>)
    requires |files| == |extents|
    ensures |r| % SECTOR == 0 && |r| > 0
  {
    Place(SelfRecord(rootSectors) + ParentRecord(rootSectors), files, extents)
  }

  // ------------------------------------------------------------------ the image

  function Extents(files: seq<File>, next: nat): (r: seq<nat>)
    ensures |r| == |files|
  {
    if files == [] then [] else [next] + Extents(files[1..], next + Sectors(|files[0].data|))
  }

  function DataSectors(files: seq<File>): nat {
    if files == [] then 0 else Sectors(|files[0].data|) + DataSectors(files[1..])
  }

  function RootSectors(files: seq<File>): (r: nat)
    ensures r >= 1
  {
    Sectors(|RootDir(files, seq(|files|, i => 0), 0)|)
  }

  function Total(files: seq<File>): nat {
    SECTOR_ROOT_DIR + RootSectors(files) + DataSectors(files)
  }

  const PVD: nat := SECTOR_PVD * SECTOR
  const NO_DATE: seq<byte> := [48, 48, 48, 48, 48, 48, 48, 48, 48, 48, 48, 48, 48, 48, 48, 48, 0]

  function RootRecord(rootSectors: nat): (r: seq<byte>)
    ensures |r| == 34
  {
    Record(ID_SELF, SECTOR_ROOT_DIR, rootSectors * SECTOR, FLAG_DIRECTORY, [])
  }

  /** The system area, and the primary volume descriptor up to the root directory's record. */
  function VolumeHead(volume: text, total: nat, rootSectors: nat): (v: seq<byte>)
    ensures |v| == PVD + 190
  {
    var v := At([], PVD, [1]);
    var v := At(v, PVD + 1, CD001);
    var v := At(v, PVD + 6, [1]);
    var v := At(v, PVD + 8, PadText(32, []));
    var v := At(v, PVD + 40, PadText(32, volume));
    var v := At(v, PVD + 80, Both32(total));
    var v := At(v, PVD + 120, Both16(1));
    var v := At(v, PVD + 124, Both16(1));
    var v := At(v, PVD + 128, Both16(SECTOR));
    var v := At(v, PVD + 132, Both32(10));
    var v := At(v, PVD + 140, Le32(SECTOR_PATH_TABLE_L));
    var v := At(v, PVD + 148, Be32(SECTOR_PATH_TABLE_M));
    At(v, PVD + 156, RootRecord(rootSectors))
  }

  /** The system area and the primary volume descriptor (ECMA-119 section 8.4). */
  function Volume(volume: text, total: nat, rootSectors: nat): (v: seq<byte>)
    ensures |v| == PVD + 882 && VolumeHead(volume, total, rootSectors) <= v
  {
    var v := VolumeHead(volume, total, rootSectors);
    var v := At(v, PVD + 190, PadText(128, []));
    var v := At(v, PVD + 318, PadText(128, []));
    var v := At(v, PVD + 446, PadText(128, []));
    var v := At(v, PVD + 574, PadText(128, []));
    var v := At(v, PVD + 702, PadText(37, []));
    var v := At(v, PVD + 739, PadText(37, []));
    var v := At(v, PVD + 776, PadText(37, []));
    var v := At(v, PVD + 813, NO_DATE);
    var v := At(v, PVD + 830, NO_DATE);
    var v := At(v, PVD + 847, NO_DATE);
    var v := At(v, PVD + 864, NO_DATE);
    At(v, PVD + 881, [1])
  }

  /** The volume descriptor set terminator, after what is there. */
  function WithTerminator(v: seq<byte>): (r: seq<byte>)
    requires |v| <= SECTOR_TERMINATOR * SECTOR
    ensures |r| == SECTOR_TERMINATOR * SECTOR + 7 && v <= r
  {
    var t := SECTOR_TERMINATOR * SECTOR;
    At(At(At(v, t, [255]), t + 1, CD001), t + 6, [1])
  }

  /** A path table with the root as its one entry, at a sector, with the numbers in one byte order. */
  function WithPathTable(v: seq<byte>, at: nat, extent: seq<byte>, parent: seq<byte>): (r: seq<byte>)
    requires |v| <= at && |extent| == 4 && |parent| == 2
    ensures |r| == at + 9 && v <= r
  {
    At(At(At(At(At(v, at, [1]), at + 1, [0]), at + 2, extent), at + 6, parent), at + 8, ID_SELF)
  }

  /** Everything before the root directory. */
  function Prologue(volume: text, total: nat, rootSectors: nat): (v: seq<byte>)
    ensures |v| == SECTOR_PATH_TABLE_M * SECTOR + 9 && Volume(volume, total, rootSectors) <= v
  {
    var v := WithTerminator(Volume(volume, total, rootSectors));
    var v := WithPathTable(v, SECTOR_PATH_TABLE_L * SECTOR, Le32(SECTOR_ROOT_DIR), Le16(1));
    WithPathTable(v, SECTOR_PATH_TABLE_M * SECTOR, Be32(SECTOR_ROOT_DIR), Be16(1))
  }

  /** Each file's data at its own sector. */
  function WithData(done: seq<byte>, files: seq<File>, next: nat): (r: seq<byte>)
    requires |done| <= next * SECTOR
    ensures |r| <= (next + DataSectors(files)) * SECTOR && done <= r
    decreases |files|
  {
    if files == [] then done
    else
      var after := At(done, next * SECTOR, files[0].data);
      WithData(after, files[1..], next + Sectors(|files[0].data|))
  }

  lemma {:induction false} RecordLengthsFixed(a: seq<byte>, b: seq<byte>, files: seq<File>, ext1: seq<nat>, ext2: seq<nat>)
    requires |a| == |b| && |files| == |ext1| == |ext2|
    ensures |Place(a, files, ext1)| == |Place(b, files, ext2)|
    decreases |files|
  {
    hide Record, FileRecord, FileRecordLen, At;
    if files != [] {
      var x, y := FileRecord(files[0], ext1[0]), FileRecord(files[0], ext2[0]);
      RecordLengthsFixed(At(a, Slot(|a|, |x|), x), At(b, Slot(|b|, |y|), y), files[1..], ext1[1..], ext2[1..]);
    }
  }

  /** The second pass cannot change the directory's size: nothing in a record's length depends on an extent. */
  lemma {:induction false} SecondPassKeepsSize(files: seq<File>, extents: seq<nat>, rootSectors: nat)
    requires |files| == |extents|
    ensures |RootDir(files, extents, rootSectors)| == RootSectors(files) * SECTOR
  {
    hide Record, Place;
    var zeros := seq(|files|, i => 0);
    RecordLengthsFixed(SelfRecord(rootSectors) + ParentRecord(rootSectors), SelfRecord(0) + ParentRecord(0),
                       files, extents, zeros);
  }

  function RootExtents(files: seq<File>): (r: seq<nat>)
    ensures |r| == |files|
  {
    Extents(files, SECTOR_ROOT_DIR + RootSectors(files))
  }

  /** The root directory as the second pass builds it. */
  function Root(files: seq<File>): (r: seq<byte>)
    ensures |r| == RootSectors(files) * SECTOR
  {
    SecondPassKeepsSize(files, RootExtents(files), RootSectors(files));
    RootDir(files, RootExtents(files), RootSectors(files))
  }

  /** The image up to the first file. */
  function WithRoot(volume: text, files: seq<File>): (r: seq<byte>)
    ensures |r| == (SECTOR_ROOT_DIR + RootSectors(files)) * SECTOR && r[SECTOR_ROOT_DIR * SECTOR..] == Root(files)
    ensures Prologue(volume, Total(files), RootSectors(files)) <= r
  {
    At(Prologue(volume, Total(files), RootSectors(files)), SECTOR_ROOT_DIR * SECTOR, Root(files))
  }

  /** The image for files that are already in name order. */
  function ImageOf(volume: text, files: seq<File>): (r: seq<byte>)
    ensures |r| == Total(files) * SECTOR
    ensures WithData(WithRoot(volume, files), files, SECTOR_ROOT_DIR + RootSectors(files)) <= r
  {
    var v := WithData(WithRoot(volume, files), files, SECTOR_ROOT_DIR + RootSectors(files));
    v + Zeros(Total(files) * SECTOR - |v|)
  }
}
