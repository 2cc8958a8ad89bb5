/** Recognising a filesystem by what is on a device (internal/blkid/probe.go). */
module BlkidProbe {
  import opened Bytes

  datatype FsType = Ext4 | Erofs | Iso9660 | Vfat

  /** A recognised filesystem's identity. */
  datatype Tags = Tags(uuid: text, volume: text)

  datatype Info = Info(fsType: FsType, uuid: text, volume: text)

  /** What each path can be read as; a device that cannot be read is not there. */
  type Disks = map<text, seq<byte>>

  const DEV: text := [47, 100, 101, 118, 47]

  /** ReadAt fills the whole buffer or fails. */
  function ReadAt(disks: Disks, dev: text, length: nat, offset: nat): (r: Option<seq<byte>>)
    ensures r.Some? ==> |r.value| == length
  {
    var path := DEV + dev;
    if path in disks && offset + length <= |disks[path]| then Some(disks[path][offset..offset + length]) else None
  }

  function HexDigit(n: nat, letters: byte): byte
    requires n < 16 && letters <= 245
  {
    if n < 10 then 48 + n else letters + n - 10
  }

  function Hex(b: seq<byte>): text {
    if b == [] then [] else [HexDigit(b[0] / 16, 97), HexDigit(b[0] % 16, 97)] + Hex(b[1..])
  }

  /** 16 bytes in the canonical 8-4-4-4-12 form. */
  function FormatUuid(b: seq<byte>): text
    requires |b| == 16
  {
    Hex(b[0..4]) + [45] + Hex(b[4..6]) + [45] + Hex(b[6..8]) + [45] + Hex(b[8..10]) + [45] + Hex(b[10..16])
  }

  /** Four upper-case digits. */
  function Hex16(n: nat): text
    requires n < TWO_16
  {
    [HexDigit(n / 4096, 65), HexDigit(n / 256 % 16, 65), HexDigit(n / 16 % 16, 65), HexDigit(n % 16, 65)]
  }

  function TrimNul(b: seq<byte>): text {
    if b == [] || b[0] == 0 then [] else [b[0]] + TrimNul(b[1..])
  }

  /** Without trailing spaces and NULs. */
  function TrimPadding(b: seq<byte>): text {
    if b != [] && (b[|b| - 1] == 32 || b[|b| - 1] == 0) then TrimPadding(b[..|b| - 1]) else b
  }

  const EXT4_MAGIC: nat := 0xEF53
  const EROFS_MAGIC: nat := 0xE0F5E1E2
  const ISO_PVD: nat := 32768
  const CD001: text := [67, 68, 48, 48, 49]
  const FAT: text := [70, 65, 84]
  const FAT32: text := [70, 65, 84, 51, 50]

  function ProbeExt4(b: seq<byte>): Option<Tags> {
    if |b| < 0x78 + 16 then None
    else if FromLe16(b[0x38..]) != EXT4_MAGIC then None
    else Some(Tags(FormatUuid(b[0x68..0x68 + 16]), TrimNul(b[0x78..0x78 + 16])))
  }

  function ProbeErofs(b: seq<byte>): Option<Tags> {
    if |b| < 64 + 16 then None
    else if FromLe32(b[0..]) != EROFS_MAGIC then None
    else Some(Tags(FormatUuid(b[48..48 + 16]), TrimPadding(b[64..64 + 16])))
  }

  function ProbeIso9660(b: seq<byte>): Option<Tags> {
    if |b| < ISO_PVD + 40 + 32 then None
    else if b[ISO_PVD] != 1 || b[ISO_PVD + 1..ISO_PVD + 6] != CD001 then None
    else Some(Tags([], TrimPadding(b[ISO_PVD + 40..ISO_PVD + 40 + 32])))
  }

  function FatTags(b: seq<byte>, labelOff: nat, serialOff: nat): Tags
    requires labelOff + 11 <= |b| && serialOff + 4 <= |b|
  {
    var serial := FromLe32(b[serialOff..]);
    Tags(Hex16(serial / TWO_16) + [45] + Hex16(serial % TWO_16), TrimPadding(b[labelOff..labelOff + 11]))
  }

  function ProbeFat(b: seq<byte>): Option<Tags> {
    if |b| < 512 || b[510] != 0x55 || b[511] != 0xaa then None
    else if b[0x52..0x52 + 5] == FAT32 then Some(FatTags(b, 0x47, 0x43))
    else if b[0x36..0x36 + 3] == FAT then Some(FatTags(b, 0x2b, 0x27))
    else None
  }

  /** Where each filesystem is looked for, in the order they are tried. */
  datatype Prober = Prober(fsType: FsType, offset: nat, length: nat)

  const PROBERS: seq<Prober> :=
    [Prober(Ext4, 1024, 256), Prober(Erofs, 1024, 128), Prober(Iso9660, 0, ISO_PVD + 2048), Prober(Vfat, 0, 1024)]

  function Parse(fsType: FsType, b: seq<byte>): Option<Tags> {
    match fsType
    case Ext4 => ProbeExt4(b)
    case Erofs => ProbeErofs(b)
    case Iso9660 => ProbeIso9660(b)
    case Vfat => ProbeFat(b)
  }

  /** What one prober makes of a device. */
  function Probe(p: Prober, disks: Disks, dev: text): Option<Info> {
    match ReadAt(disks, dev, p.length, p.offset)
    case None => None
    case Some(b) =>
      match Parse(p.fsType, b)
      case None => None
      case Some(t) => Some(Info(p.fsType, t.uuid, t.volume))
  }

  function ProbedFrom(i: nat, disks: Disks, dev: text): Option<Info>
    decreases |PROBERS| - i
  {
    if i >= |PROBERS| then None
    else if Probe(PROBERS[i], disks, dev).Some? then Probe(PROBERS[i], disks, dev)
    else ProbedFrom(i + 1, disks, dev)
  }

  /** The filesystem on a device: the first prober's that matches. */
  function Probed(disks: Disks, dev: text): Option<Info> {
    ProbedFrom(0, disks, dev)
  }

  // ------------------------------------------------------------------ what makes a device blank

  predicate HasExt4(d: seq<byte>) {
    |d| >= 1280 && d[1080] == 0x53 && d[1081] == 0xEF
  }

  predicate HasErofs(d: seq<byte>) {
    |d| >= 1152 && d[1024..1028] == [0xE2, 0xE1, 0xF5, 0xE0]
  }

  predicate HasIso(d: seq<byte>) {
    |d| >= 34816 && d[32768..32774] == [1] + CD001
  }

  predicate HasFat(d: seq<byte>) {
    |d| >= 1024 && d[510] == 0x55 && d[511] == 0xAA && (d[82..87] == FAT32 || d[54..57] == FAT)
  }

  lemma ExtMagic(a: byte, b: byte)
    ensures a as int + b as int * 256 == EXT4_MAGIC <==> a == 0x53 && b == 0xEF
  {
  }

  lemma ErofsMagic(b: seq<byte>)
    requires |b| >= 4
    ensures FromLe32(b) == EROFS_MAGIC <==> b[..4] == [0xE2, 0xE1, 0xF5, 0xE0]
  {
    if FromLe32(b) == EROFS_MAGIC {
      assert b[0] as int == 0xE2;
    }
    assert b[..4] == [b[0], b[1], b[2], b[3]];
  }

  lemma Ext4OnDisk(d: seq<byte>)
    requires |d| >= 1280
    ensures ProbeExt4(d[1024..1280]).Some? <==> HasExt4(d)
  {
    hide FormatUuid, TrimNul;
    var b := d[1024..1280];
    assert b[0x38..][0] == b[0x38] == d[1080] && b[0x38..][1] == b[0x39] == d[1081];
    ExtMagic(d[1080], d[1081]);
  }

  lemma ErofsOnDisk(d: seq<byte>)
    requires |d| >= 1152
    ensures ProbeErofs(d[1024..1152]).Some? <==> HasErofs(d)
  {
    hide FormatUuid, TrimPadding;
    var b := d[1024..1152];
    ErofsMagic(b);
    assert b[0..] == b;
    SliceOfSlice(d, 1024, 1152, 0, 4);
    assert b[..4] == b[0..4];
  }

  lemma IsoOnDisk(d: seq<byte>)
    requires |d| >= 34816
    ensures ProbeIso9660(d[0..34816]).Some? <==> HasIso(d)
  {
    hide TrimPadding;
    SliceOfSlice(d, 0, 34816, ISO_PVD + 1, ISO_PVD + 6);
    assert d[32768..32774] == [d[32768]] + d[32769..32774];
    assert ([d[32768]] + d[32769..32774] == [1] + CD001) <==> d[32768] == 1 && d[32769..32774] == CD001 by {
      assert ([d[32768]] + d[32769..32774])[1..] == d[32769..32774] && ([1] + CD001)[1..] == CD001;
      assert ([d[32768]] + d[32769..32774])[0] == d[32768] && ([1] + CD001)[0] == 1;
    }
  }

  lemma FatOnDisk(d: seq<byte>)
    requires |d| >= 1024
    ensures ProbeFat(d[0..1024]).Some? <==> HasFat(d)
  {
    hide FatTags;
    SliceOfSlice(d, 0, 1024, 0x52, 0x52 + 5);
    SliceOfSlice(d, 0, 1024, 0x36, 0x36 + 3);
  }

  lemma OnDisk(disks: Disks, dev: text)
    requires DEV + dev in disks
    ensures var d := disks[DEV + dev];
      && (Probe(PROBERS[0], disks, dev).Some? <==> HasExt4(d))
      && (Probe(PROBERS[1], disks, dev).Some? <==> HasErofs(d))
      && (Probe(PROBERS[2], disks, dev).Some? <==> HasIso(d))
      && (Probe(PROBERS[3], disks, dev).Some? <==> HasFat(d))
  {
    hide ProbeExt4, ProbeErofs, ProbeIso9660, ProbeFat;
    var d := disks[DEV + dev];
    if |d| >= 1280 { Ext4OnDisk(d); }
    if |d| >= 1152 { ErofsOnDisk(d); }
    if |d| >= 34816 { IsoOnDisk(d); }
    if |d| >= 1024 { FatOnDisk(d); }
  }

  /** A device is blank exactly when it cannot be read or holds none of the four signatures, whole. */
  lemma BlankMeansNoSignature(disks: Disks, dev: text)
    ensures Probed(disks, dev).None? <==>
      (DEV + dev in disks ==> var d := disks[DEV + dev]; !HasExt4(d) && !HasErofs(d) && !HasIso(d) && !HasFat(d))
  {
    hide Probe, HasExt4, HasErofs, HasIso, HasFat;
    assert Probed(disks, dev) ==
      if Probe(PROBERS[0], disks, dev).Some? then Probe(PROBERS[0], disks, dev)
      else if Probe(PROBERS[1], disks, dev).Some? then Probe(PROBERS[1], disks, dev)
      else if Probe(PROBERS[2], disks, dev).Some? then Probe(PROBERS[2], disks, dev)
      else if Probe(PROBERS[3], disks, dev).Some? then Probe(PROBERS[3], disks, dev)
      else None by { Unrolled(disks, dev); }
    if DEV + dev in disks {
      OnDisk(disks, dev);
    } else {
      NothingToRead(disks, dev);
    }
  }

  lemma NothingToRead(disks: Disks, dev: text)
    requires DEV + dev !in disks
    ensures forall i :: 0 <= i < 4 ==> Probe(PROBERS[i], disks, dev).None?
  {
  }

  lemma Unrolled(disks: Disks, dev: text)
    ensures Probed(disks, dev) ==
      if Probe(PROBERS[0], disks, dev).Some? then Probe(PROBERS[0], disks, dev)
      else if Probe(PROBERS[1], disks, dev).Some? then Probe(PROBERS[1], disks, dev)
      else if Probe(PROBERS[2], disks, dev).Some? then Probe(PROBERS[2], disks, dev)
      else if Probe(PROBERS[3], disks, dev).Some? then Probe(PROBERS[3], disks, dev)
      else None
  {
    hide Probe;
    assert ProbedFrom(4, disks, dev) == None;
    assert ProbedFrom(3, disks, dev) == if Probe(PROBERS[3], disks, dev).Some? then Probe(PROBERS[3], disks, dev) else None;
    assert ProbedFrom(2, disks, dev) == if Probe(PROBERS[2], disks, dev).Some? then Probe(PROBERS[2], disks, dev) else ProbedFrom(3, disks, dev);
    assert ProbedFrom(1, disks, dev) == if Probe(PROBERS[1], disks, dev).Some? then Probe(PROBERS[1], disks, dev) else ProbedFrom(2, disks, dev);
  }

  // ------------------------------------------------------------------ labels as they are stored and read

  /** Reading a field padded with NULs gives the text exactly when it fits and has no NUL. */
  lemma {:induction false} TrimNulExact(s: text, zeros: nat)
    ensures TrimNul(s + Zeros(zeros)) == s <==> 0 !in s
    decreases |s|
  {
    if s == [] {
      assert s + Zeros(zeros) == Zeros(zeros);
    } else {
      assert (s + Zeros(zeros))[1..] == s[1..] + Zeros(zeros);
      TrimNulExact(s[1..], zeros);
      assert s == [s[0]] + s[1..];
    }
  }

  lemma {:induction false} TrimPaddingShrinks(s: text)
    ensures TrimPadding(s) <= s
    ensures TrimPadding(s) == s <==> s == [] || (s[|s| - 1] != 32 && s[|s| - 1] != 0)
    decreases |s|
  {
    if s != [] && (s[|s| - 1] == 32 || s[|s| - 1] == 0) {
      TrimPaddingShrinks(s[..|s| - 1]);
      assert |TrimPadding(s)| < |s|;
    }
  }

  lemma {:induction false} TrimSpaces(s: text, n: nat)
    ensures TrimPadding(s + Fill(n, 32)) == TrimPadding(s)
    decreases n
  {
    var t := s + Fill(n, 32);
    if n == 0 {
      assert t == s;
    } else {
      assert t[|t| - 1] == 32 && t[..|t| - 1] == s + Fill(n - 1, 32);
      TrimSpaces(s, n - 1);
    }
  }
}
