/** The bytes on a device that say what it is called, and the specifications that find it. */
module BlkidFields {
  import opened Bytes
  import opened BlkidProbe
  import opened Blkid

  // ------------------------------------------------------------------ identifiers

  /** Where each of the 16 bytes begins in the 8-4-4-4-12 form. */
  const COLUMN: seq<nat> := [0, 2, 4, 6, 9, 11, 14, 16, 19, 21, 24, 26, 28, 30, 32, 34]

  predicate Dashed(t: text) {
    && |t| == 36
    && Is(t[8], '-') && Is(t[13], '-') && Is(t[18], '-') && Is(t[23], '-')
  }

  /** The two lower-case digits of a byte, at column k. */
  predicate DigitsAt(t: text, k: nat, b: byte) {
    k + 2 <= |t| && Is(t[k], "0123456789abcdef"[b / 16]) && Is(t[k + 1], "0123456789abcdef"[b % 16])
  }

  /** The 36 characters for 16 bytes, in lower case. */
  predicate WritesUuid(t: text, b: seq<byte>)
    requires |b| == 16
  {
    Dashed(t) && forall i :: 0 <= i < 16 ==> DigitsAt(t, COLUMN[i], b[i])
  }

  /** The same with each letter in either case. */
  predicate SpellsUuid(t: text, b: seq<byte>)
    requires |b| == 16
  {
    && Dashed(t)
    && forall i :: 0 <= i < 16 ==> SpellsByte(t[COLUMN[i]], t[COLUMN[i] + 1], b[i])
  }

  predicate SpellsByte(high: byte, low: byte, b: byte) {
    && (Is(high, "0123456789abcdef"[b / 16]) || Is(high, "0123456789ABCDEF"[b / 16]))
    && (Is(low, "0123456789abcdef"[b % 16]) || Is(low, "0123456789ABCDEF"[b % 16]))
  }

  lemma LowerDigit(n: nat)
    requires n < 16
    ensures Is(HexDigit(n, 97), "0123456789abcdef"[n])
  {
  }

  lemma UpperDigit(n: nat)
    requires n < 16
    ensures Is(HexDigit(n, 65), "0123456789ABCDEF"[n])
  {
  }

  lemma {:induction false} HexPairs(b: seq<byte>, i: nat)
    requires i < |b|
    ensures |Hex(b)| == 2 * |b|
    ensures DigitsAt(Hex(b), 2 * i, b[i])
  {
    LowerDigit(b[0] / 16);
    LowerDigit(b[0] % 16);
    if |b| == 1 {
      assert b[1..] == [] && Hex(b[1..]) == [];
    } else {
      HexPairs(b[1..], if i == 0 then 0 else i - 1);
    }
  }

  /** What %x makes of a slice of the identifier, standing at its place in the text. */
  lemma Group(t: text, b: seq<byte>, lo: nat, hi: nat, at: nat)
    requires lo < hi <= |b| && at + 2 * (hi - lo) <= |t|
    requires t[at..at + 2 * (hi - lo)] == Hex(b[lo..hi])
    ensures forall i :: lo <= i < hi ==> DigitsAt(t, at + 2 * (i - lo), b[i])
  {
    hide Hex, Is;
    forall i | lo <= i < hi ensures DigitsAt(t, at + 2 * (i - lo), b[i]) {
      HexPairs(b[lo..hi], i - lo);
      var u := t[at..at + 2 * (hi - lo)];
      var k := 2 * (i - lo);
      assert u[k] == t[at + k] && u[k + 1] == t[at + k + 1];
    }
  }

  lemma HexLength(b: seq<byte>)
    requires b != []
    ensures |Hex(b)| == 2 * |b|
  {
    HexPairs(b, 0);
  }

  lemma UuidText(b: seq<byte>)
    requires |b| == 16
    ensures WritesUuid(FormatUuid(b), b)
  {
    hide Hex, Is, DigitsAt;
    var t := FormatUuid(b);
    HexLength(b[0..4]);
    HexLength(b[4..6]);
    HexLength(b[6..8]);
    HexLength(b[8..10]);
    HexLength(b[10..16]);
    assert t[0..8] == Hex(b[0..4]) && t[9..13] == Hex(b[4..6]) && t[14..18] == Hex(b[6..8])
      && t[19..23] == Hex(b[8..10]) && t[24..36] == Hex(b[10..16]);
    Dashes(t);
    Columns(t, b);
  }

  lemma Columns(t: text, b: seq<byte>)
    requires |t| == 36 && |b| == 16
    requires t[0..8] == Hex(b[0..4]) && t[9..13] == Hex(b[4..6]) && t[14..18] == Hex(b[6..8])
    requires t[19..23] == Hex(b[8..10]) && t[24..36] == Hex(b[10..16])
    ensures forall i :: 0 <= i < 16 ==> DigitsAt(t, COLUMN[i], b[i])
  {
    hide Hex, DigitsAt;
    Group(t, b, 0, 4, 0);
    Group(t, b, 4, 6, 9);
    Group(t, b, 6, 8, 14);
    Group(t, b, 8, 10, 19);
    Group(t, b, 10, 16, 24);
    forall i | 0 <= i < 16 ensures DigitsAt(t, COLUMN[i], b[i]) {
      assert COLUMN[i] == if i < 4 then 2 * i else if i < 6 then 9 + 2 * (i - 4) else if i < 8 then 14 + 2 * (i - 6)
        else if i < 10 then 19 + 2 * (i - 8) else 24 + 2 * (i - 10);
    }
  }

  lemma Dashes(t: text)
    requires |t| == 36 && t[8] == 45 && t[13] == 45 && t[18] == 45 && t[23] == 45
    ensures Dashed(t)
  {
  }

  // ------------------------------------------------------------------ labels

  /** The bytes up to the first NUL. */
  predicate UpToNul(t: text, field: seq<byte>) {
    && t <= field && 0 !in t
    && (|t| < |field| ==> field[|t|] == 0)
  }

  /** The bytes up to the last one that is neither a space nor a NUL. */
  predicate Unpadded(t: text, field: seq<byte>) {
    && t <= field
    && (forall i :: |t| <= i < |field| ==> Is(field[i], ' ') || field[i] == 0)
    && (t != [] ==> !Is(t[|t| - 1], ' ') && t[|t| - 1] != 0)
  }

  lemma {:induction false} TrimNulMeans(b: seq<byte>)
    ensures UpToNul(TrimNul(b), b)
  {
    if b != [] && b[0] != 0 {
      TrimNulMeans(b[1..]);
      var t := TrimNul(b[1..]);
      assert b[1..] == t + b[1..][|t|..];
      assert b == [b[0]] + b[1..];
      if |t| < |b[1..]| {
        assert b[1..][|t|] == b[|t| + 1];
      }
    }
  }

  lemma {:induction false} TrimPaddingMeans(b: seq<byte>)
    ensures Unpadded(TrimPadding(b), b)
    decreases |b|
  {
    if b != [] && (b[|b| - 1] == 32 || b[|b| - 1] == 0) {
      var c := b[..|b| - 1];
      TrimPaddingMeans(c);
      var t := TrimPadding(b);
      assert t <= c <= b;
      forall i | |t| <= i < |b| ensures Is(b[i], ' ') || b[i] == 0 {
        if i < |c| { assert c[i] == b[i]; }
      }
    }
  }

  // ------------------------------------------------------------------ what is read where

  lemma Signatures()
    ensures DEV == Raw("/dev/")
    ensures CD001 == Raw("CD001") && FAT32 == Raw("FAT32") && FAT == Raw("FAT")
  {
  }

  lemma Ext4Fields(d: seq<byte>)
    requires |d| >= 1280 && ProbeExt4(d[1024..1280]).Some?
    ensures WritesUuid(ProbeExt4(d[1024..1280]).value.uuid, d[1128..1144])
    ensures UpToNul(ProbeExt4(d[1024..1280]).value.volume, d[1144..1160])
  {
    hide FormatUuid, TrimNul, WritesUuid, UpToNul, FromLe16;
    SliceOfSlice(d, 1024, 1280, 0x68, 0x68 + 16);
    SliceOfSlice(d, 1024, 1280, 0x78, 0x78 + 16);
    UuidText(d[1128..1144]);
    TrimNulMeans(d[1144..1160]);
  }

  lemma ErofsFields(d: seq<byte>)
    requires |d| >= 1152 && ProbeErofs(d[1024..1152]).Some?
    ensures WritesUuid(ProbeErofs(d[1024..1152]).value.uuid, d[1072..1088])
    ensures Unpadded(ProbeErofs(d[1024..1152]).value.volume, d[1088..1104])
  {
    hide FormatUuid, TrimPadding, WritesUuid, Unpadded, FromLe32;
    SliceOfSlice(d, 1024, 1152, 48, 48 + 16);
    SliceOfSlice(d, 1024, 1152, 64, 64 + 16);
    UuidText(d[1072..1088]);
    TrimPaddingMeans(d[1088..1104]);
  }

  lemma IsoFields(d: seq<byte>)
    requires |d| >= 34816 && ProbeIso9660(d[0..34816]).Some?
    ensures ProbeIso9660(d[0..34816]).value.uuid == []
    ensures Unpadded(ProbeIso9660(d[0..34816]).value.volume, d[32808..32840])
  {
    hide TrimPadding, Unpadded;
    SliceOfSlice(d, 0, 34816, ISO_PVD + 40, ISO_PVD + 40 + 32);
    TrimPaddingMeans(d[32808..32840]);
  }

  /** A FAT serial number: the four bytes stored at s, highest first. */
  predicate WritesSerial(t: text, s: seq<byte>)
    requires |s| == 4
  {
    && |t| == 9 && Is(t[4], '-')
    && Is(t[0], "0123456789ABCDEF"[s[3] / 16]) && Is(t[1], "0123456789ABCDEF"[s[3] % 16])
    && Is(t[2], "0123456789ABCDEF"[s[2] / 16]) && Is(t[3], "0123456789ABCDEF"[s[2] % 16])
    && Is(t[5], "0123456789ABCDEF"[s[1] / 16]) && Is(t[6], "0123456789ABCDEF"[s[1] % 16])
    && Is(t[7], "0123456789ABCDEF"[s[0] / 16]) && Is(t[8], "0123456789ABCDEF"[s[0] % 16])
  }

  lemma FourDigits(h: nat, l: nat)
    requires h < 256 && l < 256
    ensures (h * 256 + l) / 4096 == h / 16 && (h * 256 + l) / 256 % 16 == h % 16
    ensures (h * 256 + l) / 16 % 16 == l / 16 && (h * 256 + l) % 16 == l % 16
  {
    var n, h1, h0, l1, l0 := h * 256 + l, h / 16, h % 16, l / 16, l % 16;
    assert h == h1 * 16 + h0 && l == l1 * 16 + l0 && h1 < 16 && l1 < 16;
    assert n == h1 * 4096 + (h0 * 256 + l) && 0 <= h0 * 256 + l < 4096;
    assert n / 256 == h;
    assert n == (h * 16 + l1) * 16 + l0;
    assert n / 16 == h * 16 + l1;
  }

  lemma Hex16Digits(high: byte, low: byte)
    ensures var t := Hex16(high as int * 256 + low as int);
      && |t| == 4
      && Is(t[0], "0123456789ABCDEF"[high / 16]) && Is(t[1], "0123456789ABCDEF"[high % 16])
      && Is(t[2], "0123456789ABCDEF"[low / 16]) && Is(t[3], "0123456789ABCDEF"[low % 16])
  {
    hide HexDigit, Is;
    FourDigits(high, low);
    UpperDigit(high / 16);
    UpperDigit(high % 16);
    UpperDigit(low / 16);
    UpperDigit(low % 16);
  }

  lemma SerialHalves(s: seq<byte>)
    requires |s| >= 4
    ensures FromLe32(s) / TWO_16 == s[3] as int * 256 + s[2] as int
    ensures FromLe32(s) % TWO_16 == s[1] as int * 256 + s[0] as int
  {
  }

  lemma FatTagsMean(b: seq<byte>, labelOff: nat, serialOff: nat)
    requires labelOff + 11 <= |b| && serialOff + 4 <= |b|
    ensures WritesSerial(FatTags(b, labelOff, serialOff).uuid, b[serialOff..serialOff + 4])
    ensures Unpadded(FatTags(b, labelOff, serialOff).volume, b[labelOff..labelOff + 11])
  {
    hide Hex16, TrimPadding, Unpadded, FromLe32;
    var s := b[serialOff..];
    SerialHalves(s);
    Hex16Digits(s[3], s[2]);
    Hex16Digits(s[1], s[0]);
    TrimPaddingMeans(b[labelOff..labelOff + 11]);
  }

  lemma FatFields(d: seq<byte>)
    requires |d| >= 1024 && ProbeFat(d[0..1024]).Some?
    ensures var t := ProbeFat(d[0..1024]).value;
      if d[82..87] == FAT32 then WritesSerial(t.uuid, d[67..71]) && Unpadded(t.volume, d[71..82])
      else d[54..57] == FAT && WritesSerial(t.uuid, d[39..43]) && Unpadded(t.volume, d[43..54])
  {
    hide FatTags, WritesSerial, Unpadded;
    var b := d[0..1024];
    SliceOfSlice(d, 0, 1024, 0x52, 0x52 + 5);
    SliceOfSlice(d, 0, 1024, 0x36, 0x36 + 3);
    SliceOfSlice(d, 0, 1024, 0x43, 0x43 + 4);
    SliceOfSlice(d, 0, 1024, 0x47, 0x47 + 11);
    SliceOfSlice(d, 0, 1024, 0x27, 0x27 + 4);
    SliceOfSlice(d, 0, 1024, 0x2b, 0x2b + 11);
    FatTagsMean(b, 0x47, 0x43);
    FatTagsMean(b, 0x2b, 0x27);
  }

  /** The identity d gives itself; where several signatures are present ext4 wins, then erofs, then ISO 9660. */
  predicate Identifies(i: Info, d: seq<byte>)
    requires HasExt4(d) || HasErofs(d) || HasIso(d) || HasFat(d)
  {
    if HasExt4(d) then
      i.fsType == Ext4 && WritesUuid(i.uuid, d[1128..1144]) && UpToNul(i.volume, d[1144..1160])
    else if HasErofs(d) then
      i.fsType == Erofs && WritesUuid(i.uuid, d[1072..1088]) && Unpadded(i.volume, d[1088..1104])
    else if HasIso(d) then
      i.fsType == Iso9660 && i.uuid == [] && Unpadded(i.volume, d[32808..32840])
    else if d[82..87] == Raw("FAT32") then
      i.fsType == Vfat && WritesSerial(i.uuid, d[67..71]) && Unpadded(i.volume, d[71..82])
    else
      i.fsType == Vfat && WritesSerial(i.uuid, d[39..43]) && Unpadded(i.volume, d[43..54])
  }

  /** A recognised device is identified by the fields its filesystem keeps them in, at their places on the device. */
  lemma IdentifiedByItsFields(disks: Disks, dev: text)
    requires Raw("/dev/") + dev in disks
    ensures var d := disks[Raw("/dev/") + dev];
      if HasExt4(d) || HasErofs(d) || HasIso(d) || HasFat(d)
      then Probed(disks, dev).Some? && Identifies(Probed(disks, dev).value, d)
      else Probed(disks, dev).None?
  {
    hide ProbeExt4, ProbeErofs, ProbeIso9660, ProbeFat, HasExt4, HasErofs, HasIso, HasFat, WritesUuid, WritesSerial,
      Unpadded, UpToNul, ProbedFrom, Raw;
    Signatures();
    var d := disks[DEV + dev];
    Unrolled(disks, dev);
    OnDisk(disks, dev);
    Sizes(d);
    if HasExt4(d) {
      Ext4Fields(d);
    } else if HasErofs(d) {
      ErofsFields(d);
    } else if HasIso(d) {
      IsoFields(d);
    } else if HasFat(d) {
      FatFields(d);
    }
  }

  lemma Sizes(d: seq<byte>)
    ensures HasExt4(d) ==> |d| >= 1280
    ensures HasErofs(d) ==> |d| >= 1152
    ensures HasIso(d) ==> |d| >= 34816
    ensures HasFat(d) ==> |d| >= 1024
  {
  }

  // ------------------------------------------------------------------ specifications

  /** The word in any mixture of cases. */
  predicate Spells(kind: text, upper: string, lower: string)
    requires |upper| == |lower|
  {
    |kind| == |upper| && forall i :: 0 <= i < |kind| ==> Is(kind[i], upper[i]) || Is(kind[i], lower[i])
  }

  lemma UpperWords(kind: text)
    ensures ToUpper(kind) == UUID <==> Spells(kind, "UUID", "uuid")
    ensures ToUpper(kind) == LABEL <==> Spells(kind, "LABEL", "label")
  {
    if |kind| == 4 {
      assert ToUpper(kind) == [Upper(kind[0]), Upper(kind[1]), Upper(kind[2]), Upper(kind[3])];
    }
    if |kind| == 5 {
      assert ToUpper(kind) == [Upper(kind[0]), Upper(kind[1]), Upper(kind[2]), Upper(kind[3]), Upper(kind[4])];
    }
  }

  /** The text before the first equals sign decides, in any case; all that follows it is what is looked for. */
  lemma AsksExactly(kind: text, want: text)
    requires EQUALS !in kind
    ensures Asks(kind + Raw("=") + want) ==
      if Spells(kind, "UUID", "uuid") then ByUuid(want)
      else if Spells(kind, "LABEL", "label") then ByLabel(want)
      else Path
  {
    hide Cut, Spells;
    assert Raw("=") == [EQUALS];
    CutAtFirst(kind, want);
    UpperWords(kind);
  }

  lemma {:induction false} PathWithoutEquals(spec: text)
    requires forall c :: c in spec ==> !Is(c, '=')
    ensures Asks(spec) == Path
  {
    NothingToCut(spec);
  }

  lemma {:induction false} NothingToCut(s: text)
    requires EQUALS !in s
    ensures Cut(s) == None
  {
    if s != [] {
      NothingToCut(s[1..]);
    }
  }

  lemma FoldDigit(stored: byte, n: nat, given: byte)
    requires n < 16 && Is(stored, "0123456789abcdef"[n])
    ensures Upper(stored) == Upper(given) <==>
      Is(given, "0123456789abcdef"[n]) || Is(given, "0123456789ABCDEF"[n])
  {
  }

  lemma FoldDash(given: byte)
    ensures Upper(45) == Upper(given) <==> Is(given, '-')
  {
  }

  lemma FoldMeans(a: text, b: text)
    ensures EqualFold(a, b) <==> |a| == |b| && forall i :: 0 <= i < |a| ==> Upper(a[i]) == Upper(b[i])
  {
    if |a| == |b| && forall i :: 0 <= i < |a| ==> Upper(a[i]) == Upper(b[i]) {
      assert ToUpper(a) == ToUpper(b);
    }
    if ToUpper(a) == ToUpper(b) {
      forall i | 0 <= i < |a| ensures Upper(a[i]) == Upper(b[i]) {
        assert ToUpper(a)[i] == ToUpper(b)[i];
      }
    }
  }

  /** Folding case accepts exactly the spellings of the identifier. */
  lemma FoldUuid(stored: text, b: seq<byte>, given: text)
    requires |b| == 16 && WritesUuid(stored, b)
    ensures EqualFold(stored, given) <==> SpellsUuid(given, b)
  {
    hide Is, Upper, EqualFold;
    FoldMeans(stored, given);
    DashColumns(stored);
    if |given| == 36 {
      FoldDash(given[8]);
      FoldDash(given[13]);
      FoldDash(given[18]);
      FoldDash(given[23]);
      forall i | 0 <= i < 16
        ensures SpellsByte(given[COLUMN[i]], given[COLUMN[i] + 1], b[i]) <==>
          Upper(stored[COLUMN[i]]) == Upper(given[COLUMN[i]]) && Upper(stored[COLUMN[i] + 1]) == Upper(given[COLUMN[i] + 1])
      {
        FoldDigit(stored[COLUMN[i]], b[i] as int / 16, given[COLUMN[i]]);
        FoldDigit(stored[COLUMN[i] + 1], b[i] as int % 16, given[COLUMN[i] + 1]);
      }
      if SpellsUuid(given, b) {
        forall k | 0 <= k < 36 ensures Upper(stored[k]) == Upper(given[k]) {
          if k != 8 && k != 13 && k != 18 && k != 23 {
            var i := ColumnOf(k);
            assert SpellsByte(given[COLUMN[i]], given[COLUMN[i] + 1], b[i]);
          }
        }
      }
    }
  }

  lemma DashColumns(t: text)
    requires Dashed(t)
    ensures t[8] == 45 && t[13] == 45 && t[18] == 45 && t[23] == 45
  {
  }

  /** The byte whose digits stand at k. */
  lemma ColumnOf(k: nat) returns (i: nat)
    requires k < 36 && k != 8 && k != 13 && k != 18 && k != 23
    ensures i < 16 && (COLUMN[i] == k || COLUMN[i] + 1 == k)
  {
    i := if k < 8 then k / 2 else if k < 13 then (k - 1) / 2 else if k < 18 then (k - 2) / 2
      else if k < 23 then (k - 3) / 2 else (k - 4) / 2;
  }

  lemma FoldsToItself(t: text)
    ensures EqualFold(t, t)
  {
  }

  /** An ext4 device is found under exactly the spellings of the 16 bytes it keeps, letters in either case. */
  lemma FoundByItsUuid(disks: Disks, dev: text, want: text)
    requires Raw("/dev/") + dev in disks && HasExt4(disks[Raw("/dev/") + dev])
    ensures Carries(disks, dev, ByUuid(want)) <==> SpellsUuid(want, disks[Raw("/dev/") + dev][1128..1144])
  {
    hide Probed, WritesUuid, SpellsUuid, UpToNul, EqualFold, Raw;
    var b := disks[Raw("/dev/") + dev][1128..1144];
    IdentifiedByItsFields(disks, dev);
    var uuid := Probed(disks, dev).value.uuid;
    FoldUuid(uuid, b, want);
    FoldsToItself(uuid);
  }

  // ------------------------------------------------------------------ devices that are never formatted

  lemma VirtualExactly(dev: text)
    ensures IsVirtual(dev) <==> (
      || Raw("loop") <= dev || Raw("ram") <= dev || Raw("zram") <= dev || Raw("dm-") <= dev
      || Raw("md") <= dev || Raw("nbd") <= dev || Raw("fd") <= dev || Raw("sr") <= dev)
  {
    hide Raw;
    VirtualNames();
    if i :| 0 <= i < |VIRTUAL| && VIRTUAL[i] <= dev {
      assert VIRTUAL[i] in VIRTUAL;
    }
  }

  lemma VirtualNames()
    ensures VIRTUAL[0] == Raw("loop") && VIRTUAL[1] == Raw("ram") && VIRTUAL[2] == Raw("zram") && VIRTUAL[3] == Raw("dm-")
    ensures VIRTUAL[4] == Raw("md") && VIRTUAL[5] == Raw("nbd") && VIRTUAL[6] == Raw("fd") && VIRTUAL[7] == Raw("sr")
    ensures |VIRTUAL| == 8
  {
  }
}
