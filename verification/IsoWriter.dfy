/** Writing an image: the writer's own buffers and loops, against the layout. */
module IsoWriter {
  import opened Bytes
  import opened IsoLayout
  import opened IsoRoundTrip

  datatype NameError = EmptyName | Subdirectory | NameTooLong

  datatype WriteError = NoFiles | TooManyFiles | BadName(name: text, why: NameError) | RootChangedSize

  /**
   * What this writer cannot represent. The source also compares the name with its path.Clean, which
   * by then always agrees: a non-empty name without a slash is its own clean form.
   */
  function CheckName(name: text): Option<NameError> {
    if name == [] then Some(EmptyName)
    else if 47 in name || 92 in name then Some(Subdirectory)
    else if |name| > 200 then Some(NameTooLong)
    else None
  }

  // ------------------------------------------------------------------ name order

  /** Go's order on strings: byte by byte, a proper prefix first. */
  predicate Less(a: text, b: text) {
    b != [] && (a == [] || a[0] < b[0] || (a[0] == b[0] && Less(a[1..], b[1..])))
  }

  lemma {:induction false} LessIsTotal(a: text, b: text)
    ensures Less(a, b) || Less(b, a) || a == b
  {
    if a != [] && b != [] && a[0] == b[0] {
      LessIsTotal(a[1..], b[1..]);
      assert a == [a[0]] + a[1..] && b == [b[0]] + b[1..];
    }
  }

  lemma {:induction false} LessIsTransitive(a: text, b: text, c: text)
    requires Less(a, b) && Less(b, c)
    ensures Less(a, c)
  {
    if a != [] && a[0] == b[0] == c[0] {
      LessIsTransitive(a[1..], b[1..], c[1..]);
    }
  }

  lemma {:induction false} LessIsStrict(a: text)
    ensures !Less(a, a)
  {
    if a != [] {
      LessIsStrict(a[1..]);
    }
  }

  function Insert(f: File, files: seq<File>): (r: seq<File>)
    ensures multiset(r) == multiset{f} + multiset(files) && |r| == |files| + 1
  {
    if files == [] then [f]
    else if Less(files[0].name, f.name) then
      assert files == [files[0]] + files[1..];
      [files[0]] + Insert(f, files[1..])
    else [f] + files
  }

  function SortByName(files: seq<File>): (r: seq<File>)
    ensures multiset(r) == multiset(files) && |r| == |files|
  {
    if files == [] then []
    else
      assert files == [files[0]] + files[1..];
      Insert(files[0], SortByName(files[1..]))
  }

  ghost predicate Sorted(files: seq<File>) {
    forall i, j :: 0 <= i < j < |files| ==> Less(files[i].name, files[j].name)
  }

  lemma {:induction false} InsertSorts(f: File, files: seq<File>)
    requires Sorted(files) && forall g :: g in files ==> g.name != f.name
    ensures Sorted(Insert(f, files))
  {
    var r := Insert(f, files);
    if files != [] {
      LessIsTotal(files[0].name, f.name);
      if Less(files[0].name, f.name) {
        InsertSorts(f, files[1..]);
        var rest := Insert(f, files[1..]);
        forall j | 0 <= j < |rest| ensures Less(files[0].name, rest[j].name) {
          assert rest[j] in multiset(rest);
        }
      } else {
        forall j | 0 <= j < |files| ensures Less(f.name, files[j].name) {
          if 0 < j { LessIsTransitive(f.name, files[0].name, files[j].name); }
        }
      }
    }
  }

  lemma {:induction false} SortSorts(files: seq<File>)
    requires Distinct(files)
    ensures Sorted(SortByName(files))
  {
    if files != [] {
      SortSorts(files[1..]);
      var rest := SortByName(files[1..]);
      forall g | g in rest ensures g.name != files[0].name {
        assert g in multiset(rest) && g in files[1..];
      }
      InsertSorts(files[0], rest);
    }
  }

  /** A sorted list is determined by what is in it. */
  lemma {:induction false} SortedIsUnique(a: seq<File>, b: seq<File>)
    requires Sorted(a) && Sorted(b) && multiset(a) == multiset(b)
    ensures a == b
    decreases |a|
  {
    if a == [] {
      assert |multiset(b)| == |multiset(a)| == 0;
    } else {
      assert a[0] in multiset(b) && |b| > 0 && b[0] in multiset(a);
      SameHead(a, b);
      hide Sorted;
      WithoutFirst(a);
      WithoutFirst(b);
      SortedIsUnique(a[1..], b[1..]);
    }
  }

  lemma WithoutFirst(a: seq<File>)
    requires Sorted(a) && a != []
    ensures Sorted(a[1..]) && multiset(a[1..]) == multiset(a) - multiset{a[0]} && a == [a[0]] + a[1..]
  {
    assert a == [a[0]] + a[1..];
  }

  lemma SameHead(a: seq<File>, b: seq<File>)
    requires Sorted(a) && Sorted(b) && a != [] && b != [] && a[0] in b && b[0] in a
    ensures a[0] == b[0]
  {
    if a[0] != b[0] {
      var i :| 0 <= i < |b| && b[i] == a[0];
      var j :| 0 <= j < |a| && a[j] == b[0];
      LessIsTransitive(a[0].name, b[0].name, a[0].name);
      LessIsStrict(a[0].name);
      assert false;
    }
  }

  // ------------------------------------------------------------------ what Write returns

  function FirstBadName(files: seq<File>): Option<WriteError> {
    if files == [] then None
    else
      match CheckName(files[0].name)
      case Some(why) => Some(BadName(files[0].name, why))
      case None => FirstBadName(files[1..])
  }

  function Written(volume: text, files: seq<File>): Result<seq<byte>, WriteError> {
    if files == [] then Err(NoFiles)
    else if |files| > MAX_FILES then Err(TooManyFiles)
    else
      var sorted := SortByName(files);
      match FirstBadName(sorted)
      case Some(e) => Err(e)
      case None => Ok(ImageOf(volume, sorted))
  }

  /** The same files give the same image, in whatever order they are passed. */
  lemma {:induction false} ImageDoesNotDependOnOrder(volume: text, files: seq<File>, others: seq<File>)
    requires Distinct(files) && Distinct(others) && multiset(files) == multiset(others)
    ensures Written(volume, files) == Written(volume, others)
  {
    SortSorts(files);
    SortSorts(others);
    SortedIsUnique(SortByName(files), SortByName(others));
    assert |multiset(files)| == |files| && |multiset(others)| == |others|;
    hide ImageOf;
  }

  // ------------------------------------------------------------------ writing in place

  /** The buffer holds `done`, and nothing has been written past it. */
  ghost predicate Holds(img: array<byte>, done: seq<byte>)
    reads img
  {
    |done| <= img.Length && img[..] == done + Zeros(img.Length - |done|)
  }

  method NewBuffer(n: nat) returns (img: array<byte>)
    ensures fresh(img) && img.Length == n && Holds(img, [])
  {
    img := new byte[n](i => 0);
  }

  /** copy(img[off:], s) */
  method Put(img: array<byte>, off: nat, s: seq<byte>, ghost done: seq<byte>)
    requires Holds(img, done) && |done| <= off && off + |s| <= img.Length
    modifies img
    ensures Holds(img, At(done, off, s))
  {
    ghost var before := img[..];
    forall i | 0 <= i < |s| {
      img[off + i] := s[i];
    }
    assert img[..] == before[..off] + s + before[off + |s|..];
  }

  method PutLe32(img: array<byte>, off: nat, v: nat, ghost done: seq<byte>)
    requires Holds(img, done) && |done| <= off && off + 4 <= img.Length && v < TWO_32
    modifies img
    ensures Holds(img, At(done, off, Le32(v)))
  {
    ghost var before := img[..];
    img[off], img[off + 1], img[off + 2], img[off + 3] :=
      v % 256, v / 256 % 256, v / 256 / 256 % 256, v / 256 / 256 / 256;
    assert img[..] == before[..off] + Le32(v) + before[off + 4..];
  }

  method PutBe32(img: array<byte>, off: nat, v: nat, ghost done: seq<byte>)
    requires Holds(img, done) && |done| <= off && off + 4 <= img.Length && v < TWO_32
    modifies img
    ensures Holds(img, At(done, off, Be32(v)))
  {
    ghost var before := img[..];
    img[off], img[off + 1], img[off + 2], img[off + 3] :=
      v / 256 / 256 / 256, v / 256 / 256 % 256, v / 256 % 256, v % 256;
    assert img[..] == before[..off] + Be32(v) + before[off + 4..];
  }

  method PutLe16(img: array<byte>, off: nat, v: nat, ghost done: seq<byte>)
    requires Holds(img, done) && |done| <= off && off + 2 <= img.Length && v < TWO_16
    modifies img
    ensures Holds(img, At(done, off, Le16(v)))
  {
    ghost var before := img[..];
    img[off], img[off + 1] := v % 256, v / 256;
    assert img[..] == before[..off] + Le16(v) + before[off + 2..];
  }

  method PutBe16(img: array<byte>, off: nat, v: nat, ghost done: seq<byte>)
    requires Holds(img, done) && |done| <= off && off + 2 <= img.Length && v < TWO_16
    modifies img
    ensures Holds(img, At(done, off, Be16(v)))
  {
    ghost var before := img[..];
    img[off], img[off + 1] := v / 256, v % 256;
    assert img[..] == before[..off] + Be16(v) + before[off + 2..];
  }

  lemma TwoAts(done: seq<byte>, off: nat, a: seq<byte>, b: seq<byte>)
    requires |done| <= off
    ensures At(At(done, off, a), off + |a|, b) == At(done, off, a + b)
  {
  }

  method PutBoth32(img: array<byte>, off: nat, v: nat, ghost done: seq<byte>)
    requires Holds(img, done) && |done| <= off && off + 8 <= img.Length
    modifies img
    ensures Holds(img, At(done, off, Both32(v)))
  {
    PutLe32(img, off, v % TWO_32, done);
    PutBe32(img, off + 4, v % TWO_32, At(done, off, Le32(v % TWO_32)));
    TwoAts(done, off, Le32(v % TWO_32), Be32(v % TWO_32));
  }

  method PutBoth16(img: array<byte>, off: nat, v: nat, ghost done: seq<byte>)
    requires Holds(img, done) && |done| <= off && off + 4 <= img.Length && v < TWO_16
    modifies img
    ensures Holds(img, At(done, off, Both16(v)))
  {
    PutLe16(img, off, v, done);
    PutBe16(img, off + 2, v, At(done, off, Le16(v)));
    TwoAts(done, off, Le16(v), Be16(v));
  }

  /** Spaces first, then the text over them as far as it fits. */
  method PutText(img: array<byte>, off: nat, n: nat, s: text, ghost done: seq<byte>)
    requires Holds(img, done) && |done| <= off && off + n <= img.Length
    modifies img
    ensures Holds(img, At(done, off, PadText(n, s)))
  {
    hide At, PadText;
    ghost var before := img[..];
    for i := 0 to n
      invariant forall k :: 0 <= k < img.Length ==> img[k] == if off <= k < off + i then 32 else before[k]
    {
      img[off + i] := 32;
    }
    var fits := if |s| <= n then |s| else n;
    for i := 0 to fits
      invariant forall k :: 0 <= k < img.Length ==>
        img[k] == if off <= k < off + i then s[k - off] else if off + i <= k < off + n then 32 else before[k]
    {
      img[off + i] := s[i];
    }
    TextInPlace(img, off, n, s, before, done);
  }

  lemma TextInPlace(img: array<byte>, off: nat, n: nat, s: text, before: seq<byte>, done: seq<byte>)
    requires |before| == img.Length && |done| <= off && off + n <= img.Length
    requires before == done + Zeros(img.Length - |done|)
    requires forall k :: 0 <= k < img.Length ==>
      img[k] == if off <= k < off + |s| && k < off + n then s[k - off] else if off <= k < off + n then 32 else before[k]
    ensures Holds(img, At(done, off, PadText(n, s)))
  {
    var r := At(done, off, PadText(n, s));
    assert forall k :: off <= k < off + n ==> r[k] == PadText(n, s)[k - off];
    assert forall k :: 0 <= k < |r| ==> img[k] == r[k];
    assert img[..] == r + Zeros(img.Length - |r|);
  }

  // ------------------------------------------------------------------ records and directories

  /** A record up to its identifier. */
  ghost function Fixed(length: byte, extent: nat, size: nat, flags: byte, idLen: byte): (r: seq<byte>)
    ensures |r| == 33
  {
    var r := At([], 0, [length]);
    var r := At(r, 1, [0]);
    var r := At(r, 2, Both32(extent));
    var r := At(r, 10, Both32(size));
    var r := At(r, 18, TIMESTAMP);
    var r := At(r, 25, [flags]);
    var r := At(r, 26, [0]);
    var r := At(r, 27, [0]);
    var r := At(r, 28, Both16(1));
    At(r, 32, [idLen])
  }

  method PutFixed(rec: array<byte>, extent: nat, size: nat, flags: byte, idLen: byte)
    requires Holds(rec, []) && 33 <= rec.Length
    modifies rec
    ensures Holds(rec, Fixed(rec.Length % 256, extent, size, flags, idLen))
  {
    hide Holds, Both32, Both16, At;
    ghost var done: seq<byte> := [];
    Put(rec, 0, [rec.Length % 256], done); done := At(done, 0, [rec.Length % 256]);
    Put(rec, 1, [0], done); done := At(done, 1, [0]);
    PutBoth32(rec, 2, extent, done); done := At(done, 2, Both32(extent));
    PutBoth32(rec, 10, size, done); done := At(done, 10, Both32(size));
    Put(rec, 18, TIMESTAMP, done); done := At(done, 18, TIMESTAMP);
    Put(rec, 25, [flags], done); done := At(done, 25, [flags]);
    Put(rec, 26, [0], done); done := At(done, 26, [0]);
    Put(rec, 27, [0], done); done := At(done, 27, [0]);
    PutBoth16(rec, 28, 1, done); done := At(done, 28, Both16(1));
    Put(rec, 32, [idLen], done);
  }

  method DirRecord(id: seq<byte>, extent: nat, size: nat, flags: byte, su: seq<byte>) returns (r: seq<byte>)
    ensures r == Record(id, extent, size, flags, su)
  {
    hide Holds, Both32, Both16, At;
    var base := 33 + |id|;
    if base % 2 == 1 {
      base := base + 1;
    }
    var rec := NewBuffer(base + |su|);
    PutFixed(rec, extent, size, flags, |id| % 256);
    ghost var done := Fixed(rec.Length % 256, extent, size, flags, |id| % 256);
    Put(rec, 33, id, done); done := At(done, 33, id);
    Put(rec, base, su, done); done := At(done, base, su);
    Full(rec, done);
    r := rec[..];
  }

  lemma Full(img: array<byte>, done: seq<byte>)
    requires Holds(img, done) && |done| == img.Length
    ensures img[..] == done
  {
  }

  method BuildRootDir(files: seq<File>, extents: seq<nat>, rootSectors: nat) returns (out: seq<byte>)
    requires |files| == |extents|
    ensures out == RootDir(files, extents, rootSectors)
  {
    hide Record, FileRecordLen, Place, At, Nm, IsoName;
    var self := DirRecord(ID_SELF, SECTOR_ROOT_DIR, rootSectors * SECTOR, FLAG_DIRECTORY, SP + ER);
    var parent := DirRecord(ID_PARENT, SECTOR_ROOT_DIR, rootSectors * SECTOR, FLAG_DIRECTORY, []);
    out := self + parent;
    for i := 0 to |files|
      invariant RootDir(files, extents, rootSectors) == Place(out, files[i..], extents[i..])
    {
      var f := files[i];
      var rec := DirRecord(IsoName(f.name), extents[i], |f.data|, 0, Nm(f.name));
      ghost var before := out;
      if |out| % SECTOR + |rec| > SECTOR {
        out := out + Zeros(SECTOR - |out| % SECTOR);
      }
      out := out + rec;
      AppendedAt(before, rec, out);
      assert files[i..][0] == f && files[i..][1..] == files[i + 1..] && extents[i..][1..] == extents[i + 1..];
      PlaceFirst(before, files[i..], extents[i..]);
    }
    PlaceNothing(out);
    if |out| % SECTOR != 0 {
      out := out + Zeros(SECTOR - |out| % SECTOR);
    }
  }

  lemma AppendedAt(before: seq<byte>, rec: seq<byte>, out: seq<byte>)
    requires out == (if |before| % SECTOR + |rec| > SECTOR then before + Zeros(SECTOR - |before| % SECTOR) else before) + rec
    ensures out == At(before, Slot(|before|, |rec|), rec)
  {
  }

  lemma PlaceFirst(out: seq<byte>, files: seq<File>, extents: seq<nat>)
    requires |files| == |extents| && files != []
    ensures var rec := Record(IsoName(files[0].name), extents[0], |files[0].data|, 0, Nm(files[0].name));
      Place(out, files, extents) == Place(At(out, Slot(|out|, |rec|), rec), files[1..], extents[1..])
  {
    hide Record, Nm, IsoName, At;
  }

  lemma PlaceNothing(out: seq<byte>)
    ensures Place(out, [], []) == PadToSector(out)
  {
  }

  // ------------------------------------------------------------------ the image

  method WriteVolumeHead(img: array<byte>, volume: text, total: nat, rootSectors: nat)
    requires Holds(img, []) && PVD + 882 <= img.Length
    modifies img
    ensures Holds(img, VolumeHead(volume, total, rootSectors))
  {
    hide Holds, Both32, Both16, PadText, Record, Le32, Be32;
    ghost var v: seq<byte> := [];
    Put(img, PVD, [1], v); v := At(v, PVD, [1]);
    Put(img, PVD + 1, CD001, v); v := At(v, PVD + 1, CD001);
    Put(img, PVD + 6, [1], v); v := At(v, PVD + 6, [1]);
    PutText(img, PVD + 8, 32, [], v); v := At(v, PVD + 8, PadText(32, []));
    PutText(img, PVD + 40, 32, volume, v); v := At(v, PVD + 40, PadText(32, volume));
    PutBoth32(img, PVD + 80, total, v); v := At(v, PVD + 80, Both32(total));
    PutBoth16(img, PVD + 120, 1, v); v := At(v, PVD + 120, Both16(1));
    PutBoth16(img, PVD + 124, 1, v); v := At(v, PVD + 124, Both16(1));
    PutBoth16(img, PVD + 128, SECTOR, v); v := At(v, PVD + 128, Both16(SECTOR));
    PutBoth32(img, PVD + 132, 10, v); v := At(v, PVD + 132, Both32(10));
    PutLe32(img, PVD + 140, SECTOR_PATH_TABLE_L, v); v := At(v, PVD + 140, Le32(SECTOR_PATH_TABLE_L));
    PutBe32(img, PVD + 148, SECTOR_PATH_TABLE_M, v); v := At(v, PVD + 148, Be32(SECTOR_PATH_TABLE_M));
    var root := DirRecord(ID_SELF, SECTOR_ROOT_DIR, rootSectors * SECTOR, FLAG_DIRECTORY, []);
    Put(img, PVD + 156, root, v); v := At(v, PVD + 156, root);
  }

  method WritePvd(img: array<byte>, volume: text, total: nat, rootSectors: nat)
    requires Holds(img, []) && PVD + 882 <= img.Length
    modifies img
    ensures Holds(img, Volume(volume, total, rootSectors))
  {
    hide Holds, PadText, VolumeHead;
    WriteVolumeHead(img, volume, total, rootSectors);
    ghost var v := VolumeHead(volume, total, rootSectors);
    PutText(img, PVD + 190, 128, [], v); v := At(v, PVD + 190, PadText(128, []));
    PutText(img, PVD + 318, 128, [], v); v := At(v, PVD + 318, PadText(128, []));
    PutText(img, PVD + 446, 128, [], v); v := At(v, PVD + 446, PadText(128, []));
    PutText(img, PVD + 574, 128, [], v); v := At(v, PVD + 574, PadText(128, []));
    PutText(img, PVD + 702, 37, [], v); v := At(v, PVD + 702, PadText(37, []));
    PutText(img, PVD + 739, 37, [], v); v := At(v, PVD + 739, PadText(37, []));
    PutText(img, PVD + 776, 37, [], v); v := At(v, PVD + 776, PadText(37, []));
    Put(img, PVD + 813, NO_DATE, v); v := At(v, PVD + 813, NO_DATE);
    Put(img, PVD + 830, NO_DATE, v); v := At(v, PVD + 830, NO_DATE);
    Put(img, PVD + 847, NO_DATE, v); v := At(v, PVD + 847, NO_DATE);
    Put(img, PVD + 864, NO_DATE, v); v := At(v, PVD + 864, NO_DATE);
    Put(img, PVD + 881, [1], v);
  }

  /** The terminator and both path tables. */
  method WriteTables(img: array<byte>, volume: text, total: nat, rootSectors: nat)
    requires Holds(img, Volume(volume, total, rootSectors)) && SECTOR_ROOT_DIR * SECTOR <= img.Length
    modifies img
    ensures Holds(img, Prologue(volume, total, rootSectors))
  {
    hide Holds, Volume, Le32, Be32, Le16, Be16;
    ghost var v := Volume(volume, total, rootSectors);
    var t, l, m := SECTOR_TERMINATOR * SECTOR, SECTOR_PATH_TABLE_L * SECTOR, SECTOR_PATH_TABLE_M * SECTOR;
    Put(img, t, [255], v); v := At(v, t, [255]);
    Put(img, t + 1, CD001, v); v := At(v, t + 1, CD001);
    Put(img, t + 6, [1], v); v := At(v, t + 6, [1]);
    Put(img, l, [1], v); v := At(v, l, [1]);
    Put(img, l + 1, [0], v); v := At(v, l + 1, [0]);
    PutLe32(img, l + 2, SECTOR_ROOT_DIR, v); v := At(v, l + 2, Le32(SECTOR_ROOT_DIR));
    PutLe16(img, l + 6, 1, v); v := At(v, l + 6, Le16(1));
    Put(img, l + 8, ID_SELF, v); v := At(v, l + 8, ID_SELF);
    Put(img, m, [1], v); v := At(v, m, [1]);
    Put(img, m + 1, [0], v); v := At(v, m + 1, [0]);
    PutBe32(img, m + 2, SECTOR_ROOT_DIR, v); v := At(v, m + 2, Be32(SECTOR_ROOT_DIR));
    PutBe16(img, m + 6, 1, v); v := At(v, m + 6, Be16(1));
    Put(img, m + 8, ID_SELF, v);
  }

  /** Copying each file to its extent. */
  method WriteData(img: array<byte>, files: seq<File>, extents: seq<nat>, next: nat, ghost done: seq<byte>)
    requires Holds(img, done) && |done| <= next * SECTOR && extents == Extents(files, next)
    requires (next + DataSectors(files)) * SECTOR <= img.Length
    modifies img
    ensures Holds(img, WithData(done, files, next))
  {
    hide Holds, At;
    ghost var v := done;
    ghost var at := next;
    for i := 0 to |files|
      invariant Holds(img, v) && |v| <= at * SECTOR && extents[i..] == Extents(files[i..], at)
      invariant (at + DataSectors(files[i..])) * SECTOR <= img.Length
      invariant WithData(done, files, next) == WithData(v, files[i..], at)
    {
      var f := files[i];
      assert files[i..][0] == f && files[i..][1..] == files[i + 1..];
      assert extents[i..][0] == at && extents[i..][1..] == extents[i + 1..];
      Put(img, extents[i] * SECTOR, f.data, v);
      v := At(v, at * SECTOR, f.data);
      at := at + Sectors(|f.data|);
    }
  }

  method CheckNames(files: seq<File>) returns (r: Option<WriteError>)
    ensures r == FirstBadName(files)
  {
    for i := 0 to |files|
      invariant FirstBadName(files) == FirstBadName(files[i..])
    {
      var bad := CheckName(files[i].name);
      assert files[i..][0] == files[i] && files[i..][1..] == files[i + 1..];
      if bad.Some? {
        return Some(BadName(files[i].name, bad.value));
      }
    }
    return None;
  }

  /** Giving each file its extent, one after the other. */
  method LayOut(files: seq<File>, first: nat) returns (extents: seq<nat>, total: nat)
    ensures extents == Extents(files, first) && total == first + DataSectors(files)
  {
    var next: nat := first;
    extents := [];
    for i := 0 to |files|
      invariant Extents(files, first) == extents + Extents(files[i..], next)
      invariant first + DataSectors(files) == next + DataSectors(files[i..])
    {
      assert files[i..][0] == files[i] && files[i..][1..] == files[i + 1..];
      extents := extents + [next];
      next := next + Sectors(|files[i].data|);
    }
    total := next;
  }

  method Write(volume: text, files: seq<File>) returns (r: Result<seq<byte>, WriteError>)
    ensures r == Written(volume, files)
  {
    hide RootDir, ImageOf, SortByName, FirstBadName, Extents, DataSectors;
    if |files| == 0 {
      return Err(NoFiles);
    }
    if |files| > MAX_FILES {
      return Err(TooManyFiles);
    }
    var sorted := SortByName(files);
    var bad := CheckNames(sorted);
    if bad.Some? {
      return Err(bad.value);
    }
    r := WriteSorted(volume, sorted);
  }

  /** Two passes: the first measures the root directory, the second knows where the files go. */
  method WriteSorted(volume: text, files: seq<File>) returns (r: Result<seq<byte>, WriteError>)
    ensures r == Ok(ImageOf(volume, files))
  {
    hide RootDir, ImageOf, Extents, DataSectors;
    var root := BuildRootDir(files, seq(|files|, i => 0), 0);
    var rootSectors := Sectors(|root|);
    var extents, total := LayOut(files, SECTOR_ROOT_DIR + rootSectors);
    root := BuildRootDir(files, extents, rootSectors);
    SecondPassKeepsSize(files, extents, rootSectors);
    if Sectors(|root|) != rootSectors {
      return Err(RootChangedSize);
    }
    r := WriteImage(volume, files, extents, total, root, rootSectors);
  }

  method WriteImage(volume: text, files: seq<File>, extents: seq<nat>, total: nat, root: seq<byte>, rootSectors: nat)
    returns (r: Result<seq<byte>, WriteError>)
    requires rootSectors == RootSectors(files) && total == Total(files)
    requires extents == RootExtents(files) && root == Root(files)
    ensures r == Ok(ImageOf(volume, files))
  {
    hide Holds, Prologue, Volume, RootDir, WithData, At, RootSectors, Root, Extents;
    var img := NewBuffer(total * SECTOR);
    WritePvd(img, volume, total, rootSectors);
    WriteTables(img, volume, total, rootSectors);
    Put(img, SECTOR_ROOT_DIR * SECTOR, root, Prologue(volume, total, rootSectors));
    ghost var v := WithRoot(volume, files);
    WriteData(img, files, extents, SECTOR_ROOT_DIR + rootSectors, v);
    Rest(img, WithData(v, files, SECTOR_ROOT_DIR + rootSectors));
    r := Ok(img[..]);
  }

  lemma Rest(img: array<byte>, done: seq<byte>)
    requires Holds(img, done)
    ensures |done| <= img.Length && img[..] == done + Zeros(img.Length - |done|)
  {
  }
}
