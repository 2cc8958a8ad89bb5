/** What the reader makes of any image at all, whoever wrote it, with the numbers of ECMA-119 written out. */
module IsoReading {
  import opened Bytes
  import opened IsoLayout
  import opened IsoReader

  // ------------------------------------------------------------------ opening

  predicate IsDescriptor(dev: seq<byte>) {
    |dev| >= 34816 && dev[32768] == 1 && dev[32769..32774] == Raw("CD001")
  }

  lemma Identifier()
    ensures CD001 == Raw("CD001")
  {
  }

  lemma FirstFour(b: seq<byte>, i: nat)
    requires i + 4 <= |b|
    ensures FromLe32(b[i..]) == FromLe32(b[i..i + 4])
  {
    var x, y := b[i..], b[i..i + 4];
    assert x[0] == y[0] && x[1] == y[1] && x[2] == y[2] && x[3] == y[3];
  }

  lemma FirstTwo(b: seq<byte>, i: nat)
    requires i + 2 <= |b|
    ensures FromLe16(b[i..]) == FromLe16(b[i..i + 2])
  {
  }

  /** An image opens exactly when a primary volume descriptor stands whole at sector 16; the rest is read from it. */
  lemma OpensExactly(dev: seq<byte>)
    ensures Open(dev).Ok? <==> IsDescriptor(dev)
    ensures Open(dev).Err? ==> Open(dev).error == if |dev| < 34816 then Short else NotIso
    ensures Open(dev).Ok? ==>
      var r := Open(dev).value;
      var claimed := FromLe16(dev[32896..32898]);
      && r.dev == dev && r.blockSize == (if claimed == 0 then 2048 else claimed)
      && r.rootLba == FromLe32(dev[32926..32930]) && r.rootSize == FromLe32(dev[32934..32938])
  {
    hide FromLe32, FromLe16, Raw;
    Identifier();
    if |dev| >= 34816 {
      var pvd := dev[32768..34816];
      SliceOfSlice(dev, 32768, 34816, 1, 6);
      SliceOfSlice(dev, 32768, 34816, 128, 130);
      SliceOfSlice(dev, 32768, 34816, 156, 190);
      FirstTwo(pvd, 128);
      var root := dev[32924..32958];
      FirstFour(root, 2);
      FirstFour(root, 10);
      SliceOfSlice(dev, 32924, 32958, 2, 6);
      SliceOfSlice(dev, 32924, 32958, 10, 14);
    }
  }

  // ------------------------------------------------------------------ one record

  /** A record that gives no file: no identifier, one that does not fit, or the directory itself or its parent. */
  predicate IsNameless(rec: Rec) {
    rec[32] == 0 || 33 + rec[32] as int > |rec| || (rec[32] == 1 && (rec[33] == 0 || rec[33] == 1))
  }

  /** The system use area: after the identifier, and after one byte more where that leaves an odd offset. */
  function Extra(rec: Rec): seq<byte>
    requires !IsNameless(rec)
  {
    var at := 33 + rec[32] as int + if rec[32] % 2 == 0 then 1 else 0;
    if at <= |rec| then rec[at..] else []
  }

  /** A record's name: the Rock Ridge one, where there is one, and else its identifier without version and dot. */
  lemma NameExactly(rec: Rec)
    ensures EntryName(rec) == Ok(None) <==> IsNameless(rec)
    ensures !IsNameless(rec) ==> (
      EntryName(rec) ==
      match RockRidge(Extra(rec))
      case Err(e) => Err(e)
      case Ok(Some(name)) => Ok(Some(name))
      case Ok(None) => Ok(Some(NormaliseName(rec[33..33 + rec[32] as int]))))
  {
    hide RockRidge, NormaliseName;
    if !IsNameless(rec) {
      var at := SystemUseOff(rec[32]);
      assert rec[|rec|..] == [];
      assert at == |rec| ==> rec[at..] == [];
    }
  }

  /** A match is refused exactly where the file is interleaved or has an extended attribute record. */
  lemma DescribesExactly(rec: Rec)
    ensures Describe(rec).Ok? <==> rec[26] == 0 && rec[27] == 0 && rec[1] == 0
    ensures Describe(rec).Ok? ==> Describe(rec).value == Found(FromLe32(rec[2..6]), FromLe32(rec[10..14]), rec[25])
    ensures Describe(rec).Err? ==>
      Describe(rec).error == if rec[26] != 0 || rec[27] != 0 then Interleaved else ExtendedAttributes
  {
    hide FromLe32;
    FirstFour(rec, 2);
    FirstFour(rec, 10);
  }

  // ------------------------------------------------------------------ one directory

  /** The first block boundary after an offset. */
  predicate IsNextBoundary(off: nat, next: nat, blockSize: nat)
    requires blockSize > 0
  {
    next % blockSize == 0 && off < next <= off + blockSize
  }

  /** A step of reading a directory in order: over a whole record, or over the padding at the end of a block. */
  predicate Follows(dir: seq<byte>, blockSize: nat, a: nat, b: nat)
    requires blockSize > 0
  {
    && a < |dir| && b < |dir|
    && if dir[a] == 0 then IsNextBoundary(a, b, blockSize)
       else 33 <= dir[a] && b == a + dir[a] as int
  }

  /** A whole record stands at off, with this name. */
  predicate Names(dir: seq<byte>, off: nat, name: text) {
    off < |dir| && 33 <= dir[off] && off + dir[off] as int <= |dir| && EntryName(dir[off..off + dir[off] as int]) == Ok(Some(name))
  }

  /** Nothing at off stops a search for want: padding, or a record with another name or none. */
  predicate Passes(dir: seq<byte>, off: nat, want: text) {
    off < |dir| && (dir[off] != 0 ==>
      && 33 <= dir[off] && off + dir[off] as int <= |dir|
      && EntryName(dir[off..off + dir[off] as int]).Ok?
      && EntryName(dir[off..off + dir[off] as int]).value != Some(want))
  }

  lemma Scaled(p: int, q: int, b: nat)
    requires p <= q
    ensures p * b <= q * b
  {
    assert q * b == p * b + (q - p) * b;
  }

  lemma OnlyOneBoundary(off: nat, next: nat, blockSize: nat)
    requires blockSize > 0 && IsNextBoundary(off, next, blockSize)
    ensures NextBlock(off, blockSize) == next
  {
    var p, q := off / blockSize, next / blockSize;
    assert next == q * blockSize && off == p * blockSize + off % blockSize;
    if q <= p {
      Scaled(q, p, blockSize);
      assert false;
    }
    if q >= p + 2 {
      Scaled(p + 2, q, blockSize);
      assert false;
    }
  }

  lemma PassedBy(dir: seq<byte>, blockSize: nat, a: nat, b: nat, n: nat, want: text)
    requires blockSize > 0 && n < 4096 && Follows(dir, blockSize, a, b) && Passes(dir, a, want)
    ensures Finds(dir, blockSize, a, n, want) == Finds(dir, blockSize, b, n + 1, want)
  {
    hide EntryName, Describe, NextBlock, Lookup;
    if dir[a] == 0 {
      OnlyOneBoundary(a, b, blockSize);
    } else {
      PassRecord(dir, blockSize, a, n, want);
    }
  }

  /** The offsets read in order, from the first, none of which holds what is looked for. */
  predicate LeadsTo(dir: seq<byte>, blockSize: nat, offs: seq<nat>, want: text)
    requires blockSize > 0
  {
    && offs != [] && offs[0] == 0
    && forall i :: 0 <= i < |offs| - 1 ==> Follows(dir, blockSize, offs[i], offs[i + 1]) && Passes(dir, offs[i], want)
  }

  lemma {:induction false} SearchGetsTo(dir: seq<byte>, blockSize: nat, offs: seq<nat>, want: text, i: nat)
    requires blockSize > 0 && LeadsTo(dir, blockSize, offs, want) && i < |offs| <= 4097
    ensures Finds(dir, blockSize, 0, 0, want) == Finds(dir, blockSize, offs[i], i, want)
  {
    hide Follows, Passes, Finds;
    if i > 0 {
      SearchGetsTo(dir, blockSize, offs, want, i - 1);
      assert Follows(dir, blockSize, offs[i - 1], offs[i - 1 + 1]) && Passes(dir, offs[i - 1], want);
      PassedBy(dir, blockSize, offs[i - 1], offs[i], i - 1, want);
    }
  }

  /** A directory's bytes: it has some, at most 4096 blocks of them, and they are all on the device. */
  predicate IsReadable(r: Reader, lba: nat, size: nat) {
    0 < size <= 4096 * r.blockSize && lba * r.blockSize + size <= |r.dev|
  }

  lemma DirectoryRead(r: Reader, lba: nat, size: nat, want: text)
    requires r.blockSize > 0
    ensures FindIn(r, lba, size, want) ==
      if IsReadable(r, lba, size)
      then Finds(r.dev[lba * r.blockSize..lba * r.blockSize + size], r.blockSize, 0, 0, want)
      else Err(if size == 0 || size > 4096 * r.blockSize then Implausible else Short)
  {
    hide Walk, Lookup;
  }

  /**
   * Wherever a record of this name stands, if reading in order comes to it within 4096 records and meets no
   * other of that name before, it is found, with any block size and whatever follows it.
   */
  lemma ReachedIsFound(r: Reader, lba: nat, size: nat, offs: seq<nat>, want: text)
    requires r.blockSize > 0 && IsReadable(r, lba, size) && |offs| <= 4096
    requires LeadsTo(r.dev[lba * r.blockSize..lba * r.blockSize + size], r.blockSize, offs, want)
    requires Names(r.dev[lba * r.blockSize..lba * r.blockSize + size], offs[|offs| - 1], want)
    ensures var dir := r.dev[lba * r.blockSize..lba * r.blockSize + size];
      var off := offs[|offs| - 1];
      FindIn(r, lba, size, want) == Describe(dir[off..off + dir[off] as int])
  {
    hide EntryName, Describe, LeadsTo, FindIn, Finds;
    var dir := r.dev[lba * r.blockSize..lba * r.blockSize + size];
    DirectoryRead(r, lba, size, want);
    NotEmpty(dir, r.blockSize, offs, want);
    SearchGetsTo(dir, r.blockSize, offs, want, |offs| - 1);
    PassRecord(dir, r.blockSize, offs[|offs| - 1], |offs| - 1, want);
  }

  lemma NotEmpty(dir: seq<byte>, blockSize: nat, offs: seq<nat>, want: text)
    requires blockSize > 0 && LeadsTo(dir, blockSize, offs, want)
    ensures offs != []
  {
  }

  /** If nothing stops the search before the directory ends, the name does not exist. */
  lemma PassedIsAbsent(r: Reader, lba: nat, size: nat, offs: seq<nat>, want: text)
    requires r.blockSize > 0 && IsReadable(r, lba, size) && |offs| <= 4096
    requires LeadsTo(r.dev[lba * r.blockSize..lba * r.blockSize + size], r.blockSize, offs, want)
    requires var dir := r.dev[lba * r.blockSize..lba * r.blockSize + size];
      var last := offs[|offs| - 1];
      && Passes(dir, last, want)
      && if dir[last] == 0 then forall b: nat :: IsNextBoundary(last, b, r.blockSize) ==> b >= |dir|
         else last + dir[last] as int == |dir|
    ensures FindIn(r, lba, size, want) == Err(NotExist)
  {
    hide EntryName, Describe, LeadsTo, FindIn;
    var dir := r.dev[lba * r.blockSize..lba * r.blockSize + size];
    DirectoryRead(r, lba, size, want);
    NotEmpty(dir, r.blockSize, offs, want);
    SearchGetsTo(dir, r.blockSize, offs, want, |offs| - 1);
    var last, n := offs[|offs| - 1], |offs| - 1;
    if dir[last] == 0 {
      NextIsBoundary(last, r.blockSize);
    } else {
      PassRecord(dir, r.blockSize, last, n, want);
    }
  }

  /** A record too short, or one that runs past the directory's end, is reported when the search comes to it. */
  lemma CutRecordIsReported(r: Reader, lba: nat, size: nat, offs: seq<nat>, want: text)
    requires r.blockSize > 0 && IsReadable(r, lba, size) && |offs| <= 4096
    requires LeadsTo(r.dev[lba * r.blockSize..lba * r.blockSize + size], r.blockSize, offs, want)
    requires var dir := r.dev[lba * r.blockSize..lba * r.blockSize + size];
      var last := offs[|offs| - 1];
      last < |dir| && dir[last] != 0 && (dir[last] < 33 || last + dir[last] as int > |dir|)
    ensures FindIn(r, lba, size, want) == Err(Truncated)
  {
    hide EntryName, Describe, LeadsTo, FindIn;
    var dir := r.dev[lba * r.blockSize..lba * r.blockSize + size];
    DirectoryRead(r, lba, size, want);
    NotEmpty(dir, r.blockSize, offs, want);
    SearchGetsTo(dir, r.blockSize, offs, want, |offs| - 1);
  }

  /** After 4096 records or blocks the search gives up, whatever comes next. */
  lemma LongSearchGivesUp(r: Reader, lba: nat, size: nat, offs: seq<nat>, want: text)
    requires r.blockSize > 0 && IsReadable(r, lba, size) && |offs| == 4097
    requires LeadsTo(r.dev[lba * r.blockSize..lba * r.blockSize + size], r.blockSize, offs, want)
    ensures FindIn(r, lba, size, want) == Err(NotExist)
  {
    hide EntryName, Describe, LeadsTo, FindIn;
    var dir := r.dev[lba * r.blockSize..lba * r.blockSize + size];
    DirectoryRead(r, lba, size, want);
    SearchGetsTo(dir, r.blockSize, offs, want, 4096);
  }

  lemma NextIsBoundary(off: nat, blockSize: nat)
    requires blockSize > 0
    ensures IsNextBoundary(off, NextBlock(off, blockSize), blockSize)
  {
    var p := off / blockSize;
    assert off == p * blockSize + off % blockSize;
    var x := (p + 1) * blockSize;
    var q := x / blockSize;
    assert x == q * blockSize + x % blockSize;
    if q <= p {
      Scaled(q, p, blockSize);
      assert false;
    }
    Scaled(p + 1, q, blockSize);
  }

  // ------------------------------------------------------------------ one file

  /** A file's bytes are those at its block, unless there are more than 8 MiB of them or the device ends before. */
  lemma BytesExactly(r: Reader, lba: nat, size: nat)
    ensures FileBytes(r, lba, size) ==
      if size > 8388608 then Err(TooBig)
      else if size == 0 then Ok([])
      else if lba * r.blockSize + size > |r.dev| then Err(Short)
      else Ok(r.dev[lba * r.blockSize..lba * r.blockSize + size])
  {
  }
}
