/** The reader on arbitrary bytes. */
module IsoAnyImage {
  import opened Bytes
  import opened IsoLayout
  import opened IsoReader

  // ------------------------------------------------------------------ the system use area

  /** The system use entries that the walk over an area reaches, up to an ST entry or a bad length. */
  function SuEntries(su: seq<byte>, off: nat): (es: seq<seq<byte>>)
    requires off <= |su|
    ensures forall i :: 0 <= i < |es| ==> |es[i]| >= 4
    decreases |su| - off
  {
    if off + 4 > |su| then []
    else
      var length := su[off + 2];
      if length < 4 || off + length > |su| || su[off..off + 2] == [83, 84] then []
      else [su[off..off + length]] + SuEntries(su, off + length)
  }

  predicate IsNm(e: seq<byte>)
    requires |e| >= 4
  {
    e[..2] == [78, 77]
  }

  /** The names in the NM entries of a list, one after the other. */
  function NmNames(es: seq<seq<byte>>): text
    requires forall i :: 0 <= i < |es| ==> |es[i]| >= 4
  {
    if es == [] then []
    else (if IsNm(es[0]) && |es[0]| >= 5 then es[0][5..] else []) + NmNames(es[1..])
  }

  predicate SomeShortNm(es: seq<seq<byte>>)
    requires forall i :: 0 <= i < |es| ==> |es[i]| >= 4
  {
    es != [] && ((IsNm(es[0]) && |es[0]| == 4) || SomeShortNm(es[1..]))
  }

  lemma SuEntriesStep(su: seq<byte>, off: nat)
    requires off <= |su| && SuEntries(su, off) != []
    ensures off + 4 <= |su| && 4 <= su[off + 2] && off + su[off + 2] <= |su| && su[off..off + 2] != [83, 84]
    ensures var e := su[off..off + su[off + 2]];
      && SuEntries(su, off)[0] == e && SuEntries(su, off)[1..] == SuEntries(su, off + su[off + 2])
      && e[..2] == su[off..off + 2]
  {
    var e := su[off..off + su[off + 2]];
    assert e[..2] == su[off..off + 2];
  }

  /**
   * The name loop on any bytes: it concatenates the NM entries it reaches, and it fails exactly when
   * one of them is four bytes long, which its guard lets through.
   */
  lemma {:induction false} NameLoop(su: seq<byte>, off: nat, acc: text)
    requires off <= |su|
    ensures var es := SuEntries(su, off);
      NmFrom(su, off, acc) == if SomeShortNm(es) then Err(Crash) else Ok(acc + NmNames(es))
    decreases |su| - off
  {
    hide SuEntries;
    var es := SuEntries(su, off);
    if es == [] {
      assert acc + NmNames(es) == acc;
      NameLoopStops(su, off, acc);
    } else {
      SuEntriesStep(su, off);
      var length := su[off + 2];
      var e := su[off..off + length];
      var rest := es[1..];
      if IsNm(e) {
        if length >= 5 {
          var name := su[off + 5..off + length];
          assert e[5..] == name;
          NameLoop(su, off + length, acc + name);
          assert acc + (name + NmNames(rest)) == (acc + name) + NmNames(rest);
        }
      } else {
        NameLoop(su, off + length, acc);
        assert [] + NmNames(rest) == NmNames(rest);
      }
    }
  }

  lemma NameLoopStops(su: seq<byte>, off: nat, acc: text)
    requires off <= |su| && SuEntries(su, off) == []
    ensures NmFrom(su, off, acc) == Ok(acc)
  {
    assert [83, 84] != [78, 77] by {
      assert [83, 84][0] != [78, 77][0];
    }
  }

  // ------------------------------------------------------------------ records

  /** A record with a name of its own: not that of a directory itself or of its parent. */
  predicate HasName(rec: Rec) {
    var nameLen := rec[32];
    nameLen != 0 && 33 + nameLen <= |rec| && !(nameLen == 1 && (rec[33] == 0 || rec[33] == 1))
  }

  function SystemUse(rec: Rec): seq<byte> {
    rec[if SystemUseOff(rec[32]) < |rec| then SystemUseOff(rec[32]) else |rec|..]
  }

  /** A named record whose system use area leads the name loop to an NM entry of four bytes. */
  predicate CrashRec(rec: Rec) {
    HasName(rec) && SomeShortNm(SuEntries(SystemUse(rec), 0))
  }

  lemma NameCrashesExactly(rec: Rec)
    ensures EntryName(rec) == Err(Crash) <==> CrashRec(rec)
    ensures EntryName(rec).Err? ==> EntryName(rec) == Err(Crash)
  {
    hide SuEntries, NmFrom, NmNames, SomeShortNm, NormaliseName;
    NameLoop(SystemUse(rec), 0, []);
  }

  // ------------------------------------------------------------------ directories

  /** The records that a scan reaches from off on, n records in, if nothing stops it early. */
  function Passed(dir: seq<byte>, blockSize: nat, off: nat, n: nat): seq<Rec>
    requires blockSize > 0
    decreases |dir| - off
  {
    if off >= |dir| || n >= MAX_RECORDS then []
    else
      var recLen := dir[off];
      if recLen == 0 then
        var next := NextBlock(off, blockSize);
        if next >= |dir| then [] else Passed(dir, blockSize, next, n + 1)
      else if off + recLen > |dir| || recLen < 33 then []
      else [dir[off..off + recLen]] + Passed(dir, blockSize, off + recLen, n + 1)
  }

  /** A record that crashes the reader comes before the first one that carries the name. */
  predicate MeetsCrash(recs: seq<Rec>, want: text) {
    recs != [] && (CrashRec(recs[0]) || (EntryName(recs[0]) != Ok(Some(want)) && MeetsCrash(recs[1..], want)))
  }

  lemma PassedPadding(dir: seq<byte>, blockSize: nat, off: nat, n: nat)
    requires blockSize > 0 && off < |dir| && n < MAX_RECORDS && dir[off] == 0
    ensures var next := NextBlock(off, blockSize);
      if next >= |dir| then Passed(dir, blockSize, off, n) == [] && Walk(dir, blockSize, off, n) == ([], AtEnd)
      else Passed(dir, blockSize, off, n) == Passed(dir, blockSize, next, n + 1) &&
           Walk(dir, blockSize, off, n) == Walk(dir, blockSize, next, n + 1)
  {
    hide NextBlock, EntryName;
  }

  lemma PassedNothing(dir: seq<byte>, blockSize: nat, off: nat, n: nat)
    requires blockSize > 0
    requires off >= |dir| || n >= MAX_RECORDS || (dir[off] != 0 && (off + dir[off] > |dir| || dir[off] < 33))
    ensures Passed(dir, blockSize, off, n) == [] && Walk(dir, blockSize, off, n).0 == []
    ensures Walk(dir, blockSize, off, n).1 != Bad(Crash)
  {
    hide NextBlock, EntryName;
  }

  lemma MeetsNext(recs: seq<Rec>, want: text)
    ensures MeetsCrash(recs, want) <==>
      recs != [] && (EntryName(recs[0]) == Err(Crash) || (EntryName(recs[0]) != Ok(Some(want)) && MeetsCrash(recs[1..], want)))
  {
    hide EntryName, CrashRec;
    if recs != [] {
      NameCrashesExactly(recs[0]);
    }
  }

  lemma PassedNext(dir: seq<byte>, blockSize: nat, off: nat, n: nat)
    requires blockSize > 0 && off < |dir| && n < MAX_RECORDS && 33 <= dir[off] && off + dir[off] <= |dir|
    ensures var recs := Passed(dir, blockSize, off, n);
      recs != [] && recs[0] == dir[off..off + dir[off]] && recs[1..] == Passed(dir, blockSize, off + dir[off], n + 1)
  {
    hide NextBlock;
  }

  lemma {:induction false} ScanCrashesExactly(dir: seq<byte>, blockSize: nat, off: nat, n: nat, want: text)
    requires blockSize > 0
    ensures Finds(dir, blockSize, off, n, want) == Err(Crash) <==> MeetsCrash(Passed(dir, blockSize, off, n), want)
    decreases |dir| - off
  {
    hide EntryName, Describe, NextBlock, CrashRec, Passed, MeetsCrash, Walk;
    MeetsNext(Passed(dir, blockSize, off, n), want);
    if off >= |dir| || n >= MAX_RECORDS {
      PassedNothing(dir, blockSize, off, n);
    } else if dir[off] == 0 {
      PassedPadding(dir, blockSize, off, n);
      var next := NextBlock(off, blockSize);
      if next < |dir| {
        ScanCrashesExactly(dir, blockSize, next, n + 1, want);
      }
    } else if off + dir[off] > |dir| || dir[off] < 33 {
      PassedNothing(dir, blockSize, off, n);
    } else {
      var rec := dir[off..off + dir[off]];
      PassRecord(dir, blockSize, off, n, want);
      PassedNext(dir, blockSize, off, n);
      hide Finds;
      ScanCrashesExactly(dir, blockSize, off + dir[off], n + 1, want);
      NameCrashesExactly(rec);
      DescribeDoesNotCrash(rec);
    }
  }

  lemma DescribeDoesNotCrash(rec: Rec)
    ensures Describe(rec) != Err(Crash)
  {
    hide FromLe32;
  }

  // ------------------------------------------------------------------ whole devices

  /** Looking for a name in a directory extent crashes. */
  predicate CrashIn(r: Reader, lba: nat, size: nat, want: text)
    requires r.blockSize > 0
  {
    && 0 < size <= MAX_RECORDS * r.blockSize && StartOf(r, lba) + size <= |r.dev|
    && MeetsCrash(Passed(r.dev[StartOf(r, lba)..StartOf(r, lba) + size], r.blockSize, 0, 0), want)
  }

  lemma FindCrashesExactly(r: Reader, lba: nat, size: nat, want: text)
    requires r.blockSize > 0
    ensures FindIn(r, lba, size, want) == Err(Crash) <==> CrashIn(r, lba, size, want)
  {
    hide Walk, Lookup, Passed, MeetsCrash, StartOf;
    if StartOf(r, lba) + size <= |r.dev| {
      ScanCrashesExactly(r.dev[StartOf(r, lba)..StartOf(r, lba) + size], r.blockSize, 0, 0, want);
    }
  }

  /** Some directory that a path leads through, its parts found so far, crashes on the next part. */
  predicate CrashOnPath(r: Reader, lba: nat, size: nat, parts: seq<text>)
    requires r.blockSize > 0
    decreases |parts|
  {
    parts != [] && (
      || CrashIn(r, lba, size, parts[0])
      || (FindIn(r, lba, size, parts[0]).Ok? &&
          var f := FindIn(r, lba, size, parts[0]).value;
          (|parts| == 1) != IsDirectory(f.flags) && CrashOnPath(r, f.lba, f.size, parts[1..])))
  }

  lemma {:induction false} ResolveCrashesExactly(r: Reader, lba: nat, size: nat, parts: seq<text>)
    requires r.blockSize > 0
    ensures Resolve(r, lba, size, parts) == Err(Crash) <==> CrashOnPath(r, lba, size, parts)
    decreases |parts|
  {
    hide FindIn, CrashIn, IsDirectory;
    if parts != [] {
      FindCrashesExactly(r, lba, size, parts[0]);
      if FindIn(r, lba, size, parts[0]).Ok? {
        var f := FindIn(r, lba, size, parts[0]).value;
        ResolveCrashesExactly(r, f.lba, f.size, parts[1..]);
      }
    }
  }

  /**
   * On any device bytes and for any path, opening runs to a result, and reading runs to one, with every
   * index in range, unless in a directory on the way a record whose name loop reaches a four-byte NM
   * entry comes before the first record carrying the next part: exactly then the reader crashes.
   */
  lemma ReaderIsTotal(dev: seq<byte>, name: text)
    ensures Open(dev) != Err(Crash)
    ensures Open(dev).Ok? ==>
      var r := Open(dev).value;
      (Contents(r, name) == Err(Crash) <==> CrashOnPath(r, r.rootLba, r.rootSize, SplitSlash(TrimSlashes(name))))
  {
    hide Resolve, CrashOnPath, SplitSlash, TrimSlashes, FromLe32, FromLe16;
    if Open(dev).Ok? {
      var r := Open(dev).value;
      ResolveCrashesExactly(r, r.rootLba, r.rootSize, SplitSlash(TrimSlashes(name)));
    }
  }

  // ------------------------------------------------------------------ a device that crashes the reader

  /** A record named A, with four bytes of system use: an NM entry too short for its own header. */
  const SHORT_NM: Rec := [38] + Zeros(31) + [1, 65, 78, 77, 4, 1]

  /** A descriptor with blocks of one byte, and a root directory of 38 bytes at the device's start. */
  const DESCRIPTOR: seq<byte> :=
    seq(SECTOR, i requires 0 <= i < SECTOR =>
      if i == 0 || i == 128 then 1 else if 1 <= i < 6 then CD001[i - 1] else if i == 166 then 38 else 0)

  const CRASHING_DEVICE: seq<byte> := SHORT_NM + Zeros(PVD - 38) + DESCRIPTOR

  lemma ShortNmCrashes()
    ensures |SHORT_NM| == 38 && SHORT_NM[0] == 38 && CrashRec(SHORT_NM)
  {
    var rec := SHORT_NM;
    assert rec[32] == 1 && rec[33] == 65;
    assert SystemUse(rec) == [78, 77, 4, 1];
    var su: seq<byte> := [78, 77, 4, 1];
    assert su[0..4] == su && su[0..2] == [78, 77] && su[..2] == [78, 77];
    assert [78, 77] != [83, 84] by { assert [78, 77][0] != [83, 84][0]; }
    assert SuEntries(su, 4) == [];
    assert SuEntries(su, 0) == [su];
  }

  lemma CrashingDeviceOpens()
    ensures Open(CRASHING_DEVICE) == Ok(Reader(CRASHING_DEVICE, 1, 0, 38))
  {
    var pvd := DESCRIPTOR;
    assert |SHORT_NM| == 38 && CRASHING_DEVICE[PVD..PVD + SECTOR] == pvd;
    assert pvd[1..6] == CD001;
    var root := pvd[156..190];
    assert FromLe16(pvd[128..]) == 1 by { assert pvd[128..][0] == pvd[128] && pvd[128..][1] == pvd[129]; }
    assert FromLe32(root[2..]) == 0 by {
      assert forall i :: 0 <= i < 4 ==> root[2..][i] == pvd[158 + i];
    }
    assert FromLe32(root[10..]) == 38 by {
      assert forall i :: 0 <= i < 4 ==> root[10..][i] == pvd[166 + i];
    }
    hide FromLe16, FromLe32;
  }

  /** Reading any file at all from this device crashes the reader. */
  lemma ShortNmCrashesTheReader(name: text)
    ensures Open(CRASHING_DEVICE).Ok? && Contents(Open(CRASHING_DEVICE).value, name) == Err(Crash)
  {
    hide Open, CrashRec, Contents, SplitSlash, TrimSlashes;
    CrashingDeviceOpens();
    ShortNmCrashes();
    var r := Reader(CRASHING_DEVICE, 1, 0, 38);
    assert r.dev[0..38] == SHORT_NM;
    PassedNext(SHORT_NM, 1, 0, 0);
    assert SHORT_NM[0..38] == SHORT_NM;
    var part := SplitSlash(TrimSlashes(name))[0];
    assert CrashIn(r, 0, 38, part);
    ReaderIsTotal(CRASHING_DEVICE, name);
  }
}
