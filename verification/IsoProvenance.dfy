/** Where the bytes that the reader returns come from, on any device and for any path. */
module IsoProvenance {
  import opened Bytes
  import opened IsoLayout
  import opened IsoReader

  /** The record that a lookup returns the description of. */
  lemma {:induction false} LookupIsAMatch(es: seq<Entry>, end: End, want: text) returns (i: nat)
    requires Lookup(es, end, want).Ok?
    ensures i < |es| && es[i].name == want && Lookup(es, end, want) == Describe(es[i].rec)
    ensures forall j :: 0 <= j < i ==> es[j].name != want
  {
    if es[0].name == want {
      i := 0;
    } else {
      var k := LookupIsAMatch(es[1..], end, want);
      i := k + 1;
    }
  }

  /** e is the first of the entries that carries the name. */
  predicate FirstNamed(es: seq<Entry>, want: text, e: Entry) {
    e.name == want && exists i :: 0 <= i < |es| && es[i] == e && forall j :: 0 <= j < i ==> es[j].name != want
  }

  /** The first record of a directory extent that carries the name, lying whole inside the extent. */
  ghost predicate FirstRecord(r: Reader, lba: nat, size: nat, want: text, e: Entry)
    requires r.blockSize > 0
  {
    var start := StartOf(r, lba);
    && start + size <= |r.dev| && e.off + |e.rec| <= size
    && r.dev[start + e.off..start + e.off + |e.rec|] == e.rec
    && EntryName(e.rec) == Ok(Some(want))
    && FirstNamed(Walk(r.dev[start..start + size], r.blockSize, 0, 0).0, want, e)
  }

  lemma ForwardAt(dir: seq<byte>, off: nat, es: seq<Entry>, i: nat)
    requires Forward(dir, off, es) && i < |es|
    ensures es[i].off + |es[i].rec| <= |dir| && es[i].rec == dir[es[i].off..es[i].off + |es[i].rec|]
    ensures EntryName(es[i].rec) == Ok(Some(es[i].name))
  {
    hide EntryName;
  }

  /**
   * What a successful find has found, on any bytes: the first record of the directory that carries
   * the name, lying wholly inside the directory's extent, contiguous and without an extended attribute.
   */
  lemma FoundIsARecord(r: Reader, lba: nat, size: nat, want: text) returns (e: Entry)
    requires r.blockSize > 0 && FindIn(r, lba, size, want).Ok?
    ensures FirstRecord(r, lba, size, want, e)
    ensures e.rec[1] == 0 && e.rec[26] == 0 && e.rec[27] == 0
    ensures FindIn(r, lba, size, want) == Ok(Found(FromLe32(e.rec[2..]), FromLe32(e.rec[10..]), e.rec[25]))
  {
    hide Walk, EntryName, FromLe32, Lookup, Describe, Forward, StartOf;
    var start := StartOf(r, lba);
    var dir := r.dev[start..start + size];
    WalkForward(dir, r.blockSize, 0, 0);
    var w := Walk(dir, r.blockSize, 0, 0);
    assert FindIn(r, lba, size, want) == Lookup(w.0, w.1, want);
    hide FindIn;
    var i := LookupIsAMatch(w.0, w.1, want);
    e := w.0[i];
    ForwardAt(dir, 0, w.0, i);
    SliceOfSlice(r.dev, start, start + size, e.off, e.off + |e.rec|);
    assert FirstNamed(w.0, want, e);
    Described(e.rec);
  }

  lemma Described(rec: Rec)
    requires Describe(rec).Ok?
    ensures rec[1] == 0 && rec[26] == 0 && rec[27] == 0
    ensures Describe(rec) == Ok(Found(FromLe32(rec[2..]), FromLe32(rec[10..]), rec[25]))
  {
  }

  // ------------------------------------------------------------------ paths

  function ExtentOf(rec: Rec): (nat, nat) {
    (FromLe32(rec[2..]), FromLe32(rec[10..]))
  }

  /**
   * One record for each part of a path: the first of that name in the directory that the record before
   * it names, contiguous and without an extended attribute, a directory exactly when another part follows.
   */
  ghost predicate Trail(r: Reader, lba: nat, size: nat, parts: seq<text>, es: seq<Entry>)
    requires r.blockSize > 0
    decreases |parts|
  {
    |es| == |parts| && (parts == [] || (
      && FirstRecord(r, lba, size, parts[0], es[0])
      && es[0].rec[1] == 0 && es[0].rec[26] == 0 && es[0].rec[27] == 0
      && (IsDirectory(es[0].rec[25]) <==> |parts| > 1)
      && Trail(r, ExtentOf(es[0].rec).0, ExtentOf(es[0].rec).1, parts[1..], es[1..])))
  }

  lemma {:induction false} ResolvedAlongATrail(r: Reader, lba: nat, size: nat, parts: seq<text>) returns (es: seq<Entry>)
    requires r.blockSize > 0 && Resolve(r, lba, size, parts).Ok?
    ensures Trail(r, lba, size, parts, es)
    ensures Resolve(r, lba, size, parts).value == if parts == [] then (lba, size) else ExtentOf(es[|es| - 1].rec)
    decreases |parts|
  {
    hide FindIn, FirstRecord, IsDirectory, FromLe32;
    if parts == [] {
      es := [];
    } else {
      var e := FoundIsARecord(r, lba, size, parts[0]);
      var extent := ExtentOf(e.rec);
      var rest := ResolvedAlongATrail(r, extent.0, extent.1, parts[1..]);
      es := [e] + rest;
      assert es[1..] == rest;
    }
  }

  /**
   * Every byte returned for a path comes from the extent of the last record of a trail that starts in the
   * root directory and carries the path's parts, one by one.
   */
  lemma BytesComeFromTheirRecord(r: Reader, name: text) returns (es: seq<Entry>)
    requires r.blockSize > 0 && Contents(r, name).Ok?
    ensures es != [] && Trail(r, r.rootLba, r.rootSize, SplitSlash(TrimSlashes(name)), es)
    ensures var (lba, size) := ExtentOf(es[|es| - 1].rec);
      && size <= MAX_FILE_SIZE && |Contents(r, name).value| == size
      && (size > 0 ==> StartOf(r, lba) + size <= |r.dev| && Contents(r, name).value == r.dev[StartOf(r, lba)..StartOf(r, lba) + size])
  {
    hide Resolve, SplitSlash, TrimSlashes, StartOf, Trail, FromLe32;
    es := ResolvedAlongATrail(r, r.rootLba, r.rootSize, SplitSlash(TrimSlashes(name)));
    assert |es| == |SplitSlash(TrimSlashes(name))| by { TrailLength(r, r.rootLba, r.rootSize, SplitSlash(TrimSlashes(name)), es); }
  }

  lemma TrailLength(r: Reader, lba: nat, size: nat, parts: seq<text>, es: seq<Entry>)
    requires r.blockSize > 0 && Trail(r, lba, size, parts, es)
    ensures |es| == |parts|
  {
  }
}
