/** Reading files out of an ISO 9660 image: the reader's own loops, and what they compute. */
module IsoReader {
  import opened Bytes
  import opened IsoLayout

  datatype ReadError =
    | Short                  // the device ends before the read does
    | NotIso | Implausible | Truncated | Interleaved | ExtendedAttributes
    | NotExist | WrongKind | TooBig
    | Crash                  // a slice expression with its bounds the wrong way round

  datatype Reader = Reader(dev: seq<byte>, blockSize: nat, rootLba: nat, rootSize: nat)

  datatype Found = Found(lba: nat, size: nat, flags: byte)

  function ReadAt(dev: seq<byte>, off: nat, n: nat): Result<seq<byte>, ReadError> {
    if off + n <= |dev| then Ok(dev[off..off + n]) else Err(Short)
  }

  function Open(dev: seq<byte>): (r: Result<Reader, ReadError>)
    ensures r.Ok? ==> r.value.dev == dev && r.value.blockSize > 0
  {
    match ReadAt(dev, PVD, SECTOR)
    case Err(e) => Err(e)
    case Ok(pvd) =>
      if pvd[0] != 1 || pvd[1..6] != CD001 then Err(NotIso)
      else
        var claimed := FromLe16(pvd[128..]);
        var blockSize := if claimed == 0 then SECTOR else claimed;
        var root := pvd[156..190];
        Ok(Reader(dev, blockSize, FromLe32(root[2..]), FromLe32(root[10..])))
  }

  // ------------------------------------------------------------------ entry names

  /** The NM content of a system use area from off on, after acc. */
  function NmFrom(su: seq<byte>, off: nat, acc: text): Result<text, ReadError>
    requires off <= |su|
    decreases |su| - off
  {
    if off + 4 > |su| then Ok(acc)
    else
      var length := su[off + 2];
      if length < 4 || off + length > |su| then Ok(acc)
      else if su[off..off + 2] == [78, 77] then
        if length < 5 then Err(Crash) else NmFrom(su, off + length, acc + su[off + 5..off + length])
      else if su[off..off + 2] == [83, 84] then Ok(acc)
      else NmFrom(su, off + length, acc)
  }

  method RockRidgeName(su: seq<byte>) returns (r: Result<Option<text>, ReadError>)
    ensures r == RockRidge(su)
  {
    var name: text := [];
    var off := 0;
    while off + 4 <= |su|
      invariant 0 <= off <= |su|
      invariant NmFrom(su, 0, []) == NmFrom(su, off, name)
    {
      var length := su[off + 2];
      if length < 4 || off + length > |su| {
        break;
      }
      var sig := su[off..off + 2];
      if sig == [78, 77] {
        if length < 5 {
          return Err(Crash);
        }
        name := name + su[off + 5..off + length];
      } else if sig == [83, 84] {
        break;
      }
      off := off + length;
    }
    return Ok(if name == [] then None else Some(name));
  }

  function RockRidge(su: seq<byte>): Result<Option<text>, ReadError> {
    match NmFrom(su, 0, [])
    case Err(e) => Err(e)
    case Ok(name) => Ok(if name == [] then None else Some(name))
  }

  function IndexOf(s: text, c: byte): (i: nat)
    ensures i <= |s| && (forall j :: 0 <= j < i ==> s[j] != c) && (i < |s| ==> s[i] == c)
  {
    if s == [] || s[0] == c then 0 else 1 + IndexOf(s[1..], c)
  }

  /** Strips the version suffix and a trailing dot. */
  function NormaliseName(s: text): text {
    var s := s[..IndexOf(s, 59)];
    if s != [] && s[|s| - 1] == 46 then s[..|s| - 1] else s
  }

  /** A record's file name; None for the entries for a directory itself and its parent. */
  function EntryName(rec: seq<byte>): Result<Option<text>, ReadError>
    requires |rec| >= 33
  {
    var nameLen := rec[32];
    if nameLen == 0 || 33 + nameLen > |rec| then Ok(None)
    else
      var raw := rec[33..33 + nameLen];
      if nameLen == 1 && (raw[0] == 0 || raw[0] == 1) then Ok(None)
      else
        var su := rec[if SystemUseOff(nameLen) < |rec| then SystemUseOff(nameLen) else |rec|..];
        match RockRidge(su)
        case Err(e) => Err(e)
        case Ok(Some(name)) => Ok(Some(name))
        case Ok(None) => Ok(Some(NormaliseName(raw)))
  }

  method ReadEntryName(rec: seq<byte>) returns (r: Result<Option<text>, ReadError>)
    requires |rec| >= 33
    ensures r == EntryName(rec)
  {
    var nameLen := rec[32];
    if nameLen == 0 || 33 + nameLen > |rec| {
      return Ok(None);
    }
    var raw := rec[33..33 + nameLen];
    if nameLen == 1 && (raw[0] == 0 || raw[0] == 1) {
      return Ok(None);
    }
    var sysOff := 33 + nameLen;
    if sysOff % 2 == 1 {
      sysOff := sysOff + 1;
    }
    if sysOff < |rec| {
      var name := RockRidgeName(rec[sysOff..]);
      if name.Err? || name.value.Some? {
        return name;
      }
    }
    return Ok(Some(NormaliseName(raw)));
  }

  // ------------------------------------------------------------------ directories

  type Rec = r: seq<byte> | 33 <= |r| witness seq(33, i => 0)

  /** One named record of a directory, and the offset it starts at. */
  datatype Entry = Entry(off: nat, name: text, rec: Rec)

  /** How a walk over a directory ends. */
  datatype End = AtEnd | Bad(error: ReadError)

  function NextBlock(off: nat, blockSize: nat): (r: nat)
    requires blockSize > 0
    ensures r > off
  {
    Ahead(off, blockSize);
    (off / blockSize + 1) * blockSize
  }

  lemma Ahead(off: nat, blockSize: nat)
    requires blockSize > 0
    ensures (off / blockSize + 1) * blockSize > off
  {
    assert off == off / blockSize * blockSize + off % blockSize;
  }

  /** Every named record a scan passes from off on, n records in, and how the scan ends. */
  function Walk(dir: seq<byte>, blockSize: nat, off: nat, n: nat): (seq<Entry>, End)
    requires blockSize > 0
    decreases |dir| - off
  {
    if off >= |dir| || n >= MAX_RECORDS then ([], AtEnd)
    else
      var recLen := dir[off];
      if recLen == 0 then
        var next := NextBlock(off, blockSize);
        if next >= |dir| then ([], AtEnd) else Walk(dir, blockSize, next, n + 1)
      else if off + recLen > |dir| || recLen < 33 then ([], Bad(Truncated))
      else
        var rec := dir[off..off + recLen];
        match EntryName(rec)
        case Err(e) => ([], Bad(e))
        case Ok(None) => Walk(dir, blockSize, off + recLen, n + 1)
        case Ok(Some(name)) =>
          var rest := Walk(dir, blockSize, off + recLen, n + 1);
          ([Entry(off, name, rec)] + rest.0, rest.1)
  }

  /** What a record says, once its name has matched. */
  function Describe(rec: Rec): Result<Found, ReadError> {
    if rec[26] != 0 || rec[27] != 0 then Err(Interleaved)
    else if rec[1] != 0 then Err(ExtendedAttributes)
    else Ok(Found(FromLe32(rec[2..]), FromLe32(rec[10..]), rec[25]))
  }

  /** The first entry called want; without one, how the walk ended. */
  function Lookup(entries: seq<Entry>, end: End, want: text): Result<Found, ReadError> {
    if entries == [] then (match end case AtEnd => Err(NotExist) case Bad(e) => Err(e))
    else if entries[0].name == want then Describe(entries[0].rec)
    else Lookup(entries[1..], end, want)
  }

  /** The entries are whole records of the directory, from off on, each after the one before. */
  predicate Forward(dir: seq<byte>, off: nat, es: seq<Entry>) {
    && (forall i :: 0 <= i < |es| ==>
          && off <= es[i].off && es[i].off + |es[i].rec| <= |dir|
          && es[i].rec == dir[es[i].off..es[i].off + |es[i].rec|] && |es[i].rec| == es[i].rec[0]
          && EntryName(es[i].rec) == Ok(Some(es[i].name)))
    && (forall i, j :: 0 <= i < j < |es| ==> es[i].off + |es[i].rec| <= es[j].off)
  }

  lemma ForwardCons(dir: seq<byte>, off: nat, e: Entry, es: seq<Entry>)
    requires off <= e.off && e.off + |e.rec| <= |dir| && e.rec == dir[e.off..e.off + |e.rec|] && |e.rec| == e.rec[0]
    requires EntryName(e.rec) == Ok(Some(e.name)) && Forward(dir, e.off + |e.rec|, es)
    ensures Forward(dir, off, [e] + es)
  {
    hide EntryName;
    var all := [e] + es;
    forall i | 0 <= i < |all| ensures off <= all[i].off {
      if i > 0 { assert all[i] == es[i - 1]; }
    }
  }

  lemma ForwardNil(dir: seq<byte>, off: nat)
    ensures Forward(dir, off, [])
  {
  }

  lemma ForwardEarlier(dir: seq<byte>, off: nat, next: nat, es: seq<Entry>)
    requires off <= next && Forward(dir, next, es)
    ensures Forward(dir, off, es)
  {
    hide EntryName;
  }

  /** On any bytes whatever, with any block size. */
  lemma {:induction false} WalkForward(dir: seq<byte>, blockSize: nat, off: nat, n: nat)
    requires blockSize > 0
    ensures Forward(dir, off, Walk(dir, blockSize, off, n).0)
    decreases |dir| - off
  {
    hide EntryName, Forward, NextBlock;
    ForwardNil(dir, off);
    if off < |dir| && n < MAX_RECORDS {
      var recLen := dir[off];
      if recLen == 0 {
        var next := NextBlock(off, blockSize);
        if next < |dir| {
          WalkForward(dir, blockSize, next, n + 1);
          ForwardEarlier(dir, off, next, Walk(dir, blockSize, next, n + 1).0);
        }
      } else if off + recLen <= |dir| && recLen >= 33 {
        WalkForward(dir, blockSize, off + recLen, n + 1);
        ForwardEarlier(dir, off, off + recLen, Walk(dir, blockSize, off + recLen, n + 1).0);
        var rec := dir[off..off + recLen];
        var rest := Walk(dir, blockSize, off + recLen, n + 1).0;
        if EntryName(rec).Ok? && EntryName(rec).value.Some? {
          ForwardCons(dir, off, Entry(off, EntryName(rec).value.value, rec), rest);
        }
      }
    }
  }

  /** Where a block starts on the device. */
  function StartOf(r: Reader, lba: nat): nat {
    lba * r.blockSize
  }

  function FindIn(r: Reader, lba: nat, size: nat, want: text): Result<Found, ReadError>
    requires r.blockSize > 0
  {
    if size == 0 || size > MAX_RECORDS * r.blockSize then Err(Implausible)
    else
      match ReadAt(r.dev, StartOf(r, lba), size)
      case Err(e) => Err(e)
      case Ok(dir) =>
        var w := Walk(dir, r.blockSize, 0, 0);
        Lookup(w.0, w.1, want)
  }

  /** The scan that stops at the first match finds what a lookup in the whole listing does. */
  method Find(r: Reader, lba: nat, size: nat, want: text) returns (res: Result<Found, ReadError>)
    requires r.blockSize > 0
    ensures res == FindIn(r, lba, size, want)
  {
    if size == 0 || size > MAX_RECORDS * r.blockSize {
      return Err(Implausible);
    }
    var read := ReadAt(r.dev, StartOf(r, lba), size);
    if read.Err? {
      return Err(read.error);
    }
    res := Scan(read.value, r.blockSize, want);
  }

  /** What a scan that has reached off, n records in, is going to find. */
  ghost function Finds(dir: seq<byte>, blockSize: nat, off: nat, n: nat, want: text): Result<Found, ReadError>
    requires blockSize > 0
  {
    var w := Walk(dir, blockSize, off, n);
    Lookup(w.0, w.1, want)
  }

  lemma PassRecord(dir: seq<byte>, blockSize: nat, off: nat, n: nat, want: text)
    requires blockSize > 0 && off < |dir| && n < MAX_RECORDS && 33 <= dir[off] && off + dir[off] <= |dir|
    ensures var name := EntryName(dir[off..off + dir[off]]);
      Finds(dir, blockSize, off, n, want) ==
        if name.Err? then Err(name.error)
        else if name.value == Some(want) then Describe(dir[off..off + dir[off]])
        else Finds(dir, blockSize, off + dir[off], n + 1, want)
  {
    hide EntryName, Describe;
    var rec := dir[off..off + dir[off]];
    var rest := Walk(dir, blockSize, off + dir[off], n + 1);
    if EntryName(rec).Ok? && EntryName(rec).value.Some? {
      var e := Entry(off, EntryName(rec).value.value, rec);
      assert Walk(dir, blockSize, off, n) == ([e] + rest.0, rest.1);
      assert ([e] + rest.0)[1..] == rest.0;
    }
  }

  /** The loop of find, which stops at the first match. */
  method Scan(dir: seq<byte>, blockSize: nat, want: text) returns (res: Result<Found, ReadError>)
    requires blockSize > 0
    ensures res == Finds(dir, blockSize, 0, 0, want)
  {
    hide EntryName, Describe, NextBlock;
    var off, n := 0, 0;
    while off < |dir| && n < MAX_RECORDS
      invariant Finds(dir, blockSize, 0, 0, want) == Finds(dir, blockSize, off, n, want)
      decreases |dir| - off
    {
      var recLen := dir[off];
      if recLen == 0 {
        var next := NextBlock(off, blockSize);
        if next >= |dir| {
          break;
        }
        off, n := next, n + 1;
        continue;
      }
      if off + recLen > |dir| || recLen < 33 {
        return Err(Truncated);
      }
      PassRecord(dir, blockSize, off, n, want);
      var rec := dir[off..off + recLen];
      var name := ReadEntryName(rec);
      if name.Err? {
        return Err(name.error);
      }
      if name.value == Some(want) {
        return Describe(rec);
      }
      off, n := off + recLen, n + 1;
    }
    return Err(NotExist);
  }

  // ------------------------------------------------------------------ files

  const SLASH: byte := 47

  function TrimSlashes(s: text): text {
    if s != [] && s[0] == SLASH then TrimSlashes(s[1..])
    else if s != [] && s[|s| - 1] == SLASH then TrimSlashes(s[..|s| - 1])
    else s
  }

  function SplitSlash(s: text): (parts: seq<text>)
    ensures |parts| >= 1
    decreases |s|
  {
    var i := IndexOf(s, SLASH);
    if i == |s| then [s] else [s[..i]] + SplitSlash(s[i + 1..])
  }

  /** Following the parts of a path from a directory extent to the extent of a file. */
  function Resolve(r: Reader, lba: nat, size: nat, parts: seq<text>): Result<(nat, nat), ReadError>
    requires r.blockSize > 0
    decreases |parts|
  {
    if parts == [] then Ok((lba, size))
    else
      match FindIn(r, lba, size, parts[0])
      case Err(e) => Err(e)
      case Ok(f) =>
        if (|parts| == 1) == IsDirectory(f.flags) then Err(WrongKind)
        else Resolve(r, f.lba, f.size, parts[1..])
  }

  predicate IsDirectory(flags: byte) {
    flags / FLAG_DIRECTORY % 2 == 1
  }

  function FileBytes(r: Reader, lba: nat, size: nat): Result<seq<byte>, ReadError> {
    if size > MAX_FILE_SIZE then Err(TooBig)
    else if size == 0 then Ok([])
    else ReadAt(r.dev, StartOf(r, lba), size)
  }

  function Contents(r: Reader, name: text): Result<seq<byte>, ReadError>
    requires r.blockSize > 0
  {
    match Resolve(r, r.rootLba, r.rootSize, SplitSlash(TrimSlashes(name)))
    case Err(e) => Err(e)
    case Ok(extent) => FileBytes(r, extent.0, extent.1)
  }

  method ReadFile(r: Reader, name: text) returns (res: Result<seq<byte>, ReadError>)
    requires r.blockSize > 0
    ensures res == Contents(r, name)
  {
    var parts := SplitSlash(TrimSlashes(name));
    var lba: nat, size: nat := r.rootLba, r.rootSize;
    var i := 0;
    while i < |parts|
      invariant 0 <= i <= |parts|
      invariant Resolve(r, r.rootLba, r.rootSize, parts) == Resolve(r, lba, size, parts[i..])
    {
      var rec := Find(r, lba, size, parts[i]);
      if rec.Err? {
        return Err(rec.error);
      }
      var last := i == |parts| - 1;
      if last == IsDirectory(rec.value.flags) {
        return Err(WrongKind);
      }
      lba, size := rec.value.lba, rec.value.size;
      i := i + 1;
    }
    if size > MAX_FILE_SIZE {
      return Err(TooBig);
    }
    if size == 0 {
      return Ok([]);
    }
    res := ReadAt(r.dev, StartOf(r, lba), size);
  }

  predicate OneComponent(name: text) {
    SLASH !in name
  }

  lemma OnePart(name: text)
    requires OneComponent(name)
    ensures SplitSlash(TrimSlashes(name)) == [name]
  {
    assert TrimSlashes(name) == name;
  }

  lemma ResolvesOne(r: Reader, lba: nat, size: nat, want: text)
    requires r.blockSize > 0
    ensures Resolve(r, lba, size, [want]) ==
      match FindIn(r, lba, size, want)
      case Err(e) => Err(e)
      case Ok(f) => if IsDirectory(f.flags) then Err(WrongKind) else Ok((f.lba, f.size))
  {
    hide FindIn;
    if FindIn(r, lba, size, want).Ok? {
      var f := FindIn(r, lba, size, want).value;
      assert [want][1..] == [];
      assert Resolve(r, f.lba, f.size, []) == Ok((f.lba, f.size));
    }
  }
}
