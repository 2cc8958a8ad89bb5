/** Paths and names as a caller writes them, against what the reader makes of them. */
module IsoPaths {
  import opened Bytes
  import opened IsoLayout
  import opened IsoReader

  // ------------------------------------------------------------------ splitting

  /** Parts with a slash between every two. */
  function Join(parts: seq<text>): text {
    if parts == [] then []
    else if |parts| == 1 then parts[0]
    else parts[0] + [47] + Join(parts[1..])
  }

  /** A part of a path: not empty, and without a slash. */
  predicate IsPart(part: text) {
    part != [] && 47 !in part
  }

  predicate AreParts(parts: seq<text>) {
    parts != [] && forall i :: 0 <= i < |parts| ==> IsPart(parts[i])
  }

  function Slashes(n: nat): text {
    Fill(n, 47)
  }

  lemma {:induction false} FirstIndex(a: text, c: byte, b: text)
    requires c !in a
    ensures IndexOf(a + [c] + b, c) == |a| && IndexOf(a, c) == |a|
  {
    var s := a + [c] + b;
    if a != [] {
      assert s[0] == a[0] != c && s[1..] == a[1..] + [c] + b;
      FirstIndex(a[1..], c, b);
    }
  }

  /** Splitting undoes joining. */
  lemma {:induction false} SplitJoin(parts: seq<text>)
    requires parts != [] && forall i :: 0 <= i < |parts| ==> 47 !in parts[i]
    ensures SplitSlash(Join(parts)) == parts
    decreases |parts|
  {
    var s := Join(parts);
    if |parts| == 1 {
      FirstIndex(s, 47, []);
    } else {
      var rest := Join(parts[1..]);
      FirstIndex(parts[0], 47, rest);
      assert s[..|parts[0]|] == parts[0] && s[|parts[0]| + 1..] == rest;
      SplitJoin(parts[1..]);
      assert [parts[0]] + parts[1..] == parts;
    }
  }

  lemma {:induction false} JoinEnds(parts: seq<text>)
    requires AreParts(parts)
    ensures Join(parts) != [] && Join(parts)[0] != 47 && Join(parts)[|Join(parts)| - 1] != 47
    decreases |parts|
  {
    assert IsPart(parts[0]);
    if |parts| > 1 {
      JoinEnds(parts[1..]);
    }
  }

  lemma {:induction false} TrimTrailing(s: text, n: nat)
    requires s != [] && s[0] != 47 && s[|s| - 1] != 47
    ensures TrimSlashes(s + Slashes(n)) == s
    decreases n
  {
    var t := s + Slashes(n);
    if n == 0 {
      assert t == s;
    } else {
      assert t[|t| - 1] == 47 && t[..|t| - 1] == s + Slashes(n - 1);
      TrimTrailing(s, n - 1);
    }
  }

  /** Any slashes around a text are dropped, and nothing else. */
  lemma {:induction false} TrimAround(before: nat, s: text, after: nat)
    requires s != [] && s[0] != 47 && s[|s| - 1] != 47
    ensures TrimSlashes(Slashes(before) + s + Slashes(after)) == s
    decreases before
  {
    var t := Slashes(before) + s + Slashes(after);
    if before == 0 {
      assert t == s + Slashes(after);
      TrimTrailing(s, after);
    } else {
      assert t[0] == 47 && t[1..] == Slashes(before - 1) + s + Slashes(after);
      TrimAround(before - 1, s, after);
    }
  }

  lemma PartsOf(before: nat, parts: seq<text>, after: nat)
    requires AreParts(parts)
    ensures SplitSlash(TrimSlashes(Slashes(before) + Join(parts) + Slashes(after))) == parts
  {
    hide SplitSlash, TrimSlashes, Join;
    JoinEnds(parts);
    TrimAround(before, Join(parts), after);
    SplitJoin(parts);
  }

  // ------------------------------------------------------------------ following a path

  /** The same device, read from another directory. */
  function From(r: Reader, f: Found): Reader {
    r.(rootLba := f.lba, rootSize := f.size)
  }

  lemma {:induction false} ResolveElsewhere(r: Reader, r': Reader, lba: nat, size: nat, parts: seq<text>)
    requires r.blockSize > 0 && r'.dev == r.dev && r'.blockSize == r.blockSize
    ensures Resolve(r', lba, size, parts) == Resolve(r, lba, size, parts)
    decreases |parts|
  {
    hide Walk, Lookup, IsDirectory;
    if parts != [] {
      var f := FindIn(r, lba, size, parts[0]);
      assert FindIn(r', lba, size, parts[0]) == f;
      if f.Ok? {
        hide FindIn;
        ResolveElsewhere(r, r', f.value.lba, f.value.size, parts[1..]);
      }
    }
  }

  /** A single part names a file of the directory itself, whatever slashes are around it. */
  lemma FileHere(r: Reader, before: nat, part: text, after: nat)
    requires r.blockSize > 0 && IsPart(part)
    ensures Contents(r, Slashes(before) + part + Slashes(after)) ==
      match FindIn(r, r.rootLba, r.rootSize, part)
      case Err(e) => Err(e)
      case Ok(f) => if IsDirectory(f.flags) then Err(WrongKind) else FileBytes(r, f.lba, f.size)
  {
    hide FindIn, FileBytes, IsDirectory, SplitSlash, TrimSlashes, Resolve;
    assert Join([part]) == part;
    PartsOf(before, [part], after);
    ResolvesOne(r, r.rootLba, r.rootSize, part);
  }

  /**
   * A path goes one part at a time: its first part is looked for in the root directory and has to be a
   * directory, and the others are read from there.
   */
  lemma PathGoesOn(r: Reader, before: nat, part: text, rest: seq<text>, after: nat)
    requires r.blockSize > 0 && IsPart(part) && AreParts(rest)
    ensures Contents(r, Slashes(before) + part + [47] + Join(rest) + Slashes(after)) ==
      match FindIn(r, r.rootLba, r.rootSize, part)
      case Err(e) => Err(e)
      case Ok(f) => if !IsDirectory(f.flags) then Err(WrongKind) else Contents(From(r, f), Join(rest))
  {
    hide FindIn, FileBytes, IsDirectory, SplitSlash, TrimSlashes;
    var parts := [part] + rest;
    assert parts[1..] == rest;
    assert Join(parts) == part + [47] + Join(rest);
    assert AreParts(parts);
    hide Join, AreParts;
    assert Slashes(before) + part + [47] + Join(rest) + Slashes(after) == Slashes(before) + Join(parts) + Slashes(after);
    PartsOf(before, parts, after);
    PartsOf(0, rest, 0);
    assert Slashes(0) + Join(rest) + Slashes(0) == Join(rest);
    var found := FindIn(r, r.rootLba, r.rootSize, part);
    if found.Ok? {
      var f := found.value;
      ResolveElsewhere(r, From(r, f), f.lba, f.size, rest);
      assert forall lba, size :: FileBytes(From(r, f), lba, size) == FileBytes(r, lba, size) by { SameBytes(r, f); }
    }
  }

  lemma SameBytes(r: Reader, f: Found)
    ensures forall lba, size :: FileBytes(From(r, f), lba, size) == FileBytes(r, lba, size)
  {
  }

  /** A file in a directory of the root directory: "a/b" gives its bytes. */
  lemma FileInADirectory(r: Reader, a: text, b: text, dir: Found, file: Found)
    requires r.blockSize > 0 && IsPart(a) && IsPart(b)
    requires FindIn(r, r.rootLba, r.rootSize, a) == Ok(dir) && IsDirectory(dir.flags)
    requires FindIn(r, dir.lba, dir.size, b) == Ok(file) && !IsDirectory(file.flags)
    ensures Contents(r, a + [47] + b) == FileBytes(r, file.lba, file.size)
  {
    hide FileBytes, IsDirectory, Contents, FindIn;
    PathGoesOn(r, 0, a, [b], 0);
    assert Join([b]) == b;
    assert Slashes(0) + a + [47] + b + Slashes(0) == a + [47] + b;
    FileHere(From(r, dir), 0, b, 0);
    assert Slashes(0) + b + Slashes(0) == b;
    FindElsewhere(r, dir, b);
    SameBytes(r, dir);
  }

  lemma FindElsewhere(r: Reader, f: Found, want: text)
    requires r.blockSize > 0
    ensures FindIn(From(r, f), f.lba, f.size, want) == FindIn(r, f.lba, f.size, want)
  {
    hide Walk, Lookup;
  }

  /** Bit 1 of the flags marks a directory (ECMA-119 section 9.1.6). */
  lemma DirectoryBit(flags: byte)
    ensures IsDirectory(flags) <==> flags % 4 == 2 || flags % 4 == 3
  {
  }

  // ------------------------------------------------------------------ names without Rock Ridge

  /** The name of a plain record is its identifier up to the version, without one dot at its end. */
  lemma PlainName(base: text, version: text)
    requires 59 !in base
    ensures NormaliseName(base + [59] + version) == NormaliseName(base)
    ensures NormaliseName(base) == if base != [] && base[|base| - 1] == 46 then base[..|base| - 1] else base
  {
    FirstIndex(base, 59, version);
    assert (base + [59] + version)[..|base|] == base && base[..|base|] == base;
  }
}
