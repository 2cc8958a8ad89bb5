/** Finding a device by what is on it (internal/blkid/blkid.go). */
module Blkid {
  import opened Bytes
  import opened BlkidProbe

  datatype ResolveError = NoList | NoMatch

  /** Identify: the first prober that matches, or nothing for a blank device. */
  method Identify(disks: Disks, dev: text) returns (r: Option<Info>)
    ensures r == Probed(disks, dev)
  {
    hide Parse;
    var i := 0;
    while i < |PROBERS|
      invariant 0 <= i <= |PROBERS|
      invariant Probed(disks, dev) == ProbedFrom(i, disks, dev)
    {
      var p := PROBERS[i];
      i := i + 1;
      var b := ReadAt(disks, dev, p.length, p.offset);
      if b.None? {
        continue;
      }
      var t := Parse(p.fsType, b.value);
      if t.Some? {
        return Some(Info(p.fsType, t.value.uuid, t.value.volume));
      }
    }
    return None;
  }

  /** identify, which Resolve uses, is written separately; it agrees with Identify on every device. */
  method IdentifyTags(disks: Disks, dev: text) returns (uuid: text, volume: text, ok: bool)
    ensures ok <==> Probed(disks, dev).Some?
    ensures ok ==> uuid == Probed(disks, dev).value.uuid && volume == Probed(disks, dev).value.volume
  {
    hide Parse;
    var i := 0;
    while i < |PROBERS|
      invariant 0 <= i <= |PROBERS|
      invariant Probed(disks, dev) == ProbedFrom(i, disks, dev)
    {
      var p := PROBERS[i];
      i := i + 1;
      var b := ReadAt(disks, dev, p.length, p.offset);
      if b.None? {
        continue;
      }
      var t := Parse(p.fsType, b.value);
      if t.Some? {
        return t.value.uuid, t.value.volume, true;
      }
    }
    return [], [], false;
  }

  // ------------------------------------------------------------------ specifications

  const EQUALS: byte := 61
  const UUID: text := [85, 85, 73, 68]
  const LABEL: text := [76, 65, 66, 69, 76]

  function Upper(c: byte): byte {
    if 97 <= c <= 122 then c - 32 else c
  }

  function ToUpper(s: text): (r: text)
    ensures |r| == |s|
  {
    seq(|s|, i requires 0 <= i < |s| => Upper(s[i]))
  }

  predicate EqualFold(a: text, b: text) {
    ToUpper(a) == ToUpper(b)
  }

  /** The text before and after the first equals sign. */
  function Cut(s: text): Option<(text, text)> {
    if s == [] then None
    else if s[0] == EQUALS then Some(([], s[1..]))
    else
      match Cut(s[1..])
      case None => None
      case Some(r) => Some(([s[0]] + r.0, r.1))
  }

  /** What a specification asks for. */
  datatype Wanted = Path | ByUuid(want: text) | ByLabel(want: text)

  function Asks(spec: text): Wanted {
    match Cut(spec)
    case None => Path
    case Some(r) =>
      if ToUpper(r.0) == UUID then ByUuid(r.1)
      else if ToUpper(r.0) == LABEL then ByLabel(r.1)
      else Path
  }

  predicate Matches(w: Wanted, i: Info) {
    match w
    case Path => false
    case ByUuid(want) => i.uuid == want || EqualFold(i.uuid, want)
    case ByLabel(want) => i.volume == want
  }

  predicate Carries(disks: Disks, dev: text, w: Wanted) {
    Probed(disks, dev).Some? && Matches(w, Probed(disks, dev).value)
  }

  function FirstCarrying(devs: seq<text>, disks: Disks, w: Wanted): Result<text, ResolveError> {
    if devs == [] then Err(NoMatch)
    else if Carries(disks, devs[0], w) then Ok(DEV + devs[0])
    else FirstCarrying(devs[1..], disks, w)
  }

  /** Resolve, with the list of devices, or None when it could not be had. */
  function Resolved(list: Option<seq<text>>, disks: Disks, spec: text): Result<text, ResolveError> {
    if Asks(spec) == Path then Ok(spec)
    else if list.None? then Err(NoList)
    else FirstCarrying(list.value, disks, Asks(spec))
  }

  method CutSpec(s: text) returns (kind: text, want: text, found: bool)
    ensures Cut(s) == if found then Some((kind, want)) else None
    ensures !found ==> EQUALS !in s
  {
    var i := 0;
    assert s[0..] == s && forall t: text :: s[..0] + t == t;
    while i < |s|
      invariant 0 <= i <= |s|
      invariant EQUALS !in s[..i]
      invariant Cut(s) == match Cut(s[i..]) { case None => None case Some(r) => Some((s[..i] + r.0, r.1)) }
    {
      assert s[i..][1..] == s[i + 1..];
      if s[i] == EQUALS {
        assert s[..i] + [] == s[..i];
        return s[..i], s[i + 1..], true;
      }
      assert forall t: text :: s[..i] + ([s[i]] + t) == s[..i + 1] + t;
      i := i + 1;
    }
    assert s[i..] == [];
    return s, [], false;
  }

  method Resolve(list: Option<seq<text>>, disks: Disks, spec: text) returns (r: Result<text, ResolveError>)
    ensures r == Resolved(list, disks, spec)
  {
    hide Probed, Cut, EqualFold;
    var kind, want, found := CutSpec(spec);
    if !found {
      return Ok(spec);
    }
    var byUuid := false;
    if ToUpper(kind) == UUID {
      byUuid := true;
    } else if ToUpper(kind) != LABEL {
      return Ok(spec); // an unrecognised prefix is a path
    }
    if list.None? {
      return Err(NoList);
    }
    var devs := list.value;
    var i := 0;
    while i < |devs|
      invariant 0 <= i <= |devs|
      invariant Resolved(list, disks, spec) == FirstCarrying(devs[i..], disks, Asks(spec))
    {
      var dev := devs[i];
      assert devs[i..][0] == dev && devs[i..][1..] == devs[i + 1..];
      i := i + 1;
      var uuid, volume, ok := IdentifyTags(disks, dev);
      if !ok {
        continue;
      }
      var got := volume;
      if byUuid {
        got := uuid;
      }
      if got == want || (byUuid && EqualFold(got, want)) {
        return Ok(DEV + dev);
      }
    }
    return Err(NoMatch);
  }

  /** A tag resolves to the first listed device that carries it, and to nothing only if none does. */
  lemma {:induction false} ResolvesToTheFirst(devs: seq<text>, disks: Disks, w: Wanted)
    ensures var r := FirstCarrying(devs, disks, w);
      && (r.Ok? ==> exists i :: 0 <= i < |devs| && Carries(disks, devs[i], w) && r.value == DEV + devs[i]
                      && forall j :: 0 <= j < i ==> !Carries(disks, devs[j], w))
      && (r.Err? <==> forall i :: 0 <= i < |devs| ==> !Carries(disks, devs[i], w))
  {
    hide Carries;
    if devs != [] && !Carries(disks, devs[0], w) {
      ResolvesToTheFirst(devs[1..], disks, w);
      var r := FirstCarrying(devs[1..], disks, w);
      if r.Ok? {
        var i :| 0 <= i < |devs[1..]| && Carries(disks, devs[1..][i], w) && r.value == DEV + devs[1..][i]
          && forall j :: 0 <= j < i ==> !Carries(disks, devs[1..][j], w);
        assert devs[i + 1] == devs[1..][i];
        forall j | 0 <= j < i + 1 ensures !Carries(disks, devs[j], w) {
          if j > 0 { assert devs[j] == devs[1..][j - 1]; }
        }
      } else {
        forall i | 0 <= i < |devs| ensures !Carries(disks, devs[i], w) {
          if i > 0 { assert devs[i] == devs[1..][i - 1]; }
        }
      }
    }
  }

  lemma {:induction false} CutAtFirst(kind: text, want: text)
    requires EQUALS !in kind
    ensures Cut(kind + [EQUALS] + want) == Some((kind, want))
  {
    var s := kind + [EQUALS] + want;
    if kind == [] {
      assert s[1..] == want;
    } else {
      assert s[1..] == kind[1..] + [EQUALS] + want;
      CutAtFirst(kind[1..], want);
      assert [kind[0]] + kind[1..] == kind;
    }
  }

  /** Any text may follow LABEL=, equals signs included, and it is compared as it stands. */
  lemma LabelSpec(volume: text)
    ensures Asks(LABEL + [EQUALS] + volume) == ByLabel(volume)
  {
    CutAtFirst(LABEL, volume);
    assert ToUpper(LABEL) == LABEL && |LABEL| != |UUID|;
  }

  // ------------------------------------------------------------------ blank devices

  /** Kernel pseudo-devices: loop, ram, zram, dm-, md, nbd, fd, sr. */
  const VIRTUAL: seq<text> := [
    [108, 111, 111, 112], [114, 97, 109], [122, 114, 97, 109], [100, 109, 45], [109, 100], [110, 98, 100], [102, 100], [115, 114]]

  predicate IsVirtual(dev: text) {
    exists i :: 0 <= i < |VIRTUAL| && VIRTUAL[i] <= dev
  }

  /** A device that may be formatted. */
  predicate Free(disks: Disks, dev: text) {
    !IsVirtual(dev) && Probed(disks, dev).None?
  }

  function FreeOf(devs: seq<text>, disks: Disks): seq<text> {
    if devs == [] then []
    else (if Free(disks, devs[0]) then [devs[0]] else []) + FreeOf(devs[1..], disks)
  }

  method Blank(list: Option<seq<text>>, disks: Disks) returns (r: Result<seq<text>, ResolveError>)
    ensures r == if list.None? then Err(NoList) else Ok(FreeOf(list.value, disks))
  {
    hide Probed, IsVirtual, FreeOf;
    if list.None? {
      return Err(NoList);
    }
    var devs := list.value;
    var out: seq<text> := [];
    var i := 0;
    while i < |devs|
      invariant 0 <= i <= |devs|
      invariant FreeOf(devs, disks) == out + FreeOf(devs[i..], disks)
    {
      var dev := devs[i];
      FreeStep(devs, disks, i, out);
      i := i + 1;
      var virtual := Virtual(dev);
      if virtual {
        continue;
      }
      var info := Identify(disks, dev);
      if info.None? {
        out := out + [dev];
      }
    }
    NoneFree([], disks);
    assert devs[i..] == [] && out + [] == out;
    return Ok(out);
  }

  lemma FreeStep(devs: seq<text>, disks: Disks, i: nat, out: seq<text>)
    requires i < |devs|
    ensures out + FreeOf(devs[i..], disks) ==
      (if Free(disks, devs[i]) then out + [devs[i]] else out) + FreeOf(devs[i + 1..], disks)
  {
    hide Free;
    assert devs[i..][0] == devs[i] && devs[i..][1..] == devs[i + 1..];
    var rest := FreeOf(devs[i + 1..], disks);
    assert out + ([] + rest) == out + rest && out + ([devs[i]] + rest) == (out + [devs[i]]) + rest;
  }

  method Virtual(dev: text) returns (r: bool)
    ensures r == IsVirtual(dev)
  {
    var i := 0;
    while i < |VIRTUAL|
      invariant 0 <= i <= |VIRTUAL|
      invariant forall j :: 0 <= j < i ==> !(VIRTUAL[j] <= dev)
    {
      if VIRTUAL[i] <= dev {
        return true;
      }
      i := i + 1;
    }
    return false;
  }

  /** The position i is the only one that holds a device free to format. */
  predicate OnlyFree(devs: seq<text>, disks: Disks, i: nat) {
    i < |devs| && forall j :: 0 <= j < |devs| ==> (Free(disks, devs[j]) <==> j == i)
  }

  lemma {:induction false} NoneFree(devs: seq<text>, disks: Disks)
    ensures FreeOf(devs, disks) == [] <==> forall j :: 0 <= j < |devs| ==> !Free(disks, devs[j])
  {
    hide Free;
    if devs != [] {
      NoneFree(devs[1..], disks);
      if FreeOf(devs, disks) == [] {
        forall j | 0 <= j < |devs| ensures !Free(disks, devs[j]) {
          if j > 0 { assert devs[j] == devs[1..][j - 1]; }
        }
      }
    }
  }

  /** One candidate means exactly one position in the list. */
  lemma {:induction false} OneFree(devs: seq<text>, disks: Disks, dev: text)
    ensures FreeOf(devs, disks) == [dev] <==> exists i: nat :: OnlyFree(devs, disks, i) && devs[i] == dev
  {
    hide Free;
    if devs != [] {
      var rest := devs[1..];
      OneFree(rest, disks, dev);
      NoneFree(rest, disks);
      if Free(disks, devs[0]) {
        if FreeOf(devs, disks) == [dev] {
          assert FreeOf(rest, disks) == [] by { assert |FreeOf(devs, disks)| == 1 + |FreeOf(rest, disks)|; }
          forall j | 0 <= j < |devs| ensures Free(disks, devs[j]) <==> j == 0 {
            if j > 0 { assert devs[j] == rest[j - 1]; }
          }
          assert FreeOf(devs, disks)[0] == devs[0];
          assert OnlyFree(devs, disks, 0) && devs[0] == dev;
        }
        if i: nat :| OnlyFree(devs, disks, i) && devs[i] == dev {
          assert i == 0;
          forall j | 0 <= j < |rest| ensures !Free(disks, rest[j]) { assert rest[j] == devs[j + 1]; }
          assert FreeOf(rest, disks) == [] && FreeOf(devs, disks) == [dev];
        }
      } else {
        assert FreeOf(devs, disks) == FreeOf(rest, disks);
        if i: nat :| OnlyFree(rest, disks, i) && rest[i] == dev {
          forall j | 0 <= j < |devs| ensures Free(disks, devs[j]) <==> j == i + 1 {
            if j > 0 { assert devs[j] == rest[j - 1]; }
          }
          assert OnlyFree(devs, disks, i + 1);
        }
        if i: nat :| OnlyFree(devs, disks, i) && devs[i] == dev {
          forall j | 0 <= j < |rest| ensures Free(disks, rest[j]) <==> j == i - 1 { assert rest[j] == devs[j + 1]; }
          assert OnlyFree(rest, disks, i - 1) && rest[i - 1] == dev;
        }
      }
    }
  }
}
