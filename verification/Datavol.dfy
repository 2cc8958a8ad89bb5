/** Preparing the data volume (internal/datavol/datavol.go). */
module Datavol {
  import opened Bytes
  import opened BlkidProbe
  import opened Blkid

  datatype Options = Options(spec: text, volume: text, fsType: text, mountPoint: text)

  datatype Report = Report(device: text, formatted: bool)

  const NOTHING: Report := Report([], false)

  datatype Failure = NoDevices | Ambiguous | MkfsFailed | MkdirFailed | MountFailed

  datatype Mkfs = Mkfs(path: text, fsType: text, volume: text)

  /** What mkfs did: whether it succeeded, and what the device reads as if it wrote to it. */
  datatype Made = Made(ok: bool, image: Option<seq<byte>>)

  datatype Mounting = Mounting(source: text, target: text, fsType: text)

  const AUTO: text := Raw("auto")

  function LabelSpecOf(o: Options): text {
    LABEL + [EQUALS] + o.volume
  }

  function AmongFree(free: seq<text>): Result<text, Failure> {
    if |free| == 0 then Ok([]) else if |free| == 1 then Ok(DEV + free[0]) else Err(Ambiguous)
  }

  /** The device a spec selects; the empty path when there is no candidate. */
  function Choice(list: Option<seq<text>>, disks: Disks, o: Options): Result<text, Failure> {
    if o.spec != AUTO then
      if DEV <= o.spec then Ok(o.spec)
      else if Resolved(list, disks, o.spec).Ok? then Ok(Resolved(list, disks, o.spec).value)
      else Ok([])
    else if Resolved(list, disks, LabelSpecOf(o)).Ok? then Ok(Resolved(list, disks, LabelSpecOf(o)).value)
    else if list.None? then Err(NoDevices)
    else AmongFree(FreeOf(list.value, disks))
  }

  function Name(path: text): text {
    if DEV <= path then path[|DEV|..] else path
  }

  /** The device that preparing these options mounts, if any. */
  function Chosen(list: Option<seq<text>>, disks: Disks, o: Options): Option<text> {
    if o.spec == [] then None
    else
      match Choice(list, disks, o)
      case Err(_) => None
      case Ok(path) => if path == [] then None else Some(path)
  }

  /** The device that preparing these options formats, if any. */
  function Formats(list: Option<seq<text>>, disks: Disks, o: Options): Option<text> {
    var path := Chosen(list, disks, o);
    if path.Some? && Probed(disks, Name(path.value)).None? then path else None
  }

  function Written(disks: Disks, path: text, made: Made): Disks {
    if made.image.Some? then disks[path := made.image.value] else disks
  }

  /** What the disks hold after preparing. */
  function After(list: Option<seq<text>>, disks: Disks, o: Options, makes: (Mkfs, Disks) -> Made): Disks {
    match Formats(list, disks, o)
    case None => disks
    case Some(path) => Written(disks, path, makes(Mkfs(path, o.fsType, o.volume), disks))
  }

  /** The machine's devices, and what mkfs, mkdir and mount do when called. */
  class Volume {
    const makes: (Mkfs, Disks) -> Made
    const mkdirs: text -> bool
    const mountable: Mounting -> bool
    var list: Option<seq<text>>
    var disks: Disks
    var formats: seq<Mkfs>
    var mounts: seq<Mounting>

    constructor (list: Option<seq<text>>, disks: Disks, makes: (Mkfs, Disks) -> Made, mkdirs: text -> bool, mountable: Mounting -> bool)
      ensures this.list == list && this.disks == disks && this.makes == makes && formats == [] && mounts == []
    {
      this.list, this.disks, this.makes, this.mkdirs, this.mountable := list, disks, makes, mkdirs, mountable;
      formats, mounts := [], [];
    }

    method Format(path: text, o: Options) returns (ok: bool)
      modifies this`disks, this`formats
      ensures var made := makes(Mkfs(path, o.fsType, o.volume), old(disks));
        ok == made.ok && disks == Written(old(disks), path, made) && formats == old(formats) + [Mkfs(path, o.fsType, o.volume)]
    {
      var call := Mkfs(path, o.fsType, o.volume);
      formats := formats + [call];
      var made := makes(call, disks);
      if made.image.Some? {
        disks := disks[path := made.image.value];
      }
      ok := made.ok;
    }

    method SelectDevice(o: Options) returns (r: Result<text, Failure>)
      ensures r == Choice(list, disks, o)
    {
      hide Resolved, FreeOf;
      if o.spec != AUTO {
        if DEV <= o.spec {
          return Ok(o.spec);
        }
        var d := Resolve(list, disks, o.spec);
        if d.Err? {
          return Ok([]);
        }
        return Ok(d.value);
      }
      var d := Resolve(list, disks, LabelSpecOf(o));
      if d.Ok? {
        return Ok(d.value);
      }
      var free := Blank(list, disks);
      if free.Err? {
        return Err(NoDevices);
      }
      if |free.value| == 0 {
        return Ok([]);
      } else if |free.value| == 1 {
        return Ok(DEV + free.value[0]);
      } else {
        return Err(Ambiguous);
      }
    }

    /** Find the data volume, format it if it is blank, and mount it. */
    method Prepare(o: Options) returns (report: Report, err: Option<Failure>)
      modifies this`disks, this`formats, this`mounts
      ensures disks == After(list, old(disks), o, makes)
      ensures formats == old(formats) +
        match Formats(list, old(disks), o) { case None => [] case Some(path) => [Mkfs(path, o.fsType, o.volume)] }
      ensures mounts == old(mounts) + if report.device != [] && err != Some(MkdirFailed) then [Mounting(report.device, o.mountPoint, o.fsType)] else []
      ensures var path := Chosen(list, old(disks), o);
        var target := Formats(list, old(disks), o);
        var failed := target.Some? && !makes(Mkfs(target.value, o.fsType, o.volume), old(disks)).ok;
        && report == (if path.None? || failed then NOTHING else Report(path.value, target.Some?))
        && err == (
             if path.None? then (if o.spec != [] && Choice(list, old(disks), o).Err? then Some(Choice(list, old(disks), o).error) else None)
             else if failed then Some(MkfsFailed)
             else if !mkdirs(o.mountPoint) then Some(MkdirFailed)
             else if !mountable(Mounting(path.value, o.mountPoint, o.fsType)) then Some(MountFailed)
             else None)
    {
      hide Choice, Probed;
      if o.spec == [] {
        return NOTHING, None;
      }
      var dev := SelectDevice(o);
      if dev.Err? {
        return NOTHING, Some(dev.error);
      }
      if dev.value == [] {
        return NOTHING, None;
      }
      report := Report(dev.value, false);
      var found := Identify(disks, Name(dev.value));
      if found.None? {
        var ok := Format(dev.value, o);
        if !ok {
          return NOTHING, Some(MkfsFailed);
        }
        report := Report(dev.value, true);
      }
      if !mkdirs(o.mountPoint) {
        return report, Some(MkdirFailed);
      }
      var m := Mounting(dev.value, o.mountPoint, o.fsType);
      mounts := mounts + [m];
      if !mountable(m) {
        return report, Some(MountFailed);
      }
      return report, None;
    }
  }
}
