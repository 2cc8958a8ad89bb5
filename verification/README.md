# k0smos in Dafny

k0smos is a Linux PID 1 with a host command line tool. This project models the parts of it whose
correctness rests on a protocol, a format or an algorithm, and proves properties of each over every
input or every run:

- **Ethernet hub** (`HubWire`, `NetHub`, `NetHubInvariant`, `NetHubWrites`, `NetHubRuns`, `NetHubDelivery`,
  `NetHubClose`): a step relation over arbitrary interleavings of guests and callers of Close, with an invariant that
  also holds while a port sits between the two writes of a frame.
- **ISO 9660** (`IsoLayout`, `IsoWriter`, `IsoReader`, `IsoRecords`, `IsoRoundTrip`, `IsoTheorems`, `IsoLongNames`,
  `IsoFields`, `IsoPacking`, `IsoDrive`, `IsoReading`, `IsoPaths`, `IsoProvenance`, `IsoAnyImage`): the writer's in-place
  buffers and the reader's loops against one byte-level layout, the round trip between them, what stands at which byte,
  and the reader on arbitrary bytes.
- **Kernel modules** (`ModuleSpec`, `ModuleOrder`, `ModuleDevices`, `ModuleDiscovery`, `ModuleLoader`): the depth-first
  loader and device discovery.
- **Reaping** (`Reaper`): the coalescing pipeline from SIGCHLD to wait4.
- **DHCP** (`DhcpPacket`, `DhcpLease`, `DhcpFields`, `DhcpProtocol`, `DhcpRuns`, `DhcpAnswered`, `DhcpClient`): the packet
  codec and its fields, the automaton of RFC 2131, what every run of it looks like, and the client as a class whose
  every action the automaton allows.
- **Finding and preparing disks** (`BlkidProbe`, `Blkid`, `BlkidFields`, `DriveByLabel`, `Datavol`, `DatavolSafety`): probing,
  selection, formatting, and what happens boot after boot.
- **Control port** (`ControlFrames`, `ControlSession`, `ControlLines`): reply framing and whole sessions.
- **Last lines of a log** (`LastLines`): the backwards block scan.

`Bytes` holds the byte strings and fixed-width integers they share. Methods that follow the source's loops and
mutable state are proved equal to specification functions (`ImageOf`, `Contents`, `LoadList`, `Discover`, `Options`,
`Parsed`, `Probed`, `Choice`, `After`, `Session`), and the main results are about those.

Where the code and its documentation disagree, the model follows the code:

- `Write` accepts names of up to 200 bytes (internal/iso9660/write.go:131), but a record's one-byte length holds only
  names of up to 107.
- `Prepare` promises never to format a device that has a filesystem (internal/datavol/datavol.go:57-60). A spec that is
  a path outside /dev is probed under /dev and formatted where it points, so the promise holds for the other specs only.
- `Renew` is documented to return only when the context is done or applying fails (internal/dhcp/client.go:160-161); it
  also returns when the lease is lost and discovery finds no other (`RenewCanLoseTheLease`).
- `seekToLastLines` leaves n lines only when the last line ends in a newline; otherwise it leaves n + 1.
- A control request is lower-cased as a whole (internal/control/control.go:270), so `cat` cannot reach a path with a
  capital letter.
- The name loop of the ISO reader assumes that an NM entry has at least five bytes (internal/iso9660/iso9660.go:247),
  and its guard lets four through (`ShortNmCrashesTheReader`).

## Model

| member | source | states |
|---|---|---|
| HubWire.DecodeWires | internal/nethub/nethub.go:115-134 | The wire format is uniquely decodable: whole frames written one after the other decode to themselves and leave whatever follows untouched |
| HubWire.PartOfAFrameIsTorn | internal/nethub/nethub.go:162-164 | A frame cut off anywhere, in its header or in its payload, adds no frame to the stream |
| NetHubInvariant.AcceptKeepsInv | internal/nethub/nethub.go:86-104 | Admission keeps the hub's invariant, also when Close wins the race between Accept and the lock |
| NetHubInvariant.CloseKeepsInv | internal/nethub/nethub.go:170-192 | Every step of any number of concurrent Close calls keeps the invariant |
| NetHubInvariant.OwnKeepsInv | internal/nethub/nethub.go:107-135 | Reading a header, an impossible length, a payload or an error keeps the invariant |
| NetHubInvariant.HubLockKeepsInv | internal/nethub/nethub.go:137-156 | Copying the port set, reporting a drop and leaving keep the invariant |
| NetHubWrites.WriteKeepsInv | internal/nethub/nethub.go:158-166 | Taking a port's lock, each of the two writes (whole, partial or failed) and the unlock keep the invariant, so it holds between the two writes too |
| NetHubRuns.RunKeepsInv | internal/nethub/nethub.go:86-192 | The invariant holds after every interleaving of any number of guests and callers of Close |
| NetHubRuns.PeerDecodes | internal/nethub/nethub.go:147-167 | In every interleaving the bytes written to a port decode to exactly the frames delivered to it, in order, plus at most the start of one more; while no write to it failed that start is the header written by whoever holds the port's lock |
| NetHubRuns.DeliveredInOrder | internal/nethub/nethub.go:106-167 | What q was given from p are frames p's guest sent, each once, in the order sent, never echoed; while no write to q has failed none that p has passed q with is missing |
| NetHubDelivery.FrameIsDelivered | internal/nethub/nethub.go:115-167 | Over any run in which q stays in the port set: from the step in which p reads a frame to the moment p is back at reading, q is given exactly that frame from p, while no write to q fails |
| NetHubDelivery.EveryFrameArrives | internal/nethub/nethub.go:147-167 | Over a whole run: a live port that is in the port set whenever p is has been given all of p's frames, and only those, whenever p is back at reading |
| NetHubDelivery.OpenHubAdmits | internal/nethub/nethub.go:86-104 | While the hub is open every connection accepted is put in the port set and served |
| NetHubDelivery.LegalFramesAreRead | internal/nethub/nethub.go:115-134 | A payload of 1 to 131072 bytes is read and flooded, and any other length drops the port |
| NetHubDelivery.NextPortCanBeServed | internal/nethub/nethub.go:158-166 | The next port of a flood, when nobody holds its lock, is served in four steps that put the length in four bytes and then the payload on its wire |
| NetHubRuns.LocksAreReleased | internal/nethub/nethub.go:93-113 | No goroutine holds the hub's lock and a port's together; whoever holds the hub's lock can release it in one step and whoever holds a port's lock can take its next step |
| NetHubRuns.ClosedStaysClosed | internal/nethub/nethub.go:94-99 | Once closed is set nobody is admitted: the port set only shrinks and stays inside the copy Close took |
| NetHubRuns.CutOffOrGone | internal/nethub/nethub.go:176-186 | When Close has stopped cutting connections, every connection ever admitted is closed or already removed |
| NetHubRuns.ClosedHubIsEmpty | internal/nethub/nethub.go:183-191 | When Close returns the acceptor and every goroutine that served a guest have ended, the port set is empty, every connection is closed and no port's lock is held |
| NetHubClose.EveryStepLeavesLess | internal/nethub/nethub.go:86-192 | Once Close has cut the last connection, every step of any goroutine but a new call of Close leaves strictly less to do |
| NetHubClose.CloseReturns | internal/nethub/nethub.go:183-191 | Close returns: from then on only a bounded number of steps can follow, in any order and whatever the guests do, and where none can the call has returned |
| NetHubRuns.SecondCloseChangesNothing | internal/nethub/nethub.go:170-175 | Any later Close only takes the hub's lock and gives it back |
| IsoLayout.SecondPassKeepsSize | internal/iso9660/write.go:91-106 | The root directory's length does not depend on the extents, so the second pass keeps its size |
| IsoWriter.SortSorts | internal/iso9660/write.go:78-81 | Sorting by name leaves the names in strict byte order |
| IsoWriter.ImageDoesNotDependOnOrder | internal/iso9660/write.go:71-119 | The same files in any order give the same image, or the same error |
| IsoWriter.PutBoth32 | internal/iso9660/write.go:318-328 | Writes a number in place in both byte orders and touches nothing else |
| IsoWriter.PutText | internal/iso9660/write.go:309-316 | Fills a field in place with spaces and the text over them, cut off where it does not fit |
| IsoWriter.DirRecord | internal/iso9660/write.go:183-203 | Assembles a directory record in a buffer, with the one-byte length truncated as the code does |
| IsoWriter.BuildRootDir | internal/iso9660/write.go:146-181 | Appends the records, padding to the next block before one that would cross it, and pads to whole sectors |
| IsoWriter.WritePvd | internal/iso9660/write.go:250-277 | Writes every field of the volume descriptor in place |
| IsoWriter.WriteTables | internal/iso9660/write.go:279-307 | Writes the terminator and both path tables in place |
| IsoWriter.CheckNames | internal/iso9660/write.go:83-87 | Reports the first name that cannot be represented, and why |
| IsoWriter.LayOut | internal/iso9660/write.go:93-99 | Gives each file its extent, one after the other, and the total |
| IsoWriter.WriteData | internal/iso9660/write.go:113-115 | Copies each file to its extent in place |
| IsoWriter.WriteSorted | internal/iso9660/write.go:89-118 | The two passes and the writes give the promised image, and the internal error cannot happen |
| IsoWriter.Write | internal/iso9660/write.go:71-119 | Write returns the promised image of the sorted files, or the first of its errors |
| IsoFields.WritesExactly | internal/iso9660/write.go:71-137 | Write accepts exactly 1 to 64 files with names of 1 to 200 bytes without slash or backslash; otherwise the error says which of these fails, for a name that is among those passed |
| IsoFields.ImageIs | internal/iso9660/write.go:250-307 | Byte for byte, what no file decides: the descriptor with the label, the image's own length in sectors in both byte orders and the root directory's record; the terminator; both path tables; the root's first two records with SP and ER |
| IsoFields.ByteOrders | internal/iso9660/write.go:330-339 | The two byte orders, byte by byte |
| IsoFields.RecordIs | internal/iso9660/write.go:183-203 | A record has extent and size in both byte orders, the fixed date, the flags, the identifier and, on an even offset, the system use area |
| IsoFields.FileRecordIs | internal/iso9660/write.go:168-168 | A file's record has no flags, the mangled identifier character by character, and an NM entry with the real name |
| IsoPacking.LessMeans | internal/iso9660/write.go:78-81 | The order of names is that of the first byte in which they differ, a proper prefix first |
| IsoPacking.RecordsArePacked | internal/iso9660/write.go:167-180 | Each record follows the one before it, or opens the next block where it would cross into it; the directory has no sector left over |
| IsoPacking.ExtentsArePacked | internal/iso9660/write.go:89-108 | Each file has the fewest sectors that hold it, one if it is empty, right after the one before; the first follows the root directory and the last ends the image |
| IsoRoundTrip.NoRecordCrossesABlock | internal/iso9660/write.go:167-174 | No directory record crosses a 2048-byte block (ECMA-119 section 6.8.1.1) and none overlaps the next |
| IsoRoundTrip.ExtentsDisjoint | internal/iso9660/write.go:93-99 | File extents start after the root directory, are pairwise disjoint and end inside the image |
| IsoRoundTrip.DataInPlace | internal/iso9660/write.go:113-115 | Each file's bytes stand at its own extent in the finished image |
| IsoTheorems.RootFits | internal/iso9660/iso9660.go:156-159 | The root directory of any accepted list of files is a size the reader finds plausible |
| IsoReader.RockRidgeName | internal/iso9660/iso9660.go:233-258 | The loop over the system use area gives the joined NM content, or fails where its slice bounds cross |
| IsoReader.ReadEntryName | internal/iso9660/iso9660.go:207-231 | The name of a directory record, or none for a directory itself and its parent |
| IsoReader.Scan | internal/iso9660/iso9660.go:165-204 | The scan that stops at the first match finds what a lookup in the whole listing of the directory finds |
| IsoReader.Find | internal/iso9660/iso9660.go:155-205 | A directory is read and scanned; implausible sizes and short devices are errors |
| IsoReader.ReadFile | internal/iso9660/iso9660.go:117-147 | Follows a path part by part; the wrong kind of entry, a file too big and a short device are errors |
| IsoReading.OpensExactly | internal/iso9660/iso9660.go:94-115 | A device opens exactly when a primary volume descriptor stands whole at sector 16; block size and root extent are those at its bytes 128, 158 and 166 |
| IsoReading.NameExactly | internal/iso9660/iso9660.go:207-231 | A record has no name exactly when its identifier is empty, cut off, or that of a directory itself or its parent; otherwise the Rock Ridge name, else the identifier without version and dot |
| IsoReading.DescribesExactly | internal/iso9660/iso9660.go:182-199 | A match is refused exactly when interleaved or preceded by an extended attribute record; otherwise extent, size and flags are those of the record |
| IsoReading.ReachedIsFound | internal/iso9660/iso9660.go:155-201 | With any block size, a record that reading in order reaches within 4096 steps, with none of its name before it, is found, whatever follows it |
| IsoReading.PassedIsAbsent | internal/iso9660/iso9660.go:165-204 | A name that no record carries on the way to the directory's end does not exist |
| IsoReading.CutRecordIsReported | internal/iso9660/iso9660.go:177-179 | A record shorter than 33 bytes or running past the end is reported when the search reaches it |
| IsoReading.LongSearchGivesUp | internal/iso9660/iso9660.go:165-204 | After 4096 records or blocks the search gives up |
| IsoPaths.PartsOf | internal/iso9660/iso9660.go:120-120 | Non-empty parts without slashes, joined by slashes and with any number of slashes around them, are what the path is split into |
| IsoPaths.FileHere | internal/iso9660/iso9660.go:117-147 | A path of one part gives the bytes of the root directory's file of that name, or the wrong kind, or what finding it came to |
| IsoPaths.PathGoesOn | internal/iso9660/iso9660.go:123-134 | A longer path goes on in the directory that its first part names, with the rest of the path |
| IsoPaths.FileInADirectory | internal/iso9660/iso9660.go:117-147 | If a is found as a directory and b in it as a file, then reading a/b gives that file's bytes |
| IsoPaths.PlainName | internal/iso9660/iso9660.go:260-267 | A name loses its version suffix and one dot at the end of what is before it |
| IsoReading.BytesExactly | internal/iso9660/iso9660.go:136-146 | A file's bytes are those at its block, unless there are more than 8388608 of them or the device ends before |
| IsoPaths.DirectoryBit | internal/iso9660/iso9660.go:50-51 | Bit 1 of the flags marks a directory |
| IsoRecords.FileRecordReadsBack | internal/iso9660/write.go:168-190 | A record for a name of at most 107 bytes reads back under its own length and its own name |
| IsoRecords.LongRecordIsNameless | internal/iso9660/write.go:190-201 | A record for a longer name is cut short by its length byte to something without a name |
| IsoTheorems.OpensWhatWasWritten | internal/iso9660/iso9660.go:94-115 | Open accepts every image of Write and finds its root directory |
| IsoTheorems.ListsWhatWasWritten | internal/iso9660/iso9660.go:155-205 | Listing the root directory gives exactly the files written, with offsets, names, extents and sizes, if and only if no name is longer than 107 bytes |
| IsoTheorems.ReadsBackWhatWasWritten | internal/iso9660/iso9660.go:117-147 | The round trip: every file reads back as written, empty ones included; one above 8 MiB reads back as too big |
| IsoTheorems.OtherNamesDoNotExist | internal/iso9660/iso9660.go:202-204 | Every other single-component name is reported absent, and nothing else |
| IsoLongNames.EveryFileIsListedInPlaceExactly | internal/iso9660/write.go:131-132 | For every name Write accepts: each file is listed at the record written for it, if and only if no name is longer than 107 bytes |
| IsoLongNames.OneFileReadsBackExactly | internal/iso9660/write.go:131-132 | For one file with any name Write accepts: it reads back if and only if its name has at most 107 bytes |
| IsoLongNames.RoundTripsExactlyWhenNamesFit | internal/iso9660/write.go:131-132 | An image round-trips if and only if no name is longer than 107 bytes, for any last name and names of up to 123 bytes before it |
| IsoLongNames.LastLongNameIsUnreadable | internal/iso9660/iso9660.go:165-205 | A last file with a name of 124 to 200 bytes cannot be read: nothing that the scan finds past its cut-off record passes for it |
| IsoLongNames.LongNameHidesTheRest | internal/iso9660/iso9660.go:177-179 | From the first name of 108 to 123 bytes on, no file of the image can be read |
| IsoLongNames.NameOf108Bytes | internal/iso9660/write.go:190-190 | A concrete image that Write produces and the reader cannot read |
| IsoDrive.DriveReadsBack | internal/iso9660/write.go:71-119 | End to end: files passed in any order, written, opened and read by name come back as they were, and other names are absent |
| IsoAnyImage.NameLoop | internal/iso9660/iso9660.go:237-253 | On any bytes the name loop joins the NM entries it reaches, and crashes exactly when one of them is four bytes long |
| IsoAnyImage.NameCrashesExactly | internal/iso9660/iso9660.go:207-231 | A record's name crashes the reader exactly when the record has a name of its own and its system use area leads the name loop to a four-byte NM entry |
| IsoAnyImage.ReaderIsTotal | internal/iso9660/iso9660.go:94-258 | On any device bytes and any path, opening and reading run to a result with every index in range, if and only if in no directory on the way such a record comes before the first one carrying the next part |
| IsoAnyImage.ShortNmCrashesTheReader | internal/iso9660/iso9660.go:237-247 | A concrete device that opens and on which reading any file crashes |
| IsoReader.WalkForward | internal/iso9660/iso9660.go:165-201 | With any claimed block size the directory offset only moves forward, over whole records inside the directory |
| IsoProvenance.FoundIsARecord | internal/iso9660/iso9660.go:182-199 | What a find returns is the extent of the first record in the directory that carries the name; it lies whole in the directory's extent and is neither interleaved nor preceded by an extended attribute record |
| IsoProvenance.ResolvedAlongATrail | internal/iso9660/iso9660.go:120-134 | A path resolves along one such record for each of its parts, each in the directory that the one before names, a directory exactly when another part follows |
| IsoProvenance.BytesComeFromTheirRecord | internal/iso9660/iso9660.go:117-147 | For every path, every byte returned comes from the extent of the last record of such a trail from the root directory |
| ModuleOrder.SubmitsExactlyTheReached | internal/module/module.go:244-295 | Loading a list of names submits exactly the modules reachable from them through aliases, soft and hard dependencies, each once, even when loads fail and on graphs with cycles |
| ModuleOrder.DependenciesFirstWithoutCycles | internal/module/module.go:253-262 | Every module is submitted after everything it leads to, if and only if nothing the names lead to is on a cycle |
| ModuleSpec.NeedsExactly | internal/module/module.go:255-262 | The loader asks for exactly the modules that modules.dep or modules.softdep name for it, under their own name or, where there is none, under an alias |
| ModuleOrder.SoftThenHardThenItself | internal/module/module.go:253-279 | A module not marked yet is marked; then its soft dependencies are loaded, then its hard ones, then it is handed to the kernel once |
| ModuleOrder.LoadsWhatTheNameStandsFor | internal/module/module.go:244-252 | Loading a name loads the module it stands for, and nothing where it stands for none or that one is marked |
| ModuleSpec.LoadContinues | internal/module/module.go:245-279 | One load marks and submits the same modules, each once, and counts each as a success or a recorded failure |
| ModuleDevices.ListAccounts | internal/module/module.go:232-242 | Successes plus recorded failures equal the number of marked modules, on any graph, and successes equal the modules the kernel took |
| ModuleDevices.MatchAllExactly | internal/module/module.go:410-425 | Matching gives each module that drives one of the devices, once, and no other |
| ModuleDevices.RoundsAreFew | internal/module/module.go:184-204 | Discovery takes at most 8 rounds and at most one more than there are modules left to take |
| ModuleDiscovery.DiscoveredInRounds | internal/module/module.go:182-204 | Discovery is up to 8 rounds, each loading once every driver of what was enumerated, even in part; it settles at the first round that loads nothing and gives up only when a failed enumeration found nothing; the count reported is the last round's |
| ModuleDiscovery.ListReports | internal/module/module.go:264-278 | Every module that could not be read, decompressed or initialised is reported as that, in the order submitted, and nothing else is |
| ModuleDiscovery.DiscoveryReports | internal/module/module.go:184-204 | And so does discovery, with at most one error of its own, at the end |
| ModuleDevices.SettledMeansDone | internal/module/module.go:184-204 | If the devices depend only on which modules are loaded, then when discovery settles a fresh enumeration finds none whose driver was not submitted |
| ModuleLoader.Resolver.Load | internal/module/module.go:244-279 | The recursive method over the mutable marks, counters and errors; the marks make it end on cycles |
| ModuleLoader.Resolver.MatchDevices | internal/module/module.go:410-425 | The nested matching loops |
| ModuleLoader.Resolver.LoadDevices | internal/module/module.go:184-204 | The bounded rounds of enumerating and loading, and which of three ways they ended |
| ModuleLoader.LoadNamed | internal/module/module.go:117-126 | Load: what it reports, with and without a module tree |
| ModuleLoader.LoadForDevices | internal/module/module.go:148-155 | What device discovery alone reports |
| ModuleLoader.LoadAll | internal/module/module.go:164-180 | What the two passes report on shared bookkeeping |
| ModuleLoader.CountsEachOnce | internal/module/module.go:157-180 | Loaded and Autoloaded count each module the kernel took exactly once, and nothing the named set leads to is counted as autoloaded |
| Reaper.RunConserves | internal/reaper/reaper.go:13-30 | Over any run every child that exited is a zombie or reaped, never both, and reaping is never undone |
| Reaper.NoWakeUpIsLost | cmd/k0smos/main.go:32-39 | Over every interleaving, an unreaped child means a pending signal, a full slot, pump holding one, or a drain under way |
| Reaper.IdleMeansReaped | internal/reaper/reaper.go:22-29 | When everything is idle no zombie remains |
| Reaper.FailureStrandsAChild | internal/reaper/reaper.go:16-19 | A run in which an error from Reap leaves a zombie behind with everything idle |
| Reaper.StuckMeansIdle | cmd/k0smos/main.go:32-39 | The machinery can take no step exactly when no wake-up is anywhere |
| Reaper.EveryChildIsReaped | cmd/k0smos/init_linux.go:861-867 | Once children stop exiting the machinery stops after a bounded number of steps in any order, and then every child that ever exited has been reaped |
| DhcpPacket.FindOption | internal/dhcp/dhcp.go:184-211 | The scan for one option agrees, on any bytes, with looking it up in the list of all options before the end marker or the first truncated one; all accesses are in range |
| DhcpPacket.DecodesWhatWasEncoded | internal/dhcp/dhcp.go:190-209 | Every option list, pads anywhere, decodes to itself whatever follows the end marker (RFC 2132 section 2) |
| DhcpPacket.WriteHeader | internal/dhcp/dhcp.go:96-103 | Writes the fixed fields in place (RFC 2131 section 2) |
| DhcpPacket.Build | internal/dhcp/dhcp.go:95-127 | Options appended, and zeros up to 300 bytes |
| DhcpPacket.BuildRenew | internal/dhcp/dhcp.go:87-93 | A request with the current address in ciaddr and nowhere else |
| DhcpPacket.RequestReadsBack | internal/dhcp/dhcp.go:95-127 | A server reads in a built packet exactly the message type, addresses, host name and parameter list, if and only if the host name has at most 255 bytes |
| DhcpLease.ReadLease | internal/dhcp/dhcp.go:154-180 | Fills in the lease option by option |
| DhcpLease.Parse | internal/dhcp/dhcp.go:129-182 | Rejects what is no reply to this client and this exchange, for the first reason that applies; otherwise the lease and the type |
| DhcpLease.ReplyReadsBack | internal/dhcp/dhcp.go:129-182 | A client reads in any reply to it the address offered and the lease its options grant, whatever their order, the pads and the bytes after the end |
| DhcpFields.FirstExactly | internal/dhcp/dhcp.go:184-211 | Looking an option up gives the value of the first with its code, and nothing exactly when there is none |
| DhcpFields.TruncatedOptionEndsTheList | internal/dhcp/dhcp.go:198-204 | An option cut off by the packet's end ends the list before it |
| DhcpFields.ReplyGrants | internal/dhcp/dhcp.go:149-182 | Field by field and by RFC 2132's code numbers: mask from 1, router from 3, name servers from 6, server from 54, times from 51, 58 and 59 in seconds, and what holds when one is absent or of the wrong length |
| DhcpFields.AcceptsExactly | internal/dhcp/dhcp.go:132-152 | A packet is taken for this client's reply exactly when it has 240 bytes, is a BOOTREPLY with the cookie, this id and this hardware address in their places, and a message type of one byte |
| DhcpFields.PacketIsFromClient | internal/dhcp/dhcp.go:87-103 | The fixed fields of every packet sent, by offset: the id at 4, the broadcast flag at 10, the address in use at 12, the hardware address at 28, the cookie at 236, zeros elsewhere |
| DhcpFields.DiscoverCarries | internal/dhcp/dhcp.go:75-78 | A discover asks with message type 1, for no address and no server |
| DhcpFields.RequestCarriesTheOffer | internal/dhcp/dhcp.go:80-85 | A request asks with message type 3 for the offered address from the offering server |
| DhcpFields.RenewalCarriesTheLease | internal/dhcp/dhcp.go:87-93 | A renewal has the leased address at byte 12 and asks for no address and no server |
| DhcpLease.DurationsFit | internal/dhcp/dhcp.go:169-180 | Every duration of a lease fits the 64 bits that hold it |
| DhcpLease.DefaultTimers | internal/dhcp/dhcp.go:172-174 | Without timers from the server T1 is half and T2 seven eighths of the lease, exactly |
| DhcpClient.OthersAreSkipped | internal/dhcp/client.go:142-158 | Any number of packets that are no reply to the exchange, then one that is: that one is the answer |
| DhcpClient.Client.Await | internal/dhcp/client.go:142-158 | Gives the first reply to the exchange among what is received, or fails at the first failed receive, and consumes no more than that |
| DhcpClient.Client.Once | internal/dhcp/client.go:110-140 | One discover and request exchange takes only steps the protocol allows and ends granted or failed |
| DhcpClient.Client.Acquire | internal/dhcp/client.go:88-108 | A lease is returned only right after the ACK that granted it; discovery fails after exactly the exchanges it is allowed, 6 by default, and is called off before the first or at a 2 second pause exactly when the context is done |
| DhcpClient.Client.RenewOnce | internal/dhcp/client.go:190-206 | A unicast to the issuing server, when it is known |
| DhcpClient.Client.Rebind | internal/dhcp/client.go:208-221 | A broadcast for the same lease |
| DhcpClient.Client.Renew | internal/dhcp/client.go:160-188 | Ends because the context is done while sleeping until T1 of the lease in force, because that lease could not be applied, or because it was lost and discovery then gave up |
| DhcpClient.RenewCanLoseTheLease | internal/dhcp/client.go:176-182 | A run of Renew that is over although the context was never done and nothing failed to apply |
| DhcpClient.EverythingItDidWasDue | internal/dhcp/client.go:88-221 | Whatever a client has done, by any of its methods against any network, it did when that was due |
| DhcpAnswered.OfferThenAckGrants | internal/dhcp/client.go:110-140 | A server that offers and then acknowledges is granted from: discover, offer, request of exactly what was offered, ACK, and the lease is what the ACK's options describe |
| DhcpAnswered.AckRenews | internal/dhcp/client.go:160-206 | An ACK of the unicast sent at T1 renews the lease, and the new one is then in force |
| DhcpAnswered.AckRebinds | internal/dhcp/client.go:160-221 | Where the unicast goes unanswered an ACK of the broadcast renews it |
| DhcpRuns.EveryEventIsDue | internal/dhcp/client.go:88-221 | RFC 2131 sections 4.4.1 and 4.4.5 over whole runs: every lease applied was parsed from an ACK with this client's address and the id in flight; unicast first thing after T1 of the applied lease, broadcast only with no server or after it failed, discovery only after the broadcast failed, and each REQUEST repeats the offer just received |
| DhcpRuns.GrantedByAck | internal/dhcp/client.go:128-139 | A lease handed out comes from the ACK just received |
| DhcpRuns.AtMostAttempts | internal/dhcp/client.go:92-106 | Wherever discovery starts in a run, it starts no more exchanges than it is allowed |
| BlkidProbe.BlankMeansNoSignature | internal/blkid/probe.go:45-120 | A device is blank exactly when it cannot be read or holds none of the four signatures in full |
| Blkid.Identify | internal/blkid/blkid.go:96-111 | The first prober that matches |
| Blkid.IdentifyTags | internal/blkid/blkid.go:150-164 | The second copy of that loop agrees with the first on every device |
| Blkid.Resolve | internal/blkid/blkid.go:41-78 | UUID= and LABEL= in any case give the first listed device that carries the tag; anything else is a path |
| Blkid.ResolvesToTheFirst | internal/blkid/blkid.go:62-77 | A tag resolves to the first device that carries it, and fails exactly when none does |
| Blkid.LabelSpec | internal/blkid/blkid.go:44-56 | Any text may follow LABEL=, equals signs included, and is compared as it stands |
| BlkidFields.AsksExactly | internal/blkid/blkid.go:44-56 | The word before the first equals sign decides: UUID or LABEL in any mixture of cases; any other makes the spec a path |
| BlkidFields.PathWithoutEquals | internal/blkid/blkid.go:44-47 | A spec without an equals sign is a path |
| BlkidFields.UuidText | internal/blkid/blkid.go:166-169 | The 36 characters of an identifier: dashes at 8, 13, 18 and 23, and each byte's two lower-case hex digits in their columns |
| BlkidFields.IdentifiedByItsFields | internal/blkid/probe.go:44-121 | A recognised device is identified by what stands at fixed offsets on it: ext4 before erofs before ISO 9660 before FAT; identifier, serial number and label from their own fields |
| BlkidFields.FoundByItsUuid | internal/blkid/blkid.go:68-76 | An ext4 device is found under exactly the spellings of the 16 bytes it keeps, letters in either case |
| BlkidFields.VirtualExactly | internal/blkid/blkid.go:113-128 | The pseudo-devices are those whose names start with loop, ram, zram, dm-, md, nbd, fd or sr |
| Blkid.Blank | internal/blkid/blkid.go:130-148 | The non-virtual devices on which no prober matches, in order |
| DriveByLabel.DriveIsProbed | internal/blkid/probe.go:45-75 | A written drive is passed over by the ext4 and erofs probers and recognised as ISO 9660, whatever files it holds |
| DriveByLabel.WrittenDriveIsFound | internal/blkid/blkid.go:62-77 | LABEL= finds a written drive exactly when the label has at most 32 bytes and does not end in a space or NUL, unless an earlier device has the label |
| Datavol.Volume.SelectDevice | internal/datavol/datavol.go:93-130 | The device a spec selects, none, or a refusal to guess |
| Datavol.Volume.Prepare | internal/datavol/datavol.go:61-91 | Exactly which device is formatted, with the type and the label asked for, and mounted, what the disks hold afterwards, and every error |
| DatavolSafety.NeverFormatsRecognisedExactly | internal/datavol/datavol.go:76-82 | On every device table nothing recognised is formatted, if and only if the spec is auto, a tag, or a path under /dev |
| DatavolSafety.UnsafeElsewhere | internal/datavol/datavol.go:77-78 | For any other spec, a table on which an ext4 device is formatted |
| DatavolSafety.RecognisedKeepsEveryByte | internal/datavol/datavol.go:57-82 | Over any number of calls with any device lists, any such specs and any mkfs, a recognised device keeps every byte |
| DatavolSafety.TagsMountWhatTheyFind | internal/datavol/datavol.go:95-106 | LABEL= and UUID= mount the first device that carries the tag, or nothing, and never format |
| DatavolSafety.ExplicitDevice | internal/datavol/datavol.go:99-101 | A path under /dev is mounted as it stands, and formatted exactly when nothing is recognised on it |
| DatavolSafety.AutoFormatsExactly | internal/datavol/datavol.go:109-129 | Auto formats a device exactly when it is the one non-virtual blank device listed and no device carries the label |
| DatavolSafety.AmbiguityIsRefused | internal/datavol/datavol.go:121-129 | Two or more blank devices leave every disk unchanged, and are an error unless the label is found |
| DatavolSafety.FormatOnce | internal/datavol/datavol.go:109-113 | After a boot that formatted d no later boot formats anything, whatever order devices are listed in |
| DatavolSafety.FormattedOnceThenReused | internal/datavol/datavol.go:61-130 | From the boot that formats, with a mkfs that writes the label it is given: no later boot formats anything, and all of them mount that volume if and only if the label has at most 16 bytes and no NUL |
| ControlFrames.ServeRequest | internal/control/control.go:200-214 | Appends exactly one reply frame to what was written |
| ControlFrames.Request | internal/control/control.go:216-250 | What the host sends, and the reply it makes of the bytes that come back |
| ControlFrames.AtoiDecimal | internal/control/control.go:212-241 | Printing a length in decimal and parsing it give it back, within 64 bits |
| ControlFrames.FrameReadsBack | internal/control/control.go:201-250 | Any payload arrives as sent, whatever bytes it holds and whatever follows, if and only if it is at most 8 MiB; an error arrives as one line |
| ControlFrames.MessageArrivesExactly | internal/control/control.go:207-233 | The host sees an error's own text exactly when it is one line that does not end in a carriage return |
| ControlSession.ReadOnce | internal/control/control.go:162-192 | The loop writes and delivers what the lines call for, and reports whether the port was alive |
| ControlSession.OneFrameEach | internal/control/control.go:169-192 | Each recognised line is answered by exactly one frame, in order, no other line by any, and each power command is handed on once |
| ControlSession.AckComesFirst | internal/control/control.go:180-187 | A power command is acknowledged right before it is handed on |
| ControlSession.SessionReadsBack | internal/control/control.go:162-250 | A host that reads a whole session gets exactly the answers to its recognised lines, in order |
| ControlSession.RequestSeenExactly | internal/control/control.go:268-274 | A request is answered for its own line exactly when that is trimmed and has no capital letter |
| ControlSession.CommandSeenExactly | internal/control/control.go:126-134 | A power command is recognised in any case with spaces around it, and nothing else is one |
| ControlSession.CapitalsAreLost | internal/control/control.go:270-274 | A file whose name has a capital letter cannot be asked for |
| ControlLines.AnsweredExactly | internal/control/control.go:98-109 | A line is answered exactly when, normalised, it is kubeconfig, token, status, cat or dmesg, alone or followed by a space and an argument |
| ControlLines.SeenThrough | internal/control/control.go:270-270 | White space around a line is dropped and its capitals are lowered, and nothing else changes |
| ControlLines.ScanFindsTheLines | internal/control/control.go:268-270 | Lines of less than 64 KiB sent with their newlines, and a last one without, are what the session sees, each without a final carriage return |
| ControlLines.TooLongEndsTheSession | internal/control/control.go:268-269 | A line of 64 KiB or more, and everything after it, goes unread |
| ControlLines.ForwardsExactly | internal/control/control.go:171-191 | The port counts as alive exactly when the first recognised line is a request, or PID 1 takes a command |
| ControlLines.FrameIs | internal/control/control.go:194-214 | A reply's own bytes: k0smos-ok, the length in decimal, a newline and the data; or k0smos-error and the message with its newlines turned into spaces |
| ControlLines.BlankLineIsEmpty | internal/control/control.go:270-270 | A line of white space alone is seen as the empty line |
| ControlLines.AckIs | internal/control/control.go:194-198 | A power command is acknowledged by the bytes of k0smos-ok, a space, 0 and a newline |
| ControlLines.ArrivesExactly | internal/control/control.go:239-254 | Exactly payloads of at most 8388608 bytes are taken |
| ControlSession.RequestIsAnswered | internal/control/control.go:164-250 | One request, end to end: the host reads what the responder said about the normalised line |
| LastLines.SeekToLastLines | cmd/k0smosctl/machine_logs.go:64-105 | The scan backwards in blocks of any size stops just after the newline that leaves exactly n to read, or at 0 when there are no more than n |
| LastLines.OnlyOneStart | cmd/k0smosctl/machine_logs.go:95-100 | There is exactly one such offset |
| LastLines.LeavesLinesAsWritten | cmd/k0smosctl/machine_logs.go:64-105 | Of a file of lines, with or without an unfinished one after them, exactly the last n and the unfinished one are left to read |
| LastLines.LeavesTheLastLines | cmd/k0smosctl/machine_logs.go:64-66 | What is left to read are the file's last n lines, or n + 1 when its last line has no newline yet |

## Left out

- NetHub: a state machine over values, one step per action between two points where another goroutine may run; Go's memory model, mutex fairness and socket back-pressure are not part of it. A write that fails has taken fewer bytes than it was given, and the connection keeps failing.
- RoundTripsExactlyWhenNamesFit: a name of 124 to 200 bytes before the last file is left to `EveryFileIsListedInPlaceExactly`. The scan then goes on inside the cut-off record, whose bytes the name chooses, and on through the records after it out of step, so whether some other run of bytes happens to pass for a file's record is a question about those bytes and not about name lengths.
- Write: names are bytes, and upper-casing of names is that of ASCII. `sort.Slice` is an insertion sort. Numbers beyond 32 bits are truncated as in the code, and the round trip asks that none is.
- SettledMeansDone: the devices enumerated are a function of the modules taken; `path.Match`, decompression and `init_module` are parameters, and the parsers of modules.dep, modules.softdep and modules.alias are not modelled.
- NoWakeUpIsLost: a failed Reap and a cancelled context are excluded; `StepKeepsWakeUp` and `FailureStrandsAChild` say what the first does.
- Client: the network, the clock and the context are parameters that may answer in any way; a receive delivers at most one packet, already cut to the 1500-byte buffer. Hardware addresses have at most 16 bytes.
- Resolve: upper-casing and case folding are those of ASCII, so the one non-ASCII letter that Go upper-cases into UUID is not recognised. ResolveWait, which retries, is left out.
- Prepare: the list of devices does not change during a call, a path is its own spelling (no symbolic links, no working directory), and what mkfs leaves on a device is a parameter.
- FormattedOnceThenReused: takes it that mkfs writes an ext4 superblock with the label it is given, cut off at, or padded with NULs to, 16 bytes, and that between boots every listed device stays recognised as what it was.
- ServeRequest: a node without a responder, whose reply quotes the request, is left out.
- ReadOnce: `bufio.Scanner` gives up on a line of 64 KiB or more; white space and case are those of ASCII. Cancellation is the point at which PID 1 stops taking commands.
- SeekToLastLines: the file is a byte string that nobody appends to while it is scanned; read and seek errors are left out.
- WatchReopen and Watch of internal/control: a retry loop and a simpler reader of the same lines.
- internal/sys, internal/config, internal/mount, internal/switchroot, internal/supervise, internal/shutdown, internal/status and the command line tools: system calls and plumbing, or functions whose properties can be read off them.
